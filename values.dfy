/** Runtime values, each carrying its runtime type, as the encoder sees them through GetType(). */
module Values {
  import opened Wrappers
  import opened Numbers
  import opened TypeTags

  datatype Value =
    | VNull
    | VInt(i: int)
    | VEnum(enumName: string, ordinal: int)
    | VBool(b: bool)
    | VFloat(floatText: string)     // a float, kept as its invariant decimal text
    | VDouble(doubleText: string)   // a double, kept as its invariant decimal text
    | VString(s: string)
    | VLong(l: int)
    | VDateTime(seconds: string)    // seconds since 1970-01-01, as invariant decimal text
    | VArrayList(items: seq<Value>)
    | VArray(arrayElem: Ty, items: seq<Value>)     // an E[] of the given element type
    | VList(listElem: Ty, items: seq<Value>)       // a List<E>
    | VDict(keyTy: Ty, valueTy: Ty, entries: seq<Entry>)  // a Dictionary<K, V>, in enumeration order
    | VOther(typeName: string)      // an instance of a type the codec does not support

  datatype Entry = Entry(key: Value, value: Value)

  /** GetType() of a non-null value. */
  function RuntimeType(v: Value): Ty {
    match v
    case VNull => TObject
    case VInt(_) => TInt
    case VEnum(n, _) => TEnum(n)
    case VBool(_) => TBool
    case VFloat(_) => TFloat
    case VDouble(_) => TDouble
    case VString(_) => TString
    case VLong(_) => TLong
    case VDateTime(_) => TDateTime
    case VArrayList(_) => TArrayList
    case VArray(e, _) => TArrayOf(e)
    case VList(e, _) => TList(e)
    case VDict(k, w, _) => TDict(k, w)
    case VOther(n) => TOther(n)
  }

  /**
   * What a slot of the given declared type holds after a decoded value is stored in it:
   * an int stored into an enumeration slot (List<E>.Add, FieldInfo.SetValue, an indexer)
   * becomes that enumeration's value; everything else is stored as it is.
   */
  function Store(slot: Ty, v: Value): (r: Value)
    ensures slot.TEnum? && v.VInt? ==> Assignable(slot, r) && r.ordinal == v.i
    ensures !(slot.TEnum? && v.VInt?) ==> r == v
  {
    if slot.TEnum? && v.VInt? then VEnum(slot.enumName, v.i) else v
  }

  /** The types whose default is not null: a slot of one of them cannot hold null. */
  predicate IsValueType(t: Ty) {
    t.TInt? || t.TEnum? || t.TBool? || t.TFloat? || t.TDouble? || t.TLong? || t.TDateTime?
  }

  /**
   * A slot of the declared type can hold the value as it is: null in a reference-type
   * slot, anything in an object slot, any array in an Array slot, otherwise a value
   * whose runtime type is the slot's type.
   */
  predicate Assignable(slot: Ty, v: Value) {
    if v.VNull? then !IsValueType(slot)
    else slot == TObject || (slot == TArray && v.VArray?) || RuntimeType(v) == slot
  }

  /** default(T) of a value type: zero, false, or 0001-01-01 (-62135596800 seconds from 1970). */
  function DefaultOf(t: Ty): (r: Value)
    requires IsValueType(t)
    ensures !r.VNull? && RuntimeType(r) == t
  {
    match t
    case TInt => VInt(0)
    case TEnum(n) => VEnum(n, 0)
    case TBool => VBool(false)
    case TFloat => VFloat("0")
    case TDouble => VDouble("0")
    case TLong => VLong(0)
    case TDateTime => VDateTime("-62135596800")
  }

  /** The widening conversions Array.SetValue applies between primitives: int to long, float, double; long to float, double; float to double. */
  function Widen(elem: Ty, v: Value): (r: Option<Value>)
    ensures r.Some? ==> RuntimeType(r.value) == elem && RuntimeType(v) != elem
  {
    match (v, elem)
    case (VInt(i), TLong) => Some(VLong(i))
    case (VInt(i), TFloat) => Some(VFloat(IntToDecimal(i)))
    case (VInt(i), TDouble) => Some(VDouble(IntToDecimal(i)))
    case (VLong(l), TFloat) => Some(VFloat(IntToDecimal(l)))
    case (VLong(l), TDouble) => Some(VDouble(IntToDecimal(l)))
    case (VFloat(f), TDouble) => Some(VDouble(f))
    case _ => None
  }

  /** The .NET primitive types (Type.IsPrimitive) among those the codec carries. */
  predicate IsPrimitive(t: Ty) {
    t.TInt? || t.TBool? || t.TFloat? || t.TDouble? || t.TLong?
  }

  /**
   * array[index] = v through IList, i.e. Array.SetValue, on an array of the element
   * type: an int becomes the enumeration value of an enumeration array; null in a
   * value-type array leaves the element's default; a primitive is widened where
   * .NET widens it. Any other value the element type cannot hold fails: a primitive
   * into a primitive array is an ArgumentException, everything else an
   * InvalidCastException.
   */
  function SetElement(elem: Ty, v: Value): (r: Result<Value>)
    ensures Assignable(elem, Store(elem, v)) ==> r == Ok(Store(elem, v))
    ensures v.VNull? ==> r.Ok? && r.value == (if IsValueType(elem) then DefaultOf(elem) else VNull)
    ensures r.Ok? ==> Assignable(elem, r.value)
    ensures r.Err? ==> !v.VNull? && Widen(elem, v).None? && !Assignable(elem, Store(elem, v))
    ensures r.Err? ==> (r.error == WrongType <==> IsPrimitive(elem) && IsPrimitive(RuntimeType(v)))
    ensures r.Err? ==> (r.error == InvalidCast <==> !(IsPrimitive(elem) && IsPrimitive(RuntimeType(v))))
  {
    var w := Store(elem, v);
    if Assignable(elem, w) then Ok(w)
    else if w.VNull? then Ok(DefaultOf(elem))
    else match Widen(elem, w)
      case Some(x) => Ok(x)
      case None => if IsPrimitive(elem) && IsPrimitive(RuntimeType(w)) then Err(WrongType) else Err(InvalidCast)
  }

  /**
   * list.Add(v) on a List<E>, or the key or value half of dic[k] = v on a
   * Dictionary<K, V>, both through the non-generic interface, whose cast to E
   * unboxes an int as an enumeration value: null where E is a value type is an
   * ArgumentNullException, any other value E cannot hold an ArgumentException.
   * An ArrayList (E = object) takes everything.
   */
  function AddTo(slot: Ty, v: Value): (r: Result<Value>)
    ensures r.Ok? <==> Assignable(slot, Store(slot, v))
    ensures r.Ok? ==> r.value == Store(slot, v)
    ensures r.Err? ==> (r.error == NullValue <==> v.VNull?) && (r.error == NullValue || r.error == WrongType)
    ensures slot == TObject ==> r == Ok(v)
  {
    var w := Store(slot, v);
    if Assignable(slot, w) then Ok(w)
    else if w.VNull? then Err(NullValue)
    else Err(WrongType)
  }

  /** The keys of a map, in order. */
  function Keys(entries: seq<Entry>): (ks: seq<Value>)
    ensures |ks| == |entries| && forall i :: 0 <= i < |entries| ==> ks[i] == entries[i].key
  {
    if entries == [] then [] else [entries[0].key] + Keys(entries[1..])
  }

  /**
   * Keys a Dictionary compares by reference: ArrayList, arrays, List<T> and
   * Dictionary<K, V> do not override Equals, and every key the reader puts is an
   * instance it has just created, so it never equals a key already present.
   */
  predicate ByReference(k: Value) {
    k.VArrayList? || k.VArray? || k.VList? || k.VDict?
  }

  /**
   * Dictionary indexer assignment dic[k] = v: replaces the value of an existing key in
   * place, else appends; a key compared by reference is always new.
   */
  function Put(entries: seq<Entry>, k: Value, v: Value): (r: seq<Entry>)
    ensures !ByReference(k) && k in Keys(entries) ==> |r| == |entries| && Keys(r) == Keys(entries)
    ensures ByReference(k) || k !in Keys(entries) ==> r == entries + [Entry(k, v)]
    ensures Entry(k, v) in r
    ensures forall e :: e in entries && e.key != k ==> e in r
    ensures forall e :: e in r ==> e in entries || e == Entry(k, v)
  {
    if entries == [] then [Entry(k, v)]
    else if entries[0].key == k && !ByReference(k) then [Entry(k, v)] + entries[1..]
    else [entries[0]] + Put(entries[1..], k, v)
  }
}
