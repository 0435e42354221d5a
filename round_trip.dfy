/**
 * Decode inverts Encode: a value written under its declared type is read back as the
 * same value, for the values the format can carry. Inside an erased container
 * (ArrayList, Array) an item is read back under the type its tag and its first nested
 * element give, so the value must be one that this type describes.
 */
module RoundTrip {
  import opened Wrappers
  import opened Grammar
  import opened Numbers
  import opened TypeTags
  import opened Values
  import opened Splitter
  import opened TextShape
  import opened Encoder
  import opened EncoderShape
  import opened Decoder

  /** The element types a typed container can declare and be read back under. */
  predicate SlotType(e: Ty) {
    IsScalarType(e) || e == TArrayList || e == TArray || e.TList? || e.TArrayOf? || e.TDict?
  }

  /**
   * No two entries with the same key, as a Dictionary keeps them; keys compared by
   * reference (ArrayList, array, List, Dictionary) may repeat as values, being
   * different instances.
   */
  predicate DistinctKeys(es: seq<Entry>) {
    forall a, b :: 0 <= a < b < |es| ==> ByReference(es[b].key) || es[a].key != es[b].key
  }

  /**
   * The type FindArrayOrListItemType finds for the item text of y inside an erased list:
   * its tag's type, a List<T> with T found from the first element, or the Dictionary<K, V>
   * found from the only entry; None where the reader fails (an empty nested list, a
   * nested map without exactly one entry).
   */
  function Peek(y: Value): (r: Option<Ty>)
    ensures r.Some? ==> !r.value.TEnum? && r.value != TObject
    decreases y, 1
  {
    match y
    case VInt(_) => Some(TInt)
    case VEnum(_, _) => Some(TInt)
    case VBool(_) => Some(TBool)
    case VFloat(_) => Some(TFloat)
    case VDouble(_) => Some(TDouble)
    case VString(_) => Some(TString)
    case VLong(_) => Some(TLong)
    case VDateTime(_) => Some(TDateTime)
    case VArrayList(_) => Some(TArrayList)
    case VArray(_, _) => Some(TArray)
    case VList(_, zs) =>
      if zs == [] then None
      else (match Peek(zs[0]) case Some(t) => Some(TList(t)) case None => None)
    case VDict(_, _, es) =>
      if |es| != 1 then None
      else (match (PeekEntryItem(es[0].key), PeekEntryItem(es[0].value))
            case (Some(k), Some(w)) => Some(TDict(k, w))
            case _ => None)
    case _ => None
  }

  /**
   * The type FindDictionaryItemType finds for the key or value x of the only entry of a
   * map nested in an erased container. A nested list is looked into as well and fails
   * when empty; then, as lines 546-557 are written, an ArrayList is kept only when its
   * first item is an ArrayList (otherwise MakeGenericType throws), and a List whose
   * first item is an ArrayList is read as an ArrayList.
   */
  function PeekEntryItem(x: Value): (r: Option<Ty>)
    ensures r.Some? ==> !r.value.TEnum? && r.value != TObject
    ensures r.Some? && x.VArrayList? ==> x.items != [] && Peek(x.items[0]) == Some(TArrayList)
    ensures r.Some? && x.VList? ==> x.items != [] && (Peek(x.items[0]) == Some(TArrayList) ==> r.value == TArrayList)
    decreases x, 2
  {
    match x
    case VArrayList(zs) => if zs != [] && Peek(zs[0]) == Some(TArrayList) then Some(TArrayList) else None
    case VArray(_, zs) => if zs != [] && Peek(zs[0]).Some? then Some(TArray) else None
    case VList(_, zs) => if zs != [] && Peek(zs[0]) == Some(TArrayList) then Some(TArrayList) else Peek(x)
    case _ => Peek(x)
  }

  /**
   * The values a slot of declared type ty holds and gets back: scalars of that type (an
   * int within 32 bits, a long within 64, quoted texts without quote characters); typed
   * containers of slot types whose items are typed in turn, maps with distinct keys,
   * typed arrays non-empty (their element type is read off the first item) and not of
   * enumerations or typed arrays (the item tags say int and Array); and, under the
   * erased Array type, a non-empty array whose items are read back as they are, whose
   * element type is what its first item reads as and can hold every item.
   */
  predicate Typed(ty: Ty, v: Value)
    decreases v, 0
  {
    match v
    case VInt(i) => ty == TInt && IsInt32(i)
    case VEnum(n, o) => ty == TEnum(n) && IsInt32(o)
    case VBool(_) => ty == TBool
    case VFloat(t) => ty == TFloat && NoQuotes(t)
    case VDouble(t) => ty == TDouble && NoQuotes(t)
    case VString(s) => ty == TString && NoQuotes(s)
    case VLong(l) => ty == TLong && IsInt64(l)
    case VDateTime(t) => ty == TDateTime && Atom(t)
    case VArrayList(zs) => ty == TArrayList && forall i :: 0 <= i < |zs| ==> ErasedItem(zs[i])
    case VArray(e, zs) =>
      zs != [] &&
      if ty == TArray then
        Peek(zs[0]) == Some(e) && forall i :: 0 <= i < |zs| ==> ErasedItem(zs[i]) && Assignable(e, zs[i])
      else ty == TArrayOf(e) && SlotType(e) && !e.TEnum? && !e.TArrayOf? && forall i :: 0 <= i < |zs| ==> Typed(e, zs[i])
    case VList(e, zs) => ty == TList(e) && SlotType(e) && forall i :: 0 <= i < |zs| ==> Typed(e, zs[i])
    case VDict(k, w, es) =>
      ty == TDict(k, w) && SlotType(k) && SlotType(w) && DistinctKeys(es)
      && forall i :: 0 <= i < |es| ==> Typed(k, es[i].key) && Typed(w, es[i].value)
    case _ => false
  }

  /** An item of an erased container that is read back as itself: typed by the type Peek finds. */
  predicate ErasedItem(y: Value)
    decreases y, 1
  {
    match Peek(y)
    case Some(t) => Typed(t, y)
    case None => false
  }

  /** The slot of a declared type can hold every value typed by it. */
  lemma TypedAssignable(ty: Ty, v: Value)
    requires Typed(ty, v)
    ensures Assignable(ty, v)
  {
  }

  /** A typed value is written in full, and the same under its declared as under its runtime type. */
  lemma {:induction false} TypedEncodable(ty: Ty, v: Value)
    requires Typed(ty, v)
    ensures Encodable(v)
    ensures Encode(ty, v) == Encode(RuntimeType(v), v)
    decreases v, 0
  {
    match v
    case VArrayList(zs) =>
      forall i | 0 <= i < |zs|
        ensures Encodable(zs[i])
      {
        ErasedEncodable(zs[i]);
      }
    case VArray(e, zs) =>
      forall i | 0 <= i < |zs|
        ensures Encodable(zs[i])
      {
        if ty == TArray {
          ErasedEncodable(zs[i]);
        } else {
          TypedEncodable(e, zs[i]);
        }
      }
    case VList(e, zs) =>
      forall i | 0 <= i < |zs|
        ensures Encodable(zs[i])
      {
        TypedEncodable(e, zs[i]);
      }
    case VDict(k, w, es) =>
      forall i | 0 <= i < |es|
        ensures Encodable(es[i].key) && Encodable(es[i].value)
      {
        TypedEncodable(k, es[i].key);
        TypedEncodable(w, es[i].value);
      }
    case _ =>
  }

  lemma {:induction false} ErasedEncodable(y: Value)
    requires ErasedItem(y)
    ensures Encodable(y)
    decreases y, 1
  {
    TypedEncodable(Peek(y).value, y);
  }

  /** Substring(1, Length - 2) of a bracketed text is the text between the brackets. */
  lemma Unwrap(open: char, x: string, close: char)
    ensures StripMarkers([open] + x + [close]) == Ok(x)
  {
    var t := [open] + x + [close];
    assert t[1..|t| - 1] == x;
  }

  /** The text of an encodable collection, opened up as the reader opens it. */
  lemma CollectionParts(y: Value)
    requires IsCollection(y) && Encodable(y)
    ensures Encode(RuntimeType(y), y) == EncodeCollection(y) && EncodeCollection(y).Ok?
    ensures EncodeItems(y.items).Ok?
    ensures var texts := EncodeItems(y.items).value;
      StripMarkers(EncodeCollection(y).value) == Ok(Join(texts, CollectionItemSeparator))
      && Split(Join(texts, CollectionItemSeparator), CollectionItemSeparator) == Ok(texts)
      && |texts| == |y.items|
      && forall i :: 0 <= i < |texts| ==> EncodeItem(y.items[i]).Ok? && texts[i] == EncodeItem(y.items[i]).value
  {
    ItemsShape(y.items);
    var texts := EncodeItems(y.items).value;
    Unwrap(ListStartChar, Join(texts, CollectionItemSeparator), ListEndChar);
    SplitJoined(texts);
  }

  /** The text of an encodable map, opened up as the reader opens it. */
  lemma MapParts(y: Value)
    requires y.VDict? && Encodable(y)
    ensures Encode(RuntimeType(y), y) == EncodeMap(y) && EncodeMap(y).Ok?
    ensures EncodeEntries(y.entries).Ok?
    ensures var texts := EncodeEntries(y.entries).value;
      StripMarkers(EncodeMap(y).value) == Ok(Join(texts, CollectionItemSeparator))
      && Split(Join(texts, CollectionItemSeparator), CollectionItemSeparator) == Ok(texts)
      && |texts| == |y.entries|
      && forall i :: 0 <= i < |texts| ==> EncodeEntry(y.entries[i]).Ok? && texts[i] == EncodeEntry(y.entries[i]).value
  {
    EntriesShape(y.entries);
    var texts := EncodeEntries(y.entries).value;
    Unwrap(DictStartChar, Join(texts, CollectionItemSeparator), DictEndChar);
    SplitJoined(texts);
  }

  /** FindArrayOrListItemType under an erased list type finds what Peek says. */
  lemma {:induction false} PeekSound(ty: Ty, y: Value)
    requires IsErasedList(ty) && Encodable(y) && Peek(y).Some?
    ensures EncodeItem(y).Ok? && FindArrayOrListItemType(ty, EncodeItem(y).value) == Ok(Peek(y).value)
    decreases y, 2
  {
    if y.VList? || y.VDict? {
      NestedItemSound(ty, y);
    } else {
      FlatItemSound(ty, y);
    }
  }

  /** PeekSound for an item that is neither a nested list nor a map: its tag is its type. */
  lemma FlatItemSound(ty: Ty, y: Value)
    requires IsErasedList(ty) && Encodable(y) && Peek(y).Some? && !y.VList? && !y.VDict?
    ensures EncodeItem(y).Ok? && FindArrayOrListItemType(ty, EncodeItem(y).value) == Ok(Peek(y).value)
  {
    ItemShape(y);
    FlatTag(y);
  }

  /** A scalar, ArrayList or array item's tag is the type Peek finds, which is neither List<> nor Dictionary<,>. */
  lemma FlatTag(y: Value)
    requires Encodable(y) && Peek(y).Some? && !y.VList? && !y.VDict?
    ensures TypeOf(ItemCode(y)) == Peek(y).value && Peek(y).value != TListDef && Peek(y).value != TDictDef
  {
    TagOf(y);
  }

  /** PeekSound for a nested list or map item. */
  lemma {:induction false} NestedItemSound(ty: Ty, y: Value)
    requires IsErasedList(ty) && Encodable(y) && Peek(y).Some? && (y.VList? || y.VDict?)
    ensures EncodeItem(y).Ok? && FindArrayOrListItemType(ty, EncodeItem(y).value) == Ok(Peek(y).value)
    decreases y, 1
  {
    ItemShape(y);
    TagOf(y);
    if y.VList? {
      ListPeekSound(y);
    } else {
      MapPeekSound(y);
    }
  }

  /** The nested list case of PeekSound: the item type is what the first element of the list resolves to. */
  lemma {:induction false} ListPeekSound(y: Value)
    requires y.VList? && Encodable(y) && Peek(y).Some?
    ensures Encode(RuntimeType(y), y).Ok? && StripMarkers(Encode(RuntimeType(y), y).value).Ok?
    ensures var parts := Split(StripMarkers(Encode(RuntimeType(y), y).value).value, CollectionItemSeparator);
      parts.Ok? && parts.value != [] && FindArrayOrListItemType(TListDef, parts.value[0]) == Ok(Peek(y.items[0]).value)
    decreases y, 0
  {
    CollectionParts(y);
    PeekSound(TListDef, y.items[0]);
  }

  /** FindDictionaryType on the text between the braces of a one-entry map finds what Peek says. */
  lemma {:induction false} MapPeekSound(y: Value)
    requires y.VDict? && Encodable(y) && Peek(y).Some?
    ensures Encode(RuntimeType(y), y).Ok? && StripMarkers(Encode(RuntimeType(y), y).value).Ok?
    ensures FindDictionaryType(TDictDef, StripMarkers(Encode(RuntimeType(y), y).value).value) == Ok(Peek(y).value)
    decreases y, 0
  {
    MapParts(y);
    var e := y.entries[0];
    var texts := EncodeEntries(y.entries).value;
    assert Join(texts, CollectionItemSeparator) == texts[0];
    EntryShape(e);
    EntryItemSound(e.key, true);
    EntryItemSound(e.value, false);
    TwoPartType(texts[0], EncodeItem(e.key).value, EncodeItem(e.value).value, PeekEntryItem(e.key).value, PeekEntryItem(e.value).value);
  }

  /** FindDictionaryType on k::w is the map type of what k and w resolve to. */
  lemma TwoPartType(kv: string, kt: string, wt: string, k: Ty, w: Ty)
    requires Split(kv, DictionaryKVSeparator) == Ok([kt, wt])
    requires FindDictionaryItemType(TDictDef, kt, true) == Ok(k) && FindDictionaryItemType(TDictDef, wt, false) == Ok(w)
    ensures FindDictionaryType(TDictDef, kv) == Ok(TDict(k, w))
  {
    assert Part([kt, wt], 0) == Ok(kt) && Part([kt, wt], 1) == Ok(wt);
  }

  /** The key or value item of an entry of an erased map resolves to what PeekEntryItem says. */
  lemma {:induction false} EntryItemSound(x: Value, isKey: bool)
    requires Encodable(x) && PeekEntryItem(x).Some?
    ensures EncodeItem(x).Ok? && FindDictionaryItemType(TDictDef, EncodeItem(x).value, isKey) == Ok(PeekEntryItem(x).value)
    decreases x, 4
  {
    ItemShape(x);
    PeekEntrySound(x);
  }

  /** FindDictionaryItemType under Dictionary<,> finds what PeekEntryItem says. */
  lemma {:induction false} PeekEntrySound(x: Value)
    requires Encodable(x) && PeekEntryItem(x).Some?
    ensures Encode(RuntimeType(x), x).Ok?
    ensures FindErasedEntryItemType(TypeOf(ItemCode(x)), Encode(RuntimeType(x), x).value) == Ok(PeekEntryItem(x).value)
    decreases x, 3
  {
    EncodeShape(x);
    TagOf(x);
    if IsCollection(x) {
      CollectionEntrySound(x);
    } else if x.VDict? {
      MapPeekSound(x);
    }
  }

  /** The collection case of PeekEntrySound: the nested list type, from its first item. */
  lemma {:induction false} CollectionEntrySound(x: Value)
    requires IsCollection(x) && Encodable(x) && PeekEntryItem(x).Some?
    ensures Encode(RuntimeType(x), x).Ok?
    ensures FindErasedEntryItemType(TypeOf(ItemCode(x)), Encode(RuntimeType(x), x).value) == Ok(PeekEntryItem(x).value)
    decreases x, 2
  {
    TagOf(x);
    CollectionParts(x);
    var t := TypeOf(ItemCode(x));
    assert IsErasedList(t);
    PeekSound(t, x.items[0]);
    var first := Peek(x.items[0]).value;
    assert NestedListTypeAsWritten(t, first) == Ok(PeekEntryItem(x).value);
  }

  /** The fold over the items ends with what it has gathered. */
  lemma ItemsBase(ty: Ty, slot: Ty, parts: seq<string>, bound: nat, i: nat, acc: seq<Value>, zs: seq<Value>)
    requires IsList(ty) && Shorter(parts, bound) && i == |parts| == |zs|
    ensures DecodeItems(ty, slot, parts, bound, i, acc) == Ok(acc + zs[i..])
  {
    assert acc + zs[i..] == acc;
  }

  /** One step of the fold over the items: part i read and stored after acc. */
  lemma ItemsStep(ty: Ty, slot: Ty, parts: seq<string>, bound: nat, i: nat, acc: seq<Value>, z: Value)
    requires IsList(ty) && Shorter(parts, bound) && i < |parts|
    requires DecodeItem(ty, parts[i]).Ok? && StoreItem(ty, slot, DecodeItem(ty, parts[i]).value) == Ok(z)
    ensures DecodeItems(ty, slot, parts, bound, i, acc) == DecodeItems(ty, slot, parts, bound, i + 1, acc + [z])
  {
  }

  /** Moving the next element of zs onto the end of acc keeps acc + zs[i..]. */
  lemma AppendNext<T>(acc: seq<T>, zs: seq<T>, i: nat)
    requires i < |zs|
    ensures (acc + [zs[i]]) + zs[i + 1..] == acc + zs[i..]
  {
    assert zs[i..] == [zs[i]] + zs[i + 1..];
  }

  /** The items of a collection from part i on, when each part is read back as the matching value. */
  lemma {:induction false} ItemsFold(ty: Ty, slot: Ty, parts: seq<string>, bound: nat, i: nat, acc: seq<Value>, zs: seq<Value>)
    requires IsList(ty) && Shorter(parts, bound) && i <= |parts| == |zs|
    requires forall j :: i <= j < |parts| ==>
      DecodeItem(ty, parts[j]).Ok? && StoreItem(ty, slot, DecodeItem(ty, parts[j]).value) == Ok(zs[j])
    ensures DecodeItems(ty, slot, parts, bound, i, acc) == Ok(acc + zs[i..])
    decreases |parts| - i
  {
    if i == |parts| {
      ItemsBase(ty, slot, parts, bound, i, acc, zs);
    } else {
      var acc' := acc + [zs[i]];
      AppendNext(acc, zs, i);
      ItemsStep(ty, slot, parts, bound, i, acc, zs[i]);
      ItemsFold(ty, slot, parts, bound, i + 1, acc', zs);
    }
  }

  /**
   * The entry d read for a map of type ty is stored as e: neither half is null, and
   * the map's key and value types take them as e's key and value.
   */
  predicate EntryStores(ty: Ty, d: Entry, e: Entry)
    requires ty.TDict?
  {
    !d.key.VNull? && !d.value.VNull? && AddTo(ty.key, d.key) == Ok(e.key) && AddTo(ty.value, d.value) == Ok(e.value)
  }

  /**
   * With distinct keys, entry i's key is compared by reference or is not among the keys
   * before it, so putting entry i appends it.
   */
  lemma NextKeyNew(es: seq<Entry>, i: nat)
    requires i < |es| && DistinctKeys(es)
    ensures Put(es[..i], es[i].key, es[i].value) == es[..i + 1]
  {
    var before := es[..i];
    if !ByReference(es[i].key) {
      forall j | 0 <= j < i
        ensures Keys(before)[j] != es[i].key
      {
        assert before[j] == es[j];
      }
      assert es[i].key !in Keys(before);
    }
    assert es[..i + 1] == before + [Entry(es[i].key, es[i].value)];
  }

  /** The entries of a map from part i on, when each part is read back as the matching entry and the keys are distinct. */
  lemma {:induction false} EntriesFold(ty: Ty, parts: seq<string>, bound: nat, i: nat, es: seq<Entry>)
    requires ty.TDict? && Shorter(parts, bound) && i <= |parts| == |es| && DistinctKeys(es)
    requires forall j :: i <= j < |parts| ==>
      DecodeEntry(ty, parts[j]).Ok? && EntryStores(ty, DecodeEntry(ty, parts[j]).value, es[j])
    ensures DecodeEntries(ty, parts, bound, i, es[..i]) == Ok(es)
    decreases |parts| - i
  {
    if i == |parts| {
      assert es[..i] == es;
    } else {
      NextKeyNew(es, i);
      EntriesFold(ty, parts, bound, i + 1, es);
    }
  }

  /** Split parts shorter than the text the reader took them from. */
  lemma PartsShorter(s: string, inner: string, parts: seq<string>)
    requires |inner| < |s| && Split(inner, CollectionItemSeparator) == Ok(parts)
    ensures Shorter(parts, |s|)
  {
    SplitSizes(inner, CollectionItemSeparator);
    forall i | 0 <= i < |parts|
      ensures |parts[i]| < |s|
    {
      assert parts[i] in parts;
    }
  }

  /** DecodeItem on an item text whose value text and resolved type are known. */
  lemma ItemDecodes(ty: Ty, item: string, text: string, code: int, t: Ty)
    requires IsList(ty) && SplitMemberItemString(item) == Ok((text, code))
    requires FindArrayOrListItemType(ty, item) == Ok(t)
    ensures DecodeItem(ty, item) == Decode(t, text)
  {
  }

  /** DecodeEntry on key::value texts of a typed map whose key and value texts are read without error. */
  lemma EntryDecodes(ty: Ty, kt: string, wt: string, ek: string, ck: int, ew: string, cw: int)
    requires ty.TDict? && Split(kt + DictionaryKVSeparator + wt, DictionaryKVSeparator) == Ok([kt, wt])
    requires SplitMemberItemString(kt) == Ok((ek, ck)) && SplitMemberItemString(wt) == Ok((ew, cw))
    requires Decode(ty.key, ek).Ok? && Decode(ty.value, ew).Ok?
    ensures DecodeEntry(ty, kt + DictionaryKVSeparator + wt) == Ok(Entry(Decode(ty.key, ek).value, Decode(ty.value, ew).value))
  {
    var kvs := [kt, wt];
    assert Part(kvs, 0) == Ok(kt) && Part(kvs, 1) == Ok(wt);
    assert FindDictionaryItemType(ty, kt, true) == Ok(ty.key);
    assert FindDictionaryItemType(ty, wt, false) == Ok(ty.value);
  }

  /** FindArrayOrListItemType in a typed List<E> or E[] finds E, or int for an enumeration, for an item typed by E. */
  lemma TypedItemType(ty: Ty, y: Value)
    requires (ty.TList? || (ty.TArrayOf? && !ty.elem.TArrayOf?)) && SlotType(ty.elem) && Typed(ty.elem, y)
    ensures EncodeItem(y).Ok?
    ensures FindArrayOrListItemType(ty, EncodeItem(y).value) == Ok(if ty.elem.TEnum? then TInt else ty.elem)
  {
    TypedTag(ty, y);
    ItemShape(y);
  }

  /** The typed resolver maps the tag of an item typed by E to E, or to int for an enumeration. */
  lemma TypedTag(ty: Ty, y: Value)
    requires (ty.TList? || (ty.TArrayOf? && !ty.elem.TArrayOf?)) && SlotType(ty.elem) && Typed(ty.elem, y)
    ensures Encodable(y) && TypedItemTypeOf(ty, TypeOf(ItemCode(y))) == if ty.elem.TEnum? then TInt else ty.elem
  {
    TypedEncodable(ty.elem, y);
    TagOf(y);
  }

  /** An item of a typed List<E> or E[] is read back and stored as itself. */
  lemma {:induction false} TypedItemRoundTrip(ty: Ty, y: Value)
    requires (ty.TList? || (ty.TArrayOf? && !ty.elem.TArrayOf?)) && SlotType(ty.elem) && Typed(ty.elem, y)
    ensures EncodeItem(y).Ok? && DecodeItem(ty, EncodeItem(y).value).Ok?
    ensures StoreItem(ty, ty.elem, DecodeItem(ty, EncodeItem(y).value).value) == Ok(y)
    decreases y, 3
  {
    var e := ty.elem;
    TypedItemType(ty, y);
    TypedEncodable(e, y);
    ItemShape(y);
    var t := if e.TEnum? then TInt else e;
    var text := Encode(RuntimeType(y), y).value;
    ItemDecodes(ty, EncodeItem(y).value, text, ItemCode(y), t);
    RoundTrip(e, y);
    assert Decode(t, text) == Decode(e, text);
    TypedAssignable(e, y);
  }

  /** An item of an erased list is read back as itself, under the type Peek finds. */
  lemma {:induction false} ErasedItemRoundTrip(ty: Ty, y: Value)
    requires IsErasedList(ty) && ErasedItem(y)
    ensures EncodeItem(y).Ok?
    ensures FindArrayOrListItemType(ty, EncodeItem(y).value) == Ok(Peek(y).value)
    ensures DecodeItem(ty, EncodeItem(y).value) == Ok(y)
    decreases y, 3
  {
    var t := Peek(y).value;
    TypedEncodable(t, y);
    ItemShape(y);
    PeekSound(ty, y);
    ItemDecodes(ty, EncodeItem(y).value, Encode(RuntimeType(y), y).value, ItemCode(y), t);
    RoundTrip(t, y);
  }

  /** An entry of a typed map is read back under the declared key and value types. */
  lemma {:induction false} TypedEntryRoundTrip(ty: Ty, e: Entry)
    requires ty.TDict? && Typed(ty.key, e.key) && Typed(ty.value, e.value)
    ensures EncodeEntry(e).Ok? && DecodeEntry(ty, EncodeEntry(e).value).Ok?
    ensures EntryStores(ty, DecodeEntry(ty, EncodeEntry(e).value).value, e)
    decreases e, 3
  {
    TypedEncodable(ty.key, e.key);
    TypedEncodable(ty.value, e.value);
    EntryShape(e);
    ItemShape(e.key);
    ItemShape(e.value);
    RoundTrip(ty.key, e.key);
    RoundTrip(ty.value, e.value);
    EntryDecodes(ty, EncodeItem(e.key).value, EncodeItem(e.value).value,
      Encode(RuntimeType(e.key), e.key).value, ItemCode(e.key),
      Encode(RuntimeType(e.value), e.value).value, ItemCode(e.value));
    TypedAssignable(ty.key, e.key);
    TypedAssignable(ty.value, e.value);
  }

  /** Every item of a typed List<E> or E[], read back. */
  lemma {:induction false} TypedItemsRoundTrip(ty: Ty, zs: seq<Value>, texts: seq<string>)
    requires (ty.TList? || (ty.TArrayOf? && !ty.elem.TArrayOf?)) && SlotType(ty.elem) && |texts| == |zs|
    requires forall j :: 0 <= j < |zs| ==> Typed(ty.elem, zs[j]) && EncodeItem(zs[j]).Ok? && texts[j] == EncodeItem(zs[j]).value
    ensures forall j :: 0 <= j < |texts| ==>
      DecodeItem(ty, texts[j]).Ok? && StoreItem(ty, ty.elem, DecodeItem(ty, texts[j]).value) == Ok(zs[j])
    decreases zs, 0
  {
    forall j | 0 <= j < |texts|
      ensures DecodeItem(ty, texts[j]).Ok? && StoreItem(ty, ty.elem, DecodeItem(ty, texts[j]).value) == Ok(zs[j])
    {
      TypedItemRoundTrip(ty, zs[j]);
    }
  }

  /** Every item of an ArrayList or of an array under the erased Array type, read back. */
  lemma {:induction false} ErasedItemsRoundTrip(ty: Ty, zs: seq<Value>, texts: seq<string>)
    requires IsErasedList(ty) && |texts| == |zs|
    requires forall j :: 0 <= j < |zs| ==> ErasedItem(zs[j]) && EncodeItem(zs[j]).Ok? && texts[j] == EncodeItem(zs[j]).value
    ensures forall j :: 0 <= j < |texts| ==> DecodeItem(ty, texts[j]) == Ok(zs[j])
    decreases zs, 0
  {
    forall j | 0 <= j < |texts|
      ensures DecodeItem(ty, texts[j]) == Ok(zs[j])
    {
      ErasedItemRoundTrip(ty, zs[j]);
    }
  }

  /** Every entry of a typed map, read back. */
  lemma {:induction false} EntriesRoundTrip(ty: Ty, es: seq<Entry>, texts: seq<string>)
    requires ty.TDict? && |texts| == |es|
    requires forall j :: 0 <= j < |es| ==>
      Typed(ty.key, es[j].key) && Typed(ty.value, es[j].value) && EncodeEntry(es[j]).Ok? && texts[j] == EncodeEntry(es[j]).value
    ensures forall j :: 0 <= j < |texts| ==> DecodeEntry(ty, texts[j]).Ok? && EntryStores(ty, DecodeEntry(ty, texts[j]).value, es[j])
    decreases es, 0
  {
    forall j | 0 <= j < |texts|
      ensures DecodeEntry(ty, texts[j]).Ok? && EntryStores(ty, DecodeEntry(ty, texts[j]).value, es[j])
    {
      TypedEntryRoundTrip(ty, es[j]);
    }
  }

  /** DecodeCollection on a text that opens into parts, each read back as the matching item. */
  lemma CollectionDecodes(ty: Ty, s: string, parts: seq<string>, slot: Ty, zs: seq<Value>)
    requires IsList(ty) && !ty.TListDef? && StripMarkers(s).Ok?
    requires Split(StripMarkers(s).value, CollectionItemSeparator) == Ok(parts) && |parts| == |zs|
    requires ty == TArrayList ==> slot == TObject
    requires ty.TList? ==> slot == ty.elem
    requires ty.TArrayOf? || ty == TArray ==> parts != [] && FindArrayOrListItemType(ty, parts[0]) == Ok(slot)
    requires forall j :: 0 <= j < |parts| ==> DecodeItem(ty, parts[j]).Ok? && StoreItem(ty, slot, DecodeItem(ty, parts[j]).value) == Ok(zs[j])
    ensures DecodeCollection(ty, s) ==
      Ok(if ty == TArrayList then VArrayList(zs) else if ty.TList? then VList(ty.elem, zs) else VArray(slot, zs))
  {
    PartsShorter(s, StripMarkers(s).value, parts);
    ItemsFold(ty, slot, parts, |s|, 0, [], zs);
    assert [] + zs[0..] == zs;
  }

  /** DecodeMap on a text that opens into parts, each read back as the matching entry of distinct keys. */
  lemma MapDecodes(ty: Ty, s: string, parts: seq<string>, es: seq<Entry>)
    requires ty.TDict? && StripMarkers(s).Ok?
    requires Split(StripMarkers(s).value, CollectionItemSeparator) == Ok(parts) && |parts| == |es| && DistinctKeys(es)
    requires forall j :: 0 <= j < |parts| ==>
      DecodeEntry(ty, parts[j]).Ok? && EntryStores(ty, DecodeEntry(ty, parts[j]).value, es[j])
    ensures DecodeMap(ty, s) == Ok(VDict(ty.key, ty.value, es))
  {
    PartsShorter(s, StripMarkers(s).value, parts);
    EntriesFold(ty, parts, |s|, 0, es);
    assert es[..0] == [];
  }

  /**
   * Decode inverts Encode: a typed value is written without error and read back, once
   * stored in its slot, as the same value.
   */
  lemma {:induction false} RoundTrip(ty: Ty, v: Value)
    requires Typed(ty, v)
    ensures Encode(ty, v).Ok?
    ensures Decode(ty, Encode(ty, v).value).Ok?
    ensures Store(ty, Decode(ty, Encode(ty, v).value).value) == v
    decreases v, 2
  {
    if IsScalarType(ty) {
      ScalarRoundTrip(ty, v);
    } else if v.VDict? {
      MapRoundTrip(ty, v);
    } else if ty == TArrayList || ty == TArray {
      ErasedRoundTrip(ty, v);
    } else {
      TypedCollectionRoundTrip(ty, v);
    }
  }

  /** The scalar cases: decimal ints and longs, 1 and 0, texts between quotes, timestamps as they are. */
  lemma ScalarRoundTrip(ty: Ty, v: Value)
    requires Typed(ty, v) && IsScalarType(ty)
    ensures Encode(ty, v).Ok?
    ensures Decode(ty, Encode(ty, v).value).Ok?
    ensures Store(ty, Decode(ty, Encode(ty, v).value).value) == v
  {
    match v
    case VInt(i) =>
      Int32RoundTrip(i);
    case VEnum(_, o) =>
      Int32RoundTrip(o);
    case VBool(b) =>
      BoolRoundTrip(b);
    case VFloat(t) =>
      Unwrap(StringStartChar, t, StringEndChar);
    case VDouble(t) =>
      Unwrap(StringStartChar, t, StringEndChar);
    case VString(s) =>
      Unwrap(StringStartChar, s, StringEndChar);
    case VLong(l) =>
      Int64RoundTrip(l);
    case VDateTime(_) =>
  }

  lemma BoolRoundTrip(b: bool)
    ensures Decode(TBool, if b then "1" else "0") == Ok(VBool(b))
  {
    var i := if b then 1 else 0;
    assert IntToDecimal(i) == if b then "1" else "0";
    Int32RoundTrip(i);
  }

  /** An ArrayList, or an array under the erased Array type: each item read back under its own tag. */
  lemma {:induction false} ErasedRoundTrip(ty: Ty, v: Value)
    requires (ty == TArrayList || ty == TArray) && Typed(ty, v)
    ensures Encode(ty, v).Ok? && Decode(ty, Encode(ty, v).value) == Ok(v)
    decreases v, 1
  {
    TypedEncodable(ty, v);
    CollectionParts(v);
    var texts := EncodeItems(v.items).value;
    ErasedItemsRoundTrip(ty, v.items, texts);
    var slot := if ty == TArray then v.arrayElem else TObject;
    ErasedItemsStored(ty, v);
    if ty == TArray {
      ErasedItemRoundTrip(TArray, v.items[0]);
      CollectionDecodes(ty, Encode(ty, v).value, texts, v.arrayElem, v.items);
    } else {
      CollectionDecodes(ty, Encode(ty, v).value, texts, TObject, v.items);
    }
  }

  /** Every item of an ArrayList, or of an array of its own element type, is stored unchanged. */
  lemma ErasedItemsStored(ty: Ty, v: Value)
    requires (ty == TArrayList || ty == TArray) && Typed(ty, v)
    ensures var slot := if ty == TArray then v.arrayElem else TObject;
      forall j :: 0 <= j < |v.items| ==> StoreItem(ty, slot, v.items[j]) == Ok(v.items[j])
  {
  }

  /** A List<E> or an E[]: each item read back under E. */
  lemma {:induction false} TypedCollectionRoundTrip(ty: Ty, v: Value)
    requires (ty.TList? || ty.TArrayOf?) && Typed(ty, v)
    ensures Encode(ty, v).Ok? && Decode(ty, Encode(ty, v).value) == Ok(v)
    decreases v, 1
  {
    TypedEncodable(ty, v);
    CollectionParts(v);
    var texts := EncodeItems(v.items).value;
    TypedItemsRoundTrip(ty, v.items, texts);
    if ty.TArrayOf? {
      TypedItemType(ty, v.items[0]);
    }
    CollectionDecodes(ty, Encode(ty, v).value, texts, ty.elem, v.items);
  }

  /** A Dictionary<K, V>: each entry read back under K and V, and added in order. */
  lemma {:induction false} MapRoundTrip(ty: Ty, v: Value)
    requires v.VDict? && Typed(ty, v)
    ensures Encode(ty, v).Ok? && Decode(ty, Encode(ty, v).value) == Ok(v)
    decreases v, 1
  {
    assert ty == TDict(v.keyTy, v.valueTy);
    TypedEncodable(ty, v);
    MapParts(v);
    var texts := EncodeEntries(v.entries).value;
    EntriesRoundTrip(ty, v.entries, texts);
    MapDecodes(ty, Encode(ty, v).value, texts, v.entries);
    DecodeDict(ty, Encode(ty, v).value);
  }

  /** Under a typed Dictionary<K, V>, Decode is DecodeMap. */
  lemma DecodeDict(ty: Ty, s: string)
    requires ty.TDict?
    ensures Decode(ty, s) == DecodeMap(ty, s)
  {
  }
}
