/**
 * Declared and runtime types of the codec, and the table that maps the supported
 * ones to the integer codes written next to container items (SupportTypes).
 */
module TypeTags {

  /** The System.Type values the codec distinguishes. */
  datatype Ty =
    | TInt                     // int
    | TEnum(enumName: string)  // any enumeration
    | TBool
    | TFloat
    | TDouble
    | TString
    | TLong
    | TDateTime
    | TArrayList               // System.Collections.ArrayList: elements erased
    | TArray                   // System.Array: an array of unknown element type
    | TListDef                 // List<>, the open generic definition
    | TDictDef                 // Dictionary<,>, the open generic definition
    | TList(elem: Ty)          // List<E>
    | TArrayOf(elem: Ty)       // E[]
    | TDict(key: Ty, value: Ty)  // Dictionary<K, V>
    | TObject                  // object
    | TOther(typeName: string) // any other type: records, structs, unsupported collections

  /** IList is assignable from the type (its IsAssignableFrom test). */
  predicate IsList(t: Ty) {
    t.TArrayList? || t.TArray? || t.TListDef? || t.TList? || t.TArrayOf?
  }

  /** IDictionary is assignable from the type. */
  predicate IsDict(t: Ty) {
    t.TDictDef? || t.TDict?
  }

  datatype SupportTypeItem = SupportTypeItem(ty: Ty, code: int)

  /** The registry, in the order of its static list. */
  const SupportTypes: seq<SupportTypeItem> := [
    SupportTypeItem(TInt, 0),
    SupportTypeItem(TBool, 1),
    SupportTypeItem(TFloat, 2),
    SupportTypeItem(TDouble, 3),
    SupportTypeItem(TString, 4),
    SupportTypeItem(TLong, 5),
    SupportTypeItem(TDateTime, 20),
    SupportTypeItem(TArrayList, 21),
    SupportTypeItem(TArray, 22),
    SupportTypeItem(TListDef, 23),
    SupportTypeItem(TDictDef, 24)
  ]

  /** The registered codes. */
  const Codes: seq<int> := [0, 1, 2, 3, 4, 5, 20, 21, 22, 23, 24]

  /** The registered types. */
  predicate Registered(t: Ty) {
    t in [TInt, TBool, TFloat, TDouble, TString, TLong, TDateTime, TArrayList, TArray, TListDef, TDictDef]
  }

  /** The type of the first row of table with the given code, as the foreach ... break finds it. */
  function TypeForCode(table: seq<SupportTypeItem>, code: int, default: Ty): Ty {
    if table == [] then default
    else if table[0].code == code then table[0].ty
    else TypeForCode(table[1..], code, default)
  }

  /** The code of the first row of table with the given type. */
  function CodeForType(table: seq<SupportTypeItem>, t: Ty, default: int): int {
    if table == [] then default
    else if table[0].ty == t then table[0].code
    else CodeForType(table[1..], t, default)
  }

  /** ConvertIntValueToType: an unregistered code gives object. */
  function ConvertIntValueToType(code: int): Ty {
    TypeForCode(SupportTypes, code, TObject)
  }

  /** ConvertTypeToIntValue: an enumeration that is not in the table gives 0, any other unregistered type -1. */
  function ConvertTypeToIntValue(t: Ty): int {
    CodeForType(SupportTypes, t, if t.TEnum? then 0 else -1)
  }

  /** The table read off row by row: the code ConvertTypeToIntValue finds for a type. */
  function CodeOf(t: Ty): int {
    match t
    case TInt => 0
    case TBool => 1
    case TFloat => 2
    case TDouble => 3
    case TString => 4
    case TLong => 5
    case TDateTime => 20
    case TArrayList => 21
    case TArray => 22
    case TListDef => 23
    case TDictDef => 24
    case TEnum(_) => 0
    case _ => -1
  }

  /** The table read off row by row: the type ConvertIntValueToType finds for a code. */
  function TypeOf(code: int): Ty {
    if code == 0 then TInt
    else if code == 1 then TBool
    else if code == 2 then TFloat
    else if code == 3 then TDouble
    else if code == 4 then TString
    else if code == 5 then TLong
    else if code == 20 then TDateTime
    else if code == 21 then TArrayList
    else if code == 22 then TArray
    else if code == 23 then TListDef
    else if code == 24 then TDictDef
    else TObject
  }

  /** GetSupportItemType: the registry entry a runtime type is tagged with. */
  function GetSupportItemType(t: Ty): Ty {
    if t == TArrayList then TArrayList
    else if t.TArrayOf? then TArray
    else if IsList(t) then TListDef
    else if IsDict(t) then TDictDef
    else t
  }
}

/** What the registry promises. */
module TypeTagProperties {
  import opened TypeTags

  /** The search by code returns the first row that has the code, or the default when none has. */
  lemma {:induction false} TypeForCodeFinds(table: seq<SupportTypeItem>, code: int, default: Ty, k: int)
    requires k == |table| || (0 <= k < |table| && table[k].code == code)
    requires forall j :: 0 <= j < k ==> table[j].code != code
    ensures TypeForCode(table, code, default) == if k == |table| then default else table[k].ty
  {
    if table != [] && table[0].code != code {
      TypeForCodeFinds(table[1..], code, default, k - 1);
    }
  }

  /** The search by type returns the first row that has the type, or the default when none has. */
  lemma {:induction false} CodeForTypeFinds(table: seq<SupportTypeItem>, t: Ty, default: int, k: int)
    requires k == |table| || (0 <= k < |table| && table[k].ty == t)
    requires forall j :: 0 <= j < k ==> table[j].ty != t
    ensures CodeForType(table, t, default) == if k == |table| then default else table[k].code
  {
    if table != [] && table[0].ty != t {
      CodeForTypeFinds(table[1..], t, default, k - 1);
    }
  }

  /** No two rows share a code or a type. */
  lemma RowsDistinct()
    ensures forall i, j :: 0 <= i < j < |SupportTypes| ==>
      SupportTypes[i].code != SupportTypes[j].code && SupportTypes[i].ty != SupportTypes[j].ty
    ensures |Codes| == |SupportTypes|
    ensures forall k :: 0 <= k < |SupportTypes| ==> SupportTypes[k].code == Codes[k]
    ensures forall t :: Registered(t) <==> exists k :: 0 <= k < |SupportTypes| && SupportTypes[k].ty == t
  {
    forall t | Registered(t)
      ensures exists k :: 0 <= k < |SupportTypes| && SupportTypes[k].ty == t
    {
      var k :| 0 <= k < 11 && [TInt, TBool, TFloat, TDouble, TString, TLong, TDateTime, TArrayList, TArray, TListDef, TDictDef][k] == t;
      assert SupportTypes[k].ty == t;
    }
  }

  /** The row of a registered code, found by either lookup. */
  lemma RowLookup(k: int)
    requires 0 <= k < |SupportTypes|
    ensures ConvertIntValueToType(SupportTypes[k].code) == SupportTypes[k].ty
    ensures ConvertTypeToIntValue(SupportTypes[k].ty) == SupportTypes[k].code
  {
    RowsDistinct();
    TypeForCodeFinds(SupportTypes, SupportTypes[k].code, TObject, k);
    var t := SupportTypes[k].ty;
    CodeForTypeFinds(SupportTypes, t, if t.TEnum? then 0 else -1, k);
  }

  /** Decoding a registered code and encoding the type found gives the code back. */
  lemma CodeRoundTrip(code: int)
    requires code in Codes
    ensures Registered(ConvertIntValueToType(code))
    ensures ConvertTypeToIntValue(ConvertIntValueToType(code)) == code
  {
    RowsDistinct();
    var k :| 0 <= k < |Codes| && Codes[k] == code;
    RowLookup(k);
  }

  /** Encoding a registered type and decoding its code gives the type back. */
  lemma TypeRoundTrip(t: Ty)
    requires Registered(t)
    ensures ConvertTypeToIntValue(t) in Codes
    ensures ConvertIntValueToType(ConvertTypeToIntValue(t)) == t
  {
    RowsDistinct();
    var k :| 0 <= k < |SupportTypes| && SupportTypes[k].ty == t;
    RowLookup(k);
  }

  /** Every enumeration is tagged like int. */
  lemma EnumIsTaggedAsInt(name: string)
    ensures ConvertTypeToIntValue(TEnum(name)) == ConvertTypeToIntValue(TInt) == 0
  {
    RowsDistinct();
    CodeForTypeFinds(SupportTypes, TEnum(name), 0, |SupportTypes|);
    RowLookup(0);
  }

  /** A type outside the table that is not an enumeration gets -1. */
  lemma UnregisteredType(t: Ty)
    requires !Registered(t) && !t.TEnum?
    ensures ConvertTypeToIntValue(t) == -1
  {
    RowsDistinct();
    CodeForTypeFinds(SupportTypes, t, -1, |SupportTypes|);
  }

  /** A code outside the table reads as object instead of failing. */
  lemma UnregisteredCode(code: int)
    requires code !in Codes
    ensures ConvertIntValueToType(code) == TObject
  {
    RowsDistinct();
    TypeForCodeFinds(SupportTypes, code, TObject, |SupportTypes|);
  }

  /**
   * Containers are normalised to the four container rows: ArrayList first (before the
   * generic IList case), then any array, then any other list, then any map; every
   * container item therefore carries a tag from 21 to 24, and scalars keep their type.
   */
  lemma SupportItemTypeOfContainers(t: Ty)
    ensures (IsList(t) || IsDict(t)) ==> 21 <= ConvertTypeToIntValue(GetSupportItemType(t)) <= 24
    ensures t == TArrayList ==> ConvertTypeToIntValue(GetSupportItemType(t)) == 21
    ensures t.TArrayOf? ==> ConvertTypeToIntValue(GetSupportItemType(t)) == 22
    ensures t.TList? ==> ConvertTypeToIntValue(GetSupportItemType(t)) == 23
    ensures t.TDict? ==> ConvertTypeToIntValue(GetSupportItemType(t)) == 24
    ensures !IsList(t) && !IsDict(t) ==> GetSupportItemType(t) == t
  {
    if t == TArrayList {
      RowLookup(7);
    } else if t.TArrayOf? {
      RowLookup(8);
    } else if IsList(t) {
      RowLookup(9);
    } else if IsDict(t) {
      RowLookup(10);
    }
  }

  /** The searches over the registry agree with the table read off row by row. */
  lemma ConvertTypeToIntValueIsCodeOf(t: Ty)
    ensures ConvertTypeToIntValue(t) == CodeOf(t)
  {
    if t in [TInt, TBool, TFloat, TDouble, TString, TLong] {
      ScalarCodes(t);
    } else if Registered(t) {
      OtherRegisteredCodes(t);
    } else if t.TEnum? {
      EnumIsTaggedAsInt(t.enumName);
    } else {
      UnregisteredType(t);
    }
  }

  lemma ScalarCodes(t: Ty)
    requires t in [TInt, TBool, TFloat, TDouble, TString, TLong]
    ensures ConvertTypeToIntValue(t) == CodeOf(t)
  {
    match t
    case TInt => RowLookup(0);
    case TBool => RowLookup(1);
    case TFloat => RowLookup(2);
    case TDouble => RowLookup(3);
    case TString => RowLookup(4);
    case TLong => RowLookup(5);
  }

  lemma OtherRegisteredCodes(t: Ty)
    requires Registered(t) && t !in [TInt, TBool, TFloat, TDouble, TString, TLong]
    ensures ConvertTypeToIntValue(t) == CodeOf(t)
  {
    match t
    case TDateTime => RowLookup(6);
    case TArrayList => RowLookup(7);
    case TArray => RowLookup(8);
    case TListDef => RowLookup(9);
    case TDictDef => RowLookup(10);
  }

  lemma ConvertIntValueToTypeIsTypeOf(code: int)
    ensures ConvertIntValueToType(code) == TypeOf(code)
  {
    if code == 0 { RowLookup(0); }
    else if code == 1 { RowLookup(1); }
    else if code == 2 { RowLookup(2); }
    else if code == 3 { RowLookup(3); }
    else if code == 4 { RowLookup(4); }
    else if code == 5 { RowLookup(5); }
    else if code == 20 { RowLookup(6); }
    else if code == 21 { RowLookup(7); }
    else if code == 22 { RowLookup(8); }
    else if code == 23 { RowLookup(9); }
    else if code == 24 { RowLookup(10); }
    else { UnregisteredCode(code); }
  }
}
