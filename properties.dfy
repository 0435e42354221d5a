/**
 * What the source's own test checks, and the edge cases of the reader: the text
 * written again after a read is the text read, bool reads every positive int as true,
 * empty arrays and empty nested lists cannot be read, a map with two or more entries
 * nested in an erased container cannot be read, and an unsupported type is skipped.
 */
module Properties {
  import opened Wrappers
  import opened Grammar
  import opened Numbers
  import opened TypeTags
  import opened Values
  import opened Splitter
  import opened SplitterProperties
  import opened TextShape
  import opened EncoderShape
  import opened Encoder
  import opened Decoder
  import opened RoundTrip
  import opened Formatter
  import opened Framing
  import opened ReadBackForm

  /**
   * Writing a value read back gives the text it was read from, for every value whose
   * read-back form is typed: every typed value (TypedReadBack), and also values with
   * enumerations or object[]s inside erased containers, which come back as ints and
   * arrays of the first item's type. An enumeration read as its int is written alike.
   */
  lemma ReEncode(ty: Ty, v: Value)
    requires Typed(ty, ReadBack(ty, v))
    ensures Encode(ty, v).Ok? && Decode(ty, Encode(ty, v).value).Ok?
    ensures Store(ty, Decode(ty, Encode(ty, v).value).value) == ReadBack(ty, v)
    ensures Encode(ty, Decode(ty, Encode(ty, v).value).value) == Encode(ty, v)
  {
    ReadBackRoundTrip(ty, v);
    ReadBackText(ty, v);
    var d := Decode(ty, Encode(ty, v).value).value;
    var w := ReadBack(ty, v);
    if ty.TEnum? && d.VInt? {
      assert w == VEnum(ty.enumName, d.i);
    } else {
      assert w == d;
    }
  }

  /** The ArrayList{1, "a", C, new int[]{10, 11, 12}} nested in the source's test value, C an enumeration value 2. */
  function TestInner(n: string): Value {
    VArrayList([VInt(1), VString("a"), VEnum(n, 2), VArray(TInt, [VInt(10), VInt(11), VInt(12)])])
  }

  /**
   * The ArrayList assigned in the source's test (GiftDataFormatterTests.cs:75), for an
   * enumeration named n with values B = 1 and C = 2, and 5.0d as the text "5".
   */
  function TestArrayList(n: string): Value {
    VArrayList([VInt(1), VString("abc"), VDouble("5"), VEnum(n, 2), VBool(true),
      VList(TInt, [VInt(1), VInt(2)]), VArray(TString, [VString("test,"), VString("code!!")]),
      VList(TEnum(n), [VEnum(n, 1), VEnum(n, 1)]),
      VList(TList(TArrayList), [VList(TArrayList, [TestInner(n)])])])
  }

  /** An ArrayList whose items read back typed is read back typed, item by item. */
  lemma ArrayListReadsBack(zs: seq<Value>)
    requires forall z :: z in zs ==> ErasedItem(ItemReadBack(z))
    ensures ItemReadBack(VArrayList(zs)) == VArrayList(seq(|zs|, i requires 0 <= i < |zs| => ItemReadBack(zs[i])))
    ensures ErasedItem(ItemReadBack(VArrayList(zs))) && Typed(TArrayList, ReadBack(TArrayList, VArrayList(zs)))
  {
    var r := ItemReadBack(VArrayList(zs));
    assert forall i :: 0 <= i < |zs| ==> r.items[i] == ItemReadBack(zs[i]);
  }

  /**
   * A List<E> of enumeration values inside an erased container is read back as the
   * List<int> of their ordinals.
   */
  lemma EnumListReadsBack(n: string, zs: seq<Value>)
    requires zs != [] && forall i :: 0 <= i < |zs| ==> zs[i].VEnum? && zs[i].enumName == n && IsInt32(zs[i].ordinal)
    ensures ItemReadBack(VList(TEnum(n), zs)) == VList(TInt, seq(|zs|, i requires 0 <= i < |zs| => VInt(zs[i].ordinal)))
    ensures ErasedItem(ItemReadBack(VList(TEnum(n), zs)))
  {
    var r := ItemReadBack(VList(TEnum(n), zs));
    forall i | 0 <= i < |zs|
      ensures r.items[i] == VInt(zs[i].ordinal) && Typed(TInt, r.items[i])
    {
      assert r.items[i] == ItemReadBack(zs[i]);
    }
    assert Peek(r.items[0]) == Some(TInt);
  }

  /** A List<ArrayList> holding x reads back as a typed List<ArrayList> when x reads back typed. */
  lemma ListOfArrayListReadsBack(x: Value)
    requires x.VArrayList? && ErasedItem(ItemReadBack(x))
    ensures ItemReadBack(VList(TArrayList, [x])) == VList(TArrayList, [ItemReadBack(x)])
    ensures Typed(TList(TArrayList), ItemReadBack(VList(TArrayList, [x])))
  {
    assert ItemReadBack(VList(TArrayList, [x])).items == [ItemReadBack(x)];
  }

  /** A List<List<ArrayList>> holding one list that holds x reads back typed when x does. */
  lemma NestedListReadsBack(x: Value)
    requires x.VArrayList? && ErasedItem(ItemReadBack(x))
    ensures ErasedItem(ItemReadBack(VList(TList(TArrayList), [VList(TArrayList, [x])])))
  {
    ListOfArrayListReadsBack(x);
    var mid1 := VList(TArrayList, [ItemReadBack(x)]);
    var y1 := ItemReadBack(VList(TList(TArrayList), [VList(TArrayList, [x])]));
    assert y1.items == [mid1];
    assert Peek(mid1) == Some(TList(TArrayList));
    assert Typed(TList(TList(TArrayList)), y1);
  }

  /** An item that reads back as itself reads back typed. */
  lemma Unchanged(y: Value)
    requires ErasedItem(y)
    ensures ErasedItem(ItemReadBack(y))
  {
    ErasedItemReadBack(y);
  }

  /** The int[] nested in the source's test value reads back as itself. */
  lemma TestIntArrayReadsBack()
    ensures ErasedItem(ItemReadBack(VArray(TInt, [VInt(10), VInt(11), VInt(12)])))
  {
    Unchanged(VArray(TInt, [VInt(10), VInt(11), VInt(12)]));
  }

  /** A property of each of four values holds for every item of the list of them. */
  lemma FourOf(p: Value -> bool, a0: Value, a1: Value, a2: Value, a3: Value)
    requires p(a0) && p(a1) && p(a2) && p(a3)
    ensures forall z :: z in [a0, a1, a2, a3] ==> p(z)
  {
  }

  /** The ArrayList nested in the source's test value reads back typed, its enumeration value as an int. */
  lemma TestInnerReadsBack(n: string)
    ensures ErasedItem(ItemReadBack(TestInner(n)))
  {
    ScalarsReadBack(n, 1, 2, "a", "", true);
    TestIntArrayReadsBack();
    FourOf(z => ErasedItem(ItemReadBack(z)), VInt(1), VString("a"), VEnum(n, 2), VArray(TInt, [VInt(10), VInt(11), VInt(12)]));
    ArrayListReadsBack(TestInner(n).items);
  }

  /** A property of each of nine values holds for every item of the list of them. */
  lemma NineOf(p: Value -> bool, a0: Value, a1: Value, a2: Value, a3: Value, a4: Value, a5: Value, a6: Value, a7: Value, a8: Value)
    requires p(a0) && p(a1) && p(a2) && p(a3) && p(a4) && p(a5) && p(a6) && p(a7) && p(a8)
    ensures forall z :: z in [a0, a1, a2, a3, a4, a5, a6, a7, a8] ==> p(z)
  {
  }

  /** Scalars read back as themselves, an enumeration value as an int of its ordinal. */
  lemma ScalarsReadBack(n: string, i: int, o: int, s: string, d: string, b: bool)
    requires IsInt32(i) && IsInt32(o) && NoQuotes(s) && NoQuotes(d)
    ensures ErasedItem(ItemReadBack(VInt(i))) && ErasedItem(ItemReadBack(VString(s)))
    ensures ErasedItem(ItemReadBack(VDouble(d))) && ErasedItem(ItemReadBack(VBool(b)))
    ensures ItemReadBack(VEnum(n, o)) == VInt(o) && ErasedItem(ItemReadBack(VEnum(n, o)))
  {
  }

  /** A List<int> of two ints and a string[] of two strings read back as themselves. */
  lemma PairsReadBack(i: int, j: int, s: string, t: string)
    requires IsInt32(i) && IsInt32(j) && NoQuotes(s) && NoQuotes(t)
    ensures ErasedItem(ItemReadBack(VList(TInt, [VInt(i), VInt(j)])))
    ensures ErasedItem(ItemReadBack(VArray(TString, [VString(s), VString(t)])))
  {
    var l := VList(TInt, [VInt(i), VInt(j)]);
    assert Peek(l) == Some(TList(TInt)) && Typed(TList(TInt), l);
    Unchanged(l);
    var a := VArray(TString, [VString(s), VString(t)]);
    assert ErasedItem(a.items[0]) && ErasedItem(a.items[1]);
    assert Typed(TArray, a);
    Unchanged(a);
  }

  /** The scalar items of the source's test ArrayList read back typed, its enumeration value as an int. */
  lemma TestScalarsReadBack(n: string)
    ensures ErasedItem(ItemReadBack(VInt(1))) && ErasedItem(ItemReadBack(VString("abc")))
    ensures ErasedItem(ItemReadBack(VDouble("5"))) && ErasedItem(ItemReadBack(VBool(true)))
    ensures ErasedItem(ItemReadBack(VEnum(n, 2)))
  {
    ScalarsReadBack(n, 1, 2, "abc", "5", true);
  }

  /** The List<int> and string[] items of the source's test ArrayList read back as themselves. */
  lemma TestPairsReadBack()
    ensures ErasedItem(ItemReadBack(VList(TInt, [VInt(1), VInt(2)])))
    ensures ErasedItem(ItemReadBack(VArray(TString, [VString("test,"), VString("code!!")])))
  {
    PairsReadBack(1, 2, "test,", "code!!");
  }

  /** The List<E> and the List<List<ArrayList>> items of the source's test ArrayList read back typed. */
  lemma TestListsReadBack(n: string)
    ensures ErasedItem(ItemReadBack(VList(TEnum(n), [VEnum(n, 1), VEnum(n, 1)])))
    ensures ErasedItem(ItemReadBack(VList(TList(TArrayList), [VList(TArrayList, [TestInner(n)])])))
  {
    EnumListReadsBack(n, [VEnum(n, 1), VEnum(n, 1)]);
    TestInnerReadsBack(n);
    NestedListReadsBack(TestInner(n));
  }

  /** Every item of the source's test ArrayList reads back typed, its enumeration values as ints. */
  lemma TestItemsReadBack(n: string)
    ensures forall z :: z in TestArrayList(n).items ==> ErasedItem(ItemReadBack(z))
  {
    TestScalarsReadBack(n);
    TestPairsReadBack();
    TestListsReadBack(n);
    NineOf(z => ErasedItem(ItemReadBack(z)), VInt(1), VString("abc"), VDouble("5"), VEnum(n, 2), VBool(true),
      VList(TInt, [VInt(1), VInt(2)]), VArray(TString, [VString("test,"), VString("code!!")]),
      VList(TEnum(n), [VEnum(n, 1), VEnum(n, 1)]),
      VList(TList(TArrayList), [VList(TArrayList, [TestInner(n)])]));
  }

  /**
   * The source's test ArrayList is not read back as itself, its enumeration values
   * coming back as ints, but writing what is read gives the text it was read from.
   */
  lemma TestArrayListReEncodes(n: string)
    ensures var v := TestArrayList(n);
      !Typed(TArrayList, v) && Encode(TArrayList, v).Ok?
      && Decode(TArrayList, Encode(TArrayList, v).value).Ok?
      && Encode(TArrayList, Decode(TArrayList, Encode(TArrayList, v).value).value) == Encode(TArrayList, v)
  {
    var v := TestArrayList(n);
    assert !ErasedItem(v.items[3]);
    TestItemsReadBack(n);
    ArrayListReadsBack(v.items);
    ReEncode(TArrayList, v);
  }

  /** The members of an object whose fields hold the given values. */
  function WithFields(ms: seq<Member>, fields: map<string, Value>): (r: seq<Member>)
    requires forall k :: 0 <= k < |ms| ==> ms[k].name in fields
    ensures |r| == |ms| && forall k :: 0 <= k < |ms| ==> r[k] == ms[k].(value := fields[ms[k].name])
  {
    seq(|ms|, k requires 0 <= k < |ms| => ms[k].(value := fields[ms[k].name]))
  }

  /**
   * The source's test: an object serialized, deserialized into a new object and that
   * object serialized again gives the same text. Stated for objects whose members frame
   * once their values are in read-back form; each field then holds that form.
   */
  lemma SerializeDeserializeSerialize(ms: seq<Member>, sep: string, defaults: map<string, Value>)
    requires ms != [] && sep != [] && !IsMarker(sep[0]) && sep[0] != ':'
    requires forall k :: 0 <= k < |ms| ==> Framable(MemberReadBack(ms[k]), sep[0]) && ms[k].name in defaults
    requires forall k, l :: 0 <= k < l < |ms| ==> ms[k].alias != ms[l].alias && ms[k].name != ms[l].name
    ensures SerializedText(Some(ms), sep).Ok?
    ensures var d := Deserialized(ms, sep, defaults, SerializedText(Some(ms), sep).value);
      d.Ok? && d.value.Some? && (forall k :: 0 <= k < |ms| ==> ms[k].name in d.value.value)
      && (forall k :: 0 <= k < |ms| ==> d.value.value[ms[k].name] == ReadBack(ms[k].ty, ms[k].value))
      && SerializedText(Some(WithFields(ms, d.value.value)), sep) == SerializedText(Some(ms), sep)
  {
    var rs := seq(|ms|, k requires 0 <= k < |ms| => MemberReadBack(ms[k]));
    MembersAlike(rs, ms);
    assert SerializedText(Some(rs), sep) == SerializedText(Some(ms), sep);
    FramingRoundTrip(rs, sep, defaults);
    DeserializedAlike(ms, rs, sep, defaults, SerializedText(Some(ms), sep).value);
    AssignedReadBack(ms, rs, defaults);
  }

  /**
   * Assigning the read-back members in order leaves each field holding its member's
   * read-back value, so that the object's members are the read-back members.
   */
  lemma AssignedReadBack(ms: seq<Member>, rs: seq<Member>, defaults: map<string, Value>)
    requires |rs| == |ms| && forall k :: 0 <= k < |ms| ==> rs[k] == MemberReadBack(ms[k]) && ms[k].name in defaults
    requires forall k, l :: 0 <= k < l < |ms| ==> ms[k].name != ms[l].name
    ensures var fields := Assigned(defaults, rs, 0);
      (forall k :: 0 <= k < |ms| ==> ms[k].name in fields && fields[ms[k].name] == ReadBack(ms[k].ty, ms[k].value))
      && WithFields(ms, fields) == rs
  {
    var fields := Assigned(defaults, rs, 0);
    AssignedFields(defaults, rs, 0);
    assert WithFields(ms, fields) == rs;
  }

  /** Bool is read as Convert.ToInt32(s) > 0: any positive int reads as true, zero and negatives as false. */
  lemma BoolReadsPositive(i: int)
    requires IsInt32(i)
    ensures Decode(TBool, IntToDecimal(i)) == Ok(VBool(i > 0))
  {
    Int32RoundTrip(i);
  }

  /** Plain pieces without the separator's first character, joined by it, split back into those pieces. */
  lemma PlainSplit(pieces: seq<string>, sep: string)
    requires sep != [] && !IsMarker(sep[0])
    requires forall p :: p in pieces ==> p != [] && Plain(p) && forall i :: 0 <= i < |p| ==> p[i] != sep[0]
    ensures Split(Join(pieces, sep), sep) == Ok(pieces)
  {
    forall p | p in pieces
      ensures Piece(p, sep)
    {
      PlainRun(p, Zero);
      PlainNoCut(p, sep[0], Zero);
    }
    SplitJoin(pieces, sep);
  }


  /**
   * An empty array is written [] but cannot be read back: the element type is taken
   * from the first part, which is not there.
   */
  lemma EmptyArray(e: Ty)
    ensures Encode(TArrayOf(e), VArray(e, [])) == Ok("[]")
    ensures Decode(TArrayOf(e), "[]") == Err(IndexOutOfRange)
    ensures Decode(TArray, "[]") == Err(IndexOutOfRange)
  {
    Unwrap('[', [], ']');
    assert ['['] + [] + [']'] == "[]";
    assert EncodeItems([]) == Ok([]);
    assert Join([], CollectionItemSeparator) == [];
  }

  /** An empty ArrayList or List<E> reads back empty; List<> cannot be created at all. */
  lemma EmptyLists(e: Ty)
    ensures Decode(TArrayList, "[]") == Ok(VArrayList([]))
    ensures Decode(TList(e), "[]") == Ok(VList(e, []))
    ensures Decode(TListDef, "[]") == Err(CannotCreate)
  {
    EmptyListOf(TArrayList, TObject);
    EmptyListOf(TList(e), e);
    EmptyBrackets();
  }

  /** The text [] read as an ArrayList or a List<E> with no items. */
  lemma EmptyListOf(ty: Ty, e: Ty)
    requires ty == TArrayList || ty == TList(e)
    ensures Decode(ty, "[]") == Ok(if ty == TArrayList then VArrayList([]) else VList(e, []))
  {
    EmptyBrackets();
    assert DecodeItems(ty, if ty == TArrayList then TObject else e, [], 2, 0, []) == Ok([]);
  }

  /** The text [] holds one empty part between the list brackets. */
  lemma EmptyBrackets()
    ensures StripMarkers("[]") == Ok([]) && Split([], CollectionItemSeparator) == Ok([])
  {
    Unwrap('[', [], ']');
    assert ['['] + [] + [']'] == "[]";
  }

  /** An int item is written digits#0 and cut back into the digits and the code 0. */
  lemma IntItem(n: int)
    requires IsInt32(n)
    ensures EncodeItem(VInt(n)) == Ok(IntToDecimal(n) + "#0")
    ensures SplitMemberItemString(IntToDecimal(n) + "#0") == Ok((IntToDecimal(n), 0))
    ensures Atom(IntToDecimal(n))
  {
    ItemShape(VInt(n));
    DecimalAtom(n);
    ZeroTagged(IntToDecimal(n));
  }

  /** A value text followed by the tag of int. */
  lemma ZeroTagged(x: string)
    ensures x + SubItemTypeSeparator + IntToDecimal(0) == x + "#0"
  {
    assert IntToDecimal(0) == "0";
  }

  /** The item n#0 of an ArrayList resolves to int. */
  lemma IntElementType(n: int)
    requires IsInt32(n)
    ensures EncodeItem(VInt(n)).Ok? && FindArrayOrListItemType(TArrayList, EncodeItem(VInt(n)).value) == Ok(TInt)
  {
    IntItem(n);
  }

  /** The text of the ArrayList [n#0], opened up as the resolvers open it. */
  lemma IntListText(n: int)
    requires IsInt32(n)
    ensures var list := VArrayList([VInt(n)]);
      Encode(TArrayList, list).Ok? && StripMarkers(Encode(TArrayList, list).value).Ok? && EncodeItem(VInt(n)).Ok?
      && Split(StripMarkers(Encode(TArrayList, list).value).value, CollectionItemSeparator) == Ok([EncodeItem(VInt(n)).value])
  {
    var list := VArrayList([VInt(n)]);
    assert Encodable(list);
    CollectionParts(list);
    assert EncodeItems(list.items).value == [EncodeItem(VInt(n)).value];
  }

  /**
   * An ArrayList [n#0] nested in an erased map: lines 546-557 as written test the
   * element type int instead of the list type and make ArrayList generic, which
   * throws; the corrected branch keeps ArrayList.
   */
  lemma ErasedListResolved(n: int)
    requires IsInt32(n)
    ensures var list := VArrayList([VInt(n)]);
      Encode(TArrayList, list).Ok?
      && FindErasedEntryItemType(TArrayList, Encode(TArrayList, list).value) == Err(CannotCreate)
      && FindErasedEntryItemTypeCorrected(TArrayList, Encode(TArrayList, list).value) == Ok(TArrayList)
  {
    IntListText(n);
    IntElementType(n);
    assert Part([EncodeItem(VInt(n)).value], 0) == Ok(EncodeItem(VInt(n)).value);
  }

  /** FindDictionaryType fails with the value's failure when the key resolves and the value does not. */
  lemma ValueTypeFails(kv: string, kt: string, wt: string, k: Ty, e: Error)
    requires Split(kv, DictionaryKVSeparator) == Ok([kt, wt])
    requires FindDictionaryItemType(TDictDef, kt, true) == Ok(k) && FindDictionaryItemType(TDictDef, wt, false) == Err(e)
    ensures FindDictionaryType(TDictDef, kv) == Err(e)
  {
    assert Part([kt, wt], 0) == Ok(kt) && Part([kt, wt], 1) == Ok(wt);
  }

  /** The item {a#0::[n#0]#21}#24 of an ArrayList: resolving its type throws. */
  lemma NestedMapItemFails(a: int, n: int)
    requires IsInt32(a) && IsInt32(n)
    ensures var d := VDict(TInt, TArrayList, [Entry(VInt(a), VArrayList([VInt(n)]))]);
      EncodeItem(d).Ok? && DecodeItem(TArrayList, EncodeItem(d).value) == Err(CannotCreate)
  {
    var list := VArrayList([VInt(n)]);
    var e := Entry(VInt(a), list);
    var d := VDict(TInt, TArrayList, [e]);
    assert Encodable(list) && Encodable(d);
    MapParts(d);
    var texts := EncodeEntries(d.entries).value;
    assert Join(texts, CollectionItemSeparator) == texts[0];
    NestedEntryTypeFails(a, n);
    ItemShape(d);
    TagOf(d);
  }

  /** The entry a#0::[n#0]#21 of an erased map: its value type makes ArrayList generic, which throws. */
  lemma NestedEntryTypeFails(a: int, n: int)
    requires IsInt32(a) && IsInt32(n)
    ensures var e := Entry(VInt(a), VArrayList([VInt(n)]));
      EncodeEntry(e).Ok? && FindDictionaryType(TDictDef, EncodeEntry(e).value) == Err(CannotCreate)
  {
    var list := VArrayList([VInt(n)]);
    var e := Entry(VInt(a), list);
    assert Encodable(list);
    EntryShape(e);
    EntryItemSound(VInt(a), true);
    ItemShape(list);
    TagOf(list);
    ErasedListResolved(n);
    ValueTypeFails(EncodeEntry(e).value, EncodeItem(VInt(a)).value, EncodeItem(list).value, TInt, CannotCreate);
  }

  /**
   * An ArrayList holding a Dictionary<int, ArrayList> whose only entry maps a to the
   * ArrayList [n] is written [{a#0::[n#0]#21}#24] and, as lines 546-557 are written,
   * cannot be read back: resolving the map's value type makes ArrayList generic.
   */
  lemma NestedArrayListCounterexample(a: int, n: int)
    requires IsInt32(a) && IsInt32(n)
    ensures var v := VArrayList([VDict(TInt, TArrayList, [Entry(VInt(a), VArrayList([VInt(n)]))])]);
      Encode(TArrayList, v).Ok? && Decode(TArrayList, Encode(TArrayList, v).value) == Err(CannotCreate)
  {
    var d := VDict(TInt, TArrayList, [Entry(VInt(a), VArrayList([VInt(n)]))]);
    var v := VArrayList([d]);
    assert Encodable(VArrayList([VInt(n)]));
    assert Encodable(d);
    assert Encodable(v);
    CollectionParts(v);
    NestedMapItemFails(a, n);
    var texts := EncodeItems(v.items).value;
    assert texts == [EncodeItem(d).value] + [];
    FirstItemFails(Encode(TArrayList, v).value, EncodeItem(d).value, []);
  }

  /** An ArrayList of one item y is written [y's item text], and as an item gets ArrayList's tag. */
  lemma SingletonListText(y: Value)
    requires Encodable(y)
    ensures EncodeItem(y).Ok?
    ensures Encode(TArrayList, VArrayList([y])) == Ok(ArrayOrListStart + EncodeItem(y).value + ArrayOrListEnd)
    ensures EncodeItem(VArrayList([y])) ==
      Ok(ArrayOrListStart + EncodeItem(y).value + ArrayOrListEnd + SubItemTypeSeparator + IntToDecimal(CodeOf(TArrayList)))
  {
    var v := VArrayList([y]);
    assert Encodable(v);
    CollectionParts(v);
    ItemShape(v);
    assert EncodeItems(v.items).value == [EncodeItem(y).value];
  }

  /** A map of one entry is written {key item::value item}, and as an item gets Dictionary<,>'s tag. */
  lemma SingletonMapText(k: Ty, w: Ty, e: Entry)
    requires Encodable(e.key) && Encodable(e.value)
    ensures EncodeItem(e.key).Ok? && EncodeItem(e.value).Ok?
    ensures EncodeItem(VDict(k, w, [e])) ==
      Ok(DictionaryStart + (EncodeItem(e.key).value + DictionaryKVSeparator + EncodeItem(e.value).value) + DictionaryEnd
        + SubItemTypeSeparator + IntToDecimal(CodeOf(TDictDef)))
  {
    var d := VDict(k, w, [e]);
    assert Encodable(d);
    MapParts(d);
    EntryShape(e);
    ItemShape(d);
    assert EncodeEntries(d.entries).value == [EncodeEntry(e).value];
  }

  /** The decimal texts of the tags of ArrayList and Dictionary<,>. */
  lemma ContainerTagDigits()
    ensures IntToDecimal(CodeOf(TArrayList)) == "21" && IntToDecimal(CodeOf(TDictDef)) == "24"
  {
    assert CodeOf(TArrayList) == 21 && CodeOf(TDictDef) == 24;
    assert NatToDecimal(2) == ['2'] && DigitChar(1) == '1' && DigitChar(4) == '4';
  }

  /** The grammar's delimiters around two item texts spell [{a#0::[n#0]#21}#24]. */
  lemma NestedTextSpelled(da: string, dn: string)
    ensures var list := ArrayOrListStart + (dn + "#0") + ArrayOrListEnd + SubItemTypeSeparator + "21";
      var d := DictionaryStart + ((da + "#0") + DictionaryKVSeparator + list) + DictionaryEnd + SubItemTypeSeparator + "24";
      ArrayOrListStart + d + ArrayOrListEnd == "[{" + da + "#0::[" + dn + "#0]#21}#24]"
  {
  }

  /**
   * The counterexample on the text the encoder writes for it: for a = 1 and n = 5 the
   * text [{1#0::[5#0]#21}#24].
   */
  lemma NestedArrayListText(a: int, n: int)
    requires IsInt32(a) && IsInt32(n)
    ensures var v := VArrayList([VDict(TInt, TArrayList, [Entry(VInt(a), VArrayList([VInt(n)]))])]);
      var t := "[{" + IntToDecimal(a) + "#0::[" + IntToDecimal(n) + "#0]#21}#24]";
      Encode(TArrayList, v) == Ok(t) && Decode(TArrayList, t) == Err(CannotCreate)
  {
    var list := VArrayList([VInt(n)]);
    var e := Entry(VInt(a), list);
    var d := VDict(TInt, TArrayList, [e]);
    var da, dn := IntToDecimal(a), IntToDecimal(n);
    ContainerTagDigits();
    IntItem(a);
    IntItem(n);
    SingletonListText(VInt(n));
    var lt := ArrayOrListStart + (dn + "#0") + ArrayOrListEnd + SubItemTypeSeparator + "21";
    assert EncodeItem(list) == Ok(lt);
    SingletonMapText(TInt, TArrayList, e);
    var dt := DictionaryStart + ((da + "#0") + DictionaryKVSeparator + lt) + DictionaryEnd + SubItemTypeSeparator + "24";
    assert EncodeItem(d) == Ok(dt);
    SingletonListText(d);
    NestedTextSpelled(da, dn);
    NestedArrayListCounterexample(a, n);
  }

  /**
   * The same value with the nested-list branch corrected: the map's value [n#0]
   * resolves to ArrayList, its key a#0 to int, and under Dictionary<int, ArrayList>
   * the map reads back as itself.
   */
  lemma NestedArrayListIntended(a: int, n: int)
    requires IsInt32(a) && IsInt32(n)
    ensures var list := VArrayList([VInt(n)]);
      Encode(TArrayList, list).Ok?
      && FindErasedEntryItemTypeCorrected(TArrayList, Encode(TArrayList, list).value) == Ok(TArrayList)
    ensures EncodeItem(VInt(a)).Ok? && FindDictionaryItemType(TDictDef, EncodeItem(VInt(a)).value, true) == Ok(TInt)
    ensures var d := VDict(TInt, TArrayList, [Entry(VInt(a), VArrayList([VInt(n)]))]);
      Encode(TDict(TInt, TArrayList), d).Ok? && Decode(TDict(TInt, TArrayList), Encode(TDict(TInt, TArrayList), d).value) == Ok(d)
  {
    var list := VArrayList([VInt(n)]);
    var e := Entry(VInt(a), list);
    var d := VDict(TInt, TArrayList, [e]);
    ErasedListResolved(n);
    EntryItemSound(VInt(a), true);
    assert ErasedItem(VInt(n));
    assert Typed(TArrayList, list);
    assert DistinctKeys([e]);
    assert Typed(TDict(TInt, TArrayList), d);
    MapRoundTrip(TDict(TInt, TArrayList), d);
  }

  /**
   * A Dictionary<ArrayList, int> whose two keys hold the same items is read back with
   * both entries: each key read is a new ArrayList, and the indexer compares ArrayList
   * keys by reference. With n, a, b = 1, 1, 2 the text is {[1#0]#21::1#0,[1#0]#21::2#0}.
   */
  lemma RepeatedArrayListKeys(n: int, a: int, b: int)
    requires IsInt32(n) && IsInt32(a) && IsInt32(b)
    ensures var d := VDict(TArrayList, TInt, [Entry(VArrayList([VInt(n)]), VInt(a)), Entry(VArrayList([VInt(n)]), VInt(b))]);
      Encode(TDict(TArrayList, TInt), d).Ok?
      && Decode(TDict(TArrayList, TInt), Encode(TDict(TArrayList, TInt), d).value) == Ok(d)
  {
    var key := VArrayList([VInt(n)]);
    var d := VDict(TArrayList, TInt, [Entry(key, VInt(a)), Entry(key, VInt(b))]);
    assert ErasedItem(VInt(n));
    assert Typed(TArrayList, key);
    assert DistinctKeys(d.entries);
    assert Typed(TDict(TArrayList, TInt), d);
    MapRoundTrip(TDict(TArrayList, TInt), d);
  }

  /** digits#0 has no marker and none of ':' ',' */
  lemma IntItemPlain(n: int)
    requires IsInt32(n)
    ensures var k := IntToDecimal(n) + "#0";
      Plain(k) && forall i :: 0 <= i < |k| ==> k[i] != ':' && k[i] != ','
  {
    DecimalAtom(n);
    var k := IntToDecimal(n) + "#0";
    assert forall i :: |IntToDecimal(n)| <= i < |k| ==> k[i] == "#0"[i - |IntToDecimal(n)|];
  }

  lemma Join3(x: string, y: string, z: string, sep: string)
    ensures Join([x, y, z], sep) == x + sep + y + sep + z
  {
    assert [x, y, z][1..] == [y, z];
    assert [y, z][1..] == [z];
    assert Join([y, z], sep) == y + sep + Join([z], sep);
    assert Join([x, y, z], sep) == x + sep + Join([y, z], sep);
  }

  /** 0,c is not an integer. */
  lemma CommaNotInt(c: int)
    ensures ParseInteger(['0', ','] + IntToDecimal(c)) == None
  {
    var bad := ['0', ','] + IntToDecimal(c);
    assert !IsDigit(bad[1]);
  }

  /** The tag read off b#0,c#0 is 0,c: not an integer. */
  lemma CommaTag(b: int, c: int)
    requires IsInt32(b) && IsInt32(c)
    ensures var kb, kc := IntToDecimal(b) + "#0", IntToDecimal(c) + "#0";
      SplitMemberItemString(kb + "," + kc) == Err(Format)
      && FindDictionaryItemType(TDictDef, kb + "," + kc, false) == Err(Format)
  {
    var kb, kc := IntToDecimal(b) + "#0", IntToDecimal(c) + "#0";
    DecimalAtom(b);
    DecimalAtom(c);
    var bad := ['0', ','] + IntToDecimal(c);
    assert forall i :: 2 <= i < |bad| ==> bad[i] == IntToDecimal(c)[i - 2];
    Join3(IntToDecimal(b), bad, "0", SubItemTypeSeparator);
    assert kb + "," + kc == IntToDecimal(b) + "#" + bad + "#" + "0";
    PlainSplit([IntToDecimal(b), bad, "0"], SubItemTypeSeparator);
    CommaNotInt(c);
  }

  /** The key part digits#0 of an erased map reads as int. */
  lemma IntKey(a: int)
    requires IsInt32(a)
    ensures FindDictionaryItemType(TDictDef, IntToDecimal(a) + "#0", true) == Ok(TInt)
  {
    IntItem(a);
  }

  /** A map type read from three parts k::w::z fails when w's type cannot be read. */
  lemma ThirdPartIgnored(k: string, w: string, z: string)
    requires Split(Join([k, w, z], DictionaryKVSeparator), DictionaryKVSeparator) == Ok([k, w, z])
    requires FindDictionaryItemType(TDictDef, k, true).Ok?
    requires FindDictionaryItemType(TDictDef, w, false) == Err(Format)
    ensures FindDictionaryType(TDictDef, Join([k, w, z], DictionaryKVSeparator)) == Err(Format)
  {
  }

  /** The characters of y after x and a comma. */
  lemma CommaJoined(x: string, y: string)
    ensures var w := x + "," + y; forall i :: |x| < i < |w| ==> w[i] == y[i - |x| - 1]
  {
  }

  /** a#0::b#0,c#0::d#0 splits at "::" into three parts. */
  lemma SplitThree(a: int, b: int, c: int, d: int)
    requires IsInt32(a) && IsInt32(b) && IsInt32(c) && IsInt32(d)
    ensures var ka, kb, kc, kd := IntToDecimal(a) + "#0", IntToDecimal(b) + "#0", IntToDecimal(c) + "#0", IntToDecimal(d) + "#0";
      Split(Join([ka, kb + "," + kc, kd], DictionaryKVSeparator), DictionaryKVSeparator) == Ok([ka, kb + "," + kc, kd])
  {
    var ka, kb, kc, kd := IntToDecimal(a) + "#0", IntToDecimal(b) + "#0", IntToDecimal(c) + "#0", IntToDecimal(d) + "#0";
    var w := kb + "," + kc;
    IntItemPlain(a);
    IntItemPlain(b);
    IntItemPlain(c);
    IntItemPlain(d);
    CommaJoined(kb, kc);
    PlainSplit([ka, w, kd], DictionaryKVSeparator);
  }

  /** An erased map type read from a::b,c::d: the second part b,c has tag 0,c. */
  lemma ThreeParts(a: int, b: int, c: int, d: int)
    requires IsInt32(a) && IsInt32(b) && IsInt32(c) && IsInt32(d)
    ensures var ka, kb, kc, kd := IntToDecimal(a) + "#0", IntToDecimal(b) + "#0", IntToDecimal(c) + "#0", IntToDecimal(d) + "#0";
      FindDictionaryType(TDictDef, Join([ka, kb + "," + kc, kd], DictionaryKVSeparator)) == Err(Format)
  {
    var ka, kb, kc, kd := IntToDecimal(a) + "#0", IntToDecimal(b) + "#0", IntToDecimal(c) + "#0", IntToDecimal(d) + "#0";
    SplitThree(a, b, c, d);
    IntKey(a);
    CommaTag(b, c);
    ThirdPartIgnored(ka, kb + "," + kc, kd);
  }

  /** Two entries k::v joined by ',' read, at "::", as k, v,k', v'. */
  lemma RegroupEntries(ka: string, kb: string, kc: string, kd: string)
    ensures Join([ka + DictionaryKVSeparator + kb, kc + DictionaryKVSeparator + kd], CollectionItemSeparator)
      == Join([ka, kb + "," + kc, kd], DictionaryKVSeparator)
  {
    Join3(ka, kb + "," + kc, kd, DictionaryKVSeparator);
    assert [ka + DictionaryKVSeparator + kb, kc + DictionaryKVSeparator + kd][1..] == [kc + DictionaryKVSeparator + kd];
  }

  /** An int entry a: b is written a#0::b#0. */
  lemma IntEntryText(a: int, b: int)
    requires IsInt32(a) && IsInt32(b)
    ensures var ka, kb := IntToDecimal(a) + "#0", IntToDecimal(b) + "#0";
      EncodeEntry(Entry(VInt(a), VInt(b))) == Ok(ka + DictionaryKVSeparator + kb)
  {
    IntItem(a);
    IntItem(b);
  }

  /** Two entries are written in order. */
  lemma TwoEntries(e1: Entry, e2: Entry)
    requires Encodable(e1.key) && Encodable(e1.value) && Encodable(e2.key) && Encodable(e2.value)
    ensures EncodeEntry(e1).Ok? && EncodeEntry(e2).Ok?
    ensures EncodeEntries([e1, e2]) == Ok([EncodeEntry(e1).value, EncodeEntry(e2).value])
  {
    var es := [e1, e2];
    EntriesShape(es);
    var texts := EncodeEntries(es).value;
    assert texts == [EncodeEntry(e1).value, EncodeEntry(e2).value] by {
      assert texts[0] == EncodeEntry(es[0]).value && texts[1] == EncodeEntry(es[1]).value;
    }
  }

  /** The entry texts of {a: b, c: d}. */
  lemma TwoEntryTexts(a: int, b: int, c: int, d: int)
    requires IsInt32(a) && IsInt32(b) && IsInt32(c) && IsInt32(d)
    ensures var es := [Entry(VInt(a), VInt(b)), Entry(VInt(c), VInt(d))];
      var ka, kb, kc, kd := IntToDecimal(a) + "#0", IntToDecimal(b) + "#0", IntToDecimal(c) + "#0", IntToDecimal(d) + "#0";
      EncodeEntries(es) == Ok([ka + DictionaryKVSeparator + kb, kc + DictionaryKVSeparator + kd])
  {
    var es := [Entry(VInt(a), VInt(b)), Entry(VInt(c), VInt(d))];
    IntEntryText(a, b);
    IntEntryText(c, d);
    TwoEntries(es[0], es[1]);
  }

  /** A map whose keys and values are all ints can be written. */
  lemma IntMapEncodable(x: Value)
    requires x.VDict? && forall i :: 0 <= i < |x.entries| ==> x.entries[i].key.VInt? && x.entries[i].value.VInt?
    ensures Encodable(x)
  {
    forall i | 0 <= i < |x.entries|
      ensures Encodable(x.entries[i].key) && Encodable(x.entries[i].value)
    {
      assert x.entries[i].key.VInt? && x.entries[i].value.VInt?;
    }
  }

  /**
   * A Dictionary<int, int> with two entries nested in an erased container: its type is
   * read from the whole text between the braces split at "::", whose second part
   * b#0,c#0 has the tag 0,c, which is not an integer.
   */
  lemma TwoIntEntries(a: int, b: int, c: int, d: int)
    requires IsInt32(a) && IsInt32(b) && IsInt32(c) && IsInt32(d)
    ensures var x := VDict(TInt, TInt, [Entry(VInt(a), VInt(b)), Entry(VInt(c), VInt(d))]);
      Encode(TDict(TInt, TInt), x).Ok? && StripMarkers(Encode(TDict(TInt, TInt), x).value).Ok?
      && FindDictionaryType(TDictDef, StripMarkers(Encode(TDict(TInt, TInt), x).value).value) == Err(Format)
  {
    var x := VDict(TInt, TInt, [Entry(VInt(a), VInt(b)), Entry(VInt(c), VInt(d))]);
    IntMapEncodable(x);
    MapParts(x);
    var ka, kb, kc, kd := IntToDecimal(a) + "#0", IntToDecimal(b) + "#0", IntToDecimal(c) + "#0", IntToDecimal(d) + "#0";
    TwoEntryTexts(a, b, c, d);
    RegroupEntries(ka, kb, kc, kd);
    ThreeParts(a, b, c, d);
  }

  /** An empty List<E> is written []. */
  lemma EmptyListText(e: Ty)
    ensures Encode(TList(e), VList(e, [])) == Ok("[]")
  {
    assert EncodeItems([]) == Ok([]);
    assert [ListStartChar] + [] + [ListEndChar] == "[]";
  }

  /** The nested list []#23 has no first element to take the item type from. */
  lemma EmptyNestedItem(e: Ty)
    ensures EncodeItem(VList(e, [])).Ok?
    ensures SplitMemberItemString(EncodeItem(VList(e, [])).value).Ok?
    ensures FindArrayOrListItemType(TArrayList, EncodeItem(VList(e, [])).value) == Err(IndexOutOfRange)
    ensures DecodeItem(TArrayList, EncodeItem(VList(e, [])).value) == Err(IndexOutOfRange)
  {
    var y := VList(e, []);
    ItemShape(y);
    TagOf(y);
    EmptyListText(e);
    Unwrap('[', [], ']');
    assert ['['] + [] + [']'] == "[]";
  }

  /** An ArrayList is not read when its first item is not. */
  lemma FirstItemFails(s: string, first: string, texts: seq<string>)
    requires StripMarkers(s) == Ok(Join([first] + texts, CollectionItemSeparator))
    requires Split(Join([first] + texts, CollectionItemSeparator), CollectionItemSeparator) == Ok([first] + texts)
    requires DecodeItem(TArrayList, first).Err?
    ensures Decode(TArrayList, s) == Err(DecodeItem(TArrayList, first).error)
  {
    var parts := [first] + texts;
    SplitSizes(Join(parts, CollectionItemSeparator), CollectionItemSeparator);
    assert DecodeItems(TArrayList, TObject, parts, |s|, 0, []).Err?;
  }

  /**
   * An object[] holding an int and then an item y of another type is written
   * [n#0,…], but the reader creates an int[] after the first item's tag, and
   * Array.SetValue cannot store y into it: a bool, long, float or double is an
   * ArgumentException, anything else an InvalidCastException.
   */
  lemma MixedArrayFails(n: int, y: Value)
    requires IsInt32(n) && ErasedItem(y) && RuntimeType(y) != TInt
    ensures var v := VArray(TObject, [VInt(n), y]);
      Encode(TArray, v).Ok?
      && Decode(TArray, Encode(TArray, v).value) == Err(if IsPrimitive(RuntimeType(y)) then WrongType else InvalidCast)
  {
    var v := VArray(TObject, [VInt(n), y]);
    MixedArrayParts(n, y);
    EncodeList(TArray, v);
    var texts := [EncodeItem(VInt(n)).value, EncodeItem(y).value];
    var t := Encode(TArray, v).value;
    PartsShorter(t, StripMarkers(t).value, texts);
    MixedItemsFail(n, y, texts, |t|);
    DecodeList(TArray, t);
  }

  /** An object[] holding an int and then a string: the string cannot be stored into the int[] read. */
  lemma StringIntoIntArray(n: int, s: string)
    requires IsInt32(n) && NoQuotes(s)
    ensures var v := VArray(TObject, [VInt(n), VString(s)]);
      Encode(TArray, v).Ok? && Decode(TArray, Encode(TArray, v).value) == Err(InvalidCast)
  {
    MixedArrayFails(n, VString(s));
  }

  /** An object[] holding an int and then a long, written [n#0,l#5]: a long is not widened to int. */
  lemma LongIntoIntArray(n: int, l: int)
    requires IsInt32(n) && IsInt64(l)
    ensures var v := VArray(TObject, [VInt(n), VLong(l)]);
      Encode(TArray, v).Ok? && Decode(TArray, Encode(TArray, v).value) == Err(WrongType)
  {
    MixedArrayFails(n, VLong(l));
  }

  /** The object[] holding n and y is written as its two item texts between brackets. */
  lemma MixedArrayParts(n: int, y: Value)
    requires IsInt32(n) && ErasedItem(y)
    ensures EncodeItem(VInt(n)).Ok? && EncodeItem(y).Ok?
    ensures var v := VArray(TObject, [VInt(n), y]);
      EncodeCollection(v).Ok? && StripMarkers(EncodeCollection(v).value).Ok?
      && Split(StripMarkers(EncodeCollection(v).value).value, CollectionItemSeparator)
        == Ok([EncodeItem(VInt(n)).value, EncodeItem(y).value])
  {
    var v := VArray(TObject, [VInt(n), y]);
    ErasedEncodable(y);
    assert Encodable(v.items[0]) && Encodable(v.items[1]);
    CollectionParts(v);
    var texts := EncodeItems(v.items).value;
    assert |texts| == 2 && texts[0] == EncodeItem(VInt(n)).value && texts[1] == EncodeItem(y).value;
    assert texts == [EncodeItem(VInt(n)).value, EncodeItem(y).value];
  }

  /** The items n#0 and y's text under Array: the first gives the element type int, the second cannot be stored. */
  lemma MixedItemsFail(n: int, y: Value, texts: seq<string>, bound: nat)
    requires IsInt32(n) && ErasedItem(y) && RuntimeType(y) != TInt && EncodeItem(VInt(n)).Ok? && EncodeItem(y).Ok?
    requires texts == [EncodeItem(VInt(n)).value, EncodeItem(y).value] && Shorter(texts, bound)
    ensures FindArrayOrListItemType(TArray, texts[0]) == Ok(TInt)
    ensures DecodeItems(TArray, TInt, texts, bound, 0, []) == Err(if IsPrimitive(RuntimeType(y)) then WrongType else InvalidCast)
  {
    ErasedItemRoundTrip(TArray, VInt(n));
    ItemsStep(TArray, TInt, texts, bound, 0, [], VInt(n));
    ErasedItemRoundTrip(TArray, y);
    ItemNotInt(texts, bound, y, [VInt(n)]);
  }

  /** A part that reads as a non-null value of another type cannot be stored into an int[]: Array.SetValue throws. */
  lemma ItemNotInt(texts: seq<string>, bound: nat, y: Value, acc: seq<Value>)
    requires |texts| == 2 && Shorter(texts, bound) && DecodeItem(TArray, texts[1]) == Ok(y)
    requires !y.VNull? && RuntimeType(y) != TInt
    ensures DecodeItems(TArray, TInt, texts, bound, 1, acc) == Err(if IsPrimitive(RuntimeType(y)) then WrongType else InvalidCast)
  {
    assert StoreItem(TArray, TInt, y) == SetElement(TInt, y);
  }

  /** Under a list or array type, Encode is EncodeCollection. */
  lemma EncodeList(ty: Ty, v: Value)
    requires IsList(ty)
    ensures Encode(ty, v) == EncodeCollection(v)
  {
  }

  /** Under a list or array type, Decode is DecodeCollection. */
  lemma DecodeList(ty: Ty, t: string)
    requires IsList(ty)
    ensures Decode(ty, t) == DecodeCollection(ty, t)
  {
    assert !(ty == TInt || ty.TEnum? || ty == TBool || ty == TFloat || ty == TDouble);
    assert !(ty == TString || ty == TLong || ty == TDateTime);
  }

  /**
   * An empty List<E> inside an ArrayList is written [[]#23] and cannot be read back:
   * the item type is resolved from the first element of the nested list.
   */
  lemma EmptyNestedList(e: Ty)
    ensures Encode(TArrayList, VArrayList([VList(e, [])])).Ok?
    ensures Decode(TArrayList, Encode(TArrayList, VArrayList([VList(e, [])])).value) == Err(IndexOutOfRange)
  {
    var y := VList(e, []);
    var v := VArrayList([y]);
    assert Encodable(v);
    CollectionParts(v);
    EmptyNestedItem(e);
    var texts := EncodeItems(v.items).value;
    assert texts == [EncodeItem(y).value] + [];
    FirstItemFails(Encode(TArrayList, v).value, EncodeItem(y).value, []);
  }

  /** A member of a type the codec does not support is written as nothing and read as null. */
  lemma UnsupportedType(n: string, v: Value, s: string)
    ensures Encode(TOther(n), v) == Ok([]) && Encode(TObject, v) == Ok([])
    ensures Decode(TOther(n), s) == Ok(VNull) && Decode(TObject, s) == Ok(VNull)
  {
    assert !IsScalarType(TOther(n)) && !IsScalarType(TObject);
  }
}
