/**
 * The encoder (WriteObjectValue): a value of a declared type written as text, and the
 * StringBuilder-driven procedure of the source proved to write exactly that text.
 */
module Encoder {
  import opened Wrappers
  import opened Grammar
  import opened Numbers
  import opened TypeTags
  import opened Values
  import opened Splitter
  import opened SplitterProperties

  /** A string between the two typographic quotes. */
  function Quoted(t: string): string {
    StringStart + t + StringEnd
  }

  /**
   * The code written after a container item: ConvertTypeToIntValue of its runtime type
   * normalised to a registry row (CodeOf is that search read off the table).
   */
  function ItemCode(v: Value): int {
    CodeOf(GetSupportItemType(RuntimeType(v)))
  }

  /** A value of a list-typed declaration: any of the three collections. */
  predicate IsCollection(v: Value) {
    v.VArrayList? || v.VArray? || v.VList?
  }

  /** The declared types that have a branch of their own before the collection branches. */
  predicate IsScalarType(ty: Ty) {
    ty.TEnum? || ty == TInt || ty == TBool || ty == TFloat || ty == TDouble
    || ty == TString || ty == TLong || ty == TDateTime
  }

  /**
   * WriteObjectValue as a function: the text written for v under the declared type ty,
   * or the exception the writer ends in. Dispatch is on the declared type, in the
   * source's order; types outside every branch write nothing.
   */
  function Encode(ty: Ty, v: Value): Result<string>
    decreases v, 1
  {
    if IsScalarType(ty) then EncodeScalar(ty, v)
    else if IsList(ty) then EncodeCollection(v)
    else if IsDict(ty) then EncodeMap(v)
    else Ok([])
  }

  /** The branches for enumerations, int, bool, float, double, string, long and DateTime. */
  function EncodeScalar(ty: Ty, v: Value): Result<string>
    requires IsScalarType(ty)
  {
    if ty.TEnum? || ty == TInt then
      match v
      case VInt(i) => Ok(IntToDecimal(i))
      case VEnum(_, o) => Ok(IntToDecimal(o))
      case VNull => Err(NullReference)
      case _ => Err(InvalidCast)
    else if ty == TBool then
      match v
      case VBool(b) => Ok(if b then "1" else "0")
      case VNull => Err(NullReference)
      case _ => Err(InvalidCast)
    else if ty == TFloat then
      match v
      case VFloat(t) => Ok(Quoted(t))
      case VNull => Err(NullReference)
      case _ => Err(InvalidCast)
    else if ty == TDouble then
      match v
      case VDouble(t) => Ok(Quoted(t))
      case VNull => Err(NullReference)
      case _ => Err(InvalidCast)
    else if ty == TString then
      match v
      case VString(s) => Ok(Quoted(s))
      case VNull => Ok(Quoted(""))
      case _ => Err(InvalidCast)
    else if ty == TLong then
      match v
      case VLong(l) => Ok(IntToDecimal(l))
      case VNull => Err(NullReference)
      case _ => Err(InvalidCast)
    else
      match v
      case VDateTime(t) => Ok(t)
      case VNull => Err(NullReference)
      case _ => Err(InvalidCast)
  }

  /** The IList branch: the items between brackets, separated by commas. */
  function EncodeCollection(v: Value): Result<string>
    decreases v, 0
  {
    if IsCollection(v) then
      var texts :- EncodeItems(v.items);
      Ok(ArrayOrListStart + Join(texts, CollectionItemSeparator) + ArrayOrListEnd)
    else if v.VNull? then Err(NullReference)
    else Err(InvalidCast)
  }

  /** The IDictionary branch: the entries between braces, separated by commas. */
  function EncodeMap(v: Value): Result<string>
    decreases v, 0
  {
    if v.VDict? then
      var texts :- EncodeEntries(v.entries);
      Ok(DictionaryStart + Join(texts, CollectionItemSeparator) + DictionaryEnd)
    else if v.VNull? then Err(NullReference)
    else Err(InvalidCast)
  }

  /** One container item: its text under its runtime type, then # and its code. A null item has no GetType(). */
  function EncodeItem(v: Value): Result<string>
    decreases v, 2
  {
    if v.VNull? then Err(NullReference)
    else
      var text :- Encode(RuntimeType(v), v);
      Ok(text + SubItemTypeSeparator + IntToDecimal(ItemCode(v)))
  }

  /** The item texts of a collection, in enumeration order; the first failing item decides the error. */
  function EncodeItems(items: seq<Value>): Result<seq<string>>
    decreases items, 0
  {
    if items == [] then Ok([])
    else
      var init :- EncodeItems(items[..|items| - 1]);
      var last :- EncodeItem(items[|items| - 1]);
      Ok(init + [last])
  }

  /** One map entry: the key as an item, ::, the value as an item. */
  function EncodeEntry(e: Entry): Result<string>
    decreases e, 0
  {
    var k :- EncodeItem(e.key);
    var w :- EncodeItem(e.value);
    Ok(k + DictionaryKVSeparator + w)
  }

  /** The entry texts of a map, in enumeration order. */
  function EncodeEntries(entries: seq<Entry>): Result<seq<string>>
    decreases entries, 0
  {
    if entries == [] then Ok([])
    else
      var init :- EncodeEntries(entries[..|entries| - 1]);
      var last :- EncodeEntry(entries[|entries| - 1]);
      Ok(init + [last])
  }

  /**
   * One more item of a collection: the first item that fails decides the error of all the
   * collection's items; otherwise its text is appended to those before it.
   */
  lemma ItemStep(items: seq<Value>, k: nat, texts: seq<string>)
    requires k < |items| && EncodeItems(items[..k]) == Ok(texts)
    ensures EncodeItem(items[k]).Err? ==> EncodeItems(items) == Err(EncodeItem(items[k]).error)
    ensures EncodeItem(items[k]).Ok? ==> EncodeItems(items[..k + 1]) == Ok(texts + [EncodeItem(items[k]).value])
  {
    assert items[..k + 1][..k] == items[..k] && items[..k + 1][k] == items[k];
    if EncodeItem(items[k]).Err? {
      ItemStepFails(items, k, texts);
    }
  }

  /** The failing case of ItemStep, by induction on the items after k. */
  lemma {:induction false} ItemStepFails(items: seq<Value>, k: nat, texts: seq<string>)
    requires k < |items| && EncodeItems(items[..k]) == Ok(texts) && EncodeItem(items[k]).Err?
    ensures EncodeItems(items) == Err(EncodeItem(items[k]).error)
    decreases |items|
  {
    var n := |items|;
    if n == k + 1 {
      assert items[..n - 1] == items[..k];
    } else {
      var init := items[..n - 1];
      assert init[..k] == items[..k] && init[k] == items[k];
      ItemStepFails(init, k, texts);
    }
  }


  /** One more entry of a map, as ItemStep. */
  lemma EntryStep(entries: seq<Entry>, k: nat, texts: seq<string>)
    requires k < |entries| && EncodeEntries(entries[..k]) == Ok(texts)
    ensures EncodeEntry(entries[k]).Err? ==> EncodeEntries(entries) == Err(EncodeEntry(entries[k]).error)
    ensures EncodeEntry(entries[k]).Ok? ==> EncodeEntries(entries[..k + 1]) == Ok(texts + [EncodeEntry(entries[k]).value])
  {
    assert entries[..k + 1][..k] == entries[..k] && entries[..k + 1][k] == entries[k];
    if EncodeEntry(entries[k]).Err? {
      EntryStepFails(entries, k, texts);
    }
  }

  /** The failing case of EntryStep, by induction on the entries after k. */
  lemma {:induction false} EntryStepFails(entries: seq<Entry>, k: nat, texts: seq<string>)
    requires k < |entries| && EncodeEntries(entries[..k]) == Ok(texts) && EncodeEntry(entries[k]).Err?
    ensures EncodeEntries(entries) == Err(EncodeEntry(entries[k]).error)
    decreases |entries|
  {
    var n := |entries|;
    if n == k + 1 {
      assert entries[..n - 1] == entries[..k];
    } else {
      var init := entries[..n - 1];
      assert init[..k] == entries[..k] && init[k] == entries[k];
      EntryStepFails(init, k, texts);
    }
  }


  /** Regrouping appended texts; the writer methods use these instead of sequence extensionality. */
  lemma Regroup(o: string, a: string, b: string, c: string)
    ensures ((o + a) + b) + c == o + ((a + b) + c)
  {
  }

  lemma AppendNothing(o: string)
    ensures o + [] == o
  {
  }

  /** The text of the parts so far, then the separator unless none came before, then one more part. */
  lemma JoinStep(o: string, parts: seq<string>, last: string, sep: string)
    ensures o + Join(parts + [last], sep)
      == (if parts == [] then o + Join(parts, sep) else (o + Join(parts, sep)) + sep) + last
  {
    JoinSnoc(parts, last, sep);
    if parts == [] {
      AppendNothing(o);
    }
  }

  /** The text under construction (System.Text.StringBuilder). */
  class StringBuilder {
    var text: string

    constructor ()
      ensures text == []
    {
      text := [];
    }

    method Append(t: string)
      modifies this
      ensures text == old(text) + t
    {
      text := text + t;
    }
  }

  /**
   * WriteObjectValue: appends the text of v under ty to the writer. When the function
   * Encode succeeds the writer has exactly that text appended; when it fails the method
   * fails with the same exception (the writer then holds a partial text that no caller
   * returns).
   */
  method WriteObjectValue(ty: Ty, v: Value, writer: StringBuilder) returns (r: Result<()>)
    modifies writer
    ensures Encode(ty, v).Ok? ==> r.Ok? && writer.text == old(writer.text) + Encode(ty, v).value
    ensures Encode(ty, v).Err? ==> r == Err(Encode(ty, v).error)
    decreases v, 1
  {
    if IsScalarType(ty) {
      r := WriteScalar(ty, v, writer);
    } else if IsList(ty) {
      r := WriteCollection(v, writer);
    } else if IsDict(ty) {
      r := WriteMap(v, writer);
    } else {
      r := Ok(());
    }
  }

  /** The branches of WriteObjectValue before the collection branches. */
  method WriteScalar(ty: Ty, v: Value, writer: StringBuilder) returns (r: Result<()>)
    requires IsScalarType(ty)
    modifies writer
    ensures EncodeScalar(ty, v).Ok? ==> r.Ok? && writer.text == old(writer.text) + EncodeScalar(ty, v).value
    ensures EncodeScalar(ty, v).Err? ==> r == Err(EncodeScalar(ty, v).error)
  {
    r := Ok(());
    if ty.TEnum? || ty == TInt {
      match v
      case VInt(i) => writer.Append(IntToDecimal(i));
      case VEnum(_, o) => writer.Append(IntToDecimal(o));
      case VNull => r := Err(NullReference);
      case _ => r := Err(InvalidCast);
    } else if ty == TBool {
      match v
      case VBool(b) => writer.Append(if b then "1" else "0");
      case VNull => r := Err(NullReference);
      case _ => r := Err(InvalidCast);
    } else if ty == TFloat || ty == TDouble {
      // the float and double branches hand their invariant text to the string branch
      if ty == TFloat && v.VFloat? {
        WriteQuoted(v.floatText, writer);
      } else if ty == TDouble && v.VDouble? {
        WriteQuoted(v.doubleText, writer);
      } else if v.VNull? {
        r := Err(NullReference);
      } else {
        r := Err(InvalidCast);
      }
    } else if ty == TString {
      match v
      case VString(s) => WriteQuoted(s, writer);
      case VNull => WriteQuoted([], writer);  // StringBuilder.Append(null) appends nothing
      case _ => r := Err(InvalidCast);
    } else if ty == TLong {
      match v
      case VLong(l) => writer.Append(IntToDecimal(l));
      case VNull => r := Err(NullReference);
      case _ => r := Err(InvalidCast);
    } else {
      match v
      case VDateTime(t) => writer.Append(t);
      case VNull => r := Err(NullReference);
      case _ => r := Err(InvalidCast);
    }
  }

  /** The string branch: the text between the two quotes. */
  method WriteQuoted(t: string, writer: StringBuilder)
    modifies writer
    ensures writer.text == old(writer.text) + Quoted(t)
  {
    ghost var o := writer.text;
    writer.Append(StringStart);
    writer.Append(t);
    writer.Append(StringEnd);
    Regroup(o, StringStart, t, StringEnd);
  }

  /** The IList branch of WriteObjectValue. */
  method WriteCollection(v: Value, writer: StringBuilder) returns (r: Result<()>)
    modifies writer
    ensures EncodeCollection(v).Ok? ==> r.Ok? && writer.text == old(writer.text) + EncodeCollection(v).value
    ensures EncodeCollection(v).Err? ==> r == Err(EncodeCollection(v).error)
    decreases v, 0
  {
    writer.Append(ArrayOrListStart);
    if v.VNull? {
      return Err(NullReference);  // foreach over a null collection
    }
    if !IsCollection(v) {
      return Err(InvalidCast);
    }
    ghost var o := old(writer.text);
    r := WriteItems(v.items, writer);
    if r.Ok? {
      ghost var texts := EncodeItems(v.items).value;
      writer.Append(ArrayOrListEnd);
      Regroup(o, ArrayOrListStart, Join(texts, CollectionItemSeparator), ArrayOrListEnd);
    }
  }

  /** The foreach over a collection's items, with its isFirstItem flag. */
  method WriteItems(items: seq<Value>, writer: StringBuilder) returns (r: Result<()>)
    modifies writer
    ensures EncodeItems(items).Ok? ==>
      r.Ok? && writer.text == old(writer.text) + Join(EncodeItems(items).value, CollectionItemSeparator)
    ensures EncodeItems(items).Err? ==> r == Err(EncodeItems(items).error)
    decreases items, 0
  {
    var isFirstItem := true;
    ghost var o := writer.text;
    ghost var texts: seq<string> := [];
    assert items[..0] == [];
    AppendNothing(o);
    for k := 0 to |items|
      invariant EncodeItems(items[..k]) == Ok(texts)
      invariant writer.text == o + Join(texts, CollectionItemSeparator)
      invariant isFirstItem <==> texts == []
    {
      if !isFirstItem {
        writer.Append(CollectionItemSeparator);
      }
      var written := WriteItem(items[k], writer);
      ItemStep(items, k, texts);
      if written.Err? {
        return written;
      }
      JoinStep(o, texts, EncodeItem(items[k]).value, CollectionItemSeparator);
      texts := texts + [EncodeItem(items[k]).value];
      isFirstItem := false;
    }
    assert items[..|items|] == items;
    return Ok(());
  }

  /** The IDictionary branch of WriteObjectValue. */
  method WriteMap(v: Value, writer: StringBuilder) returns (r: Result<()>)
    modifies writer
    ensures EncodeMap(v).Ok? ==> r.Ok? && writer.text == old(writer.text) + EncodeMap(v).value
    ensures EncodeMap(v).Err? ==> r == Err(EncodeMap(v).error)
    decreases v, 0
  {
    writer.Append(DictionaryStart);
    if v.VNull? {
      return Err(NullReference);  // dic.Keys of a null map
    }
    if !v.VDict? {
      return Err(InvalidCast);
    }
    ghost var o := old(writer.text);
    r := WriteEntries(v.entries, writer);
    if r.Ok? {
      ghost var texts := EncodeEntries(v.entries).value;
      writer.Append(DictionaryEnd);
      Regroup(o, DictionaryStart, Join(texts, CollectionItemSeparator), DictionaryEnd);
    }
  }

  /** The foreach over a map's keys, with its isFirstItem flag. */
  method WriteEntries(entries: seq<Entry>, writer: StringBuilder) returns (r: Result<()>)
    modifies writer
    ensures EncodeEntries(entries).Ok? ==>
      r.Ok? && writer.text == old(writer.text) + Join(EncodeEntries(entries).value, CollectionItemSeparator)
    ensures EncodeEntries(entries).Err? ==> r == Err(EncodeEntries(entries).error)
    decreases entries, 0
  {
    var isFirstItem := true;
    ghost var o := writer.text;
    ghost var texts: seq<string> := [];
    assert entries[..0] == [];
    AppendNothing(o);
    for k := 0 to |entries|
      invariant EncodeEntries(entries[..k]) == Ok(texts)
      invariant writer.text == o + Join(texts, CollectionItemSeparator)
      invariant isFirstItem <==> texts == []
    {
      if !isFirstItem {
        writer.Append(CollectionItemSeparator);
      }
      var written := WriteEntry(entries[k], writer);
      EntryStep(entries, k, texts);
      if written.Err? {
        return written;
      }
      JoinStep(o, texts, EncodeEntry(entries[k]).value, CollectionItemSeparator);
      texts := texts + [EncodeEntry(entries[k]).value];
      isFirstItem := false;
    }
    assert entries[..|entries|] == entries;
    return Ok(());
  }

  /**
   * The body of the foreach over a collection, less the separator: the item under its
   * runtime type, #, and its code (written through the int branch).
   */
  method WriteItem(item: Value, writer: StringBuilder) returns (r: Result<()>)
    modifies writer
    ensures EncodeItem(item).Ok? ==> r.Ok? && writer.text == old(writer.text) + EncodeItem(item).value
    ensures EncodeItem(item).Err? ==> r == Err(EncodeItem(item).error)
    decreases item, 2
  {
    if item.VNull? {
      return Err(NullReference);  // item.GetType()
    }
    r := WriteObjectValue(RuntimeType(item), item, writer);
    if r.Err? {
      return;
    }
    ghost var text := Encode(RuntimeType(item), item).value;
    writer.Append(SubItemTypeSeparator);
    writer.Append(IntToDecimal(ItemCode(item)));
    Regroup(old(writer.text), text, SubItemTypeSeparator, IntToDecimal(ItemCode(item)));
  }

  /** The body of the foreach over a map's keys, less the separator: key item, ::, value item. */
  method WriteEntry(e: Entry, writer: StringBuilder) returns (r: Result<()>)
    modifies writer
    ensures EncodeEntry(e).Ok? ==> r.Ok? && writer.text == old(writer.text) + EncodeEntry(e).value
    ensures EncodeEntry(e).Err? ==> r == Err(EncodeEntry(e).error)
    decreases e, 0
  {
    r := WriteItem(e.key, writer);
    if r.Err? {
      return;
    }
    ghost var key := EncodeItem(e.key).value;
    writer.Append(DictionaryKVSeparator);
    r := WriteItem(e.value, writer);
    if r.Ok? {
      Regroup(old(writer.text), key, DictionaryKVSeparator, EncodeItem(e.value).value);
    }
  }
}
