/**
 * What the encoder's output looks like to the splitter: every value it writes is read
 * whole by the splits on ',', '#' and "::", and every item text value#code splits back
 * into the value's text and its code.
 */
module EncoderShape {
  import opened Wrappers
  import opened Grammar
  import opened Numbers
  import opened TypeTags
  import opened Values
  import opened Splitter
  import opened TextShape
  import opened Encoder

  /**
   * The values the encoder writes in full: no null and no unsupported value anywhere
   * (those have no text of their own), no quote character inside a quoted text, and a
   * timestamp written as an atom.
   */
  predicate Encodable(v: Value)
    decreases v
  {
    match v
    case VNull => false
    case VOther(_) => false
    case VFloat(t) => NoQuotes(t)
    case VDouble(t) => NoQuotes(t)
    case VString(s) => NoQuotes(s)
    case VDateTime(t) => Atom(t)
    case VArrayList(zs) => forall i :: 0 <= i < |zs| ==> Encodable(zs[i])
    case VArray(_, zs) => forall i :: 0 <= i < |zs| ==> Encodable(zs[i])
    case VList(_, zs) => forall i :: 0 <= i < |zs| ==> Encodable(zs[i])
    case VDict(_, _, es) => forall i :: 0 <= i < |es| ==> Encodable(es[i].key) && Encodable(es[i].value)
    case _ => true
  }

  lemma DecimalAtom(i: int)
    ensures Atom(IntToDecimal(i))
  {
    IntToDecimalChars(i);
  }

  /** The code after an item, and the type the reader finds for it: an enumeration reads back as int. */
  lemma TagOf(v: Value)
    requires Encodable(v)
    ensures 0 <= ItemCode(v) <= 24 && IsInt32(ItemCode(v))
    ensures TypeOf(ItemCode(v)) == if v.VEnum? then TInt else GetSupportItemType(RuntimeType(v))
  {
  }

  /** An encodable value is written in full, as the text of a value. */
  lemma {:induction false} EncodeShape(v: Value)
    requires Encodable(v)
    ensures Encode(RuntimeType(v), v).Ok? && ValueText(Encode(RuntimeType(v), v).value)
    decreases v, 1
  {
    match v
    case VInt(i) =>
      DecimalAtom(i);
      AtomText(IntToDecimal(i));
    case VEnum(_, o) =>
      DecimalAtom(o);
      AtomText(IntToDecimal(o));
    case VBool(b) =>
      AtomText(if b then "1" else "0");
    case VFloat(t) =>
      QuotedText(t);
    case VDouble(t) =>
      QuotedText(t);
    case VString(s) =>
      QuotedText(s);
    case VLong(l) =>
      DecimalAtom(l);
      AtomText(IntToDecimal(l));
    case VDateTime(t) =>
      AtomText(t);
    case VArrayList(zs) =>
      CollectionShape(v);
    case VArray(_, zs) =>
      CollectionShape(v);
    case VList(_, zs) =>
      CollectionShape(v);
    case VDict(_, _, es) =>
      EntriesShape(es);
      var texts := EncodeEntries(es).value;
      JoinInert(texts, CollectionItemSeparator);
      Bracketed(DictStartChar, Join(texts, CollectionItemSeparator), DictEndChar);
  }

  /** The items of a collection between brackets. */
  lemma {:induction false} CollectionShape(v: Value)
    requires IsCollection(v) && Encodable(v)
    ensures EncodeCollection(v).Ok? && ValueText(EncodeCollection(v).value)
    decreases v, 0
  {
    ItemsShape(v.items);
    var texts := EncodeItems(v.items).value;
    JoinInert(texts, CollectionItemSeparator);
    Bracketed(ListStartChar, Join(texts, CollectionItemSeparator), ListEndChar);
  }

  /** An item is written as value#code, read whole by the ',' and "::" splits and cut back at the #. */
  lemma {:induction false} ItemShape(y: Value)
    requires Encodable(y)
    ensures EncodeItem(y).Ok? && Encode(RuntimeType(y), y).Ok?
    ensures EncodeItem(y).value == Encode(RuntimeType(y), y).value + SubItemTypeSeparator + IntToDecimal(ItemCode(y))
    ensures ItemText(EncodeItem(y).value)
    ensures SplitMemberItemString(EncodeItem(y).value) == Ok((Encode(RuntimeType(y), y).value, ItemCode(y)))
    decreases y, 2
  {
    EncodeShape(y);
    var text := Encode(RuntimeType(y), y).value;
    var tag := IntToDecimal(ItemCode(y));
    DecimalAtom(ItemCode(y));
    ItemOf(text, tag);
    SplitItemText(text, tag);
    TagOf(y);
    Int32RoundTrip(ItemCode(y));
  }

  /** The item texts of a collection: one per item, in order, each read whole by the ',' split. */
  lemma {:induction false} ItemsShape(zs: seq<Value>)
    requires forall i :: 0 <= i < |zs| ==> Encodable(zs[i])
    ensures EncodeItems(zs).Ok? && |EncodeItems(zs).value| == |zs|
    ensures forall i :: 0 <= i < |zs| ==>
      EncodeItem(zs[i]).Ok? && EncodeItems(zs).value[i] == EncodeItem(zs[i]).value && ItemText(EncodeItem(zs[i]).value)
    decreases zs, 0
  {
    if zs != [] {
      var n := |zs|;
      var init := zs[..n - 1];
      ItemsShape(init);
      ItemShape(zs[n - 1]);
      var texts := EncodeItems(init).value;
      assert EncodeItems(zs) == Ok(texts + [EncodeItem(zs[n - 1]).value]);
      forall i | 0 <= i < n
        ensures EncodeItem(zs[i]).Ok? && EncodeItems(zs).value[i] == EncodeItem(zs[i]).value && ItemText(EncodeItem(zs[i]).value)
      {
        if i < n - 1 {
          assert init[i] == zs[i];
        }
      }
    }
  }

  /** An entry is written as key#code::value#code and cut back at the ::. */
  lemma {:induction false} EntryShape(e: Entry)
    requires Encodable(e.key) && Encodable(e.value)
    ensures EncodeItem(e.key).Ok? && EncodeItem(e.value).Ok? && EncodeEntry(e).Ok?
    ensures EncodeEntry(e).value == EncodeItem(e.key).value + DictionaryKVSeparator + EncodeItem(e.value).value
    ensures EntryText(EncodeEntry(e).value)
    ensures Split(EncodeEntry(e).value, DictionaryKVSeparator) == Ok([EncodeItem(e.key).value, EncodeItem(e.value).value])
    decreases e, 0
  {
    ItemShape(e.key);
    ItemShape(e.value);
    EntryOf(EncodeItem(e.key).value, EncodeItem(e.value).value);
    SplitEntryText(EncodeItem(e.key).value, EncodeItem(e.value).value);
  }

  /** The entry texts of a map: one per entry, in order, each read whole by the ',' split. */
  lemma {:induction false} EntriesShape(es: seq<Entry>)
    requires forall i :: 0 <= i < |es| ==> Encodable(es[i].key) && Encodable(es[i].value)
    ensures EncodeEntries(es).Ok? && |EncodeEntries(es).value| == |es|
    ensures forall i :: 0 <= i < |es| ==>
      EncodeEntry(es[i]).Ok? && EncodeEntries(es).value[i] == EncodeEntry(es[i]).value && EntryText(EncodeEntry(es[i]).value)
    decreases es, 0
  {
    if es != [] {
      var n := |es|;
      var init := es[..n - 1];
      EntriesShape(init);
      EntryShape(es[n - 1]);
      var texts := EncodeEntries(init).value;
      assert EncodeEntries(es) == Ok(texts + [EncodeEntry(es[n - 1]).value]);
      forall i | 0 <= i < n
        ensures EncodeEntry(es[i]).Ok? && EncodeEntries(es).value[i] == EncodeEntry(es[i]).value && EntryText(EncodeEntry(es[i]).value)
      {
        if i < n - 1 {
          assert init[i] == es[i];
        }
      }
    }
  }
}
