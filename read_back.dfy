/**
 * What the reader gives back for a value it did not write the type of. An item of an
 * erased container (ArrayList, Array) is read under the type its tag and its first
 * nested element name: an enumeration comes back as its int, a List<E> of
 * enumerations as a List<int>, an array as an array of its first item's type. This
 * read-back form is written as the same text as the value it comes from, so writing
 * what was read reproduces the text even where the value itself does not come back.
 */
module ReadBackForm {
  import opened Wrappers
  import opened TypeTags
  import opened Values
  import opened Splitter
  import opened Encoder
  import opened Decoder
  import opened RoundTrip
  import opened Formatter

  /** A type with every enumeration in it replaced by int. */
  function EraseEnums(t: Ty): Ty {
    match t
    case TEnum(_) => TInt
    case TList(e) => TList(EraseEnums(e))
    case TArrayOf(e) => TArrayOf(EraseEnums(e))
    case TDict(k, w) => TDict(EraseEnums(k), EraseEnums(w))
    case _ => t
  }

  /**
   * An item of an erased container as it is read back: an enumeration as its int, a
   * list or map with its type arguments free of enumerations, an array with its first
   * item's type as element type, and the items of each in turn.
   */
  function ItemReadBack(y: Value): Value
    decreases y
  {
    match y
    case VEnum(_, o) => VInt(o)
    case VArrayList(zs) => VArrayList(seq(|zs|, i requires 0 <= i < |zs| => ItemReadBack(zs[i])))
    case VArray(e, zs) =>
      var items := seq(|zs|, i requires 0 <= i < |zs| => ItemReadBack(zs[i]));
      VArray(if items != [] && Peek(items[0]).Some? then Peek(items[0]).value else e, items)
    case VList(e, zs) => VList(EraseEnums(e), seq(|zs|, i requires 0 <= i < |zs| => ItemReadBack(zs[i])))
    case VDict(k, w, es) =>
      VDict(EraseEnums(k), EraseEnums(w),
        seq(|es|, i requires 0 <= i < |es| => Entry(ItemReadBack(es[i].key), ItemReadBack(es[i].value))))
    case _ => y
  }

  /**
   * A value of declared type ty as it is read back: unchanged in typed positions, with
   * the items of every ArrayList and Array in it read back as erased items.
   */
  function ReadBack(ty: Ty, v: Value): Value
    decreases v
  {
    match v
    case VArrayList(_) => if ty == TArrayList then ItemReadBack(v) else v
    case VArray(a, zs) =>
      if ty == TArray then ItemReadBack(v)
      else if ty.TArrayOf? then VArray(a, seq(|zs|, i requires 0 <= i < |zs| => ReadBack(ty.elem, zs[i])))
      else v
    case VList(e, zs) =>
      if ty.TList? then VList(e, seq(|zs|, i requires 0 <= i < |zs| => ReadBack(ty.elem, zs[i]))) else v
    case VDict(k, w, es) =>
      if ty.TDict? then
        VDict(k, w, seq(|es|, i requires 0 <= i < |es| => Entry(ReadBack(ty.key, es[i].key), ReadBack(ty.value, es[i].value))))
      else v
    case _ => v
  }

  /** Items written alike one by one are written alike together. */
  lemma {:induction false} ItemsAlike(a: seq<Value>, b: seq<Value>)
    requires |a| == |b| && forall i :: 0 <= i < |a| ==> EncodeItem(a[i]) == EncodeItem(b[i])
    ensures EncodeItems(a) == EncodeItems(b)
    decreases |a|
  {
    if a != [] {
      ItemsAlike(a[..|a| - 1], b[..|b| - 1]);
    }
  }

  /** Entries written alike one by one are written alike together. */
  lemma {:induction false} EntriesAlike(a: seq<Entry>, b: seq<Entry>)
    requires |a| == |b| && forall i :: 0 <= i < |a| ==> EncodeEntry(a[i]) == EncodeEntry(b[i])
    ensures EncodeEntries(a) == EncodeEntries(b)
    decreases |a|
  {
    if a != [] {
      EntriesAlike(a[..|a| - 1], b[..|b| - 1]);
    }
  }

  /** Two collections with the same code and the same item texts are written alike under every declared type. */
  lemma CollectionsAlike(a: Value, b: Value)
    requires IsCollection(a) && IsCollection(b) && ItemCode(a) == ItemCode(b)
    requires EncodeItems(a.items) == EncodeItems(b.items)
    ensures forall t :: Encode(t, a) == Encode(t, b)
    ensures EncodeItem(a) == EncodeItem(b)
  {
    forall t
      ensures Encode(t, a) == Encode(t, b)
    {
    }
    assert Encode(RuntimeType(a), a) == EncodeCollection(a) == EncodeCollection(b) == Encode(RuntimeType(b), b);
  }

  /** Two maps with the same entry texts are written alike under every declared type. */
  lemma MapsAlike(a: Value, b: Value)
    requires a.VDict? && b.VDict? && EncodeEntries(a.entries) == EncodeEntries(b.entries)
    ensures forall t :: Encode(t, a) == Encode(t, b)
    ensures EncodeItem(a) == EncodeItem(b)
  {
    forall t
      ensures Encode(t, a) == Encode(t, b)
    {
    }
    assert Encode(RuntimeType(a), a) == EncodeMap(a) == EncodeMap(b) == Encode(RuntimeType(b), b);
  }

  /** An item read back is written as the item itself, under every declared type and as an item. */
  lemma {:induction false} ItemReadBackText(y: Value)
    ensures forall t :: Encode(t, ItemReadBack(y)) == Encode(t, y)
    ensures EncodeItem(ItemReadBack(y)) == EncodeItem(y)
    decreases y
  {
    var r := ItemReadBack(y);
    match y
    case VEnum(n, o) =>
      forall t
        ensures Encode(t, r) == Encode(t, y)
      {
      }
      assert Encode(TEnum(n), y) == Encode(TInt, r);
    case VArrayList(zs) =>
      forall i | 0 <= i < |zs|
        ensures EncodeItem(r.items[i]) == EncodeItem(zs[i])
      {
        ItemReadBackText(zs[i]);
      }
      ItemsAlike(r.items, zs);
      CollectionsAlike(r, y);
    case VArray(e, zs) =>
      forall i | 0 <= i < |zs|
        ensures EncodeItem(r.items[i]) == EncodeItem(zs[i])
      {
        ItemReadBackText(zs[i]);
      }
      ItemsAlike(r.items, zs);
      CollectionsAlike(r, y);
    case VList(e, zs) =>
      forall i | 0 <= i < |zs|
        ensures EncodeItem(r.items[i]) == EncodeItem(zs[i])
      {
        ItemReadBackText(zs[i]);
      }
      ItemsAlike(r.items, zs);
      CollectionsAlike(r, y);
    case VDict(k, w, es) =>
      forall i | 0 <= i < |es|
        ensures EncodeEntry(r.entries[i]) == EncodeEntry(es[i])
      {
        ItemReadBackText(es[i].key);
        ItemReadBackText(es[i].value);
      }
      EntriesAlike(r.entries, es);
      MapsAlike(r, y);
    case _ =>
  }

  /** A value read back is written as the value itself, under every declared type and as an item. */
  lemma {:induction false} ReadBackText(ty: Ty, v: Value)
    ensures forall t :: Encode(t, ReadBack(ty, v)) == Encode(t, v)
    ensures EncodeItem(ReadBack(ty, v)) == EncodeItem(v)
    decreases v
  {
    var r := ReadBack(ty, v);
    match v
    case VArrayList(_) =>
      if ty == TArrayList {
        ItemReadBackText(v);
      }
    case VArray(a, zs) =>
      if ty == TArray {
        ItemReadBackText(v);
      } else if ty.TArrayOf? {
        forall i | 0 <= i < |zs|
          ensures EncodeItem(r.items[i]) == EncodeItem(zs[i])
        {
          ReadBackText(ty.elem, zs[i]);
        }
        ItemsAlike(r.items, zs);
        CollectionsAlike(r, v);
      }
    case VList(e, zs) =>
      if ty.TList? {
        forall i | 0 <= i < |zs|
          ensures EncodeItem(r.items[i]) == EncodeItem(zs[i])
        {
          ReadBackText(ty.elem, zs[i]);
        }
        ItemsAlike(r.items, zs);
        CollectionsAlike(r, v);
      }
    case VDict(k, w, es) =>
      if ty.TDict? {
        forall i | 0 <= i < |es|
          ensures EncodeEntry(r.entries[i]) == EncodeEntry(es[i])
        {
          ReadBackText(ty.key, es[i].key);
          ReadBackText(ty.value, es[i].value);
        }
        EntriesAlike(r.entries, es);
        MapsAlike(r, v);
      }
    case _ =>
  }

  /** The types Peek can find: no enumeration and no typed array anywhere in them. */
  predicate PeekLike(t: Ty) {
    match t
    case TEnum(_) => false
    case TArrayOf(_) => false
    case TList(e) => PeekLike(e)
    case TDict(k, w) => PeekLike(k) && PeekLike(w)
    case _ => true
  }

  /** Erasing enumerations leaves such a type unchanged. */
  lemma {:induction false} PeekLikeErased(t: Ty)
    requires PeekLike(t)
    ensures EraseEnums(t) == t
  {
    match t
    case TList(e) => PeekLikeErased(e);
    case TDict(k, w) =>
      PeekLikeErased(k);
      PeekLikeErased(w);
    case _ =>
  }

  /** Every type Peek finds is of that kind. */
  lemma {:induction false} PeekIsPeekLike(y: Value)
    ensures Peek(y).Some? ==> PeekLike(Peek(y).value)
    decreases y, 1
  {
    match y
    case VList(_, zs) =>
      if zs != [] {
        PeekIsPeekLike(zs[0]);
      }
    case VDict(_, _, es) =>
      if |es| == 1 {
        EntryPeekIsPeekLike(es[0].key);
        EntryPeekIsPeekLike(es[0].value);
      }
    case _ =>
  }

  /** So is every type PeekEntryItem finds. */
  lemma {:induction false} EntryPeekIsPeekLike(x: Value)
    ensures PeekEntryItem(x).Some? ==> PeekLike(PeekEntryItem(x).value)
    decreases x, 2
  {
    PeekIsPeekLike(x);
  }

  /** A value typed by a type Peek can find is its own erased read-back form. */
  lemma {:induction false} TypedItemReadBack(t: Ty, y: Value)
    requires Typed(t, y) && PeekLike(t)
    ensures ItemReadBack(y) == y
    decreases y, 0
  {
    var r := ItemReadBack(y);
    match y
    case VEnum(_, _) =>
      assert false;
    case VArrayList(zs) =>
      forall i | 0 <= i < |zs|
        ensures r.items[i] == zs[i]
      {
        ErasedItemReadBack(zs[i]);
      }
      assert r.items == zs;
    case VArray(e, zs) =>
      forall i | 0 <= i < |zs|
        ensures r.items[i] == zs[i]
      {
        ErasedItemReadBack(zs[i]);
      }
      assert r.items == zs;
    case VList(e, zs) =>
      PeekLikeErased(e);
      forall i | 0 <= i < |zs|
        ensures r.items[i] == zs[i]
      {
        TypedItemReadBack(e, zs[i]);
      }
      assert r.items == zs;
    case VDict(k, w, es) =>
      PeekLikeErased(k);
      PeekLikeErased(w);
      forall i | 0 <= i < |es|
        ensures r.entries[i] == es[i]
      {
        TypedItemReadBack(k, es[i].key);
        TypedItemReadBack(w, es[i].value);
      }
      assert r.entries == es;
    case _ =>
  }

  /** An item that reads back as itself is its own erased read-back form. */
  lemma {:induction false} ErasedItemReadBack(y: Value)
    requires ErasedItem(y)
    ensures ItemReadBack(y) == y
    decreases y, 1
  {
    PeekIsPeekLike(y);
    TypedItemReadBack(Peek(y).value, y);
  }

  /** A typed value is its own read-back form: the read-back form widens the typed values. */
  lemma {:induction false} TypedReadBack(ty: Ty, v: Value)
    requires Typed(ty, v)
    ensures ReadBack(ty, v) == v
    decreases v
  {
    var r := ReadBack(ty, v);
    match v
    case VArrayList(_) =>
      TypedItemReadBack(TArrayList, v);
    case VArray(a, zs) =>
      if ty == TArray {
        TypedItemReadBack(TArray, v);
      } else {
        forall i | 0 <= i < |zs|
          ensures r.items[i] == zs[i]
        {
          TypedReadBack(ty.elem, zs[i]);
        }
        assert r.items == zs;
      }
    case VList(e, zs) =>
      forall i | 0 <= i < |zs|
        ensures r.items[i] == zs[i]
      {
        TypedReadBack(e, zs[i]);
      }
      assert r.items == zs;
    case VDict(k, w, es) =>
      forall i | 0 <= i < |es|
        ensures r.entries[i] == es[i]
      {
        TypedReadBack(k, es[i].key);
        TypedReadBack(w, es[i].value);
      }
      assert r.entries == es;
    case _ =>
  }

  /**
   * A value whose read-back form is typed is read back as that form: the reader
   * succeeds on its text and what it stores in the slot is ReadBack(ty, v).
   */
  lemma ReadBackRoundTrip(ty: Ty, v: Value)
    requires Typed(ty, ReadBack(ty, v))
    ensures Encode(ty, v).Ok? && Decode(ty, Encode(ty, v).value).Ok?
    ensures Store(ty, Decode(ty, Encode(ty, v).value).value) == ReadBack(ty, v)
  {
    ReadBackText(ty, v);
    RoundTrip.RoundTrip(ty, ReadBack(ty, v));
  }

  /** A member whose field holds the read-back form of its value. */
  function MemberReadBack(m: Member): (r: Member)
    ensures r.name == m.name && r.alias == m.alias && r.ty == m.ty
    ensures EncodeMember(r) == EncodeMember(m)
  {
    ReadBackText(m.ty, m.value);
    m.(value := ReadBack(m.ty, m.value))
  }

  /** Members written alike one by one are written alike together. */
  lemma {:induction false} MembersAlike(a: seq<Member>, b: seq<Member>)
    requires |a| == |b| && forall k :: 0 <= k < |a| ==> EncodeMember(a[k]) == EncodeMember(b[k])
    ensures EncodeMembers(a) == EncodeMembers(b)
    decreases |a|
  {
    if a != [] {
      MembersAlike(a[..|a| - 1], b[..|b| - 1]);
    }
  }

  /** Members with the same names, aliases and types. */
  predicate SameDescriptors(a: seq<Member>, b: seq<Member>) {
    |a| == |b| && forall k :: 0 <= k < |a| ==> a[k].name == b[k].name && a[k].alias == b[k].alias && a[k].ty == b[k].ty
  }

  /** The inner loop reads a segment alike for members with the same descriptors. */
  lemma {:induction false} SegmentAlike(fields: map<string, Value>, a: seq<Member>, b: seq<Member>, segment: string, j: nat)
    requires SameDescriptors(a, b) && j <= |a|
    ensures ReadSegment(fields, a, segment, j) == ReadSegment(fields, b, segment, j)
    decreases |a| - j
  {
    if j < |a| {
      assert ReadMember(fields, a[j], segment) == ReadMember(fields, b[j], segment) by {
        assert Prefix(a[j]) == Prefix(b[j]);
      }
      match ReadMember(fields, a[j], segment)
      case Ok(next) => SegmentAlike(next, a, b, segment, j + 1);
      case Err(_) =>
    }
  }

  /** The outer loop reads the segments alike for members with the same descriptors. */
  lemma {:induction false} SegmentsAlike(fields: map<string, Value>, a: seq<Member>, b: seq<Member>, segments: seq<string>, i: nat)
    requires SameDescriptors(a, b) && i <= |segments|
    ensures ReadSegments(fields, a, segments, i) == ReadSegments(fields, b, segments, i)
    decreases |segments| - i
  {
    if i < |segments| {
      SegmentAlike(fields, a, b, segments[i], 0);
      match ReadSegment(fields, a, segments[i], 0)
      case Ok(next) => SegmentsAlike(next, a, b, segments, i + 1);
      case Err(_) =>
    }
  }

  /** Deserialize reads only the members' names, aliases and types, not the values they were written from. */
  lemma DeserializedAlike(a: seq<Member>, b: seq<Member>, sep: string, defaults: map<string, Value>, s: string)
    requires SameDescriptors(a, b)
    ensures Deserialized(a, sep, defaults, s) == Deserialized(b, sep, defaults, s)
  {
    if a != [] {
      match Split(s, sep)
      case Ok(segments) => SegmentsAlike(defaults, a, b, segments, 0);
      case Err(_) =>
    }
  }
}
