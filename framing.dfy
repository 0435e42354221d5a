/**
 * The object layer end to end: the text Serialize writes for an object is split back
 * into one segment per member, each segment is claimed by its own member only, and
 * Deserialize stores the value that member held.
 */
module Framing {
  import opened Wrappers
  import opened Grammar
  import opened Numbers
  import opened TypeTags
  import opened Values
  import opened Splitter
  import opened SplitterProperties
  import opened TextShape
  import opened Encoder
  import opened EncoderShape
  import opened Decoder
  import opened RoundTrip
  import opened Formatter

  /**
   * c appears in the top level of the value's text only inside its quotes, brackets or
   * braces: never among the digits of a number, the digit of a bool or the text of a
   * timestamp.
   */
  predicate ClearOf(v: Value, c: char) {
    match v
    case VInt(_) => !IsDigit(c) && c != '-'
    case VEnum(_, _) => !IsDigit(c) && c != '-'
    case VLong(_) => !IsDigit(c) && c != '-'
    case VBool(_) => c != '0' && c != '1'
    case VDateTime(t) => forall i :: 0 <= i < |t| ==> t[i] != c
    case _ => true
  }

  /**
   * A member the member separator c frames: a value that reads back under its type,
   * keeps c out of its top level and whose text does not contain the member's own
   * alias: (which the reader would remove), and an alias without markers, ':' or c.
   */
  predicate Framable(m: Member, c: char) {
    Typed(m.ty, m.value) && ClearOf(m.value, c) && Plain(m.alias)
    && (forall i :: 0 <= i < |m.alias| ==> m.alias[i] != ':' && m.alias[i] != c)
    && (Encode(m.ty, m.value).Ok? ==> Absent(Encode(m.ty, m.value).value, Prefix(m)))
  }

  /** The fields after each member from i on has been stored in turn. */
  function Assigned(fields: map<string, Value>, ms: seq<Member>, i: nat): map<string, Value>
    requires i <= |ms|
    decreases |ms| - i
  {
    if i == |ms| then fields
    else Assigned(fields[ms[i].name := ms[i].value], ms, i + 1)
  }

  /**
   * Storing the members in turn: every member's name is a field afterwards, holding the
   * value of the last member of that name, and every other field keeps its value.
   */
  lemma {:induction false} AssignedFields(fields: map<string, Value>, ms: seq<Member>, i: nat)
    requires i <= |ms|
    ensures var r := Assigned(fields, ms, i);
      fields.Keys <= r.Keys && forall k :: i <= k < |ms| ==> ms[k].name in r
    ensures var r := Assigned(fields, ms, i);
      forall k :: i <= k < |ms| && (forall l :: k < l < |ms| ==> ms[l].name != ms[k].name) ==> r[ms[k].name] == ms[k].value
    ensures var r := Assigned(fields, ms, i);
      forall n :: n in fields && (forall k :: i <= k < |ms| ==> ms[k].name != n) ==> r[n] == fields[n]
    decreases |ms| - i
  {
    if i < |ms| {
      var g := fields[ms[i].name := ms[i].value];
      AssignedFields(g, ms, i + 1);
      var r := Assigned(fields, ms, i);
      assert r == Assigned(g, ms, i + 1);
      forall k | i <= k < |ms| && (forall l :: k < l < |ms| ==> ms[l].name != ms[k].name)
        ensures r[ms[k].name] == ms[k].value
      {
        if k == i {
          assert ms[i].name in g && forall l :: i + 1 <= l < |ms| ==> ms[l].name != ms[i].name;
        }
      }
      forall n | n in fields && (forall k :: i <= k < |ms| ==> ms[k].name != n)
        ensures r[n] == fields[n]
      {
        assert n != ms[i].name && n in g;
      }
    }
  }

  /** The text of a typed value never stops a scan for c from outside every region. */
  lemma EncodeClear(ty: Ty, v: Value, c: char)
    requires Typed(ty, v) && !IsMarker(c) && ClearOf(v, c)
    ensures Encode(ty, v).Ok? && Balanced(Encode(ty, v).value) && NoCut(Encode(ty, v).value, c, Zero)
  {
    TypedEncodable(ty, v);
    if v.VArrayList? || v.VArray? || v.VList? {
      ContainerClear(v, c);
    } else if v.VDict? {
      MapClear(v, c);
    } else {
      ScalarClear(v, c);
    }
  }

  /** A number, a bool or a timestamp is plain text without c; a quoted text only opens a region. */
  lemma ScalarClear(v: Value, c: char)
    requires Encodable(v) && !IsMarker(c) && ClearOf(v, c)
    requires !v.VArrayList? && !v.VArray? && !v.VList? && !v.VDict?
    ensures Encode(RuntimeType(v), v).Ok? && Balanced(Encode(RuntimeType(v), v).value)
    ensures NoCut(Encode(RuntimeType(v), v).value, c, Zero)
  {
    match v
    case VInt(i) =>
      IntToDecimalChars(i);
      DecimalAtom(i);
      AtomText(IntToDecimal(i));
      PlainNoCut(IntToDecimal(i), c, Zero);
    case VEnum(_, o) =>
      IntToDecimalChars(o);
      DecimalAtom(o);
      AtomText(IntToDecimal(o));
      PlainNoCut(IntToDecimal(o), c, Zero);
    case VLong(l) =>
      IntToDecimalChars(l);
      DecimalAtom(l);
      AtomText(IntToDecimal(l));
      PlainNoCut(IntToDecimal(l), c, Zero);
    case VBool(b) =>
      AtomText(if b then "1" else "0");
      PlainNoCut(if b then "1" else "0", c, Zero);
    case VDateTime(t) =>
      AtomText(t);
      PlainNoCut(t, c, Zero);
    case VFloat(t) =>
      QuotedText(t);
    case VDouble(t) =>
      QuotedText(t);
    case VString(s) =>
      QuotedText(s);
  }

  /** A list or array between brackets. */
  lemma ContainerClear(v: Value, c: char)
    requires Encodable(v) && !IsMarker(c) && (v.VArrayList? || v.VArray? || v.VList?)
    ensures Encode(RuntimeType(v), v).Ok? && Balanced(Encode(RuntimeType(v), v).value)
    ensures NoCut(Encode(RuntimeType(v), v).value, c, Zero)
  {
    CollectionParts(v);
    ItemsShape(v.items);
    var texts := EncodeItems(v.items).value;
    JoinInert(texts, CollectionItemSeparator);
    var x := Join(texts, CollectionItemSeparator);
    Bracketed(ListStartChar, x, ListEndChar);
    assert EncodeCollection(v) == Ok([ListStartChar] + x + [ListEndChar]);
  }

  /** A map between braces. */
  lemma MapClear(v: Value, c: char)
    requires Encodable(v) && !IsMarker(c) && v.VDict?
    ensures Encode(RuntimeType(v), v).Ok? && Balanced(Encode(RuntimeType(v), v).value)
    ensures NoCut(Encode(RuntimeType(v), v).value, c, Zero)
  {
    EntriesShape(v.entries);
    var texts := EncodeEntries(v.entries).value;
    JoinInert(texts, CollectionItemSeparator);
    var x := Join(texts, CollectionItemSeparator);
    Bracketed(DictStartChar, x, DictEndChar);
    assert Encode(RuntimeType(v), v) == Ok([DictStartChar] + x + [DictEndChar]);
  }

  /** alias:value is one segment for the member separator. */
  lemma MemberPiece(m: Member, sep: string)
    requires sep != [] && !IsMarker(sep[0]) && sep[0] != ':' && Framable(m, sep[0])
    ensures EncodeMember(m).Ok? && Piece(EncodeMember(m).value, sep)
  {
    var c := sep[0];
    var p := Prefix(m);
    EncodeClear(m.ty, m.value, c);
    var text := Encode(m.ty, m.value).value;
    assert forall i :: 0 <= i < |p| ==> !IsMarker(p[i]) && p[i] != c by {
      forall i | 0 <= i < |p|
        ensures !IsMarker(p[i]) && p[i] != c
      {
        if i < |m.alias| {
          assert p[i] == m.alias[i];
        }
      }
    }
    PlainRun(p, Zero);
    PlainNoCut(p, c, Zero);
    NoCutAppend(p, text, c, Zero);
    RunAppend(Zero, p, text);
  }

  /** The texts of the members, one per member, each one segment for the member separator. */
  lemma {:induction false} MembersShape(ms: seq<Member>, sep: string)
    requires sep != [] && !IsMarker(sep[0]) && sep[0] != ':'
    requires forall k :: 0 <= k < |ms| ==> Framable(ms[k], sep[0])
    ensures EncodeMembers(ms).Ok? && |EncodeMembers(ms).value| == |ms|
    ensures forall k :: 0 <= k < |ms| ==>
      EncodeMember(ms[k]).Ok? && EncodeMembers(ms).value[k] == EncodeMember(ms[k]).value && Piece(EncodeMember(ms[k]).value, sep)
    decreases |ms|
  {
    if ms != [] {
      var n := |ms|;
      var init := ms[..n - 1];
      MembersShape(init, sep);
      MemberPiece(ms[n - 1], sep);
      var texts := EncodeMembers(init).value;
      assert EncodeMembers(ms) == Ok(texts + [EncodeMember(ms[n - 1]).value]);
      forall k | 0 <= k < n
        ensures EncodeMember(ms[k]).Ok? && EncodeMembers(ms).value[k] == EncodeMember(ms[k]).value && Piece(EncodeMember(ms[k]).value, sep)
      {
        if k < n - 1 {
          assert init[k] == ms[k];
        }
      }
    }
  }

  /** With no ':' in either alias, a member's text starts with another's prefix exactly when the aliases agree. */
  lemma PrefixMatch(a: Member, b: Member, text: string)
    requires forall i :: 0 <= i < |a.alias| ==> a.alias[i] != ':'
    requires forall i :: 0 <= i < |b.alias| ==> b.alias[i] != ':'
    ensures StartsWith(Prefix(a) + text, Prefix(b)) <==> a.alias == b.alias
  {
    var s := Prefix(a) + text;
    var p := Prefix(b);
    if StartsWith(s, p) {
      var n := if |a.alias| < |b.alias| then |a.alias| else |b.alias|;
      assert s[n] == s[..|p|][n] == p[n];
      assert |a.alias| == |b.alias|;
      forall i | 0 <= i < |a.alias|
        ensures a.alias[i] == b.alias[i]
      {
        assert s[i] == s[..|p|][i] == p[i];
      }
    }
  }

  /**
   * The reader as written gets a member's value back from the member's text when the
   * value's text does not contain the member's prefix.
   */
  lemma MemberReadsBack(m: Member)
    requires Typed(m.ty, m.value)
    requires Encode(m.ty, m.value).Ok? ==> Absent(Encode(m.ty, m.value).value, Prefix(m))
    ensures EncodeMember(m).Ok? && StartsWith(EncodeMember(m).value, Prefix(m))
    ensures var v := Decode(m.ty, MemberValueTextAsWritten(EncodeMember(m).value, Prefix(m)));
      v.Ok? && Store(m.ty, v.value) == m.value
  {
    RoundTrip.RoundTrip(m.ty, m.value);
    var text := Encode(m.ty, m.value).value;
    PrefixRemoved(Prefix(m), text);
    ReplaceAllPrefix(Prefix(m), text);
    ReplaceAllNoOccurrence(text, Prefix(m));
  }

  /**
   * The corrected reader gets every typed member's value back from the member's text,
   * whatever the value's text contains.
   */
  lemma CorrectedMemberReadsBack(m: Member)
    requires Typed(m.ty, m.value)
    ensures EncodeMember(m).Ok? && StartsWith(EncodeMember(m).value, Prefix(m))
    ensures var v := Decode(m.ty, MemberValueText(EncodeMember(m).value, Prefix(m)));
      v.Ok? && Store(m.ty, v.value) == m.value
  {
    RoundTrip.RoundTrip(m.ty, m.value);
    PrefixRemoved(Prefix(m), Encode(m.ty, m.value).value);
  }

  /** One step of the inner loop: member j's read gives g, and the loop goes on from g. */
  lemma SegmentStep(f: map<string, Value>, ms: seq<Member>, segment: string, j: nat, g: map<string, Value>)
    requires j < |ms| && ReadMember(f, ms[j], segment) == Ok(g)
    ensures ReadSegment(f, ms, segment, j) == ReadSegment(g, ms, segment, j + 1)
  {
  }

  /**
   * The inner loop over one segment that only member i claims: member i's name gets w,
   * the value its text decodes to, and nothing else changes.
   */
  lemma {:induction false} ReadClaimed(f: map<string, Value>, ms: seq<Member>, segment: string, i: nat, j: nat, w: Value)
    requires i < |ms| && j <= |ms|
    requires j <= i ==> ReadMember(f, ms[i], segment) == Ok(f[ms[i].name := w])
    requires forall k :: j <= k < |ms| && k != i ==> !StartsWith(segment, Prefix(ms[k]))
    ensures ReadSegment(f, ms, segment, j) == Ok(if j <= i then f[ms[i].name := w] else f)
    decreases |ms| - j
  {
    if j < |ms| {
      if j == i {
        var g := f[ms[i].name := w];
        SegmentStep(f, ms, segment, j, g);
        ReadClaimed(g, ms, segment, i, j + 1, w);
      } else {
        SegmentStep(f, ms, segment, j, f);
        ReadClaimed(f, ms, segment, i, j + 1, w);
      }
    }
  }

  /** The outer loop over the members' own texts stores every member's value in turn. */
  lemma {:induction false} ReadAll(f: map<string, Value>, ms: seq<Member>, c: char, texts: seq<string>, i: nat)
    requires |texts| == |ms| && i <= |ms|
    requires forall k :: 0 <= k < |ms| ==> Framable(ms[k], c) && ms[k].name in f
    requires forall k, l :: 0 <= k < l < |ms| ==> ms[k].alias != ms[l].alias
    requires forall k :: 0 <= k < |ms| ==> EncodeMember(ms[k]).Ok? && texts[k] == EncodeMember(ms[k]).value
    ensures ReadSegments(f, ms, texts, i) == Ok(Assigned(f, ms, i))
    decreases |ms| - i
  {
    if i < |ms| {
      var m := ms[i];
      var text := Encode(m.ty, m.value).value;
      var segment := texts[i];
      assert segment == Prefix(m) + text;
      forall k | 0 <= k < |ms| && k != i
        ensures !StartsWith(segment, Prefix(ms[k]))
      {
        PrefixMatch(m, ms[k], text);
      }
      PrefixMatch(m, m, text);
      MemberReadsBack(m);
      assert ReadMember(f, m, segment) == Ok(f[m.name := m.value]);
      ReadClaimed(f, ms, segment, i, 0, m.value);
      ReadAll(f[m.name := m.value], ms, c, texts, i + 1);
    }
  }

  /**
   * A serialized object reads back: Deserialize of Serialize's text stores every
   * member's value into its field, the last member of a name winning, and leaves every
   * other field at its default. The aliases must differ and keep ':' and the member
   * separator out, and every value must read back under its declared type.
   */
  lemma FramingRoundTrip(ms: seq<Member>, sep: string, defaults: map<string, Value>)
    requires ms != [] && sep != [] && !IsMarker(sep[0]) && sep[0] != ':'
    requires forall k :: 0 <= k < |ms| ==> Framable(ms[k], sep[0]) && ms[k].name in defaults
    requires forall k, l :: 0 <= k < l < |ms| ==> ms[k].alias != ms[l].alias
    ensures SerializedText(Some(ms), sep).Ok?
    ensures Deserialized(ms, sep, defaults, SerializedText(Some(ms), sep).value) == Ok(Some(Assigned(defaults, ms, 0)))
    ensures var fields := Assigned(defaults, ms, 0);
      forall k :: 0 <= k < |ms| && (forall l :: k < l < |ms| ==> ms[l].name != ms[k].name) ==> fields[ms[k].name] == ms[k].value
    ensures var fields := Assigned(defaults, ms, 0);
      forall n :: n in defaults && (forall k :: 0 <= k < |ms| ==> ms[k].name != n) ==> fields[n] == defaults[n]
  {
    AssignedFields(defaults, ms, 0);
    SerializedSegments(ms, sep);
    ReadAll(defaults, ms, sep[0], EncodeMembers(ms).value, 0);
  }

  /** Serialize's text splits at the member separator into the members' own texts. */
  lemma SerializedSegments(ms: seq<Member>, sep: string)
    requires ms != [] && sep != [] && !IsMarker(sep[0]) && sep[0] != ':'
    requires forall k :: 0 <= k < |ms| ==> Framable(ms[k], sep[0])
    ensures EncodeMembers(ms).Ok? && |EncodeMembers(ms).value| == |ms|
    ensures forall k :: 0 <= k < |ms| ==> EncodeMember(ms[k]).Ok? && EncodeMembers(ms).value[k] == EncodeMember(ms[k]).value
    ensures SerializedText(Some(ms), sep) == Ok(Join(EncodeMembers(ms).value, sep))
    ensures Split(Join(EncodeMembers(ms).value, sep), sep) == Ok(EncodeMembers(ms).value)
  {
    MembersShape(ms, sep);
    var texts := EncodeMembers(ms).value;
    forall p | p in texts
      ensures Piece(p, sep)
    {
    }
    SplitJoin(texts, sep);
  }

  /**
   * Replace(prefix, "") as written removes the prefix wherever it recurs: a string
   * member with alias a holding xa:y is written a:“xa:y”, and reading that segment into
   * an object stores xy. Taking the text after the prefix reads back xa:y.
   */
  lemma ReplaceAllCounterexample(fields: map<string, Value>)
    requires "v" in fields
    ensures var m := Member("v", "a", TString, VString("xa:y"));
      var segment := EncodeMember(m).value;
      && EncodeMember(m) == Ok("a:" + Quoted("xa:y"))
      && MemberValueTextAsWritten(segment, Prefix(m)) == Quoted("xy")
      && ReadMember(fields, m, segment) == Ok(fields["v" := VString("xy")])
      && Decode(TString, MemberValueText(segment, Prefix(m))) == Ok(VString("xa:y"))
  {
    CounterexampleSegment();
    ReplaceAllSteps();
    QuotedDecodes("xy");
    QuotedDecodes("xa:y");
    PrefixRemoved("a:", Quoted("xa:y"));
  }

  /** The member of the counterexample is written a:“xa:y”. */
  lemma CounterexampleSegment()
    ensures var m := Member("v", "a", TString, VString("xa:y"));
      Prefix(m) == "a:" && EncodeMember(m) == Ok("a:" + Quoted("xa:y"))
  {
    var m := Member("v", "a", TString, VString("xa:y"));
    assert Prefix(m) == "a:";
    assert IsScalarType(TString) && EncodeScalar(TString, m.value) == Ok(Quoted("xa:y"));
  }

  /** The corrected reader takes the text after the prefix. */
  lemma PrefixRemoved(p: string, x: string)
    ensures StartsWith(p + x, p) && MemberValueText(p + x, p) == x
  {
    assert (p + x)[..|p|] == p;
  }

  /** Replace("a:", "") on a:“xa:y”, one position at a time. */
  lemma ReplaceAllSteps()
    ensures ReplaceAll("a:" + Quoted("xa:y"), "a:") == Quoted("xy")
  {
    var p := "a:";
    var q0 := StringStartChar;
    var q1 := StringEndChar;
    assert "a:" + Quoted("xa:y") == ['a', ':', q0, 'x', 'a', ':', 'y', q1];
    assert OccursAt(['a', ':', q0, 'x', 'a', ':', 'y', q1], p, 0);
    assert ReplaceAll(['a', ':', q0, 'x', 'a', ':', 'y', q1], p) == ReplaceAll([q0, 'x', 'a', ':', 'y', q1], p);
    assert ReplaceAll([q0, 'x', 'a', ':', 'y', q1], p) == [q0] + ReplaceAll(['x', 'a', ':', 'y', q1], p);
    assert ReplaceAll(['x', 'a', ':', 'y', q1], p) == ['x'] + ReplaceAll(['a', ':', 'y', q1], p);
    assert OccursAt(['a', ':', 'y', q1], p, 0);
    assert ReplaceAll(['a', ':', 'y', q1], p) == ReplaceAll(['y', q1], p);
    assert ReplaceAll(['y', q1], p) == ['y'] + ReplaceAll([q1], p);
    assert Quoted("xy") == [q0, 'x', 'y', q1];
  }

  /** A quoted text without quote characters reads back as that string. */
  lemma QuotedDecodes(s: string)
    requires NoQuotes(s)
    ensures Decode(TString, Quoted(s)) == Ok(VString(s))
  {
    RoundTrip.RoundTrip(TString, VString(s));
  }
}
