/**
 * The object layer of GiftDataFormatter: Serialize writes each data member as
 * alias:value between member separators, and Deserialize splits a text at the member
 * separator and hands every segment that starts with a member's alias: to the
 * decoder, storing the result into that member's field or property.
 */
module Formatter {
  import opened Wrappers
  import opened Grammar
  import opened TypeTags
  import opened Values
  import opened Splitter
  import opened SplitterProperties
  import opened Encoder
  import opened Decoder

  /**
   * A data member as its attribute reports it: the field or property name, the alias
   * written in the text, the declared type and, when serializing, the current value.
   */
  datatype Member = Member(name: string, alias: string, ty: Ty, value: Value)

  /** The member separator of a type: its model attribute's separator, ";" without one. */
  function FindDataMemberSeparator(modelSeparator: Option<string>): (sep: string)
    ensures modelSeparator.None? ==> sep == ObjectMemberSeparator
    ensures modelSeparator.Some? ==> sep == modelSeparator.value
  {
    match modelSeparator
    case None => ObjectMemberSeparator
    case Some(s) => s
  }

  /** alias: in front of a member's value. */
  function Prefix(m: Member): (p: string)
    ensures |p| == |m.alias| + 1 && p[..|m.alias|] == m.alias && p[|m.alias|] == ':'
  {
    m.alias + MemberAliasSeparator
  }

  /** The text of one member. */
  function EncodeMember(m: Member): Result<string> {
    var text :- Encode(m.ty, m.value);
    Ok(Prefix(m) + text)
  }

  /** The texts of the members in order, or the first member's error. */
  function EncodeMembers(ms: seq<Member>): Result<seq<string>>
    decreases |ms|
  {
    if ms == [] then Ok([])
    else
      var init :- EncodeMembers(ms[..|ms| - 1]);
      var last :- EncodeMember(ms[|ms| - 1]);
      Ok(init + [last])
  }

  /** One more member, as the serializer's loop meets it. */
  lemma {:induction false} MemberStep(ms: seq<Member>, k: nat, texts: seq<string>)
    requires k < |ms| && EncodeMembers(ms[..k]) == Ok(texts)
    ensures EncodeMember(ms[k]).Err? ==> EncodeMembers(ms) == Err(EncodeMember(ms[k]).error)
    ensures EncodeMember(ms[k]).Ok? ==> EncodeMembers(ms[..k + 1]) == Ok(texts + [EncodeMember(ms[k]).value])
    decreases |ms|
  {
    var n := |ms|;
    assert ms[..k + 1][..k] == ms[..k] && ms[..k + 1][k] == ms[k];
    if EncodeMember(ms[k]).Err? && n > k + 1 {
      var init := ms[..n - 1];
      assert init[..k] == ms[..k] && init[k] == ms[k];
      MemberStep(init, k, texts);
    }
  }

  /**
   * Serialize as a function: the empty text for a null object or one without data
   * members, else the members' texts joined by the separator.
   */
  function SerializedText(o: Option<seq<Member>>, sep: string): (r: Result<string>)
    ensures (o.None? || o.value == []) ==> r == Ok([])
  {
    if o.None? || o.value == [] then Ok([])
    else
      var texts :- EncodeMembers(o.value);
      Ok(Join(texts, sep))
  }

  /** Serialize: the members written one after the other into a builder. */
  method Serialize(o: Option<seq<Member>>, sep: string) returns (r: Result<string>)
    ensures r == SerializedText(o, sep)
  {
    if o.None? {
      return Ok([]);
    }
    var ms := o.value;
    if ms == [] {
      return Ok([]);
    }
    var builder := new StringBuilder();
    var isFirstItem := true;
    ghost var texts: seq<string> := [];
    assert ms[..0] == [];
    for k := 0 to |ms|
      invariant EncodeMembers(ms[..k]) == Ok(texts)
      invariant builder.text == Join(texts, sep)
      invariant isFirstItem <==> texts == []
    {
      if !isFirstItem {
        builder.Append(sep);
      }
      ghost var before := builder.text;
      builder.Append(ms[k].alias);
      builder.Append(MemberAliasSeparator);
      var written := WriteObjectValue(ms[k].ty, ms[k].value, builder);
      MemberStep(ms, k, texts);
      if written.Err? {
        return Err(written.error);
      }
      ghost var last := EncodeMember(ms[k]).value;
      Regroup(before, ms[k].alias, MemberAliasSeparator, Encode(ms[k].ty, ms[k].value).value);
      JoinStep([], texts, last, sep);
      assert [] + Join(texts, sep) == Join(texts, sep);
      assert [] + Join(texts + [last], sep) == Join(texts + [last], sep);
      texts := texts + [last];
      isFirstItem := false;
    }
    assert ms[..|ms|] == ms;
    return Ok(builder.text);
  }

  /** p occurs in s at position i. */
  predicate OccursAt(s: string, p: string, i: nat) {
    i + |p| <= |s| && s[i..i + |p|] == p
  }

  /**
   * String.Replace(p, ""): every occurrence of p removed, found left to right without
   * overlap.
   */
  function ReplaceAll(s: string, p: string): (r: string)
    requires p != []
    ensures |r| <= |s|
    decreases |s|
  {
    if |s| < |p| then s
    else if OccursAt(s, p, 0) then ReplaceAll(s[|p|..], p)
    else [s[0]] + ReplaceAll(s[1..], p)
  }

  /** p occurs nowhere in s. */
  predicate Absent(s: string, p: string) {
    forall i :: 0 <= i < |s| ==> !OccursAt(s, p, i)
  }

  /** A leading p is removed, and the scan goes on right after it. */
  lemma ReplaceAllPrefix(p: string, x: string)
    requires p != []
    ensures ReplaceAll(p + x, p) == ReplaceAll(x, p)
  {
    assert OccursAt(p + x, p, 0);
    assert (p + x)[|p|..] == x;
  }

  /** A text in which p does not occur is left as it is. */
  lemma {:induction false} ReplaceAllNoOccurrence(s: string, p: string)
    requires p != [] && Absent(s, p)
    ensures ReplaceAll(s, p) == s
    decreases |s|
  {
    if |s| >= |p| {
      assert !OccursAt(s, p, 0);
      forall i | 0 <= i < |s| - 1
        ensures !OccursAt(s[1..], p, i)
      {
        assert !OccursAt(s, p, i + 1);
        if i + |p| <= |s| - 1 {
          assert s[1..][i..i + |p|] == s[i + 1..i + 1 + |p|];
        }
      }
      ReplaceAllNoOccurrence(s[1..], p);
      assert [s[0]] + s[1..] == s;
    }
  }

  /**
   * The value text Deserialize hands to the decoder, as written: the segment with its
   * prefix replaced by nothing wherever it occurs, not only at the start.
   */
  function MemberValueTextAsWritten(segment: string, prefix: string): (r: string)
    requires prefix != []
    ensures |r| <= |segment|
  {
    ReplaceAll(segment, prefix)
  }

  /**
   * The value text of a segment that starts with a member's prefix as the reader
   * evidently means it (the corrected form of line 189): what follows the prefix.
   */
  function MemberValueText(segment: string, prefix: string): (r: string)
    requires StartsWith(segment, prefix)
    ensures prefix + r == segment
  {
    segment[|prefix|..]
  }

  /**
   * One pass of the inner loop of Deserialize: a member whose prefix starts the
   * segment and whose name is a field or property of the object has the segment's
   * value text (every occurrence of the prefix removed) decoded under its type and
   * stored; a member whose name the object lacks is skipped; a decoding error ends the
   * whole call.
   */
  function ReadMember(fields: map<string, Value>, m: Member, segment: string): (r: Result<map<string, Value>>)
    ensures r.Ok? ==> r.value.Keys == fields.Keys && forall n :: n in fields && n != m.name ==> r.value[n] == fields[n]
    ensures !StartsWith(segment, Prefix(m)) || m.name !in fields ==> r == Ok(fields)
  {
    if StartsWith(segment, Prefix(m)) && m.name in fields then
      var v :- Decode(m.ty, MemberValueTextAsWritten(segment, Prefix(m)));
      Ok(fields[m.name := Store(m.ty, v)])
    else Ok(fields)
  }

  /**
   * The inner loop of Deserialize over the members from j on, for one segment. There
   * is no break: every member that claims the segment is stored, a later one over an
   * earlier one of the same name.
   */
  function ReadSegment(fields: map<string, Value>, ms: seq<Member>, segment: string, j: nat): (r: Result<map<string, Value>>)
    requires j <= |ms|
    ensures r.Ok? ==> r.value.Keys == fields.Keys
    ensures r.Ok? ==> forall n :: n in fields && (forall k :: j <= k < |ms| ==> ms[k].name != n) ==> r.value[n] == fields[n]
    decreases |ms| - j
  {
    if j == |ms| then Ok(fields)
    else
      var next :- ReadMember(fields, ms[j], segment);
      ReadSegment(next, ms, segment, j + 1)
  }

  /** The outer loop of Deserialize over the segments from i on. */
  function ReadSegments(fields: map<string, Value>, ms: seq<Member>, segments: seq<string>, i: nat): (r: Result<map<string, Value>>)
    requires i <= |segments|
    ensures r.Ok? ==> r.value.Keys == fields.Keys
    ensures r.Ok? ==> forall n :: n in fields && (forall k :: 0 <= k < |ms| ==> ms[k].name != n) ==> r.value[n] == fields[n]
    decreases |segments| - i
  {
    if i == |segments| then Ok(fields)
    else
      var next :- ReadSegment(fields, ms, segments[i], 0);
      ReadSegments(next, ms, segments, i + 1)
  }

  /** The rest of the outer loop once a segment's inner loop has ended with r. */
  function ReadRest(r: Result<map<string, Value>>, ms: seq<Member>, segments: seq<string>, i: nat): Result<map<string, Value>>
    requires i <= |segments|
  {
    match r
    case Err(e) => Err(e)
    case Ok(fields) => ReadSegments(fields, ms, segments, i)
  }

  /**
   * Deserialize as a function, on the fields of a new object (each with its default):
   * none (default(T)) for a type without data members, else the fields after every
   * segment of the text has been read.
   */
  function Deserialized(ms: seq<Member>, sep: string, defaults: map<string, Value>, s: string): (r: Result<Option<map<string, Value>>>)
    ensures ms == [] ==> r == Ok(None)
    ensures r.Ok? && r.value.Some? ==> r.value.value.Keys == defaults.Keys
  {
    if ms == [] then Ok(None)
    else
      var segments :- Split(s, sep);
      var fields :- ReadSegments(defaults, ms, segments, 0);
      Ok(Some(fields))
  }

  /** The object Deserialize creates: its fields and properties by name. */
  class Record {
    var fields: map<string, Value>

    /** new T(): every field holds its default. */
    constructor (defaults: map<string, Value>)
      ensures fields == defaults
    {
      fields := defaults;
    }

    /** FieldInfo.SetValue / PropertyInfo.SetValue. */
    method SetValue(name: string, v: Value)
      modifies this
      ensures fields == old(fields)[name := v]
    {
      fields := fields[name := v];
    }
  }

  /**
   * The body of the inner loop of Deserialize: when the member's prefix starts the
   * segment and the object has the member's field or property, the value text is
   * read under the member's type and stored there.
   */
  method ReadMemberInto(o: Record, m: Member, segment: string) returns (r: Result<()>)
    modifies o
    ensures r.Ok? <==> ReadMember(old(o.fields), m, segment).Ok?
    ensures r.Ok? ==> o.fields == ReadMember(old(o.fields), m, segment).value
    ensures r.Err? ==> r.error == ReadMember(old(o.fields), m, segment).error
  {
    var prefix := m.alias + MemberAliasSeparator;
    if StartsWith(segment, prefix) && m.name in o.fields {
      var valueString := MemberValueTextAsWritten(segment, prefix);
      var valueObject := ReadObjectValue(m.ty, valueString);
      if valueObject.Err? {
        return Err(valueObject.error);
      }
      o.SetValue(m.name, Store(m.ty, valueObject.value));
    }
    return Ok(());
  }

  /** Deserialize: split the text, then match every segment against every member. */
  method Deserialize(ms: seq<Member>, sep: string, defaults: map<string, Value>, s: string) returns (r: Result<Option<Record>>)
    ensures r.Ok? <==> Deserialized(ms, sep, defaults, s).Ok?
    ensures r.Err? ==> r.error == Deserialized(ms, sep, defaults, s).error
    ensures r.Ok? ==> (r.value.Some? <==> Deserialized(ms, sep, defaults, s).value.Some?)
    ensures r.Ok? && r.value.Some? ==> fresh(r.value.value) && r.value.value.fields == Deserialized(ms, sep, defaults, s).value.value
  {
    if ms == [] {
      return Ok(None);
    }
    var o := new Record(defaults);
    var split := SplitOrganizedString(s, sep, []);
    assert Appended([], Split(s, sep)) == Split(s, sep) by {
      if Split(s, sep).Ok? {
        assert [] + Split(s, sep).value == Split(s, sep).value;
      }
    }
    if split.Err? {
      return Err(split.error);
    }
    var segments := split.value;
    for i := 0 to |segments|
      invariant ReadSegments(defaults, ms, segments, 0) == ReadSegments(o.fields, ms, segments, i)
    {
      ghost var start := o.fields;
      for j := 0 to |ms|
        invariant ReadSegments(start, ms, segments, i) == ReadRest(ReadSegment(o.fields, ms, segments[i], j), ms, segments, i + 1)
      {
        var pass := ReadMemberInto(o, ms[j], segments[i]);
        if pass.Err? {
          return Err(pass.error);
        }
      }
    }
    return Ok(Some(o));
  }
}
