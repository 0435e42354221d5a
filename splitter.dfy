/**
 * The depth-aware splitter (SplitOrganizedString) and the item/tag splitter built on it
 * (SplitMemberItemString).
 */
module Splitter {
  import opened Wrappers
  import opened Grammar
  import opened Numbers

  /** The three nesting counters: arrayOrListDepth, dictionaryDepth and stringDepth. */
  datatype Depth = Depth(list: int, dict: int, quote: int)

  const Zero: Depth := Depth(0, 0, 0)

  /** Some region is open: the inner loop runs while this holds. */
  predicate Open(d: Depth) {
    d.list > 0 || d.dict > 0 || d.quote > 0
  }

  /** One character consumed by the outer loop: it only looks for the three openers. */
  function OuterStep(d: Depth, c: char): Depth {
    if c == ListStartChar then d.(list := d.list + 1)
    else if c == DictStartChar then d.(dict := d.dict + 1)
    else if c == StringStartChar then d.(quote := d.quote + 1)
    else d
  }

  /**
   * One character consumed by the inner loop: brackets and braces count only
   * outside a quote, quotes always count.
   */
  function InnerStep(d: Depth, c: char): Depth {
    var isOutOfString := d.quote == 0;
    if c == ListStartChar then (if isOutOfString then d.(list := d.list + 1) else d)
    else if c == ListEndChar then (if isOutOfString then d.(list := d.list - 1) else d)
    else if c == DictStartChar then (if isOutOfString then d.(dict := d.dict + 1) else d)
    else if c == DictEndChar then (if isOutOfString then d.(dict := d.dict - 1) else d)
    else if c == StringStartChar then d.(quote := d.quote + 1)
    else if c == StringEndChar then d.(quote := d.quote - 1)
    else d
  }

  /** The step the scanner takes in state d: the inner loop's while a region is open, else the outer loop's. */
  function Step(d: Depth, c: char): Depth {
    if Open(d) then InnerStep(d, c) else OuterStep(d, c)
  }

  /** The counters after scanning t from d. */
  function Run(d: Depth, t: string): Depth
    decreases |t|
  {
    if t == [] then d else Run(Step(d, t[0]), t[1..])
  }

  function Shift(r: Result<nat>, n: nat): Result<nat> {
    match r
    case Ok(k) => Ok(k + n)
    case Err(e) => Err(e)
  }

  /**
   * The two loops of SplitOrganizedString, from a position whose remaining text is t
   * and whose counters are d: how many more characters they consume before stopping
   * at a top-level separator or at the end of the text. Reaching the end inside a
   * region makes the next Substring throw.
   */
  function Scan(t: string, sep: string, d: Depth): (r: Result<nat>)
    ensures r.Ok? ==> r.value <= |t|
    ensures r.Err? ==> r.error == Unterminated
    decreases |t|
  {
    if !Open(d) && (t == [] || StartsWith(t, sep)) then Ok(0)
    else if t == [] then Err(Unterminated)
    else Shift(Scan(t[1..], sep, Step(d, t[0])), 1)
  }

  /** The same scan, by position in the whole text s, as the loops index it. */
  function ScanFrom(s: string, sep: string, i: nat, d: Depth): Result<nat>
    requires i <= |s|
    decreases |s| - i
  {
    if !Open(d) && (i == |s| || StartsWith(s[i..], sep)) then Ok(i)
    else if i == |s| then Err(Unterminated)
    else ScanFrom(s, sep, i + 1, Step(d, s[i]))
  }

  lemma {:induction false} ScanFromSuffix(s: string, sep: string, i: nat, d: Depth)
    requires i <= |s|
    ensures ScanFrom(s, sep, i, d) == Shift(Scan(s[i..], sep, d), i)
    decreases |s| - i
  {
    var t := s[i..];
    if !Open(d) && (i == |s| || StartsWith(t, sep)) {
      assert Scan(t, sep, d) == Ok(0);
    } else if i == |s| {
      assert t == [];
    } else {
      assert t[0] == s[i] && t[1..] == s[i + 1..];
      ScanFromSuffix(s, sep, i + 1, Step(d, s[i]));
    }
  }

  /** At a position inside the text, each marker test of the loops is a test of one character. */
  lemma MarkerAt(s: string, i: nat)
    requires i < |s|
    ensures StartsWith(s[i..], ArrayOrListStart) <==> s[i] == ListStartChar
    ensures StartsWith(s[i..], ArrayOrListEnd) <==> s[i] == ListEndChar
    ensures StartsWith(s[i..], DictionaryStart) <==> s[i] == DictStartChar
    ensures StartsWith(s[i..], DictionaryEnd) <==> s[i] == DictEndChar
    ensures StartsWith(s[i..], StringStart) <==> s[i] == StringStartChar
    ensures StartsWith(s[i..], StringEnd) <==> s[i] == StringEndChar
    ensures s[i..][1..] == s[i + 1..]
  {
    StartsWithChar(s[i..], ListStartChar);
    StartsWithChar(s[i..], ListEndChar);
    StartsWithChar(s[i..], DictStartChar);
    StartsWithChar(s[i..], DictEndChar);
    StartsWithChar(s[i..], StringStartChar);
    StartsWithChar(s[i..], StringEndChar);
  }

  /** The inner loop's branches, in their order, each with the counters it leaves. */
  lemma InnerAt(s: string, i: nat, d: Depth)
    requires i < |s| && Open(d)
    ensures var t := s[i..];
      if StartsWith(t, ArrayOrListStart) then
        Step(d, s[i]) == if d.quote == 0 then d.(list := d.list + 1) else d
      else if StartsWith(t, ArrayOrListEnd) then
        Step(d, s[i]) == if d.quote == 0 then d.(list := d.list - 1) else d
      else if StartsWith(t, DictionaryStart) then
        Step(d, s[i]) == if d.quote == 0 then d.(dict := d.dict + 1) else d
      else if StartsWith(t, DictionaryEnd) then
        Step(d, s[i]) == if d.quote == 0 then d.(dict := d.dict - 1) else d
      else if StartsWith(t, StringStart) then Step(d, s[i]) == d.(quote := d.quote + 1)
      else if StartsWith(t, StringEnd) then Step(d, s[i]) == d.(quote := d.quote - 1)
      else Step(d, s[i]) == d
  {
    MarkerAt(s, i);
  }

  /** The outer loop's branches, in their order, each with the counters it leaves. */
  lemma OuterAt(s: string, i: nat, d: Depth)
    requires i < |s| && !Open(d)
    ensures var t := s[i..];
      if StartsWith(t, ArrayOrListStart) then Step(d, s[i]) == d.(list := d.list + 1)
      else if StartsWith(t, DictionaryStart) then Step(d, s[i]) == d.(dict := d.dict + 1)
      else if StartsWith(t, StringStart) then Step(d, s[i]) == d.(quote := d.quote + 1)
      else Step(d, s[i]) == d
  {
    MarkerAt(s, i);
  }

  function Min(a: int, b: int): int {
    if a < b then a else b
  }

  /** The text after a segment of length i and the separator that ends it. */
  function Remainder(s: string, sep: string, i: nat): string
    requires i <= |s|
  {
    s[Min(i + |sep|, |s|)..]
  }

  /**
   * SplitOrganizedString as a function: the top-level segments of s in order.
   * A segment that ends the scan at position 0 of a non-empty text (a leading or
   * doubled separator, or an empty separator) makes the source recurse on the same
   * text for ever: NoProgress.
   */
  function Split(s: string, sep: string): (r: Result<seq<string>>)
    ensures r.Ok? ==> (r.value == [] <==> s == [])
    ensures r.Err? ==> r.error == Unterminated || r.error == NoProgress
    decreases |s|
  {
    if s == [] then Ok([])
    else
      match Scan(s, sep, Zero)
      case Err(e) => Err(e)
      case Ok(i) =>
        if i == 0 then Err(NoProgress)
        else
          var rest := Remainder(s, sep, i);
          if rest == [] then Ok([s[..i]])
          else
            match Split(rest, sep)
            case Err(e) => Err(e)
            case Ok(tail) => Ok([s[..i]] + tail)
  }

  /** Split, once the scan of its first segment is known. */
  lemma SplitAt(s: string, sep: string, i: nat)
    requires Scan(s, sep, Zero) == Ok(i)
    ensures i <= |s|
    ensures s == [] ==> Split(s, sep) == Ok([])
    ensures s != [] && i == 0 ==> Split(s, sep) == Err(NoProgress)
    ensures s != [] && i > 0 && Remainder(s, sep, i) == [] ==> Split(s, sep) == Ok([s[..i]])
    ensures s != [] && i > 0 && Remainder(s, sep, i) != [] ==>
      Split(s, sep) == Appended([s[..i]], Split(Remainder(s, sep, i), sep))
  {
  }

  /** Every segment is non-empty and, when there are several, shorter than the text. */
  lemma {:induction false} SplitSizes(s: string, sep: string)
    requires Split(s, sep).Ok?
    ensures forall p :: p in Split(s, sep).value ==> 0 < |p| <= |s|
    ensures |Split(s, sep).value| >= 2 ==> forall p :: p in Split(s, sep).value ==> |p| < |s|
    decreases |s|
  {
    if s != [] {
      var i := Scan(s, sep, Zero).value;
      var rest := Remainder(s, sep, i);
      if rest != [] {
        SplitSizes(rest, sep);
        assert Split(s, sep).value == [s[..i]] + Split(rest, sep).value;
      }
    }
  }

  /** The segments put back together, the separator between each two. */
  function Join(parts: seq<string>, sep: string): string {
    if parts == [] then []
    else if |parts| == 1 then parts[0]
    else parts[0] + sep + Join(parts[1..], sep)
  }

  /** The list the source's ref parameter holds after a call that started with acc. */
  function Appended(acc: seq<string>, r: Result<seq<string>>): Result<seq<string>> {
    match r
    case Ok(parts) => Ok(acc + parts)
    case Err(e) => Err(e)
  }

  lemma AppendedTwice(acc: seq<string>, part: string, r: Result<seq<string>>)
    ensures Appended(acc, Appended([part], r)) == Appended(acc + [part], r)
  {
    if r.Ok? {
      assert acc + ([part] + r.value) == (acc + [part]) + r.value;
    }
  }

  /**
   * The two loops of SplitOrganizedString: the index at which the first top-level
   * segment of s ends. Reaching the end of s inside a region is where the source's
   * next s.Substring(startIndex) throws.
   */
  method FindSegmentEnd(s: string, sep: string) returns (r: Result<nat>)
    ensures r == Scan(s, sep, Zero)
  {
    var arrayOrListDepth, dictionaryDepth, stringDepth := 0, 0, 0;
    var startIndex: nat := 0;
    ghost var total := ScanFrom(s, sep, 0, Zero);
    ScanFromSuffix(s, sep, 0, Zero);
    assert s[0..] == s;

    while !StartsWith(s[startIndex..], sep)
      invariant startIndex <= |s|
      invariant !Open(Depth(arrayOrListDepth, dictionaryDepth, stringDepth))
      invariant total == ScanFrom(s, sep, startIndex, Depth(arrayOrListDepth, dictionaryDepth, stringDepth))
      decreases |s| - startIndex
    {
      if startIndex >= |s| {
        startIndex := |s|;
        break;
      }
      ghost var before := Depth(arrayOrListDepth, dictionaryDepth, stringDepth);
      ghost var at := startIndex;
      OuterAt(s, startIndex, before);
      if StartsWith(s[startIndex..], ArrayOrListStart) {
        arrayOrListDepth := arrayOrListDepth + 1;
        startIndex := startIndex + |ArrayOrListStart|;
      } else if StartsWith(s[startIndex..], DictionaryStart) {
        dictionaryDepth := dictionaryDepth + 1;
        startIndex := startIndex + |DictionaryStart|;
      } else if StartsWith(s[startIndex..], StringStart) {
        stringDepth := stringDepth + 1;
        startIndex := startIndex + |StringStart|;
      } else {
        startIndex := startIndex + 1;
      }
      assert startIndex == at + 1;
      assert Depth(arrayOrListDepth, dictionaryDepth, stringDepth) == Step(before, s[at]);

      var closed := CloseRegions(s, sep, startIndex, arrayOrListDepth, dictionaryDepth, stringDepth);
      if closed.Err? {
        return Err(Unterminated);
      }
      startIndex, arrayOrListDepth, dictionaryDepth, stringDepth
        := closed.value.0, closed.value.1.list, closed.value.1.dict, closed.value.1.quote;
    }
    r := Ok(startIndex);
  }

  /**
   * The inner loop of SplitOrganizedString: from startIndex, with the counters given,
   * reads on while any counter is positive; the index and counters it stops with.
   */
  method CloseRegions(s: string, sep: string, start: nat, list: int, dict: int, quote: int)
    returns (r: Result<(nat, Depth)>)
    requires start <= |s|
    ensures r.Ok? ==> start <= r.value.0 <= |s| && !Open(r.value.1)
    ensures r.Ok? ==> ScanFrom(s, sep, start, Depth(list, dict, quote)) == ScanFrom(s, sep, r.value.0, r.value.1)
    ensures r.Err? ==> ScanFrom(s, sep, start, Depth(list, dict, quote)) == Err(Unterminated)
  {
    var startIndex := start;
    var arrayOrListDepth, dictionaryDepth, stringDepth := list, dict, quote;
    ghost var total := ScanFrom(s, sep, start, Depth(list, dict, quote));
    while arrayOrListDepth > 0 || dictionaryDepth > 0 || stringDepth > 0
      invariant startIndex <= |s|
      invariant total == ScanFrom(s, sep, startIndex, Depth(arrayOrListDepth, dictionaryDepth, stringDepth))
      decreases |s| - startIndex
    {
      if startIndex == |s| {
        // No marker matches the empty rest, so the counters stay as they are, the
        // loop goes round once more and s.Substring(|s| + 1) throws.
        return Err(Unterminated);
      }
      ghost var inside := Depth(arrayOrListDepth, dictionaryDepth, stringDepth);
      ghost var at := startIndex;
      InnerAt(s, startIndex, inside);
      var isOutOfString := stringDepth == 0;
      if StartsWith(s[startIndex..], ArrayOrListStart) {
        if isOutOfString { arrayOrListDepth := arrayOrListDepth + 1; }
        startIndex := startIndex + |ArrayOrListStart|;
      } else if StartsWith(s[startIndex..], ArrayOrListEnd) {
        if isOutOfString { arrayOrListDepth := arrayOrListDepth - 1; }
        startIndex := startIndex + |ArrayOrListEnd|;
      } else if StartsWith(s[startIndex..], DictionaryStart) {
        if isOutOfString { dictionaryDepth := dictionaryDepth + 1; }
        startIndex := startIndex + |DictionaryStart|;
      } else if StartsWith(s[startIndex..], DictionaryEnd) {
        if isOutOfString { dictionaryDepth := dictionaryDepth - 1; }
        startIndex := startIndex + |DictionaryEnd|;
      } else if StartsWith(s[startIndex..], StringStart) {
        stringDepth := stringDepth + 1;
        startIndex := startIndex + |StringStart|;
      } else if StartsWith(s[startIndex..], StringEnd) {
        stringDepth := stringDepth - 1;
        startIndex := startIndex + |StringEnd|;
      } else {
        startIndex := startIndex + 1;
      }
      assert startIndex == at + 1;
      assert Depth(arrayOrListDepth, dictionaryDepth, stringDepth) == Step(inside, s[at]);
    }
    r := Ok((startIndex, Depth(arrayOrListDepth, dictionaryDepth, stringDepth)));
  }

  /**
   * SplitOrganizedString(s, Seperator, ref result): appends the top-level segments of
   * s to result. Where the source would throw, or recurse for ever, the method
   * returns the corresponding error.
   */
  method SplitOrganizedString(s: string, sep: string, result: seq<string>) returns (r: Result<seq<string>>)
    ensures r == Appended(result, Split(s, sep))
    decreases |s|
  {
    var end := FindSegmentEnd(s, sep);
    if end.Err? {
      return Err(end.error);
    }
    var startIndex := end.value;
    SplitAt(s, sep, startIndex);
    var remainder := s;
    var parts := result;
    if startIndex > 0 {
      var splitPart := s[..startIndex];
      var newStringStartIndex := Min(startIndex + |sep|, |s|);
      remainder := s[newStringStartIndex..];
      assert remainder == Remainder(s, sep, startIndex);
      parts := parts + [splitPart];
    }

    if remainder != [] {
      if startIndex == 0 {
        // the call below would receive the same text again and never return
        return Err(NoProgress);
      }
      r := SplitOrganizedString(remainder, sep, parts);
      AppendedTwice(result, s[..startIndex], Split(remainder, sep));
    } else {
      r := Ok(parts);
      assert result + [] == result;
    }
  }

  /**
   * SplitMemberItemString: the value and the type code of an item written as
   * value#tag. Segments after the second are ignored.
   */
  function SplitMemberItemString(item: string): (r: Result<(string, int)>)
    ensures r.Ok? ==> |r.value.0| < |item|
  {
    var parts :- Split(item, SubItemTypeSeparator);
    SplitSizes(item, SubItemTypeSeparator);
    if |parts| < 2 then Err(IndexOutOfRange)
    else
      var typeInt :- ToInt32(parts[1]);
      Ok((parts[0], typeInt))
  }
}
