/** What the splitter promises: where it cuts, what it never cuts, and how its output reassembles. */
module SplitterProperties {
  import opened Wrappers
  import opened Grammar
  import opened Splitter

  /**
   * Position j of t is a place where the scan from d may stop: no region is open
   * after the first j characters, and t continues with the separator there or ends.
   */
  predicate CutAt(t: string, sep: string, d: Depth, j: int) {
    0 <= j <= |t| && !Open(Run(d, t[..j])) && (j == |t| || StartsWith(t[j..], sep))
  }

  /** Looking past the first character. */
  lemma CutShift(t: string, sep: string, d: Depth, j: int)
    requires 1 <= j <= |t|
    ensures CutAt(t, sep, d, j) <==> CutAt(t[1..], sep, Step(d, t[0]), j - 1)
  {
    assert t[..j][0] == t[0] && t[..j][1..] == t[1..][..j - 1];
    assert t[j..] == t[1..][j - 1..];
  }

  /**
   * The scan stops at the first place where it may stop, and fails exactly when
   * there is none (a region left open to the end).
   */
  lemma {:induction false} ScanIsFirstCut(t: string, sep: string, d: Depth)
    ensures Scan(t, sep, d).Ok? ==>
      CutAt(t, sep, d, Scan(t, sep, d).value)
      && forall j :: 0 <= j < Scan(t, sep, d).value ==> !CutAt(t, sep, d, j)
    ensures Scan(t, sep, d).Err? ==> forall j :: 0 <= j <= |t| ==> !CutAt(t, sep, d, j)
    decreases |t|
  {
    assert t[..0] == [];
    if !Open(d) && (t == [] || StartsWith(t, sep)) {
    } else if t == [] {
    } else {
      var d1 := Step(d, t[0]);
      ScanIsFirstCut(t[1..], sep, d1);
      forall j | 1 <= j <= |t|
        ensures CutAt(t, sep, d, j) <==> CutAt(t[1..], sep, d1, j - 1)
      {
        CutShift(t, sep, d, j);
      }
    }
  }

  /** Conversely, the first place where the scan may stop is where it stops. */
  lemma FirstCutIsScan(t: string, sep: string, d: Depth, k: int)
    requires CutAt(t, sep, d, k)
    requires forall j :: 0 <= j < k ==> !CutAt(t, sep, d, j)
    ensures Scan(t, sep, d) == Ok(k)
  {
    ScanIsFirstCut(t, sep, d);
  }

  /** The counters after two texts run one after the other. */
  lemma {:induction false} RunAppend(d: Depth, x: string, y: string)
    ensures Run(d, x + y) == Run(Run(d, x), y)
    decreases |x|
  {
    if x == [] {
      assert x + y == y;
    } else {
      assert (x + y)[0] == x[0] && (x + y)[1..] == x[1..] + y;
      RunAppend(Step(d, x[0]), x[1..], y);
    }
  }

  /**
   * Inside an open quote, text without quote characters changes no counter: brackets
   * and braces between quotes are not structure.
   */
  lemma {:induction false} QuotedTextInert(d: Depth, t: string)
    requires d.quote > 0 && NoQuotes(t)
    ensures Run(d, t) == d
    decreases |t|
  {
    if t != [] {
      assert Step(d, t[0]) == d;
      QuotedTextInert(d, t[1..]);
    }
  }

  /** Hence no separator inside a quote is a place where the splitter may cut. */
  lemma QuotedSeparatorNoCut(t: string, sep: string, d: Depth, j: int)
    requires d.quote > 0 && NoQuotes(t) && 0 <= j <= |t|
    ensures !CutAt(t, sep, d, j)
  {
    QuotedTextInert(d, t[..j]);
  }

  /**
   * The first segment Split takes from a non-empty text, and what follows it: the
   * segment ends at the first top-level separator, which Split drops, or at the end of
   * the text.
   */
  lemma FirstSegment(s: string, sep: string)
    requires s != [] && Split(s, sep).Ok?
    ensures Scan(s, sep, Zero).Ok?
    ensures var i := Scan(s, sep, Zero).value;
      var rest := Remainder(s, sep, i);
      0 < i <= |s| && !Open(Run(Zero, s[..i]))
      && (rest == [] ==> Split(s, sep) == Ok([s[..i]]) && (s == s[..i] || s == s[..i] + sep))
      && (rest != [] ==> s == s[..i] + sep + rest && Split(s, sep) == Appended([s[..i]], Split(rest, sep)))
  {
    var i := Scan(s, sep, Zero).value;
    ScanIsFirstCut(s, sep, Zero);
    assert CutAt(s, sep, Zero, i);
    if i < |s| {
      SplitAround(s, i, sep);
    }
  }

  /** A text with the separator at position i is what comes before, the separator, and what comes after. */
  lemma SplitAround(s: string, i: nat, sep: string)
    requires i <= |s| && StartsWith(s[i..], sep)
    ensures i + |sep| <= |s| && s == s[..i] + sep + s[i + |sep|..]
  {
    assert s[i..][..|sep|] == s[i..i + |sep|];
    assert s == s[..i] + s[i..i + |sep|] + s[i + |sep|..];
  }

  lemma JoinCons(head: string, tail: seq<string>, sep: string)
    requires tail != []
    ensures Join([head] + tail, sep) == head + sep + Join(tail, sep)
  {
    assert ([head] + tail)[1..] == tail;
  }

  /** Joining with one more part at the end. */
  lemma {:induction false} JoinSnoc(parts: seq<string>, last: string, sep: string)
    ensures Join(parts + [last], sep) == if parts == [] then last else Join(parts, sep) + sep + last
    decreases |parts|
  {
    if |parts| == 1 {
      assert (parts + [last])[1..] == [last];
    } else if |parts| > 1 {
      assert (parts + [last])[1..] == parts[1..] + [last];
      JoinSnoc(parts[1..], last, sep);
    }
  }

  /** One step of the reassembly, on texts taken as wholes. */
  lemma ReassembleStep(s: string, head: string, rest: string, tail: seq<string>, sep: string)
    requires tail != [] && s == head + sep + rest
    requires rest == Join(tail, sep) || rest == Join(tail, sep) + sep
    ensures s == Join([head] + tail, sep) || s == Join([head] + tail, sep) + sep
  {
    JoinCons(head, tail, sep);
    if rest != Join(tail, sep) {
      assert s == (head + sep + Join(tail, sep)) + sep;
    }
  }

  /** Joining the segments gives the text back, less a trailing separator. */
  lemma {:induction false} SplitReassembles(s: string, sep: string)
    requires Split(s, sep).Ok?
    ensures s == Join(Split(s, sep).value, sep) || s == Join(Split(s, sep).value, sep) + sep
    decreases |s|
  {
    if s != [] {
      FirstSegment(s, sep);
      var i := Scan(s, sep, Zero).value;
      var head := s[..i];
      var rest := Remainder(s, sep, i);
      if rest != [] {
        SplitReassembles(rest, sep);
        var tail := Split(rest, sep).value;
        assert Split(s, sep).value == [head] + tail;
        ReassembleStep(s, head, rest, tail, sep);
      }
    }
  }

  /** No segment leaves a region open. */
  lemma {:induction false} SplitSegmentsClosed(s: string, sep: string)
    requires Split(s, sep).Ok?
    ensures forall p :: p in Split(s, sep).value ==> !Open(Run(Zero, p))
    decreases |s|
  {
    if s != [] {
      FirstSegment(s, sep);
      var i := Scan(s, sep, Zero).value;
      var rest := Remainder(s, sep, i);
      if rest != [] {
        SplitSegmentsClosed(rest, sep);
        var tail := Split(rest, sep).value;
        assert Split(s, sep).value == [s[..i]] + tail;
      }
    }
  }

  /** Text that, scanned from d, never meets the character c outside a region. */
  predicate NoCut(t: string, c: char, d: Depth)
    decreases |t|
  {
    t == [] || ((Open(d) || t[0] != c) && NoCut(t[1..], c, Step(d, t[0])))
  }

  lemma {:induction false} NoCutAppend(x: string, y: string, c: char, d: Depth)
    requires NoCut(x, c, d) && NoCut(y, c, Run(d, x))
    ensures NoCut(x + y, c, d)
    decreases |x|
  {
    if x == [] {
      assert x + y == y;
    } else {
      assert (x + y)[0] == x[0] && (x + y)[1..] == x[1..] + y;
      NoCutAppend(x[1..], y, c, Step(d, x[0]));
    }
  }

  /**
   * A text that never meets the separator's first character at top level is read
   * through in one piece: the scan of x + y goes on into y with the counters x left.
   */
  lemma {:induction false} ScanAppend(x: string, y: string, sep: string, d: Depth)
    requires sep != [] && NoCut(x, sep[0], d)
    ensures Scan(x + y, sep, d) == Shift(Scan(y, sep, Run(d, x)), |x|)
    decreases |x|
  {
    if x == [] {
      assert x + y == y;
      match Scan(y, sep, d)
      case Ok(_) =>
      case Err(_) =>
    } else {
      assert (x + y)[0] == x[0] && (x + y)[1..] == x[1..] + y;
      assert !Open(d) ==> !StartsWith(x + y, sep);
      ScanAppend(x[1..], y, sep, Step(d, x[0]));
    }
  }

  /**
   * A joinable piece: non-empty, balanced at its end, and the separator's first
   * character never at top level, so that no separator starts inside the piece and
   * runs on into what follows it.
   */
  predicate Piece(p: string, sep: string) {
    sep != [] && p != [] && !Open(Run(Zero, p)) && NoCut(p, sep[0], Zero)
  }

  /**
   * A text the scan reads to its end: non-empty, balanced at its end, and the
   * separator starts at no top-level position.
   */
  predicate Whole(p: string, sep: string) {
    p != [] && !Open(Run(Zero, p)) && forall j :: 0 <= j < |p| ==> !CutAt(p, sep, Zero, j)
  }

  /** A non-empty text is one segment exactly when the separator starts nowhere at its top level and it ends balanced. */
  lemma SplitPiece(p: string, sep: string)
    requires p != []
    ensures Split(p, sep) == Ok([p]) <==> Whole(p, sep)
  {
    ScanIsFirstCut(p, sep, Zero);
    assert p[..|p|] == p;
    if Whole(p, sep) {
      FirstCutIsScan(p, sep, Zero, |p|);
      SplitAt(p, sep, |p|);
    } else if Split(p, sep) == Ok([p]) {
      var i := Scan(p, sep, Zero).value;
      SplitAt(p, sep, i);
    }
  }

  /** A piece has no top-level separator. */
  lemma PieceWhole(p: string, sep: string)
    requires Piece(p, sep)
    ensures Whole(p, sep)
  {
    ScanAppend(p, [], sep, Zero);
    assert p + [] == p;
    ScanIsFirstCut(p, sep, Zero);
  }

  /** A piece followed by the separator and more text: the piece is the first segment. */
  lemma SplitPieceThen(p: string, rest: string, sep: string)
    requires Piece(p, sep) && rest != []
    ensures Split(p + sep + rest, sep) == Appended([p], Split(rest, sep))
  {
    var s := p + sep + rest;
    assert s == p + (sep + rest);
    ScanAppend(p, sep + rest, sep, Zero);
    assert StartsWith(sep + rest, sep) by { assert (sep + rest)[..|sep|] == sep; }
    SplitAt(s, sep, |p|);
    assert s[..|p|] == p;
    assert Remainder(s, sep, |p|) == rest;
  }

  /** Splitting pieces joined with the separator gives the pieces back. */
  lemma {:induction false} SplitJoin(pieces: seq<string>, sep: string)
    requires forall p :: p in pieces ==> Piece(p, sep)
    ensures Split(Join(pieces, sep), sep) == Ok(pieces)
    decreases |pieces|
  {
    if pieces != [] {
      var p := pieces[0];
      assert p in pieces;
      if |pieces| == 1 {
        PieceWhole(p, sep);
        SplitPiece(p, sep);
        assert pieces == [p];
      } else {
        var tail := pieces[1..];
        assert pieces == [p] + tail;
        assert tail[0] in pieces;
        JoinCons(p, tail, sep);
        SplitJoin(tail, sep);
        SplitPieceThen(p, Join(tail, sep), sep);
      }
    }
  }
}
