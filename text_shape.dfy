/**
 * The shape of the texts the encoder writes, as the splitter sees them: which regions
 * they open and close, and at which characters a scan from outside them may stop.
 */
module TextShape {
  import opened Wrappers
  import opened Grammar
  import opened Splitter
  import opened SplitterProperties

  /** Scanning t from d, every character is read while some region is open. */
  predicate Guarded(t: string, d: Depth)
    decreases |t|
  {
    t == [] || (Open(d) && Guarded(t[1..], Step(d, t[0])))
  }

  /**
   * Read inside any bracket or brace region (outside a quote), t leaves the counters
   * as they were and never closes the region it is read in.
   */
  ghost predicate Inert(t: string) {
    forall d :: Open(d) && d.quote == 0 ==> Run(d, t) == d && Guarded(t, d)
  }

  /** Read from outside every region, t ends outside every region. */
  predicate Balanced(t: string) {
    Run(Zero, t) == Zero
  }

  /** A number, a tag or a timestamp: non-empty, no marker, none of the separator characters. */
  predicate Atom(t: string) {
    t != [] && forall i :: 0 <= i < |t| ==> !IsMarker(t[i]) && t[i] != ',' && t[i] != ':' && t[i] != '#'
  }

  /** The text of a value: the splitter reads it whole whichever of the three separators it looks for. */
  ghost predicate ValueText(t: string) {
    t != [] && Balanced(t) && Inert(t) && NoCut(t, ',', Zero) && NoCut(t, ':', Zero) && NoCut(t, '#', Zero)
  }

  /** The text value#tag of a container item: read whole by the ',' and "::" splits. */
  ghost predicate ItemText(t: string) {
    t != [] && Balanced(t) && Inert(t) && NoCut(t, ',', Zero) && NoCut(t, ':', Zero)
  }

  /** The text of a map entry or of a container item: read whole by the ',' split. */
  ghost predicate EntryText(t: string) {
    t != [] && Balanced(t) && Inert(t) && NoCut(t, ',', Zero)
  }

  lemma {:induction false} GuardedNoCut(t: string, c: char, d: Depth)
    requires Guarded(t, d)
    ensures NoCut(t, c, d)
    decreases |t|
  {
    if t != [] {
      GuardedNoCut(t[1..], c, Step(d, t[0]));
    }
  }

  lemma {:induction false} GuardedAppend(x: string, y: string, d: Depth)
    requires Guarded(x, d) && Guarded(y, Run(d, x))
    ensures Guarded(x + y, d)
    decreases |x|
  {
    if x == [] {
      assert x + y == y;
    } else {
      assert (x + y)[0] == x[0] && (x + y)[1..] == x[1..] + y;
      GuardedAppend(x[1..], y, Step(d, x[0]));
    }
  }

  /** Text without markers changes no counter, inside or outside a region. */
  lemma {:induction false} PlainRun(t: string, d: Depth)
    requires Plain(t)
    ensures Run(d, t) == d
    ensures Open(d) ==> Guarded(t, d)
    decreases |t|
  {
    if t != [] {
      assert !IsMarker(t[0]);
      PlainRun(t[1..], d);
    }
  }

  /** Text without markers and without c never meets c, from whatever counters. */
  lemma {:induction false} PlainNoCut(t: string, c: char, d: Depth)
    requires Plain(t) && forall i :: 0 <= i < |t| ==> t[i] != c
    ensures NoCut(t, c, d)
    decreases |t|
  {
    if t != [] {
      PlainRun([t[0]], d);
      PlainNoCut(t[1..], c, Step(d, t[0]));
    }
  }

  lemma PlainInert(t: string)
    requires Plain(t)
    ensures Inert(t) && Balanced(t)
  {
    forall d | Open(d) && d.quote == 0
      ensures Run(d, t) == d && Guarded(t, d)
    {
      PlainRun(t, d);
    }
    PlainRun(t, Zero);
  }

  lemma AtomText(t: string)
    requires Atom(t)
    ensures ValueText(t) && Plain(t)
  {
    PlainInert(t);
    PlainNoCut(t, ',', Zero);
    PlainNoCut(t, ':', Zero);
    PlainNoCut(t, '#', Zero);
  }

  lemma InertAppend(x: string, y: string)
    requires Inert(x) && Inert(y)
    ensures Inert(x + y)
  {
    forall d | Open(d) && d.quote == 0
      ensures Run(d, x + y) == d && Guarded(x + y, d)
    {
      RunAppend(d, x, y);
      GuardedAppend(x, y, d);
    }
  }

  lemma BalancedAppend(x: string, y: string, c: char)
    requires Balanced(x) && Balanced(y) && NoCut(x, c, Zero) && NoCut(y, c, Zero)
    ensures Balanced(x + y) && NoCut(x + y, c, Zero)
  {
    RunAppend(Zero, x, y);
    NoCutAppend(x, y, c, Zero);
  }

  /** Inside a quote, text without quote characters is read inside the quote throughout. */
  lemma {:induction false} QuotedGuarded(t: string, d: Depth)
    requires d.quote > 0 && NoQuotes(t)
    ensures Guarded(t, d)
    decreases |t|
  {
    if t != [] {
      assert Step(d, t[0]) == d;
      QuotedGuarded(t[1..], d);
    }
  }

  /**
   * A text o + x + cl where o opens a region from d, x is read inside it without
   * effect and cl closes it again: back at d, and no cut anywhere but at o.
   */
  lemma Wrap(o: char, x: string, cl: char, d: Depth, inside: Depth)
    requires Step(d, o) == inside && Open(inside) && Step(inside, cl) == d
    requires Run(inside, x) == inside && Guarded(x, inside)
    ensures Run(d, [o] + x + [cl]) == d
    ensures Open(d) ==> Guarded([o] + x + [cl], d)
    ensures forall c :: c != o ==> NoCut([o] + x + [cl], c, d)
  {
    var w := [o] + x + [cl];
    RunAppend(d, [o] + x, [cl]);
    RunAppend(d, [o], x);
    GuardedAppend(x, [cl], inside);
    assert w[0] == o && w[1..] == x + [cl];
    forall c | c != o
      ensures NoCut(w, c, d)
    {
      GuardedNoCut(x + [cl], c, inside);
    }
  }

  /** A text between the two quotes is the text of a value. */
  lemma QuotedText(s: string)
    requires NoQuotes(s)
    ensures ValueText(StringStart + s + StringEnd)
    ensures forall c :: c != StringStartChar ==> NoCut(StringStart + s + StringEnd, c, Zero)
  {
    assert StringStart + s + StringEnd == [StringStartChar] + s + [StringEndChar];
    forall d | Open(d) && d.quote == 0
      ensures Run(d, StringStart + s + StringEnd) == d && Guarded(StringStart + s + StringEnd, d)
    {
      var dq := d.(quote := 1);
      QuotedTextInert(dq, s);
      QuotedGuarded(s, dq);
      Wrap(StringStartChar, s, StringEndChar, d, dq);
    }
    var z := Depth(0, 0, 1);
    QuotedTextInert(z, s);
    QuotedGuarded(s, z);
    Wrap(StringStartChar, s, StringEndChar, Zero, z);
  }

  /** A text between brackets or between braces, read inside its region without effect, is the text of a value. */
  lemma Bracketed(open: char, x: string, close: char)
    requires (open == ListStartChar && close == ListEndChar) || (open == DictStartChar && close == DictEndChar)
    requires Inert(x)
    ensures ValueText([open] + x + [close])
    ensures forall c :: c != open ==> NoCut([open] + x + [close], c, Zero)
  {
    forall d | Open(d) && d.quote == 0
      ensures Run(d, [open] + x + [close]) == d && Guarded([open] + x + [close], d)
    {
      Wrap(open, x, close, d, Step(d, open));
    }
    Wrap(open, x, close, Zero, Step(Zero, open));
  }

  /** Texts read inside a region without effect, joined by a separator without markers. */
  lemma {:induction false} JoinInert(texts: seq<string>, sep: string)
    requires Plain(sep) && forall i :: 0 <= i < |texts| ==> Inert(texts[i])
    ensures Inert(Join(texts, sep))
    decreases |texts|
  {
    if texts == [] {
      PlainInert([]);
    } else if |texts| > 1 {
      JoinInert(texts[1..], sep);
      PlainInert(sep);
      InertAppend(texts[0], sep);
      InertAppend(texts[0] + sep, Join(texts[1..], sep));
    }
  }

  /** value#tag is the text of an item. */
  lemma ItemOf(e: string, tag: string)
    requires ValueText(e) && Atom(tag)
    ensures ItemText(e + SubItemTypeSeparator + tag)
  {
    var hash := SubItemTypeSeparator;
    var rest := hash + tag;
    assert forall i :: 0 < i < |rest| ==> rest[i] == tag[i - 1];
    assert Plain(rest) && forall i :: 0 <= i < |rest| ==> rest[i] != ',' && rest[i] != ':';
    PlainInert(rest);
    PlainNoCut(rest, ',', Zero);
    PlainNoCut(rest, ':', Zero);
    assert e + hash + tag == e + rest;
    InertAppend(e, rest);
    BalancedAppend(e, rest, ',');
    BalancedAppend(e, rest, ':');
  }

  /** key::value is the text of an entry. */
  lemma EntryOf(k: string, w: string)
    requires ItemText(k) && ItemText(w)
    ensures EntryText(k + DictionaryKVSeparator + w)
  {
    var kv := DictionaryKVSeparator;
    PlainInert(kv);
    PlainNoCut(kv, ',', Zero);
    InertAppend(k, kv);
    InertAppend(k + kv, w);
    BalancedAppend(k, kv, ',');
    BalancedAppend(k + kv, w, ',');
  }

  /** The splitter cuts value#tag at the #. */
  lemma SplitItemText(e: string, tag: string)
    requires ValueText(e) && Atom(tag)
    ensures Split(e + SubItemTypeSeparator + tag, SubItemTypeSeparator) == Ok([e, tag])
  {
    AtomText(tag);
    var parts := [e, tag];
    assert forall p :: p in parts ==> Piece(p, SubItemTypeSeparator);
    SplitJoin(parts, SubItemTypeSeparator);
    assert parts[1..] == [tag];
  }

  /** The splitter cuts key::value at the ::. */
  lemma SplitEntryText(k: string, w: string)
    requires ItemText(k) && ItemText(w)
    ensures Split(k + DictionaryKVSeparator + w, DictionaryKVSeparator) == Ok([k, w])
  {
    var parts := [k, w];
    assert forall p :: p in parts ==> Piece(p, DictionaryKVSeparator);
    SplitJoin(parts, DictionaryKVSeparator);
    assert parts[1..] == [w];
  }

  /** The splitter cuts items or entries joined by commas at those commas. */
  lemma SplitJoined(texts: seq<string>)
    requires forall i :: 0 <= i < |texts| ==> EntryText(texts[i])
    ensures Split(Join(texts, CollectionItemSeparator), CollectionItemSeparator) == Ok(texts)
  {
    forall p | p in texts
      ensures Piece(p, CollectionItemSeparator)
    {
    }
    SplitJoin(texts, CollectionItemSeparator);
  }
}
