/** Template placeholders: the positional and the named scanner, rendering, and the check of a body's numbering. */
module Templates {
  import opened Characters
  import opened Options
  import opened Sequences
  import Civil
  import Tokens

  datatype Dialect = Positional | Named

  /* ---- The two patterns ---- */

  function SpaceEnd(t: string, i: nat): (e: nat)
    requires i <= |t|
    ensures i <= e <= |t| && forall k :: i <= k < e ==> IsSpace(t[k])
    ensures e < |t| ==> !IsSpace(t[e])
    decreases |t| - i
  {
    if i < |t| && IsSpace(t[i]) then SpaceEnd(t, i + 1) else i
  }

  function DigitEnd(t: string, i: nat): (e: nat)
    requires i <= |t|
    ensures i <= e <= |t| && forall k :: i <= k < e ==> IsDigit(t[k])
    ensures e < |t| ==> !IsDigit(t[e])
    decreases |t| - i
  {
    if i < |t| && IsDigit(t[i]) then DigitEnd(t, i + 1) else i
  }

  /** The end of the number or name at `i`; `i` itself when there is none. */
  function InnerEnd(t: string, i: nat, d: Dialect): (e: nat)
    requires i <= |t|
    ensures i <= e <= |t|
    ensures forall k :: i <= k < e ==> if d.Positional? then IsDigit(t[k]) else Tokens.IsWord(t[k])
    ensures e > i ==> if d.Positional? then IsDigit(t[i]) else Tokens.IsStart(t[i])
  {
    match d
    case Positional => DigitEnd(t, i)
    case Named => if Tokens.SegmentEnd(t, i).Some? then Tokens.SegmentEnd(t, i).value else i
  }

  /** A placeholder found in a text: its number or name, and where it ends. */
  datatype Hit = Hit(inner: string, end: nat)

  function MatchAt(t: string, i: nat, d: Dialect): (r: Option<Hit>)
    requires i <= |t|
    ensures r.Some? ==> i + 4 < r.value.end <= |t| && r.value.inner != ""
    ensures r.Some? && d.Positional? ==> forall c <- r.value.inner :: IsDigit(c)
  {
    if i + 2 <= |t| && t[i..i + 2] == "{{" then
      var s := SpaceEnd(t, i + 2);
      var e := InnerEnd(t, s, d);
      var c := SpaceEnd(t, e);
      if e > s && c + 2 <= |t| && t[c..c + 2] == "}}" then Some(Hit(t[s..e], c + 2)) else None
    else None
  }

  /* ---- The patterns as a grammar ---- */

  /** Digits, or a name: a letter or underscore, then letters, digits and underscores. */
  predicate IsInner(inner: string, d: Dialect) {
    match d
    case Positional => inner != "" && forall c <- inner :: IsDigit(c)
    case Named => Tokens.IsSegment(inner)
  }

  predicate AllSpace(s: string) {
    forall c <- s :: IsSpace(c)
  }

  /** Two braces, blanks, the inner part, blanks, two braces; nothing else. */
  predicate Reads(text: string, before: string, inner: string, after: string, d: Dialect) {
    text == "{{" + (before + (inner + (after + "}}"))) && AllSpace(before) && IsInner(inner, d) && AllSpace(after)
  }

  lemma {:induction false} SpaceEndIs(t: string, i: nat, e: nat)
    requires i <= e <= |t| && AllSpace(t[i..e]) && (e < |t| ==> !IsSpace(t[e]))
    ensures SpaceEnd(t, i) == e
    decreases e - i
  {
    if i < e {
      assert t[i] == t[i..e][0] && t[i + 1..e] == t[i..e][1..];
      SpaceEndIs(t, i + 1, e);
    }
  }

  lemma {:induction false} DigitEndIs(t: string, i: nat, e: nat)
    requires i <= e <= |t| && (forall c <- t[i..e] :: IsDigit(c)) && (e < |t| ==> !IsDigit(t[e]))
    ensures DigitEnd(t, i) == e
    decreases e - i
  {
    if i < e {
      assert t[i] == t[i..e][0] && t[i + 1..e] == t[i..e][1..];
      DigitEndIs(t, i + 1, e);
    }
  }

  /** The inner part ends where a blank or a brace follows. */
  lemma InnerEndIs(t: string, i: nat, e: nat, d: Dialect)
    requires i <= e < |t| && IsInner(t[i..e], d) && (IsSpace(t[e]) || t[e] == '}')
    ensures InnerEnd(t, i, d) == e && e > i && !IsSpace(t[i])
  {
    assert t[i] == t[i..e][0] && t[i] in t[i..e];
    match d
    case Positional => DigitEndIs(t, i, e);
    case Named => Tokens.SegmentReaches(t, i, e);
  }

  /** A placeholder in a text is found, with its inner part and its end. */
  lemma PlaceholderIsFound(t: string, i: nat, e: nat, before: string, inner: string, after: string, d: Dialect)
    requires i <= e <= |t| && Reads(t[i..e], before, inner, after, d)
    ensures MatchAt(t, i, d) == Some(Hit(inner, e))
  {
    var s := i + 2 + |before|;
    var m := s + |inner|;
    var c := m + |after|;
    PlaceholderParts(t, i, e, before, inner, after);
    hide AllSpace, IsInner, SpaceEnd, InnerEnd;
    PartsEnd(t, i, s, m, c, d);
  }

  lemma PartsEnd(t: string, i: nat, s: nat, m: nat, c: nat, d: Dialect)
    requires i + 2 <= s <= m <= c && c + 2 <= |t| && t[c..c + 2] == "}}"
    requires AllSpace(t[i + 2..s]) && IsInner(t[s..m], d) && AllSpace(t[m..c])
    ensures SpaceEnd(t, i + 2) == s && InnerEnd(t, s, d) == m && SpaceEnd(t, m) == c && s < m
  {
    hide AllSpace, IsInner, SpaceEnd, InnerEnd;
    AfterInner(t, m, c, t[m..c]);
    InnerEndIs(t, s, m, d);
    SpaceEndIs(t, i + 2, s);
    BraceIsNoSpace(t, c);
    SpaceEndIs(t, m, c);
  }

  lemma AfterInner(t: string, m: nat, c: nat, after: string)
    requires m <= c && c + 2 <= |t| && t[m..c] == after && t[c..c + 2] == "}}" && AllSpace(after)
    ensures IsSpace(t[m]) || t[m] == '}'
  {
    if m < c {
      assert t[m] == after[0] && after[0] in after;
    } else {
      assert t[m] == t[c..c + 2][0];
    }
  }

  lemma BraceIsNoSpace(t: string, c: nat)
    requires c + 2 <= |t| && t[c..c + 2] == "}}"
    ensures !IsSpace(t[c])
  {
    assert t[c] == t[c..c + 2][0];
  }

  lemma PlaceholderParts(t: string, i: nat, e: nat, before: string, inner: string, after: string)
    requires i <= e <= |t| && t[i..e] == "{{" + (before + (inner + (after + "}}")))
    ensures var (s, m, c) := (i + 2 + |before|, i + 2 + |before| + |inner|, i + 2 + |before| + |inner| + |after|);
            && e == c + 2 && t[i..i + 2] == "{{" && t[i + 2..s] == before && t[s..m] == inner
            && t[m..c] == after && t[c..c + 2] == "}}"
  {
    var (s, m, c) := (i + 2 + |before|, i + 2 + |before| + |inner|, i + 2 + |before| + |inner| + |after|);
    Peel(t, i, e, "{{", before + (inner + (after + "}}")));
    Peel(t, i + 2, e, before, inner + (after + "}}"));
    Peel(t, s, e, inner, after + "}}");
    Peel(t, m, e, after, "}}");
  }

  lemma Peel(t: string, i: nat, e: nat, front: string, rest: string)
    requires i <= e <= |t| && t[i..e] == front + rest
    ensures i + |front| <= e && t[i..i + |front|] == front && t[i + |front|..e] == rest
  {
    var x := t[i..e];
    assert t[i..i + |front|] == x[..|front|] && t[i + |front|..e] == x[|front|..];
  }

  lemma SpacesRead(t: string, i: nat)
    requires i <= |t|
    ensures AllSpace(t[i..SpaceEnd(t, i)])
  {
  }

  lemma InnerReads(t: string, i: nat, d: Dialect)
    requires i <= |t| && InnerEnd(t, i, d) > i
    ensures IsInner(t[i..InnerEnd(t, i, d)], d)
  {
    assert t[i..InnerEnd(t, i, d)][0] == t[i];
  }

  lemma FiveSlices(t: string, i: nat, j: nat, k: nat, l: nat, m: nat, n: nat)
    requires i <= j <= k <= l <= m <= n <= |t|
    ensures t[i..n] == t[i..j] + (t[j..k] + (t[k..l] + (t[l..m] + t[m..n])))
  {
    assert t[l..n] == t[l..m] + t[m..n];
    assert t[k..n] == t[k..l] + t[l..n];
    assert t[j..n] == t[j..k] + t[k..n];
    assert t[i..n] == t[i..j] + t[j..n];
  }

  lemma MatchedParts(t: string, i: nat, d: Dialect) returns (s: nat, m: nat, c: nat)
    requires i <= |t| && MatchAt(t, i, d).Some?
    ensures i + 2 <= s < m <= c && c + 2 <= |t| && MatchAt(t, i, d) == Some(Hit(t[s..m], c + 2))
    ensures t[i..i + 2] == "{{" && t[c..c + 2] == "}}"
    ensures AllSpace(t[i + 2..s]) && IsInner(t[s..m], d) && AllSpace(t[m..c])
  {
    s := SpaceEnd(t, i + 2);
    m := InnerEnd(t, s, d);
    c := SpaceEnd(t, m);
    SpacesRead(t, i + 2);
    SpacesRead(t, m);
    hide AllSpace, IsInner, SpaceEnd, InnerEnd;
    InnerReads(t, s, d);
  }

  /** What is found is a placeholder. */
  lemma FoundIsPlaceholder(t: string, i: nat, d: Dialect)
    requires i <= |t| && MatchAt(t, i, d).Some?
    ensures exists before, after ::
      Reads(t[i..MatchAt(t, i, d).value.end], before, MatchAt(t, i, d).value.inner, after, d)
  {
    hide MatchAt, AllSpace, IsInner;
    var s, m, c := MatchedParts(t, i, d);
    FiveSlices(t, i, i + 2, s, m, c, c + 2);
    assert Reads(t[i..c + 2], t[i + 2..s], t[s..m], t[m..c], d);
  }

  /** A hit is found exactly for a placeholder, with its inner part and its end. */
  lemma HitIsPlaceholder(t: string, i: nat, d: Dialect, h: Hit)
    requires i <= h.end <= |t|
    ensures MatchAt(t, i, d) == Some(h) <==> exists before, after :: Reads(t[i..h.end], before, h.inner, after, d)
  {
    hide MatchAt, Reads;
    if MatchAt(t, i, d) == Some(h) {
      FoundIsPlaceholder(t, i, d);
    }
    if before, after :| Reads(t[i..h.end], before, h.inner, after, d) {
      PlaceholderIsFound(t, i, h.end, before, h.inner, after, d);
    }
  }

  /* ---- A text as literal characters and placeholders ---- */

  datatype Piece = Literal(c: char) | Hole(text: string, inner: string)

  function Parse(t: string, i: nat, d: Dialect): (r: seq<Piece>)
    requires i <= |t|
    ensures forall p <- r :: p.Hole? && d.Positional? ==> p.inner != "" && forall c <- p.inner :: IsDigit(c)
    decreases |t| - i
  {
    if i == |t| then []
    else
      match MatchAt(t, i, d)
      case None => [Literal(t[i])] + Parse(t, i + 1, d)
      case Some(h) => [Hole(t[i..h.end], h.inner)] + Parse(t, h.end, d)
  }

  /** The text with each placeholder replaced: `f` is given the placeholder as written and its inner part. */
  function Fill(pieces: seq<Piece>, f: (string, string) -> string): string {
    if pieces == [] then ""
    else (match pieces[0] case Literal(c) => [c] case Hole(text, inner) => f(text, inner)) + Fill(pieces[1..], f)
  }

  /** `String.replace` with one of the patterns. */
  function Replace(t: string, d: Dialect, f: (string, string) -> string): string {
    Fill(Parse(t, 0, d), f)
  }

  /** The inner parts of the placeholders, in order of appearance. */
  function Inners(pieces: seq<Piece>): seq<string> {
    if pieces == [] then []
    else if pieces[0].Hole? then [pieces[0].inner] + Inners(pieces[1..])
    else Inners(pieces[1..])
  }

  /** Putting every placeholder back gives the text: nothing is lost between the pieces. */
  lemma {:induction false} PiecesMakeTheText(t: string, i: nat, d: Dialect)
    requires i <= |t|
    ensures Fill(Parse(t, i, d), (text, _) => text) == t[i..]
    decreases |t| - i
  {
    hide MatchAt;
    if i < |t| {
      match MatchAt(t, i, d)
      case None =>
        PiecesMakeTheText(t, i + 1, d);
        assert t[i..] == [t[i]] + t[i + 1..];
      case Some(h) =>
        PiecesMakeTheText(t, h.end, d);
        assert t[i..] == t[i..h.end] + t[h.end..];
    }
  }

  /** Where the placeholders of some pieces start, the first piece standing at `at`. */
  ghost function Starts(pieces: seq<Piece>, at: nat): set<nat> {
    if pieces == [] then {}
    else if pieces[0].Hole? then {at} + Starts(pieces[1..], at + |pieces[0].text|)
    else Starts(pieces[1..], at + 1)
  }

  lemma BracesFirst(t: string, i: nat, d: Dialect)
    requires i <= |t| && MatchAt(t, i, d).Some?
    ensures t[i] == t[i + 1] == '{'
    ensures forall k :: i + 2 <= k < MatchAt(t, i, d).value.end ==> t[k] != '{'
  {
    PairAt(t, i, "{{");
    var s := SpaceEnd(t, i + 2);
    var e := InnerEnd(t, s, d);
    PairAt(t, SpaceEnd(t, e), "}}");
  }

  lemma PairAt(t: string, i: nat, pair: string)
    requires i + 2 <= |t| && |pair| == 2 && t[i..i + 2] == pair
    ensures t[i] == pair[0] && t[i + 1] == pair[1]
  {
    assert t[i] == t[i..i + 2][0] && t[i + 1] == t[i..i + 2][1];
  }

  lemma StartsOf(p: Piece, rest: seq<Piece>, at: nat)
    ensures Starts([p] + rest, at)
            == if p.Hole? then {at} + Starts(rest, at + |p.text|) else Starts(rest, at + 1)
  {
    assert ([p] + rest)[1..] == rest;
  }

  /** Placeholders never overlap: the scan finds one wherever the pattern matches. */
  lemma {:induction false} ScanFindsAll(t: string, from: nat, i: nat, d: Dialect)
    requires from <= i <= |t|
    ensures i in Starts(Parse(t, from, d), from) <==> MatchAt(t, i, d).Some?
    decreases |t| - from
  {
    hide MatchAt, Starts;
    if from == |t| {
      NoStarts(from);
    } else {
      match MatchAt(t, from, d)
      case None =>
        var rest := Parse(t, from + 1, d);
        StartsOf(Literal(t[from]), rest, from);
        StartsFrom(rest, from + 1);
        if i > from {
          ScanFindsAll(t, from + 1, i, d);
        }
      case Some(h) =>
        var rest := Parse(t, h.end, d);
        StartsOf(Hole(t[from..h.end], h.inner), rest, from);
        StartsFrom(rest, h.end);
        if i >= h.end {
          ScanFindsAll(t, h.end, i, d);
        } else if i > from && MatchAt(t, i, d).Some? {
          BracesFirst(t, from, d);
          BracesFirst(t, i, d);
        }
    }
  }

  lemma NoStarts(at: nat)
    ensures Starts([], at) == {}
  {
  }

  lemma {:induction false} StartsFrom(pieces: seq<Piece>, at: nat)
    ensures forall i <- Starts(pieces, at) :: i >= at
  {
    if pieces != [] {
      StartsFrom(pieces[1..], at + if pieces[0].Hole? then |pieces[0].text| else 1);
    }
  }

  /** A placeholder is a number or a name, never both. */
  lemma DialectsAreDisjoint(t: string, i: nat)
    requires i <= |t|
    ensures MatchAt(t, i, Positional).None? || MatchAt(t, i, Named).None?
  {
  }

  /* ---- Positional bodies ---- */

  /** Numbers from here on read as infinity. */
  const FINITE_LIMIT: int := Power(2, 1024) - Power(2, 970)

  function Power(b: nat, e: nat): (p: nat) {
    if e == 0 then 1 else b * Power(b, e - 1)
  }

  /** `Number` of some digits, when it is finite. */
  function FiniteNumber(digits: string): Option<int> {
    var n := Civil.NumberOf(digits);
    if n < FINITE_LIMIT then Some(n) else None
  }

  /** The finite ones among the numbers of the placeholders. */
  function Finite(inners: seq<string>): seq<int> {
    if inners == [] then []
    else match FiniteNumber(inners[|inners| - 1])
      case Some(n) => Finite(inners[..|inners| - 1]) + [n]
      case None => Finite(inners[..|inners| - 1])
  }

  /** The placeholder numbers of a text, in order, with repetitions. */
  function Indices(t: string): seq<int> {
    Finite(Inners(Parse(t, 0, Positional)))
  }

  /** The next placeholder at or after `i`: what `exec` finds. */
  function NextMatch(t: string, i: nat, d: Dialect): (r: Option<Hit>)
    requires i <= |t|
    ensures r.Some? ==> i < r.value.end <= |t|
    ensures Inners(Parse(t, i, d))
            == match r case None => [] case Some(h) => [h.inner] + Inners(Parse(t, h.end, d))
    decreases |t| - i
  {
    if i == |t| then None
    else
      match MatchAt(t, i, d)
      case None => NextMatch(t, i + 1, d)
      case Some(h) => Some(h)
  }

  lemma OneMoreInner(done: seq<string>, t: string, i: nat, d: Dialect, h: Hit)
    requires i <= |t| && NextMatch(t, i, d) == Some(h)
    ensures done + Inners(Parse(t, i, d)) == done + [h.inner] + Inners(Parse(t, h.end, d))
  {
    hide NextMatch, Inners, Parse;
    assert Inners(Parse(t, i, d)) == [h.inner] + Inners(Parse(t, h.end, d));
  }

  /** The loop of `exec` calls all the scanners share: the inner parts, in order. */
  method ScanInners(t: string, d: Dialect) returns (inners: seq<string>)
    ensures inners == Inners(Parse(t, 0, d))
  {
    hide NextMatch, Inners, Parse;
    inners := [];
    var lastIndex := 0;
    var m := NextMatch(t, 0, d);
    while m.Some?
      invariant lastIndex <= |t| && m == NextMatch(t, lastIndex, d)
      invariant inners + Inners(Parse(t, lastIndex, d)) == Inners(Parse(t, 0, d))
      decreases |t| - lastIndex
    {
      OneMoreInner(inners, t, lastIndex, d, m.value);
      inners := inners + [m.value.inner];
      lastIndex := m.value.end;
      m := NextMatch(t, lastIndex, d);
    }
  }

  /** `templateNamedPlaceholders`: the distinct names, in order of first appearance. */
  method TemplateNamedPlaceholders(t: string) returns (names: seq<string>)
    ensures names == Unique(Inners(Parse(t, 0, Named)))
  {
    var inners := ScanInners(t, Named);
    names := [];
    for i := 0 to |inners|
      invariant names == Unique(inners[..i])
    {
      assert inners[..i + 1][..i] == inners[..i];
      if inners[i] !in names {
        names := names + [inners[i]];
      }
    }
    assert inners[..|inners|] == inners;
  }

  /** `positionalPlaceholderIndices`. */
  method PositionalPlaceholderIndices(t: string) returns (out: seq<int>)
    ensures out == Indices(t)
  {
    hide FiniteNumber;
    var inners := ScanInners(t, Positional);
    out := [];
    for i := 0 to |inners|
      invariant out == Finite(inners[..i])
    {
      assert inners[..i + 1][..i] == inners[..i];
      var n := FiniteNumber(inners[i]);
      if n.Some? {
        out := out + [n.value];
      }
    }
    assert inners[..|inners|] == inners;
  }

  function MaxOf(ns: seq<int>): (m: int)
    ensures m >= 0 && (forall n <- ns :: n <= m) && (m > 0 ==> m in ns)
  {
    if ns == [] then 0
    else
      var m := MaxOf(ns[..|ns| - 1]);
      assert ns == ns[..|ns| - 1] + [ns[|ns| - 1]];
      if ns[|ns| - 1] > m then ns[|ns| - 1] else m
  }

  /** `countTemplatePlaceholders`: the highest number. */
  method CountTemplatePlaceholders(t: string) returns (max: int)
    ensures max == MaxOf(Indices(t))
  {
    hide FiniteNumber;
    var inners := ScanInners(t, Positional);
    max := 0;
    for i := 0 to |inners|
      invariant max == MaxOf(Finite(inners[..i]))
    {
      assert inners[..i + 1][..i] == inners[..i];
      var n := FiniteNumber(inners[i]);
      if n.Some? {
        assert (Finite(inners[..i]) + [n.value])[..|Finite(inners[..i])|] == Finite(inners[..i]);
        if n.value > max {
          max := n.value;
        }
      }
    }
    assert inners[..|inners|] == inners;
  }

  datatype Issue = BodyTooLong | ZeroIndex | Gaps(missing: seq<int>) | NoExamples | ExampleCount(supplied: nat)

  const BODY_MAX_LENGTH := 1024

  /** The numbers run from 1 to the highest, with no gap. */
  ghost predicate Consecutive(ns: seq<int>) {
    forall k :: k in ns <==> 1 <= k <= MaxOf(ns)
  }

  /** The numbers from 1 to `max` that do not occur, in order. */
  function Missing(ns: seq<int>, max: nat): (r: seq<int>)
    ensures forall k :: k in r <==> 1 <= k <= max && k !in ns
    ensures forall i, j :: 0 <= i < j < |r| ==> r[i] < r[j]
  {
    if max == 0 then []
    else
      var before := Missing(ns, max - 1);
      assert forall i :: 0 <= i < |before| ==> before[i] in before;
      if max in ns then before else before + [max]
  }

  lemma OneMoreMissing(ns: seq<int>, max: nat)
    ensures Missing(ns, 0) == []
    ensures Missing(ns, max + 1) == if max + 1 in ns then Missing(ns, max) else Missing(ns, max) + [max + 1]
  {
  }

  lemma NothingMissing(ns: seq<int>)
    requires forall n <- ns :: n >= 0
    ensures Consecutive(ns) <==> 0 !in ns && Missing(ns, MaxOf(ns)) == []
  {
    var missing := Missing(ns, MaxOf(ns));
    hide Missing, MaxOf;
    assert missing != [] ==> missing[0] in missing;
  }

  /** `validateConsecutive`, on at least one number. */
  method ValidateConsecutive(ns: seq<int>) returns (issues: seq<Issue>)
    requires ns != [] && forall n <- ns :: n >= 0
    ensures issues == NumberingIssues(ns)
    ensures issues == [] <==> Consecutive(ns)
  {
    hide Missing, MaxOf;
    var max := MaxOf(ns);
    var missing: seq<int> := [];
    var i := 1;
    OneMoreMissing(ns, 0);
    while i <= max
      invariant 1 <= i <= max + 1
      invariant missing == Missing(ns, i - 1)
    {
      OneMoreMissing(ns, i - 1);
      if i !in ns {
        missing := missing + [i];
      }
      i := i + 1;
    }
    issues := if 0 in ns then [ZeroIndex] else [];
    if missing != [] {
      issues := issues + [Gaps(missing)];
    }
    NothingMissing(ns);
  }

  /** The issues of a numbering that has numbers at all. */
  function NumberingIssues(ns: seq<int>): seq<Issue> {
    (if 0 in ns then [ZeroIndex] else [])
    + if Missing(ns, MaxOf(ns)) == [] then [] else [Gaps(Missing(ns, MaxOf(ns)))]
  }

  /** The issues of the example values for variables up to `need`. */
  function ExampleIssues(need: nat, supplied: Option<nat>): seq<Issue> {
    match supplied
    case None => [NoExamples]
    case Some(n) => if n != need then [ExampleCount(n)] else []
  }

  /** The positional branch of `validateBody`; `supplied` is how many example values there are. */
  method ValidatePositionalBody(t: string, supplied: Option<nat>) returns (issues: seq<Issue>)
    ensures issues == BodyIssues(Utf16Length(t), Indices(t), supplied)
    ensures issues == [] <==> AcceptedBody(t, supplied)
  {
    NoIssueIff(t, supplied);
    hide Indices, AcceptedBody, FiniteNumber, Missing, Utf16Length, NumberingIssues;
    issues := if Utf16Length(t) > BODY_MAX_LENGTH then [BodyTooLong] else [];
    var indices := PositionalPlaceholderIndices(t);
    if indices == [] {
      return;
    }
    IndicesAreNatural(t);
    var numbering := ValidateConsecutive(indices);
    issues := issues + numbering;
    var need := MaxOf(indices);
    if supplied.None? {
      issues := issues + [NoExamples];
    } else if supplied.value != need {
      issues := issues + [ExampleCount(supplied.value)];
    }
  }

  function BodyIssues(length: nat, ns: seq<int>, supplied: Option<nat>): seq<Issue> {
    (if length > BODY_MAX_LENGTH then [BodyTooLong] else [])
    + if ns == [] then [] else NumberingIssues(ns) + ExampleIssues(MaxOf(ns), supplied)
  }

  lemma NumberingReports(ns: seq<int>, issue: Issue)
    ensures issue in NumberingIssues(ns) <==>
            || (issue == ZeroIndex && 0 in ns)
            || (Missing(ns, MaxOf(ns)) != [] && issue == Gaps(Missing(ns, MaxOf(ns))))
  {
    var missing := Missing(ns, MaxOf(ns));
    hide Missing, MaxOf;
    var gaps := if missing == [] then [] else [Gaps(missing)];
    assert NumberingIssues(ns) == (if 0 in ns then [ZeroIndex] else []) + gaps;
  }

  /** Each issue is reported exactly in its case. */
  lemma IssuesMean(length: nat, ns: seq<int>, supplied: Option<nat>, issue: Issue)
    ensures issue in BodyIssues(length, ns, supplied) <==>
            match issue
            case BodyTooLong => length > 1024
            case ZeroIndex => 0 in ns
            case Gaps(m) => m != [] && m == Missing(ns, MaxOf(ns))
            case NoExamples => ns != [] && supplied.None?
            case ExampleCount(n) => ns != [] && supplied == Some(n) && n != MaxOf(ns)
  {
    OneMoreMissing(ns, 0);
    NumberingReports(ns, issue);
    assert ns == [] ==> MaxOf(ns) == 0;
    hide Missing, MaxOf, NumberingIssues;
  }

  /** None is reported exactly for an accepted body. */
  lemma NoIssueIff(t: string, supplied: Option<nat>)
    ensures BodyIssues(Utf16Length(t), Indices(t), supplied) == [] <==> AcceptedBody(t, supplied)
  {
    IndicesAreNatural(t);
    hide Indices, Consecutive, Missing, Utf16Length;
    NothingMissing(Indices(t));
  }

  ghost predicate AcceptedBody(t: string, supplied: Option<nat>) {
    && Utf16Length(t) <= BODY_MAX_LENGTH
    && (Indices(t) == [] || (Consecutive(Indices(t)) && supplied == Some(MaxOf(Indices(t)))))
  }

  lemma {:induction false} DigitsAreNatural(s: string)
    requires forall c <- s :: IsDigit(c)
    ensures Civil.NumberOf(s) >= 0
  {
    if s != [] {
      DigitsAreNatural(s[..|s| - 1]);
      assert s[|s| - 1] in s;
    }
  }

  lemma {:induction false} InnersAreDigits(pieces: seq<Piece>)
    requires forall p <- pieces :: p.Hole? ==> forall c <- p.inner :: IsDigit(c)
    ensures forall inner <- Inners(pieces) :: forall c <- inner :: IsDigit(c)
  {
    if pieces != [] {
      InnersAreDigits(pieces[1..]);
      assert pieces[0] in pieces;
    }
  }

  lemma {:induction false} FiniteMembers(inners: seq<string>, n: int)
    ensures n in Finite(inners) <==> exists inner <- inners :: FiniteNumber(inner) == Some(n)
  {
    hide FiniteNumber;
    if inners != [] {
      FiniteMembers(inners[..|inners| - 1], n);
      assert inners == inners[..|inners| - 1] + [inners[|inners| - 1]];
    }
  }

  lemma IndicesAreNatural(t: string)
    ensures forall n <- Indices(t) :: n >= 0
  {
    var inners := Inners(Parse(t, 0, Positional));
    InnersAreDigits(Parse(t, 0, Positional));
    forall n <- Indices(t)
      ensures n >= 0
    {
      FiniteMembers(inners, n);
      var inner :| inner in inners && FiniteNumber(inner) == Some(n);
      DigitsAreNatural(inner);
    }
  }

  /* ---- Rendering ---- */

  /** A value is given for this number, and it is not empty. */
  predicate Supplied(vars: seq<string>, n: int) {
    1 <= n <= |vars| && vars[n - 1] != ""
  }

  /** `renderTemplateBody`: what has no value stays as written. */
  function RenderTemplateBody(t: string, vars: seq<string>): string {
    Replace(t, Positional, (text, inner) =>
      if FiniteNumber(inner).Some? && Supplied(vars, FiniteNumber(inner).value) then vars[FiniteNumber(inner).value - 1]
      else text)
  }

  datatype NamedVar = NamedVar(name: string, text: string)

  /** `new Map` of the entries: a later entry for the same name replaces an earlier one. */
  function ByName(vars: seq<NamedVar>): map<string, string> {
    if vars == [] then map[] else ByName(vars[..|vars| - 1])[vars[|vars| - 1].name := vars[|vars| - 1].text]
  }

  /** `renderTemplateBodyNamed`. */
  function RenderTemplateBodyNamed(t: string, vars: seq<NamedVar>): string {
    var m := ByName(vars);
    Replace(t, Named, (text, name) => if name in m && m[name] != "" then m[name] else text)
  }

  function ValueOf(vars: seq<string>, n: int): string {
    if 1 <= n <= |vars| then vars[n - 1] else ""
  }

  lemma {:induction false} FillsAlike(pieces: seq<Piece>, f: (string, string) -> string, g: (string, string) -> string)
    requires forall p <- pieces :: p.Hole? ==> f(p.text, p.inner) == g(p.text, p.inner)
    ensures Fill(pieces, f) == Fill(pieces, g)
  {
    if pieces != [] {
      assert pieces[0] in pieces;
      FillsAlike(pieces[1..], f, g);
    }
  }

  lemma {:induction false} HoleInners(pieces: seq<Piece>, p: Piece)
    requires p in pieces && p.Hole?
    ensures p.inner in Inners(pieces)
  {
    if p != pieces[0] {
      HoleInners(pieces[1..], p);
    }
  }

  /** An accepted body with a value for each variable renders with every numbered placeholder replaced. */
  lemma AcceptedBodyRenders(t: string, supplied: Option<nat>, vars: seq<string>)
    requires AcceptedBody(t, supplied)
    requires |vars| == MaxOf(Indices(t)) && forall v <- vars :: v != ""
    ensures RenderTemplateBody(t, vars)
            == Replace(t, Positional, (text, inner) =>
                 match FiniteNumber(inner) case Some(n) => ValueOf(vars, n) case None => text)
  {
    hide FiniteNumber, Parse;
    var pieces := Parse(t, 0, Positional);
    var f := (text: string, inner: string) =>
      if FiniteNumber(inner).Some? && Supplied(vars, FiniteNumber(inner).value) then vars[FiniteNumber(inner).value - 1]
      else text;
    var g := (text: string, inner: string) =>
      match FiniteNumber(inner) case Some(n) => ValueOf(vars, n) case None => text;
    forall p <- pieces | p.Hole?
      ensures f(p.text, p.inner) == g(p.text, p.inner)
    {
      HoleInners(pieces, p);
      if n :| FiniteNumber(p.inner) == Some(n) {
        FiniteMembers(Inners(pieces), n);
        assert vars[n - 1] in vars;
      }
    }
    FillsAlike(pieces, f, g);
  }

  /**
   `out` shows the pieces in order: a literal as it is, a placeholder by its value where `value` has
   one that is not empty, and otherwise as it was written.
   */
  ghost predicate Shows(pieces: seq<Piece>, value: string -> Option<string>, out: string)
    decreases |pieces|
  {
    if pieces == [] then out == ""
    else
      match pieces[0]
      case Literal(c) => out != "" && out[0] == c && Shows(pieces[1..], value, out[1..])
      case Hole(text, inner) =>
        var shown := match value(inner) { case Some(v) => if v != "" then v else text case None => text };
        shown <= out && Shows(pieces[1..], value, out[|shown|..])
  }

  lemma {:induction false} FillShows(pieces: seq<Piece>, value: string -> Option<string>, f: (string, string) -> string)
    requires forall text, inner ::
      f(text, inner) == (match value(inner) { case Some(v) => if v != "" then v else text case None => text })
    ensures Shows(pieces, value, Fill(pieces, f))
  {
    if pieces != [] {
      FillShows(pieces[1..], value, f);
      var shown := match pieces[0] { case Literal(c) => [c] case Hole(text, inner) => f(text, inner) };
      assert Fill(pieces, f) == shown + Fill(pieces[1..], f);
      assert (shown + Fill(pieces[1..], f))[|shown|..] == Fill(pieces[1..], f);
    }
  }

  /** The value of the variable a placeholder names: `{{n}}` is the n-th, counted from one. */
  function PositionalValue(vars: seq<string>, inner: string): Option<string> {
    match FiniteNumber(inner)
    case None => None
    case Some(n) => if 1 <= n <= |vars| then Some(vars[n - 1]) else None
  }

  /** The value a name has: that of the last entry for it. */
  function NamedValue(vars: seq<NamedVar>, name: string): Option<string> {
    if vars == [] then None
    else if vars[|vars| - 1].name == name then Some(vars[|vars| - 1].text)
    else NamedValue(vars[..|vars| - 1], name)
  }

  lemma {:induction false} LastEntryCounts(vars: seq<NamedVar>, name: string)
    ensures NamedValue(vars, name) == if name in ByName(vars) then Some(ByName(vars)[name]) else None
  {
    if vars != [] {
      LastEntryCounts(vars[..|vars| - 1], name);
    }
  }

  /** Rendering shows every text with whatever values there are; placeholders without one stay as written. */
  lemma RenderShows(t: string, vars: seq<string>)
    ensures Shows(Parse(t, 0, Positional), inner => PositionalValue(vars, inner), RenderTemplateBody(t, vars))
  {
    hide FiniteNumber, Parse, Shows, Fill;
    FillShows(Parse(t, 0, Positional), inner => PositionalValue(vars, inner), (text, inner) =>
      if FiniteNumber(inner).Some? && Supplied(vars, FiniteNumber(inner).value) then vars[FiniteNumber(inner).value - 1]
      else text);
  }

  /** The same for named placeholders. */
  lemma NamedRenderShows(t: string, vars: seq<NamedVar>)
    ensures Shows(Parse(t, 0, Named), name => NamedValue(vars, name), RenderTemplateBodyNamed(t, vars))
  {
    hide Parse, Shows, Fill, ByName, NamedValue;
    forall name: string
      ensures NamedValue(vars, name) == if name in ByName(vars) then Some(ByName(vars)[name]) else None
    {
      LastEntryCounts(vars, name);
    }
    FillShows(Parse(t, 0, Named), name => NamedValue(vars, name),
              (text, name) => if name in ByName(vars) && ByName(vars)[name] != "" then ByName(vars)[name] else text);
  }

  /** Only one text shows given pieces with given values. */
  lemma {:induction false} ShowsOneText(pieces: seq<Piece>, value: string -> Option<string>, a: string, b: string)
    requires Shows(pieces, value, a) && Shows(pieces, value, b)
    ensures a == b
    decreases |pieces|
  {
    if pieces != [] {
      var n := match pieces[0]
        case Literal(_) => 1
        case Hole(text, inner) =>
          match value(inner) { case Some(v) => if v != "" then |v| else |text| case None => |text| };
      ShowsOneText(pieces[1..], value, a[n..], b[n..]);
      assert a[..n] == b[..n];
      assert a == a[..n] + a[n..] && b == b[..n] + b[n..];
    }
  }

  /** A text none of whose placeholders has a value is rendered as it stands. */
  lemma NothingSuppliedNothingChanges(t: string, vars: seq<string>)
    requires forall n <- Indices(t) :: !Supplied(vars, n)
    ensures RenderTemplateBody(t, vars) == t
  {
    hide FiniteNumber, Parse;
    var pieces := Parse(t, 0, Positional);
    var f := (text: string, inner: string) =>
      if FiniteNumber(inner).Some? && Supplied(vars, FiniteNumber(inner).value) then vars[FiniteNumber(inner).value - 1]
      else text;
    forall p <- pieces | p.Hole?
      ensures f(p.text, p.inner) == p.text
    {
      HoleInners(pieces, p);
      if n :| FiniteNumber(p.inner) == Some(n) {
        FiniteMembers(Inners(pieces), n);
      }
    }
    FillsAlike(pieces, f, (text, _) => text);
    PiecesMakeTheText(t, 0, Positional);
    assert t[0..] == t;
  }

  lemma NoNameNothingChanges(t: string, vars: seq<NamedVar>)
    requires forall name <- Inners(Parse(t, 0, Named)) :: name in ByName(vars) ==> ByName(vars)[name] == ""
    ensures RenderTemplateBodyNamed(t, vars) == t
  {
    hide Parse;
    var pieces := Parse(t, 0, Named);
    var m := ByName(vars);
    var f := (text: string, name: string) => if name in m && m[name] != "" then m[name] else text;
    forall p <- pieces | p.Hole?
      ensures f(p.text, p.inner) == p.text
    {
      HoleInners(pieces, p);
    }
    FillsAlike(pieces, f, (text, _) => text);
    PiecesMakeTheText(t, 0, Named);
    assert t[0..] == t;
  }

  /** A named body renders with every placeholder replaced when each name has a non-empty value. */
  lemma NamedBodyRenders(t: string, vars: seq<NamedVar>)
    requires forall name <- Inners(Parse(t, 0, Named)) :: name in ByName(vars) && ByName(vars)[name] != ""
    ensures RenderTemplateBodyNamed(t, vars)
            == Replace(t, Named, (text, name) => if name in ByName(vars) then ByName(vars)[name] else "")
  {
    hide Parse;
    var pieces := Parse(t, 0, Named);
    forall p <- pieces | p.Hole?
      ensures p.inner in ByName(vars) && ByName(vars)[p.inner] != ""
    {
      HoleInners(pieces, p);
    }
    var m := ByName(vars);
    FillsAlike(pieces, (text, name) => if name in m && m[name] != "" then m[name] else text,
               (text, name) => if name in ByName(vars) then ByName(vars)[name] else "");
  }

  /** Values for all variables reach every numbered placeholder exactly when none is numbered zero; gaps do no harm. */
  lemma OnlyZeroStaysUnrendered(t: string, vars: seq<string>)
    requires |vars| == MaxOf(Indices(t)) && forall v <- vars :: v != ""
    ensures (forall n <- Indices(t) :: Supplied(vars, n)) <==> 0 !in Indices(t)
  {
    hide Indices;
    IndicesAreNatural(t);
    forall n <- Indices(t) | n != 0
      ensures Supplied(vars, n)
    {
      assert vars[n - 1] in vars;
    }
  }

  /** `detectParameterFormat` calls texts mixed when both dialects occur; rendering one leaves the other alone. */
  lemma DialectsDoNotMeet(t: string, i: nat)
    requires i <= |t|
    ensures !(i in Starts(Parse(t, 0, Positional), 0) && i in Starts(Parse(t, 0, Named), 0))
  {
    hide MatchAt;
    ScanFindsAll(t, 0, i, Positional);
    ScanFindsAll(t, 0, i, Named);
    DialectsAreDisjoint(t, i);
  }
}
