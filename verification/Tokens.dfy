/** The token scanner: where `$var.` paths stand in a text, and replacing them in a single pass. */
module Tokens {
  import opened Options

  const PREFIX := "$var."

  predicate IsStart(c: char) { 'a' <= c <= 'z' || 'A' <= c <= 'Z' || c == '_' }

  predicate IsWord(c: char) { IsStart(c) || '0' <= c <= '9' }

  /** A segment of a path: a letter or underscore, then letters, digits and underscores. */
  predicate IsSegment(s: string) {
    s != "" && IsStart(s[0]) && forall c <- s :: IsWord(c)
  }

  /* ---- The pattern ---- */

  /** The end of the run of word characters at `i`. */
  function WordEnd(t: string, i: nat): (e: nat)
    requires i <= |t|
    ensures i <= e <= |t| && (e < |t| ==> !IsWord(t[e]))
    ensures forall k :: i <= k < e ==> IsWord(t[k])
    decreases |t| - i
  {
    if i < |t| && IsWord(t[i]) then WordEnd(t, i + 1) else i
  }

  /** The end of the segment at `i`, if one starts there. */
  function SegmentEnd(t: string, i: nat): (r: Option<nat>)
    requires i <= |t|
    ensures r.Some? ==> i < r.value <= |t|
  {
    if i < |t| && IsStart(t[i]) then Some(WordEnd(t, i)) else None
  }

  /** The end of as many dotted segments as follow at `i`. */
  function TailEnd(t: string, i: nat): (e: nat)
    requires i <= |t|
    ensures i <= e <= |t|
    decreases |t| - i
  {
    if i < |t| && t[i] == '.' && SegmentEnd(t, i + 1).Some? then TailEnd(t, SegmentEnd(t, i + 1).value) else i
  }

  /** The end of the two or more dotted segments at `i`. */
  function PathEnd(t: string, i: nat): (r: Option<nat>)
    requires i <= |t|
    ensures r.Some? ==> i < r.value <= |t|
  {
    match SegmentEnd(t, i)
    case None => None
    case Some(e) => if TailEnd(t, e) > e then Some(TailEnd(t, e)) else None
  }

  /** The prefix of a token, not directly after a word character. */
  predicate PrefixAt(t: string, i: nat)
    requires i <= |t|
  {
    i + 5 <= |t| && t[i..i + 5] == PREFIX && (i > 0 ==> !IsWord(t[i - 1]))
  }

  /** The end of the token that starts at `i`; none directly after a word character. */
  function MatchAt(t: string, i: nat): (r: Option<nat>)
    requires i <= |t|
    ensures r.Some? ==> i + 5 < r.value <= |t|
  {
    if PrefixAt(t, i) then PathEnd(t, i + 5) else None
  }

  datatype Span = Span(start: nat, end: nat)

  /** The tokens from `i` on, left to right. */
  function Spans(t: string, i: nat): (r: seq<Span>)
    requires i <= |t|
    ensures forall p <- r :: i <= p.start && p.start + 5 < p.end <= |t|
    decreases |t| - i
  {
    if i == |t| then []
    else
      match MatchAt(t, i)
      case None => Spans(t, i + 1)
      case Some(e) => [Span(i, e)] + Spans(t, e)
  }

  /** The part of a token after `$var.`. */
  function PathOf(t: string, p: Span): string
    requires p.start + 5 < p.end <= |t|
  {
    t[p.start + 5..p.end]
  }

  /** `String.replace` with the pattern: one pass, the inserted text is not looked at again. */
  function Replace(t: string, i: nat, f: string -> string): string
    requires i <= |t|
    decreases |t| - i
  {
    if i == |t| then ""
    else
      match MatchAt(t, i)
      case None => [t[i]] + Replace(t, i + 1, f)
      case Some(e) => f(PathOf(t, Span(i, e))) + Replace(t, e, f)
  }

  /* ---- Paths and their segments ---- */

  /** `split(".")`. */
  function Split(s: string): (r: seq<string>)
    ensures r != []
  {
    if s == "" then [""]
    else if s[0] == '.' then [""] + Split(s[1..])
    else
      var rest := Split(s[1..]);
      [[s[0]] + rest[0]] + rest[1..]
  }

  /** `join(".")`. */
  function Join(parts: seq<string>): string {
    if parts == [] then "" else if |parts| == 1 then parts[0] else parts[0] + "." + Join(parts[1..])
  }

  lemma {:induction false} JoinSplits(s: string)
    ensures Join(Split(s)) == s
    ensures forall p <- Split(s) :: '.' !in p
  {
    if s != "" {
      JoinSplits(s[1..]);
      var rest := Split(s[1..]);
      if s[0] == '.' {
        assert ([""] + rest)[1..] == rest;
        assert s == "." + s[1..];
      } else {
        var parts := [[s[0]] + rest[0]] + rest[1..];
        assert parts[1..] == rest[1..];
        assert s == [s[0]] + s[1..];
      }
    }
  }

  /** A word, then dotted words: the shape of a path. */
  lemma {:induction false} SplitWord(s: string, rest: string)
    requires '.' !in s
    ensures Split(s + "." + rest) == [s] + Split(rest)
    ensures Split(s) == [s]
  {
    if s == "" {
      assert s + "." + rest == "." + rest;
    } else {
      SplitWord(s[1..], rest);
      assert (s + "." + rest)[1..] == s[1..] + "." + rest;
      assert s == [s[0]] + s[1..];
    }
  }

  predicate AllSegments(parts: seq<string>) {
    forall p <- parts :: IsSegment(p)
  }

  lemma WordIsSegment(t: string, i: nat)
    requires i <= |t| && SegmentEnd(t, i).Some?
    ensures IsSegment(t[i..SegmentEnd(t, i).value])
    ensures forall k :: i <= k < SegmentEnd(t, i).value ==> t[k] != '$'
  {
    var s := t[i..SegmentEnd(t, i).value];
    assert s[0] == t[i];
    assert forall c <- s :: IsWord(c);
  }

  lemma SegmentHasNoDot(s: string)
    requires IsSegment(s)
    ensures '.' !in s
  {
  }

  lemma {:induction false} TailSegments(t: string, from: nat, i: nat)
    requires from < i <= |t| && IsSegment(t[from..i])
    ensures AllSegments(Split(t[from..TailEnd(t, i)]))
    ensures TailEnd(t, i) > i ==> |Split(t[from..TailEnd(t, i)])| >= 2
    decreases |t| - i
  {
    hide IsSegment, SegmentEnd, Split;
    var e := TailEnd(t, i);
    var s := t[from..i];
    SegmentHasNoDot(s);
    SplitWord(s, "");
    if e > i {
      var n := SegmentEnd(t, i + 1).value;
      WordIsSegment(t, i + 1);
      TailSegments(t, i + 1, n);
      SplitWord(s, t[i + 1..e]);
      SplitSlice(t, from, i, e);
    }
  }

  lemma SplitSlice(t: string, from: nat, i: nat, e: nat)
    requires from <= i < e <= |t| && t[i] == '.'
    ensures t[from..e] == t[from..i] + "." + t[i + 1..e]
  {
  }

  lemma {:induction false} TailHasNoDollar(t: string, i: nat)
    requires i <= |t|
    ensures forall k :: i <= k < TailEnd(t, i) ==> t[k] != '$'
    decreases |t| - i
  {
    hide SegmentEnd;
    if i < |t| && t[i] == '.' && SegmentEnd(t, i + 1).Some? {
      WordIsSegment(t, i + 1);
      TailHasNoDollar(t, SegmentEnd(t, i + 1).value);
    }
  }

  /** A token's path has two segments or more, and no further dollar sign inside. */
  lemma TokenPath(t: string, i: nat)
    requires i <= |t| && MatchAt(t, i).Some?
    ensures var e := MatchAt(t, i).value;
            && AllSegments(Split(t[i + 5..e])) && |Split(t[i + 5..e])| >= 2
            && forall k :: i < k < e ==> t[k] != '$'
  {
    hide AllSegments, Split, SegmentEnd, IsSegment, TailEnd;
    var n := SegmentEnd(t, i + 5).value;
    WordIsSegment(t, i + 5);
    TailSegments(t, i + 5, n);
    TailHasNoDollar(t, n);
    forall k | i < k < i + 5
      ensures t[k] != '$'
    {
      assert t[k] == t[i..i + 5][k - i];
    }
  }

  /* ---- The pattern as a grammar: the longest path that ends at a word boundary ---- */

  /** A token from `i` to `e`: the prefix, two or more dotted segments, and a word boundary. */
  ghost predicate IsToken(t: string, i: nat, e: nat) {
    && i + 5 <= e <= |t| && PrefixAt(t, i)
    && AllSegments(Split(t[i + 5..e])) && |Split(t[i + 5..e])| >= 2
    && (e < |t| ==> !IsWord(t[e]))
  }

  lemma {:induction false} SplitHead(s: string) returns (rest: string)
    ensures '.' !in Split(s)[0]
    ensures |Split(s)| == 1 ==> s == Split(s)[0]
    ensures |Split(s)| > 1 ==> s == Split(s)[0] + "." + rest && Split(rest) == Split(s)[1..]
  {
    rest := "";
    if s != "" {
      if s[0] == '.' {
        rest := s[1..];
        assert s == "" + "." + rest;
      } else {
        rest := SplitHead(s[1..]);
        var tail := Split(s[1..]);
        assert Split(s)[1..] == tail[1..];
        assert s == [s[0]] + s[1..];
        assert |Split(s)| > 1 ==> [s[0]] + (tail[0] + "." + rest) == Split(s)[0] + "." + rest;
      }
    }
  }

  lemma {:induction false} WordEndReaches(t: string, i: nat, e: nat)
    requires i <= e <= |t| && forall k :: i <= k < e ==> IsWord(t[k])
    ensures e <= WordEnd(t, i) && (e < |t| && !IsWord(t[e]) ==> WordEnd(t, i) == e)
    decreases e - i
  {
    if i < e {
      WordEndReaches(t, i + 1, e);
    }
  }

  lemma SegmentReaches(t: string, i: nat, e: nat)
    requires i <= e <= |t| && IsSegment(t[i..e])
    ensures SegmentEnd(t, i).Some? && e <= SegmentEnd(t, i).value
    ensures e < |t| && !IsWord(t[e]) ==> SegmentEnd(t, i).value == e
  {
    var s := t[i..e];
    assert s[0] == t[i];
    forall k | i <= k < e
      ensures IsWord(t[k])
    {
      assert t[k] == s[k - i] && s[k - i] in s;
    }
    WordEndReaches(t, i, e);
  }

  /** The scan reads on at least as far as any path does. */
  lemma {:induction false} PathReaches(t: string, i: nat, e: nat)
    requires i <= e <= |t| && AllSegments(Split(t[i..e]))
    ensures SegmentEnd(t, i).Some? && e <= TailEnd(t, SegmentEnd(t, i).value)
    ensures |Split(t[i..e])| >= 2 ==> SegmentEnd(t, i).value < e
    decreases e - i
  {
    hide IsSegment, Split, SegmentEnd;
    var s := t[i..e];
    var rest := SplitHead(s);
    var head := Split(s)[0];
    assert head in Split(s);
    if |Split(s)| == 1 {
      SegmentReaches(t, i, e);
    } else {
      var m := i + |head|;
      assert t[m] == s[|head|] == '.';
      assert t[i..m] == s[..|head|] == head;
      assert t[m + 1..e] == s[|head| + 1..] == rest;
      SegmentReaches(t, i, m);
      assert forall p <- Split(rest) :: p in Split(s);
      PathReaches(t, m + 1, e);
    }
  }

  lemma {:induction false} TailEndsAtBoundary(t: string, i: nat)
    requires i <= |t| && (i < |t| ==> !IsWord(t[i]))
    ensures TailEnd(t, i) < |t| ==> !IsWord(t[TailEnd(t, i)])
    decreases |t| - i
  {
    if i < |t| && t[i] == '.' && SegmentEnd(t, i + 1).Some? {
      TailEndsAtBoundary(t, SegmentEnd(t, i + 1).value);
    }
  }

  /** A match is found exactly where a token stands, and it is the longest one there. */
  lemma MatchIsLongestToken(t: string, i: nat)
    requires i <= |t|
    ensures MatchAt(t, i).Some? <==> exists e: nat :: IsToken(t, i, e)
    ensures MatchAt(t, i).Some? ==> IsToken(t, i, MatchAt(t, i).value)
    ensures forall e: nat | IsToken(t, i, e) :: MatchAt(t, i).Some? && e <= MatchAt(t, i).value
  {
    hide Split, AllSegments, TailEnd, PrefixAt;
    forall e: nat | IsToken(t, i, e)
      ensures MatchAt(t, i).Some? && e <= MatchAt(t, i).value
    {
      PathReaches(t, i + 5, e);
    }
    if MatchAt(t, i).Some? {
      TokenPath(t, i);
      TailEndsAtBoundary(t, SegmentEnd(t, i + 5).value);
      assert IsToken(t, i, MatchAt(t, i).value);
    }
  }

  /* ---- The scan finds every token, and replaces exactly those ---- */

  lemma DollarFirst(t: string, i: nat)
    requires i <= |t| && MatchAt(t, i).Some?
    ensures t[i] == '$'
  {
    assert t[i] == t[i..i + 5][0];
  }

  /** Tokens do not overlap: the scan from the left misses none. */
  lemma {:induction false} SpansAreAllTokens(t: string, from: nat, i: nat)
    requires from <= i <= |t|
    ensures MatchAt(t, i).Some? <==> exists p <- Spans(t, from) :: p.start == i
    ensures forall p <- Spans(t, from) :: p.start == i ==> MatchAt(t, i) == Some(p.end)
    decreases |t| - from
  {
    hide MatchAt;
    if from < |t| {
      match MatchAt(t, from)
      case None =>
        if from < i {
          SpansAreAllTokens(t, from + 1, i);
        } else {
          assert forall p <- Spans(t, from + 1) :: p.start > from;
        }
      case Some(e) =>
        if i == from {
          assert Spans(t, from)[0] == Span(from, e);
        } else if i < e {
          TokenPath(t, from);
          if MatchAt(t, i).Some? {
            DollarFirst(t, i);
          }
        } else {
          SpansAreAllTokens(t, e, i);
        }
    }
  }

  /** Spans in order, none overlapping, all from `from` on. */
  ghost predicate Apart(t: string, from: nat, spans: seq<Span>) {
    && (forall p <- spans :: from <= p.start && p.start + 5 < p.end <= |t|)
    && (forall j, k :: 0 <= j < k < |spans| ==> spans[j].end <= spans[k].start)
  }

  /** The text outside the given spans as it is, and each span replaced. */
  ghost function Interleaved(t: string, from: nat, spans: seq<Span>, f: string -> string): string
    requires from <= |t| && Apart(t, from, spans)
    decreases |spans|
  {
    if spans == [] then t[from..]
    else t[from..spans[0].start] + (f(PathOf(t, spans[0])) + Interleaved(t, spans[0].end, spans[1..], f))
  }

  lemma {:induction false} SpansAreApart(t: string, i: nat)
    requires i <= |t|
    ensures Apart(t, i, Spans(t, i))
    decreases |t| - i
  {
    hide MatchAt;
    if i < |t| {
      match MatchAt(t, i)
      case None => SpansAreApart(t, i + 1);
      case Some(e) =>
        SpansAreApart(t, e);
        assert forall p <- Spans(t, e) :: e <= p.start;
    }
  }

  lemma OneMoreLiteral(t: string, i: nat, spans: seq<Span>, f: string -> string)
    requires i < |t| && Apart(t, i + 1, spans)
    ensures Apart(t, i, spans)
    ensures Interleaved(t, i, spans, f) == [t[i]] + Interleaved(t, i + 1, spans, f)
  {
    if spans == [] {
      assert t[i..] == [t[i]] + t[i + 1..];
    } else {
      var after := f(PathOf(t, spans[0])) + Interleaved(t, spans[0].end, spans[1..], f);
      assert t[i..spans[0].start] == [t[i]] + t[i + 1..spans[0].start];
      assert Interleaved(t, i, spans, f) == t[i..spans[0].start] + after;
      assert Interleaved(t, i + 1, spans, f) == t[i + 1..spans[0].start] + after;
    }
  }

  lemma OneMoreToken(t: string, i: nat, e: nat, spans: seq<Span>, f: string -> string)
    requires i + 5 < e <= |t| && Apart(t, e, spans)
    ensures Apart(t, i, [Span(i, e)] + spans)
    ensures Interleaved(t, i, [Span(i, e)] + spans, f) == f(PathOf(t, Span(i, e))) + Interleaved(t, e, spans, f)
  {
    assert ([Span(i, e)] + spans)[1..] == spans;
    assert t[i..i] == "";
  }

  /** Replacing keeps the text between the tokens and puts each token's value in its place. */
  lemma {:induction false} ReplaceInterleaves(t: string, i: nat, f: string -> string)
    requires i <= |t|
    ensures Apart(t, i, Spans(t, i)) && Replace(t, i, f) == Interleaved(t, i, Spans(t, i), f)
    decreases |t| - i
  {
    hide MatchAt, Interleaved, Apart, PathOf;
    SpansAreApart(t, i);
    if i == |t| {
      NothingLeft(t, f);
    } else {
      match MatchAt(t, i)
      case None =>
        ReplaceInterleaves(t, i + 1, f);
        OneMoreLiteral(t, i, Spans(t, i + 1), f);
      case Some(e) =>
        ReplaceInterleaves(t, e, f);
        OneMoreToken(t, i, e, Spans(t, e), f);
    }
  }

  lemma NothingLeft(t: string, f: string -> string)
    ensures Apart(t, |t|, []) && Interleaved(t, |t|, [], f) == ""
  {
  }

  /* ---- Replacing text piece by piece ---- */

  /** A cut that no token reaches across, and that does not expose one to a word character. */
  predicate CleanCut(a: string, b: string) {
    b == [] || (!IsWord(b[0]) && b[0] != '.' && (b[0] == '$' && a != "" ==> !IsWord(a[|a| - 1])))
  }

  lemma {:induction false} WordEndBefore(a: string, b: string, i: nat)
    requires i <= |a| && CleanCut(a, b)
    ensures WordEnd(a + b, i) == WordEnd(a, i)
    decreases |a| - i
  {
    if i < |a| && IsWord(a[i]) {
      WordEndBefore(a, b, i + 1);
    }
  }

  lemma SegmentEndBefore(a: string, b: string, i: nat)
    requires i <= |a| && CleanCut(a, b)
    ensures SegmentEnd(a + b, i) == SegmentEnd(a, i)
  {
    WordEndBefore(a, b, i);
  }

  lemma {:induction false} TailEndBefore(a: string, b: string, i: nat)
    requires i <= |a| && CleanCut(a, b)
    ensures TailEnd(a + b, i) == TailEnd(a, i)
    decreases |a| - i
  {
    if i < |a| && a[i] == '.' {
      hide SegmentEnd, CleanCut;
      SegmentEndBefore(a, b, i + 1);
      if SegmentEnd(a, i + 1).Some? {
        TailEndBefore(a, b, SegmentEnd(a, i + 1).value);
      }
    }
  }

  lemma MatchBefore(a: string, b: string, i: nat)
    requires i < |a| && CleanCut(a, b)
    ensures MatchAt(a + b, i) == MatchAt(a, i)
  {
    PrefixBefore(a, b, i);
    hide CleanCut, SegmentEnd, TailEnd;
    if PrefixAt(a, i) {
      SegmentEndBefore(a, b, i + 5);
      if SegmentEnd(a, i + 5).Some? {
        TailEndBefore(a, b, SegmentEnd(a, i + 5).value);
      }
    }
  }

  /** No prefix starts in the first part and ends in the second. */
  lemma PrefixBefore(a: string, b: string, i: nat)
    requires i < |a| && CleanCut(a, b)
    ensures PrefixAt(a + b, i) <==> PrefixAt(a, i)
  {
    if i + 5 <= |a| {
      assert (a + b)[i..i + 5] == a[i..i + 5];
    } else if i + 5 <= |a| + |b| {
      assert (a + b)[i..i + 5][|a| - i] == b[0];
    }
  }

  lemma {:induction false} WordEndAfter(a: string, b: string, j: nat)
    requires j <= |b|
    ensures WordEnd(a + b, |a| + j) == |a| + WordEnd(b, j)
    decreases |b| - j
  {
    if j < |b| && IsWord(b[j]) {
      WordEndAfter(a, b, j + 1);
    }
  }

  /** An end found in the second part, as an end in the whole. */
  function Shifted(r: Option<nat>, n: nat): Option<nat> {
    match r
    case None => None
    case Some(e) => Some(n + e)
  }

  lemma SegmentEndAfter(a: string, b: string, j: nat)
    requires j <= |b|
    ensures SegmentEnd(a + b, |a| + j) == Shifted(SegmentEnd(b, j), |a|)
  {
    WordEndAfter(a, b, j);
  }

  lemma {:induction false} TailEndAfter(a: string, b: string, j: nat)
    requires j <= |b|
    ensures TailEnd(a + b, |a| + j) == |a| + TailEnd(b, j)
    decreases |b| - j
  {
    if j < |b| && b[j] == '.' {
      hide SegmentEnd;
      SegmentEndAfter(a, b, j + 1);
      if SegmentEnd(b, j + 1).Some? {
        TailEndAfter(a, b, SegmentEnd(b, j + 1).value);
      }
    }
  }

  lemma PrefixFits(t: string, i: nat)
    requires i <= |t| && PrefixAt(t, i)
    ensures i + 5 <= |t|
  {
  }

  lemma PrefixAfter(a: string, b: string, j: nat)
    requires j <= |b| && CleanCut(a, b)
    ensures PrefixAt(a + b, |a| + j) <==> PrefixAt(b, j)
  {
    if j + 5 <= |b| {
      assert (a + b)[|a| + j..|a| + j + 5] == b[j..j + 5];
      assert b[j..j + 5] == PREFIX ==> b[j] == b[j..j + 5][0] == '$';
      assert j > 0 ==> (a + b)[|a| + j - 1] == b[j - 1];
    }
  }

  lemma MatchAfter(a: string, b: string, j: nat)
    requires j <= |b| && CleanCut(a, b)
    ensures MatchAt(a + b, |a| + j) == Shifted(MatchAt(b, j), |a|)
  {
    PrefixAfter(a, b, j);
    hide CleanCut, PrefixAt, PathEnd;
    if PrefixAt(b, j) {
      PrefixFits(b, j);
      PathEndAfter(a, b, j + 5);
    }
  }

  lemma PathEndAfter(a: string, b: string, i: nat)
    requires i <= |b|
    ensures PathEnd(a + b, |a| + i) == Shifted(PathEnd(b, i), |a|)
  {
    hide SegmentEnd, TailEnd;
    SegmentEndAfter(a, b, i);
    if SegmentEnd(b, i).Some? {
      TailEndAfter(a, b, SegmentEnd(b, i).value);
    }
  }

  lemma {:induction false} ReplaceAfter(a: string, b: string, j: nat, f: string -> string)
    requires j <= |b| && CleanCut(a, b)
    ensures Replace(a + b, |a| + j, f) == Replace(b, j, f)
    decreases |b| - j
  {
    hide MatchAt, CleanCut;
    if j < |b| {
      MatchAfter(a, b, j);
      match MatchAt(b, j)
      case None => ReplaceAfter(a, b, j + 1, f);
      case Some(e) =>
        ReplaceAfter(a, b, e, f);
        assert (a + b)[|a| + j + 5..|a| + e] == b[j + 5..e];
    }
  }

  lemma {:induction false} ReplaceBefore(a: string, b: string, i: nat, f: string -> string)
    requires i <= |a| && CleanCut(a, b)
    ensures Replace(a + b, i, f) == Replace(a, i, f) + Replace(b, 0, f)
    decreases |a| - i
  {
    hide MatchAt, CleanCut;
    if i == |a| {
      ReplaceAfter(a, b, 0, f);
    } else {
      MatchBefore(a, b, i);
      match MatchAt(a, i)
      case None =>
        ReplaceBefore(a, b, i + 1, f);
        assert [a[i]] + (Replace(a, i + 1, f) + Replace(b, 0, f)) == Replace(a, i, f) + Replace(b, 0, f);
      case Some(e) =>
        ReplaceBefore(a, b, e, f);
        assert (a + b)[i + 5..e] == a[i + 5..e];
        var v := f(a[i + 5..e]);
        assert v + (Replace(a, e, f) + Replace(b, 0, f)) == (v + Replace(a, e, f)) + Replace(b, 0, f);
    }
  }

  /** Replacing distributes over concatenation at every clean cut. */
  lemma ReplaceIsHomomorphic(a: string, b: string, f: string -> string)
    requires CleanCut(a, b)
    ensures Replace(a + b, 0, f) == Replace(a, 0, f) + Replace(b, 0, f)
  {
    ReplaceBefore(a, b, 0, f);
  }

  /** A token directly after a word character, as after another token, stays as it is. */
  lemma TokenAfterWordStays(t: string, i: nat)
    requires 0 < i <= |t| && IsWord(t[i - 1])
    ensures !exists p <- Spans(t, 0) :: p.start == i
  {
    SpansAreAllTokens(t, 0, i);
  }

  /** A text without a token stays as it is. */
  lemma {:induction false} NoTokenStays(t: string, i: nat, f: string -> string)
    requires i <= |t| && forall k: nat | k < |t| :: MatchAt(t, k).None?
    ensures Replace(t, i, f) == t[i..]
    decreases |t| - i
  {
    hide MatchAt;
    if i < |t| {
      NoTokenStays(t, i + 1, f);
      assert t[i..] == [t[i]] + t[i + 1..];
    }
  }
}
