/**
 The streaming splitter of an oversized CSV export
 (apps/api/scripts/contact-transfer-load.ts): chunks of any size come in, parts of at
 most `max` rows go out, each with the header line in front.
 */
module Splitter {
  import opened Options

  type Bytes = seq<bv8>

  const NEWLINE: bv8 := 10

  /** `indexOf(0x0a, from)`: the first newline at or after `from`. */
  function IndexOfNewline(b: Bytes, from: nat): (r: Option<nat>)
    requires from <= |b|
    ensures r.Some? ==> from <= r.value < |b| && b[r.value] == NEWLINE && NEWLINE !in b[from..r.value]
    ensures r.None? ==> NEWLINE !in b[from..]
    decreases |b| - from
  {
    if from == |b| then None
    else if b[from] == NEWLINE then Some(from)
    else
      var r := IndexOfNewline(b, from + 1);
      assert b[from..] == [b[from]] + b[from + 1..];
      assert r.Some? ==> b[from..r.value] == [b[from]] + b[from + 1..r.value];
      r
  }

  function Newlines(b: Bytes): nat {
    if b == [] then 0 else (if b[0] == NEWLINE then 1 else 0) + Newlines(b[1..])
  }

  function Concat(pieces: seq<Bytes>): Bytes {
    if pieces == [] then [] else pieces[0] + Concat(pieces[1..])
  }

  /* ---- Reference definition: what the parts of a body are, with no chunks or carry ---- */

  /** The length of the first `rows` newline-terminated rows, if there are that many. */
  function RowsLength(b: Bytes, rows: nat): (r: Option<nat>)
    ensures r.Some? ==> r.value <= |b| && (rows > 0 ==> r.value > 0)
    decreases rows
  {
    if rows == 0 then Some(0)
    else
      match IndexOfNewline(b, 0)
      case None => None
      case Some(nl) =>
        match RowsLength(b[nl + 1..], rows - 1)
        case None => None
        case Some(n) => Some(nl + 1 + n)
  }

  /** Cut after every `max` rows; whatever is left makes the last part. */
  function BodyParts(b: Bytes, max: nat): seq<Bytes>
    requires max > 0
    decreases |b|
  {
    if b == [] then []
    else
      match RowsLength(b, max)
      case None => [b]
      case Some(n) => [b[..n]] + BodyParts(b[n..], max)
  }

  /** The whole export: the first line is the header; without a complete one there are no parts. */
  function ExportParts(input: Bytes, max: nat): (parts: seq<Bytes>)
    requires max > 0
  {
    match IndexOfNewline(input, 0)
    case None => []
    case Some(he) => BodyParts(input[he + 1..], max)
  }

  /* ---- The loop ---- */

  class ExportSplitter {
    const max: nat
    var header: Option<Bytes>
    var carry: Bytes
    var lines: nat
    var part: nat
    var chunkPieces: seq<Bytes>
    /** The objects put in storage: `load-part-<n>.csv` with its bytes. */
    var stored: seq<(nat, Bytes)>

    ghost var consumed: Bytes
    ghost var bodies: seq<Bytes>

    ghost predicate Stored()
      reads this
    {
      && |stored| == |bodies| == part
      && (bodies != [] ==> header.Some?)
      && forall i :: 0 <= i < |stored| ==> stored[i] == (i, header.value + bodies[i])
    }

    /** Between chunks: what came in is the header, the stored bodies, the pieces in hand and the carried tail. */
    ghost predicate Valid()
      reads this
    {
      && max > 0
      && Stored()
      && NEWLINE !in carry
      && (header.None? ==> carry == consumed && chunkPieces == [] && bodies == [] && lines == 0)
      && (header.Some? ==>
            && consumed == header.value + Concat(bodies) + Concat(chunkPieces) + carry
            && IsHeader(header.value)
            && InProgress(bodies, Concat(chunkPieces), lines, max)
            && (chunkPieces == [] <==> Concat(chunkPieces) == []))
    }

    constructor (max: nat)
      requires max > 0
      ensures Valid() && fresh(this) && consumed == [] && this.max == max
    {
      this.max := max;
      header, carry, lines, part, chunkPieces, stored := None, [], 0, 0, [], [];
      consumed, bodies := [], [];
    }

    /** `flushPart`: store the header and the pieces in hand as the next part. */
    method FlushPart()
      requires Stored()
      modifies this`stored, this`chunkPieces, this`lines, this`part, this`bodies
      ensures Stored()
      ensures if header.None? || old(chunkPieces) == []
              then bodies == old(bodies) && chunkPieces == old(chunkPieces) && lines == old(lines)
              else bodies == old(bodies) + [Concat(old(chunkPieces))] && chunkPieces == [] && lines == 0
    {
      if header.None? || chunkPieces == [] {
        return;
      }
      stored := stored + [(part, header.value + Concat(chunkPieces))];
      bodies := bodies + [Concat(chunkPieces)];
      chunkPieces := [];
      lines := 0;
      part := part + 1;
    }

    /** Take the header off the first chunks, if its line is complete in `buf`. */
    method TakeHeader(buf: Bytes) returns (rest: Option<Bytes>)
      requires Valid() && header.None?
      modifies this`header, this`carry, this`consumed
      ensures rest.None? ==> Valid() && header.None? && carry == consumed == buf && NEWLINE !in buf
      ensures rest.Some? ==> header.Some? && header.value + rest.value == buf && IsHeader(header.value)
      ensures rest.Some? ==> consumed == old(consumed)
    {
      var he := IndexOfNewline(buf, 0);
      if he.None? {
        assert buf[0..] == buf;
        carry := buf;
        consumed := buf;
        return None;
      }
      header := Some(buf[..he.value + 1]);
      assert header.value[..he.value] == buf[0..he.value];
      rest := Some(buf[he.value + 1..]);
    }

    /** One round of the stream loop. */
    method Chunk(raw: Bytes)
      requires Valid()
      modifies this
      ensures Valid() && consumed == old(consumed) + raw
    {
      var buf := carry + raw;
      if header.None? {
        var rest := TakeHeader(buf);
        if rest.None? {
          return;
        }
        buf := rest.value;
        assert header.value + Concat(bodies) + Concat(chunkPieces) + buf == old(consumed) + raw;
      } else {
        assert header.value + Concat(bodies) + Concat(chunkPieces) + buf == old(consumed) + raw;
      }
      SplitRows(buf, old(consumed) + raw);
    }

    /** `chunkPieces.push`. */
    method Push(piece: Bytes)
      requires piece != [] && (chunkPieces == [] <==> Concat(chunkPieces) == [])
      modifies this`chunkPieces
      ensures Concat(chunkPieces) == Concat(old(chunkPieces)) + piece && chunkPieces != []
    {
      AppendPiece(chunkPieces, piece);
      chunkPieces := chunkPieces + [piece];
    }

    /** Push the last piece of a full part and store the part. */
    method PushAndFlush(piece: Bytes)
      requires Stored() && header.Some? && piece != [] && (chunkPieces == [] <==> Concat(chunkPieces) == [])
      modifies this`stored, this`chunkPieces, this`lines, this`part, this`bodies
      ensures Stored() && chunkPieces == [] && lines == 0
      ensures bodies == old(bodies) + [Concat(old(chunkPieces)) + piece]
      ensures Concat(bodies) == Concat(old(bodies)) + (Concat(old(chunkPieces)) + piece)
    {
      AppendPiece(bodies, Concat(chunkPieces) + piece);
      Push(piece);
      FlushPart();
    }

    /** Scan the complete rows of `buf` into pieces and parts, and carry the partial tail. */
    method SplitRows(buf: Bytes, ghost total: Bytes)
      requires max > 0 && Stored() && header.Some? && IsHeader(header.value)
      requires InProgress(bodies, Concat(chunkPieces), lines, max)
      requires chunkPieces == [] <==> Concat(chunkPieces) == []
      requires header.value + Concat(bodies) + Concat(chunkPieces) + buf == total
      modifies this
      ensures Valid() && consumed == total
    {
      hide InProgress, Concat, Newlines, WholeRows, IsHeader;
      var pos, runStart := 0, 0;
      NothingRead(Concat(chunkPieces), buf);
      while pos < |buf|
        invariant 0 <= runStart <= pos <= |buf|
        invariant Stored() && header == old(header)
        invariant header.value + Concat(bodies) + Concat(chunkPieces) + buf[runStart..] == total
        invariant InProgress(bodies, Concat(chunkPieces) + buf[runStart..pos], lines, max)
        invariant chunkPieces == [] <==> Concat(chunkPieces) == []
      {
        var nl := IndexOfNewline(buf, pos);
        if nl.None? {
          break;
        }
        ghost var open := Concat(chunkPieces);
        OneMoreRow(bodies, open, buf, runStart, pos, nl.value, lines, max);
        lines := lines + 1;
        pos := nl.value + 1;
        if lines >= max {
          CutHere(header.value, Concat(bodies), open, buf, runStart, pos);
          PushAndFlush(buf[runStart..pos]);
          runStart := pos;
          EmptyConcat();
        }
      }
      assert NEWLINE !in buf[pos..];
      CutHere(header.value, Concat(bodies), Concat(chunkPieces), buf, runStart, pos);
      if pos > runStart {
        Push(buf[runStart..pos]);
      }
      carry := buf[pos..];
      consumed := total;
    }

    /** The end of the stream: a partial last row counts as a row of the last part. */
    method Finish()
      requires Valid()
      modifies this
      ensures Stored() && consumed == old(consumed)
      ensures bodies == ExportParts(consumed, max)
      ensures bodies != [] ==> header == Some(HeaderOf(consumed))
    {
      ghost var rest := Concat(chunkPieces) + carry;
      if header.None? {
        assert consumed[0..] == consumed;
      } else {
        PartsOfStream(header.value, bodies, Concat(chunkPieces), carry, lines, max);
      }
      assert carry == [] ==> rest == Concat(chunkPieces);
      if |carry| > 0 {
        Push(carry);
        lines := lines + 1;
      }
      FlushPart();
    }
  }

  /** The whole stream. The result mentions only the concatenated bytes: the division into chunks is forgotten. */
  method SplitExport(chunks: seq<Bytes>, max: nat) returns (parts: seq<(nat, Bytes)>)
    requires max > 0
    ensures parts == Numbered(HeaderOf(Concat(chunks)), ExportParts(Concat(chunks), max))
  {
    var s := new ExportSplitter(max);
    var k := 0;
    while k < |chunks|
      invariant 0 <= k <= |chunks|
      invariant fresh(s) && s.Valid() && s.max == max && s.consumed == Concat(chunks[..k])
    {
      AppendPiece(chunks[..k], chunks[k]);
      assert chunks[..k + 1] == chunks[..k] + [chunks[k]];
      s.Chunk(chunks[k]);
      k := k + 1;
    }
    assert chunks[..k] == chunks;
    s.Finish();
    parts := s.stored;
  }

  /** The header line of an input, with its newline; nothing when no line is complete. */
  function HeaderOf(input: Bytes): Bytes {
    match IndexOfNewline(input, 0)
    case None => []
    case Some(he) => input[..he + 1]
  }

  /** What is stored: part `i` under number `i`, behind the header. */
  function Numbered(header: Bytes, bodies: seq<Bytes>): seq<(nat, Bytes)> {
    seq(|bodies|, i requires 0 <= i < |bodies| => (i, header + bodies[i]))
  }

  /* ---- Lemmas ---- */

  /** What the loop has in hand at the end of the stream, against the reference definition. */
  lemma PartsOfStream(h: Bytes, bodies: seq<Bytes>, open: Bytes, tail: Bytes, lines: nat, max: nat)
    requires IsHeader(h) && InProgress(bodies, open, lines, max) && NEWLINE !in tail
    ensures var input := h + Concat(bodies) + open + tail;
            && HeaderOf(input) == h
            && ExportParts(input, max) == bodies + if open + tail == [] then [] else [open + tail]
  {
    hide BodyParts, Newlines, WholeRows, IsHeader;
    var rest := Concat(bodies) + (open + tail);
    assert h + Concat(bodies) + open + tail == h + rest;
    HeaderIsFirstLine(h, rest);
    FullPartsFirst(bodies, open + tail, max);
    LastPart(open, tail, max);
  }

  lemma {:induction false} AppendPiece(pieces: seq<Bytes>, p: Bytes)
    ensures Concat(pieces + [p]) == Concat(pieces) + p
  {
    if pieces == [] {
      assert [] + [p] == [p];
    } else {
      AppendPiece(pieces[1..], p);
      assert (pieces + [p])[1..] == pieces[1..] + [p];
    }
  }

  lemma {:induction false} NewlinesAdd(a: Bytes, b: Bytes)
    ensures Newlines(a + b) == Newlines(a) + Newlines(b)
  {
    if a == [] {
      assert a + b == b;
    } else {
      NewlinesAdd(a[1..], b);
      assert (a + b)[1..] == a[1..] + b;
    }
  }

  lemma {:induction false} NoNewlines(b: Bytes)
    ensures NEWLINE !in b <==> Newlines(b) == 0
  {
    if b != [] {
      NoNewlines(b[1..]);
      assert b == [b[0]] + b[1..];
    }
  }

  lemma EmptyConcat()
    ensures Concat([]) == []
    ensures forall b: Bytes, i :: 0 <= i <= |b| ==> Concat([]) + b[i..i] == []
  {
  }

  lemma NothingRead(open: Bytes, buf: Bytes)
    ensures open + buf[0..0] == open && buf[0..] == buf
  {
  }

  /** Dividing the unread bytes at `pos`. */
  lemma CutHere(h: Bytes, bodies: Bytes, open: Bytes, buf: Bytes, runStart: nat, pos: nat)
    requires runStart <= pos <= |buf|
    ensures h + bodies + open + buf[runStart..] == h + bodies + (open + buf[runStart..pos]) + buf[pos..]
    ensures h + bodies + open + buf[runStart..] == h + (bodies + (open + buf[runStart..pos])) + [] + buf[pos..]
    ensures pos == runStart ==> open + buf[runStart..pos] == open
  {
    assert buf[runStart..] == buf[runStart..pos] + buf[pos..];
  }

  /** Reading one more row keeps the progress, and completes the part once `max` rows are in it. */
  lemma OneMoreRow(bodies: seq<Bytes>, open: Bytes, buf: Bytes, runStart: nat, pos: nat, nl: nat, lines: nat, max: nat)
    requires runStart <= pos <= nl < |buf| && buf[nl] == NEWLINE && NEWLINE !in buf[pos..nl]
    requires InProgress(bodies, open + buf[runStart..pos], lines, max)
    ensures lines + 1 < max ==> InProgress(bodies, open + buf[runStart..nl + 1], lines + 1, max)
    ensures lines + 1 >= max ==> InProgress(bodies + [open + buf[runStart..nl + 1]], [], 0, max)
  {
    hide Newlines;
    var row := buf[pos..nl + 1];
    OneRow(buf[pos..], nl - pos);
    assert buf[pos..][..nl + 1 - pos] == row && buf[pos..][0..nl - pos] == buf[pos..nl];
    NewlinesAdd(open + buf[runStart..pos], row);
    WholeRowsAdd(open + buf[runStart..pos], row);
    NoNewlines([]);
    JoinSlices(open, buf, runStart, pos, nl + 1);
  }

  lemma JoinSlices(open: Bytes, buf: Bytes, i: nat, j: nat, k: nat)
    requires i <= j <= k <= |buf|
    ensures open + buf[i..k] == open + buf[i..j] + buf[j..k]
  {
    assert buf[i..k] == buf[i..j] + buf[j..k];
  }

  lemma HeaderIsFirstLine(h: Bytes, rest: Bytes)
    requires IsHeader(h)
    ensures IndexOfNewline(h + rest, 0) == Some(|h| - 1)
    ensures (h + rest)[|h|..] == rest && (h + rest)[..|h|] == h
  {
    var b := h + rest;
    assert b[0..|h| - 1] == h[..|h| - 1];
    FirstNewline(b, 0, |h| - 1);
  }

  lemma {:induction false} FirstNewline(b: Bytes, from: nat, i: nat)
    requires from <= i < |b| && b[i] == NEWLINE && NEWLINE !in b[from..i]
    ensures IndexOfNewline(b, from) == Some(i)
    decreases i - from
  {
    if from < i {
      assert b[from..i] == [b[from]] + b[from + 1..i];
      FirstNewline(b, from + 1, i);
    }
  }

  /** The first `n` rows of whole rows followed by anything. */
  lemma {:induction false} RowsOf(b: Bytes, rest: Bytes, n: nat)
    requires WholeRows(b) && Newlines(b) == n
    ensures RowsLength(b + rest, n) == Some(|b|)
    decreases n
  {
    if b == [] {
    } else {
      hide Newlines, IndexOfNewline;
      NoNewlines(b);
      LastIsNewline(b);
      var nl := FirstRow(b, rest);
      assert (b + rest)[nl + 1..] == b[nl + 1..] + rest;
      RowsOf(b[nl + 1..], rest, n - 1);
    }
  }

  lemma LastIsNewline(b: Bytes)
    requires b != [] && b[|b| - 1] == NEWLINE
    ensures Newlines(b) > 0
  {
    NoNewlines(b);
    assert b[|b| - 1] in b;
  }

  /** Taking the first row off whole rows. */
  lemma FirstRow(b: Bytes, rest: Bytes) returns (nl: nat)
    requires b != [] && NEWLINE in b
    ensures nl < |b| && IndexOfNewline(b + rest, 0) == Some(nl)
    ensures Newlines(b[nl + 1..]) == Newlines(b) - 1
    ensures WholeRows(b) ==> WholeRows(b[nl + 1..])
  {
    assert b[0..] == b;
    nl := IndexOfNewline(b, 0).value;
    assert (b + rest)[0..nl] == b[0..nl];
    FirstNewline(b + rest, 0, nl);
    CutFirstRow(b, nl);
  }

  lemma CutFirstRow(b: Bytes, nl: nat)
    requires nl < |b| && b[nl] == NEWLINE && NEWLINE !in b[0..nl]
    ensures Newlines(b[nl + 1..]) == Newlines(b) - 1
    ensures WholeRows(b) ==> WholeRows(b[nl + 1..])
  {
    hide Newlines;
    OneRow(b, nl);
    NewlinesAdd(b[..nl + 1], b[nl + 1..]);
    assert b == b[..nl + 1] + b[nl + 1..];
  }

  lemma {:induction false} TooFewRows(b: Bytes, n: nat)
    requires Newlines(b) < n
    ensures RowsLength(b, n).None?
    decreases n
  {
    NoNewlines(b);
    var r := IndexOfNewline(b, 0);
    if r.Some? {
      var nl := FirstRow(b, []);
      assert b + [] == b;
      TooFewRows(b[nl + 1..], n - 1);
    }
  }

  /** Full parts in front are cut off one by one. */
  lemma {:induction false} FullPartsFirst(bodies: seq<Bytes>, rest: Bytes, max: nat)
    requires max > 0 && forall b <- bodies :: WholeRows(b) && Newlines(b) == max
    ensures BodyParts(Concat(bodies) + rest, max) == bodies + BodyParts(rest, max)
  {
    hide BodyParts, WholeRows, Newlines;
    if bodies == [] {
      assert Concat(bodies) + rest == rest;
    } else {
      var b := bodies[0];
      var tail := Concat(bodies[1..]) + rest;
      assert Concat(bodies) + rest == b + tail;
      FullPartFirst(b, tail, max);
      FullPartsFirst(bodies[1..], rest, max);
      assert bodies + BodyParts(rest, max) == [b] + (bodies[1..] + BodyParts(rest, max));
    }
  }

  lemma FullPartFirst(b: Bytes, tail: Bytes, max: nat)
    requires max > 0 && WholeRows(b) && Newlines(b) == max
    ensures BodyParts(b + tail, max) == [b] + BodyParts(tail, max)
  {
    hide RowsLength, WholeRows;
    RowsOf(b, tail, max);
    assert (b + tail)[..|b|] == b && (b + tail)[|b|..] == tail;
  }

  /** The open part and a partial row are the last part. */
  lemma LastPart(open: Bytes, tail: Bytes, max: nat)
    requires max > 0 && Newlines(open) < max && NEWLINE !in tail
    ensures BodyParts(open + tail, max) == if open + tail == [] then [] else [open + tail]
  {
    hide RowsLength, Newlines;
    NoNewlines(tail);
    NewlinesAdd(open, tail);
    TooFewRows(open + tail, max);
  }

  /** A header is one line with its newline. */
  predicate IsHeader(h: Bytes) {
    |h| > 0 && h[|h| - 1] == NEWLINE && NEWLINE !in h[..|h| - 1]
  }

  /** Complete rows only: nothing, or something that ends in a newline. */
  predicate WholeRows(b: Bytes) {
    b == [] || b[|b| - 1] == NEWLINE
  }

  /** All finished parts are full, and the open one is not yet. */
  ghost predicate InProgress(bodies: seq<Bytes>, open: Bytes, lines: nat, max: nat) {
    && (forall b <- bodies :: WholeRows(b) && Newlines(b) == max)
    && WholeRows(open) && Newlines(open) == lines < max
  }

  /* ---- What splitting promises ---- */

  /** The rows of a part: newlines, and a last line without one. */
  function Rows(b: Bytes): nat {
    Newlines(b) + if WholeRows(b) then 0 else 1
  }

  lemma {:induction false} FullPart(b: Bytes, rows: nat)
    requires rows > 0 && RowsLength(b, rows).Some?
    ensures var n := RowsLength(b, rows).value;
            WholeRows(b[..n]) && Newlines(b[..n]) == rows
    decreases rows
  {
    hide Newlines, IndexOfNewline, WholeRows;
    var nl := IndexOfNewline(b, 0).value;
    OneRow(b, nl);
    if rows > 1 {
      FullPart(b[nl + 1..], rows - 1);
      RowThenRows(b, nl, RowsLength(b[nl + 1..], rows - 1).value);
    }
  }

  lemma RowThenRows(b: Bytes, nl: nat, m: nat)
    requires nl + 1 + m <= |b| && WholeRows(b[..nl + 1]) && WholeRows(b[nl + 1..][..m])
    ensures WholeRows(b[..nl + 1 + m])
    ensures Newlines(b[..nl + 1 + m]) == Newlines(b[..nl + 1]) + Newlines(b[nl + 1..][..m])
  {
    hide Newlines;
    NewlinesAdd(b[..nl + 1], b[nl + 1..][..m]);
    assert b[..nl + 1 + m] == b[..nl + 1] + b[nl + 1..][..m];
  }

  lemma WholeRowsAdd(a: Bytes, b: Bytes)
    requires WholeRows(a) && WholeRows(b)
    ensures WholeRows(a + b)
  {
  }

  lemma OneRow(b: Bytes, nl: nat)
    requires nl < |b| && b[nl] == NEWLINE && NEWLINE !in b[0..nl]
    ensures WholeRows(b[..nl + 1]) && Newlines(b[..nl + 1]) == 1
  {
    NoNewlines(b[0..nl]);
    NewlinesAdd(b[0..nl], [NEWLINE]);
    assert b[..nl + 1] == b[0..nl] + [NEWLINE];
  }

  lemma {:induction false} ShortRest(b: Bytes, rows: nat)
    requires RowsLength(b, rows).None?
    ensures Newlines(b) < rows
    decreases rows
  {
    assert b[0..] == b;
    NoNewlines(b);
    var r := IndexOfNewline(b, 0);
    if r.Some? {
      CutFirstRow(b, r.value);
      ShortRest(b[r.value + 1..], rows - 1);
    }
  }

  /** Every part but the last has exactly `max` complete rows, the last at most `max`, and none is empty. */
  lemma {:induction false} PartsRespectTheCap(b: Bytes, max: nat)
    requires max > 0
    ensures var ps := BodyParts(b, max);
            && Concat(ps) == b
            && (forall p <- ps :: p != [] && Rows(p) <= max)
            && forall i :: 0 <= i < |ps| - 1 ==> WholeRows(ps[i]) && Rows(ps[i]) == max
    decreases |b|
  {
    hide Newlines, RowsLength, WholeRows;
    if b != [] {
      var r := RowsLength(b, max);
      if r.None? {
        ShortRest(b, max);
        assert Concat([b]) == b + Concat([]);
        assert Rows(b) <= Newlines(b) + 1;
      } else {
        FullPart(b, max);
        PartsRespectTheCap(b[r.value..], max);
        var ps := BodyParts(b, max);
        assert ps[1..] == BodyParts(b[r.value..], max);
        assert b == b[..r.value] + b[r.value..];
      }
    }
  }

  /** Nothing is lost or added exactly when the header line is complete (or there is nothing to lose). */
  lemma SplittingConservesBytes(input: Bytes, max: nat)
    requires max > 0
    ensures HeaderOf(input) + Concat(ExportParts(input, max)) == input <==> NEWLINE in input || input == []
  {
    hide IndexOfNewline, BodyParts, Newlines;
    var r := IndexOfNewline(input, 0);
    assert input[0..] == input;
    if r.Some? {
      assert input[r.value] in input;
      PartsRespectTheCap(input[r.value + 1..], max);
    }
  }

  /** Every stored part is numbered by its place, starts with the input's own first line, and has rows behind it. */
  lemma StoredPartsHaveTheHeader(input: Bytes, max: nat, i: nat)
    requires max > 0 && i < |ExportParts(input, max)|
    ensures |Numbered(HeaderOf(input), ExportParts(input, max))| == |ExportParts(input, max)|
    ensures var (number, part) := Numbered(HeaderOf(input), ExportParts(input, max))[i];
            && number == i && HeaderOf(part) == HeaderOf(input) < part && HeaderOf(input) <= input
            && HeaderOf(part)[|HeaderOf(part)| - 1] == 10 && 10 !in HeaderOf(part)[..|HeaderOf(part)| - 1]
  {
    hide IndexOfNewline, BodyParts;
    var bodies := ExportParts(input, max);
    var r := IndexOfNewline(input, 0);
    var h := HeaderOf(input);
    PartsRespectTheCap(input[r.value + 1..], max);
    assert bodies[i] in bodies;
    assert h[..|h| - 1] == input[0..r.value];
    HeaderIsFirstLine(h, bodies[i]);
  }

  /** Nothing is stored exactly when the input is at most one line. */
  lemma NothingStoredIff(input: Bytes, max: nat)
    requires max > 0
    ensures ExportParts(input, max) == [] <==> NEWLINE !in input[..if input == [] then 0 else |input| - 1]
  {
    hide IndexOfNewline;
    var r := IndexOfNewline(input, 0);
    assert input[0..] == input;
    if r.Some? {
      assert r.value < |input| - 1 ==> input[..|input| - 1][r.value] == NEWLINE;
      assert r.value == |input| - 1 ==> input[..|input| - 1] == input[0..r.value];
    }
  }
}
