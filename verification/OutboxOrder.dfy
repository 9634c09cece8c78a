/** The order in which flush chains emit, and when they stop emitting for good. */
module OutboxOrder {
  import opened Options
  import opened Outbox
  import opened OutboxSafety

  /** The generation a chain frame was sent under. */
  function GenOf(c: Client, f: Frame): nat
    requires f.from.Some? && f.from.value.0 < |c.chains|
  {
    c.chains[f.from.value.0].gen
  }

  /**
   On the wire, chain frames carry non-decreasing generations; under one generation no
   message goes out twice, and messages go out in the order they were typed.
   */
  lemma ChainFramesAreOrdered(es: seq<Event>)
    requires Feasible(INIT, es)
    ensures var c := Run(INIT, es).client;
            && (forall f <- c.wire :: f.from.Some? ==> f.from.value.0 < |c.chains|)
            && forall i, j :: 0 <= i < j < |c.wire| && c.wire[i].from.Some? && c.wire[j].from.Some? ==>
                 && GenOf(c, c.wire[i]) <= GenOf(c, c.wire[j])
                 && (GenOf(c, c.wire[i]) == GenOf(c, c.wire[j]) ==>
                       c.wire[i].cid != c.wire[j].cid && c.wire[i].ts <= c.wire[j].ts)
  {
    hide Run, StoreOk, LatchOk, ParkedOk;
    ReachableInv(es);
    var w := Run(INIT, es);
    var c := w.client;
    forall i, j | 0 <= i < j < |c.wire| && c.wire[i].from.Some? && c.wire[j].from.Some?
      ensures GenOf(c, c.wire[i]) <= GenOf(c, c.wire[j])
      ensures GenOf(c, c.wire[i]) == GenOf(c, c.wire[j]) ==>
                c.wire[i].cid != c.wire[j].cid && c.wire[i].ts <= c.wire[j].ts
    {
      var a, b := c.wire[i], c.wire[j];
      assert a in c.wire && b in c.wire;
      assert Before(a.from.value, b.from.value);
      if a.from.value.0 == b.from.value.0 {
        assert ChainOk(c.chains[a.from.value.0], w.accepted);
      }
    }
  }

  /* ---- Superseded chains ---- */

  /** `c'` continues `c`: closures' chains keep their generations, and chain frames added since are current. */
  ghost predicate Continues(c: Client, c': Client) {
    && c.flushGen <= c'.flushGen
    && |c.chains| <= |c'.chains|
    && (forall k :: 0 <= k < |c.chains| ==> c'.chains[k].gen == c.chains[k].gen)
    && |c.wire| <= |c'.wire| && c'.wire[..|c.wire|] == c.wire
    && (forall i :: |c.wire| <= i < |c'.wire| && c'.wire[i].from.Some? ==>
          c'.wire[i].from.value.0 < |c'.chains| && GenOf(c', c'.wire[i]) == c'.flushGen)
  }

  lemma {:induction false} NextContinues(c: Client, k: nat)
    requires k < |c.chains|
    ensures Continues(c, Next(c, k))
    ensures Next(c, k).flushGen == c.flushGen && |Next(c, k).chains| == |c.chains|
    decreases |c.chains[k].cids| - c.chains[k].i
  {
    var ch := c.chains[k];
    if ch.gen == c.flushGen && ch.i < |ch.cids| && c.hasSocket && c.connected && ch.cids[ch.i] !in c.pending {
      NextContinues(Advanced(c, k), k);
    }
  }

  lemma MarkContinues(c: Client, cid: Cid, s: Status)
    ensures Mark(c, cid, s) == c.(pending := Mark(c, cid, s).pending, outbox := Mark(c, cid, s).outbox)
  {
  }

  lemma GoContinues(c: Client, k: nat)
    requires k < |c.parked|
    ensures Continues(c, Go(c, k))
  {
    hide Next;
    var p := c.parked[k];
    if !p.advanced && p.after.Some? && p.after.value < |c.chains| {
      NextContinues(c.(parked := c.parked[k := p.(advanced := true)]), p.after.value);
    }
  }

  lemma FlushContinues(c: Client, order: seq<Cid>)
    ensures Continues(c, Flush(c, order))
  {
    hide Next;
    if !(c.flushing || !c.hasSocket || !c.connected || order == []) {
      var c' := Started(c, order);
      NextContinues(c', |c.chains|);
      var c'' := Next(c', |c.chains|);
      forall k | 0 <= k < |c.chains| ensures c''.chains[k].gen == c.chains[k].gen {
        assert c''.chains[k].gen == c'.chains[k].gen;
      }
    }
  }

  /** Every event except a reload (which starts a new page) continues the page. */
  lemma StepContinues(c: Client, e: Event)
    requires !e.Reload?
    ensures Continues(c, ClientStep(c, e))
  {
    hide Next, Flush, Go, Continues, Mark;
    match e
    case Send(cid, body, ts, order) =>
      FlushContinues(Composed(c, cid, body, ts), order);
      SameWire(c, Composed(c, cid, body, ts), ClientStep(c, e));
    case FlushNow(order) => FlushContinues(c, order);
    case Ack(k, ok) =>
      if k < |c.parked| && !c.parked[k].settled {
        var p := c.parked[k];
        var c1 := c.(parked := c.parked[k := p.(settled := true, armed := false)]);
        var s := if ok then Sent else Failed;
        MarkContinues(c1, p.cid, s);
        GoContinues(Mark(c1, p.cid, s), k);
        SameWire(c, Mark(c1, p.cid, s), ClientStep(c, e));
      } else {
        Unchanged(c, c);
      }
    case Timeout(k) =>
      if k < |c.parked| {
        var p := c.parked[k];
        var c1 := c.(parked := c.parked[k := p.(armed := false)]);
        MarkContinues(c1, p.cid, Failed);
        GoContinues(Mark(c1, p.cid, Failed), k);
        SameWire(c, Mark(c1, p.cid, Failed), Go(Mark(c1, p.cid, Failed), k));
        Unchanged(c, c1);
      } else {
        Unchanged(c, c);
      }
    case Connect(order) =>
      FlushContinues(c.(connected := true), order);
      SameWire(c, c.(connected := true), ClientStep(c, e));
    case Retry(cid) => RetryContinues(c, cid);
    case Disconnect(own) => NewGenerationContinues(c, ClientStep(c, e));
    case Reset => NewGenerationContinues(c, ClientStep(c, e));
    case _ => Unchanged(c, ClientStep(c, e));
  }

  lemma SameWire(c: Client, d: Client, c': Client)
    requires d.wire == c.wire && d.chains == c.chains && d.flushGen == c.flushGen && Continues(d, c')
    ensures Continues(c, c')
  {
  }

  lemma Unchanged(c: Client, c': Client)
    requires c'.wire == c.wire && c'.chains == c.chains && c'.flushGen == c.flushGen
    ensures Continues(c, c')
  {
  }

  lemma NewGenerationContinues(c: Client, c': Client)
    requires c'.wire == c.wire && c'.chains == c.chains && c'.flushGen == c.flushGen + 1
    ensures Continues(c, c')
  {
  }

  lemma RetryContinues(c: Client, cid: Cid)
    ensures Continues(c, RetryStep(c, cid))
  {
  }

  /** The frames of chain `k` among those emitted from position `n` on. */
  ghost predicate SilentSince(c: Client, k: nat, n: nat) {
    n <= |c.wire| && forall i :: n <= i < |c.wire| && c.wire[i].from.Some? ==> c.wire[i].from.value.0 != k
  }

  /**
   A chain that has lost its generation never emits again, whatever acknowledgements,
   timeouts, reconnections, retries and resets follow on the page.
   */
  lemma {:induction false} SupersededNeverEmits(w: World, es: seq<Event>, k: nat, n: nat)
    requires forall e <- es :: !e.Reload?
    requires k < |w.client.chains| && w.client.chains[k].gen < w.client.flushGen
    requires SilentSince(w.client, k, n)
    ensures SilentSince(Run(w, es).client, k, n)
    decreases |es|
  {
    hide ClientStep;
    if es != [] {
      var w' := Apply(w, es[0]);
      StepContinues(w.client, es[0]);
      forall i | n <= i < |w'.client.wire| && w'.client.wire[i].from.Some?
        ensures w'.client.wire[i].from.value.0 != k
      {
        if i < |w.client.wire| {
          assert w'.client.wire[..|w.client.wire|][i] == w.client.wire[i];
        }
      }
      SupersededNeverEmits(w', es[1..], k, n);
    }
  }

  /* ---- Reconnection ---- */

  /**
   A drop and a reconnection re-arm the queue at once: whatever was parked, a new chain takes
   exactly the queued and in-flight messages and the oldest of them is on the wire.
   */
  lemma ReconnectRearms(c: Client, order: seq<Cid>)
    requires c.hasSocket && FlushOrder(order, c.pending) && order != []
    ensures var c' := ConnectStep(DisconnectStep(c, true), order);
            && order[0] in c.pending
            && c'.flushing
            && c'.chains == c.chains + [Chain(order, 1, c'.flushGen)]
            && var first := c.pending[order[0]];
               c'.wire == c.wire + [Frame(order[0], first.body, first.ts, Some((|c.chains|, 0)))]
  {
    assert order[0] in Ready(c.pending);
  }
}
