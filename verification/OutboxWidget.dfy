/** The widget's handlers as they run, updating the page in place; each is proved to take its step. */
module OutboxWidget {
  import opened Options
  import opened Outbox

  /** The ready messages sorted by time, as far as taken out of the set `rest`. */
  ghost predicate SortedSoFar(order: seq<Cid>, rest: set<Cid>, pending: map<Cid, Entry>) {
    && rest <= Ready(pending)
    && Distinct(order)
    && (forall c :: c in order <==> c in Ready(pending) && c !in rest)
    && (forall i, j :: 0 <= i < j < |order| ==>
          order[i] in pending && order[j] in pending && pending[order[i]].ts <= pending[order[j]].ts)
    && (forall c <- order, d <- rest :: c in pending && d in pending && pending[c].ts <= pending[d].ts)
  }

  lemma {:induction false} OldestExists(rest: set<Cid>, pending: map<Cid, Entry>)
    requires rest != {} && rest <= pending.Keys
    ensures exists c <- rest :: forall d <- rest :: pending[c].ts <= pending[d].ts
    decreases rest
  {
    var c :| c in rest;
    if rest == {c} {
      assert forall d <- rest :: pending[c].ts <= pending[d].ts;
    } else {
      OldestExists(rest - {c}, pending);
      var m :| m in rest - {c} && forall d <- rest - {c} :: pending[m].ts <= pending[d].ts;
      var o := if pending[c].ts <= pending[m].ts then c else m;
      assert forall d <- rest :: pending[o].ts <= pending[d].ts;
    }
  }

  lemma TakeOldest(order: seq<Cid>, rest: set<Cid>, c: Cid, pending: map<Cid, Entry>)
    requires SortedSoFar(order, rest, pending)
    requires c in rest && forall d <- rest :: pending[c].ts <= pending[d].ts
    ensures SortedSoFar(order + [c], rest - {c}, pending)
  {
  }

  class Widget {
    var pending: map<Cid, Entry>
    var outbox: map<Cid, Saved>
    var flushing: bool
    var flushGen: nat
    var hasSocket: bool
    var connected: bool
    var chains: seq<Chain>
    var parked: seq<Parked>
    var wire: seq<Frame>

    ghost function Page(): Client
      reads this
    {
      Client(pending, outbox, flushing, flushGen, hasSocket, connected, chains, parked, wire)
    }

    /** Boot from storage: `restoreOutbox`, after wiping the storage of an expired session. */
    constructor (stored: map<Cid, Saved>, now: int, idle: bool)
      ensures Page() == BootFrom(stored, now, idle)
    {
      outbox := if idle then map[] else stored;
      flushing, flushGen, hasSocket, connected := false, 0, false, false;
      chains, parked, wire := [], [], [];
      pending := map[];
      new;
      var rest := outbox.Keys;
      while rest != {}
        invariant rest <= outbox.Keys
        invariant pending == map c | c in Restore(outbox, now) && c !in rest :: Restore(outbox, now)[c]
        invariant Page() == BootFrom(stored, now, idle).(pending := pending)
        decreases |rest|
      {
        var cid :| cid in rest;
        var it := outbox[cid];
        if Fresh(it.ts, now) {
          pending := pending[cid := Entry(it.body, it.ts, if it.failed then Failed else Queued)];
        }
        rest := rest - {cid};
      }
    }

    method PersistOutbox()
      modifies this`outbox
      ensures outbox == Persist(pending)
    {
      var arr: map<Cid, Saved> := map[];
      var rest := pending.Keys;
      while rest != {}
        invariant rest <= pending.Keys
        invariant arr == map c | c in Persist(pending) && c !in rest :: Persist(pending)[c]
        decreases |rest|
      {
        var cid :| cid in rest;
        if pending[cid].status != Sent {
          arr := arr[cid := Save(pending[cid])];
        }
        rest := rest - {cid};
      }
      outbox := arr;
    }

    method MarkPending(cid: Cid, s: Status)
      modifies this`pending, this`outbox
      ensures Page() == Mark(old(Page()), cid, s)
    {
      if cid !in pending {
        return;
      }
      pending := pending[cid := pending[cid].(status := s)];
      PersistOutbox();
    }

    method RemovePending(cid: Cid)
      modifies this`pending, this`outbox
      ensures Page() == Remove(old(Page()), cid)
    {
      if cid !in pending {
        return;
      }
      pending := pending - {cid};
      PersistOutbox();
    }

    /** `sendPayload`; the closure is parked before the frame is handed to the socket. */
    method SendPayload(cid: Cid, after: Option<nat>, gen: Option<nat>, from: Option<(nat, nat)>)
      requires cid in pending
      modifies this`pending, this`outbox, this`parked, this`wire
      ensures Page() == Emit(old(Page()), cid, after, gen, from)
    {
      MarkPending(cid, Inflight);
      parked := parked + [Parked(cid, after, gen, false, false, true)];
      if hasSocket {
        wire := wire + [Frame(cid, pending[cid].body, pending[cid].ts, from)];
      }
    }

    /** `next` of chain `k`. */
    method ChainNext(k: nat)
      requires k < |chains|
      modifies this
      ensures Page() == Next(old(Page()), k)
      decreases |chains[k].cids| - chains[k].i
    {
      var ch := chains[k];
      if ch.gen != flushGen {
        return;
      }
      if ch.i >= |ch.cids| || !hasSocket || !connected {
        flushing := false;
        return;
      }
      var cid := ch.cids[ch.i];
      chains := chains[k := ch.(i := ch.i + 1)];
      if cid !in pending {
        ChainNext(k);
      } else {
        SendPayload(cid, Some(k), Some(ch.gen), Some((k, ch.i)));
      }
    }

    /** The ids to flush: filter, then sort by time. */
    method ReadyOrder() returns (order: seq<Cid>)
      ensures FlushOrder(order, pending)
    {
      order := [];
      var rest := Ready(pending);
      while rest != {}
        invariant SortedSoFar(order, rest, pending)
        decreases |rest|
      {
        OldestExists(rest, pending);
        var c :| c in rest && forall d <- rest :: pending[c].ts <= pending[d].ts;
        TakeOldest(order, rest, c, pending);
        order := order + [c];
        rest := rest - {c};
      }
    }

    method FlushOutbox() returns (ghost order: seq<Cid>)
      modifies this
      ensures FlushOrder(order, old(pending)) && Page() == Flush(old(Page()), order)
    {
      var cids := ReadyOrder();
      order := cids;
      if flushing || !hasSocket || !connected {
        return;
      }
      if cids == [] {
        return;
      }
      flushing := true;
      flushGen := flushGen + 1;
      chains := chains + [Chain(cids, 0, flushGen)];
      ChainNext(|chains| - 1);
    }

    /** `go` of a parked closure. */
    method GoOn(k: nat)
      requires k < |parked|
      modifies this
      ensures Page() == Go(old(Page()), k)
    {
      var p := parked[k];
      if p.advanced {
        return;
      }
      parked := parked[k := p.(advanced := true)];
      if p.after.Some? && p.after.value < |chains| {
        ChainNext(p.after.value);
      }
    }

    method OnTimeout(k: nat)
      requires k < |parked|
      modifies this
      ensures Page() == TimeoutStep(old(Page()), k)
    {
      var p := parked[k];
      parked := parked[k := p.(armed := false)];
      if p.settled || (p.gen.Some? && p.gen.value != flushGen) {
        return;
      }
      MarkPending(p.cid, Failed);
      GoOn(k);
    }

    method OnAck(k: nat, ok: bool)
      requires k < |parked|
      modifies this
      ensures Page() == AckStep(old(Page()), k, ok)
    {
      var p := parked[k];
      if p.settled {
        return;
      }
      parked := parked[k := p.(settled := true, armed := false)];
      if ok {
        MarkPending(p.cid, Sent);
      } else {
        MarkPending(p.cid, Failed);
      }
      GoOn(k);
    }

    method OnDisconnect(own: bool)
      modifies this
      ensures Page() == DisconnectStep(old(Page()), own)
    {
      flushGen := flushGen + 1;
      flushing := false;
      if own {
        connected := false;
      }
    }

    method OnConnect() returns (ghost order: seq<Cid>)
      modifies this
      ensures FlushOrder(order, old(pending)) && Page() == ConnectStep(old(Page()), order)
    {
      connected := true;
      order := FlushOutbox();
    }

    method RetrySend(cid: Cid)
      modifies this
      ensures Page() == RetryStep(old(Page()), cid)
    {
      if cid !in pending {
        return;
      }
      MarkPending(cid, Queued);
      SendPayload(cid, None, None, None);
    }

    method OnSend(cid: Cid, body: string, ts: int) returns (ghost order: seq<Cid>)
      modifies this
      ensures FlushOrder(order, Composed(old(Page()), cid, body, ts).pending)
      ensures Page() == SendStep(old(Page()), cid, body, ts, order)
    {
      pending := pending[cid := Entry(body, ts, Queued)];
      PersistOutbox();
      order := FlushOutbox();
    }

    /** The echo match in `upsert`: drop the first pending message whose id ends the external id. */
    method OnMessage(ext: string) returns (ghost hit: Option<Cid>)
      modifies this
      ensures hit.Some? ==> hit.value in old(pending) && IsSuffix(hit.value, ext)
      ensures hit.None? ==> forall c <- old(pending) :: !IsSuffix(c, ext)
      ensures Page() == if hit.Some? then Remove(old(Page()), hit.value) else old(Page())
    {
      hit := None;
      var rest := pending.Keys;
      while rest != {}
        invariant rest <= pending.Keys && hit.None? && Page() == old(Page())
        invariant forall c <- pending :: c !in rest ==> !IsSuffix(c, ext)
        decreases |rest|
      {
        var cid :| cid in rest;
        if IsSuffix(cid, ext) {
          hit := Some(cid);
          RemovePending(cid);
          return;
        }
        rest := rest - {cid};
      }
    }

    method DoReset()
      modifies this
      ensures Page() == ResetStep(old(Page()))
    {
      flushGen := flushGen + 1;
      flushing := false;
      outbox := map[];
      hasSocket := false;
      connected := false;
      pending := map[];
    }
  }
}
