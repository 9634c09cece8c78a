/** What every reachable state of the outbox satisfies, and the run-level results. */
module OutboxSafety {
  import opened Options
  import opened Outbox

  type Accepted = map<Cid, (string, int)>

  /* ---- The invariant ---- */

  /** Pending and stored records are what was typed, and storage has every message not yet acknowledged. */
  ghost predicate StoreOk(c: Client, acc: Accepted, stored: set<Cid>, expired: set<Cid>) {
    && (forall x <- c.pending :: x in acc && acc[x] == (c.pending[x].body, c.pending[x].ts))
    && (forall x <- c.pending :: c.pending[x].status == Sent ==> x in stored)
    && (forall x <- c.pending :: c.pending[x].status != Sent ==> x in c.outbox && c.outbox[x] == Save(c.pending[x]))
    && (forall x <- c.outbox :: x in acc && acc[x] == (c.outbox[x].body, c.outbox[x].ts))
    && (forall x <- c.outbox :: (x in c.pending && c.pending[x].status != Sent) || x in expired)
  }

  /** Chains carry ever newer generations, none newer than the current one. */
  ghost predicate GensOk(c: Client) {
    && (forall k :: 0 <= k < |c.chains| ==> c.chains[k].gen <= c.flushGen)
    && (forall j, k :: 0 <= j < k < |c.chains| ==> c.chains[j].gen < c.chains[k].gen)
  }

  /** The ids of a chain: each once, typed earlier first. */
  ghost predicate ChainOk(ch: Chain, acc: Accepted) {
    && ch.i <= |ch.cids|
    && Distinct(ch.cids)
    && (forall x <- ch.cids :: x in acc)
    && (forall i, j :: 0 <= i < j < |ch.cids| ==> acc[ch.cids[i]].1 <= acc[ch.cids[j]].1)
  }

  /** A closure that is still to resume its chain, and whose chain still owns the queue. */
  predicate Live(c: Client, p: Parked) {
    p.after.Some? && !p.advanced && p.gen == Some(c.flushGen)
  }

  ghost predicate ParkedOk(c: Client) {
    forall p <- c.parked ::
      && (p.after.Some? ==> p.after.value < |c.chains| && p.gen == Some(c.chains[p.after.value].gen))
      && (p.after.None? ==> p.gen.None?)
      && (p.settled ==> p.advanced)
      && (Live(c, p) ==> p.armed)
  }

  ghost predicate NoneLive(c: Client) {
    forall k :: 0 <= k < |c.parked| ==> !Live(c, c.parked[k])
  }

  ghost predicate OnlyLive(c: Client, k: nat) {
    k < |c.parked| && Live(c, c.parked[k]) && forall j :: 0 <= j < |c.parked| && j != k ==> !Live(c, c.parked[j])
  }

  /** The latch is held exactly while one parked closure is going to release it or pass it on. */
  ghost predicate LatchOk(c: Client) {
    if c.flushing then exists k :: OnlyLive(c, k) else NoneLive(c)
  }

  predicate Before(a: (nat, nat), b: (nat, nat)) {
    a.0 < b.0 || (a.0 == b.0 && a.1 < b.1)
  }

  /** Every chain frame comes from a position its chain has passed, and they left in that order. */
  ghost predicate WireOk(c: Client, acc: Accepted) {
    && (forall f <- c.wire :: f.cid in acc && acc[f.cid] == (f.body, f.ts))
    && (forall f <- c.wire :: f.from.Some? ==>
          && f.from.value.0 < |c.chains|
          && f.from.value.1 < c.chains[f.from.value.0].i <= |c.chains[f.from.value.0].cids|
          && c.chains[f.from.value.0].cids[f.from.value.1] == f.cid)
    && (forall i, j :: 0 <= i < j < |c.wire| && c.wire[i].from.Some? && c.wire[j].from.Some? ==>
          Before(c.wire[i].from.value, c.wire[j].from.value))
  }

  ghost predicate QueueOk(c: Client, acc: Accepted) {
    && GensOk(c)
    && (forall ch <- c.chains :: ChainOk(ch, acc))
    && ParkedOk(c)
    && WireOk(c, acc)
  }

  ghost predicate Inv(w: World) {
    && StoreOk(w.client, w.accepted, w.stored, w.expired)
    && QueueOk(w.client, w.accepted)
    && LatchOk(w.client)
    && (forall x <- w.accepted :: x in w.stored || x in w.client.pending || x in w.expired || x in w.cleared)
  }

  /* ---- Storage steps ---- */

  lemma MarkKeepsStore(c: Client, cid: Cid, s: Status, acc: Accepted, stored: set<Cid>, expired: set<Cid>)
    requires StoreOk(c, acc, stored, expired)
    requires s == Sent ==> cid in stored
    ensures StoreOk(Mark(c, cid, s), acc, stored, expired)
    ensures Mark(c, cid, s).pending.Keys == c.pending.Keys
  {
    if cid in c.pending {
      var c' := Mark(c, cid, s);
      assert c'.pending == c.pending[cid := c.pending[cid].(status := s)];
      PersistIsStore(c', acc, stored, expired);
    }
  }

  /** Storing what is pending, as every marking and removal does, makes the store right. */
  lemma PersistIsStore(c: Client, acc: Accepted, stored: set<Cid>, expired: set<Cid>)
    requires forall x <- c.pending :: x in acc && acc[x] == (c.pending[x].body, c.pending[x].ts)
    requires forall x <- c.pending :: c.pending[x].status == Sent ==> x in stored
    requires c.outbox == Persist(c.pending)
    ensures StoreOk(c, acc, stored, expired)
  {
  }

  lemma EmitKeepsStore(c: Client, cid: Cid, after: Option<nat>, gen: Option<nat>, from: Option<(nat, nat)>,
                       acc: Accepted, stored: set<Cid>, expired: set<Cid>)
    requires StoreOk(c, acc, stored, expired) && cid in c.pending
    ensures StoreOk(Emit(c, cid, after, gen, from), acc, stored, expired)
    ensures Emit(c, cid, after, gen, from).pending.Keys == c.pending.Keys
  {
    MarkKeepsStore(c, cid, Inflight, acc, stored, expired);
  }

  lemma SameStore(c: Client, c': Client, acc: Accepted, stored: set<Cid>, expired: set<Cid>)
    requires StoreOk(c, acc, stored, expired) && c'.pending == c.pending && c'.outbox == c.outbox
    ensures StoreOk(c', acc, stored, expired)
  {
  }

  lemma {:induction false} NextKeepsStore(c: Client, k: nat, acc: Accepted, stored: set<Cid>, expired: set<Cid>)
    requires StoreOk(c, acc, stored, expired) && k < |c.chains|
    ensures StoreOk(Next(c, k), acc, stored, expired)
    ensures Next(c, k).pending.Keys == c.pending.Keys
    decreases |c.chains[k].cids| - c.chains[k].i
  {
    hide Emit, StoreOk;
    var ch := c.chains[k];
    SameStore(c, c.(flushing := false), acc, stored, expired);
    if ch.gen == c.flushGen && ch.i < |ch.cids| && c.hasSocket && c.connected {
      var c1 := c.(chains := c.chains[k := ch.(i := ch.i + 1)]);
      SameStore(c, c1, acc, stored, expired);
      if ch.cids[ch.i] !in c1.pending {
        NextKeepsStore(c1, k, acc, stored, expired);
      } else {
        EmitKeepsStore(c1, ch.cids[ch.i], Some(k), Some(ch.gen), Some((k, ch.i)), acc, stored, expired);
      }
    }
  }

  /* ---- Latch and wire steps ---- */

  /** Only the newest chain can be current. */
  lemma CurrentIsLast(c: Client, k: nat)
    requires GensOk(c) && k < |c.chains| && c.chains[k].gen == c.flushGen
    ensures k == |c.chains| - 1
  {
    var last := c.chains[|c.chains| - 1];
    assert c.chains[k].gen <= last.gen <= c.flushGen;
  }

  function Advanced(c: Client, k: nat): Client
    requires k < |c.chains|
  {
    c.(chains := c.chains[k := c.chains[k].(i := c.chains[k].i + 1)])
  }

  lemma AdvanceKeepsQueue(c: Client, k: nat, acc: Accepted)
    requires QueueOk(c, acc) && NoneLive(c)
    requires k < |c.chains| && c.chains[k].i < |c.chains[k].cids|
    ensures QueueOk(Advanced(c, k), acc) && NoneLive(Advanced(c, k))
  {
    var c1 := Advanced(c, k);
    forall ch <- c1.chains ensures ChainOk(ch, acc) {
      assert ChainOk(c.chains[k], acc);
    }
    forall p <- c1.parked ensures Live(c1, p) == Live(c, p) {
    }
  }

  lemma EmitKeepsWire(c: Client, f: Frame, acc: Accepted, k: nat, pos: nat)
    requires WireOk(c, acc) && k == |c.chains| - 1 && pos < c.chains[k].i <= |c.chains[k].cids|
    requires f.from == Some((k, pos)) && c.chains[k].cids[pos] == f.cid
    requires f.cid in acc && acc[f.cid] == (f.body, f.ts)
    requires forall g <- c.wire :: g.from.Some? && g.from.value.0 == k ==> g.from.value.1 < pos
    ensures WireOk(c.(wire := c.wire + [f]), acc)
  {
    var c' := c.(wire := c.wire + [f]);
    forall i, j | 0 <= i < j < |c'.wire| && c'.wire[i].from.Some? && c'.wire[j].from.Some?
      ensures Before(c'.wire[i].from.value, c'.wire[j].from.value)
    {
      assert c.wire[i] in c.wire;
    }
  }

  lemma EmitKeepsQueue(c: Client, cid: Cid, acc: Accepted, k: nat, pos: nat)
    requires QueueOk(c, acc) && NoneLive(c)
    requires cid in c.pending && cid in acc && acc[cid] == (c.pending[cid].body, c.pending[cid].ts)
    requires k == |c.chains| - 1 && c.chains[k].gen == c.flushGen
    requires pos + 1 == c.chains[k].i <= |c.chains[k].cids| && c.chains[k].cids[pos] == cid
    requires forall f <- c.wire :: f.from.Some? && f.from.value.0 == k ==> f.from.value.1 < pos
    ensures var c' := Emit(c, cid, Some(k), Some(c.flushGen), Some((k, pos)));
            QueueOk(c', acc) && OnlyLive(c', |c.parked|) && c'.flushing == c.flushing
  {
    var c' := Emit(c, cid, Some(k), Some(c.flushGen), Some((k, pos)));
    EmitKeepsWire(c, Frame(cid, c.pending[cid].body, c.pending[cid].ts, Some((k, pos))), acc, k, pos);
    assert forall p <- c.parked :: !Live(c, p);
  }

  /** Passing the latch on: afterwards it is held by one closure or free. */
  lemma {:induction false} NextKeepsQueue(c: Client, k: nat, acc: Accepted)
    requires QueueOk(c, acc) && NoneLive(c) && c.flushing
    requires k < |c.chains| && c.chains[k].gen == c.flushGen
    requires forall x <- c.pending :: x in acc && acc[x] == (c.pending[x].body, c.pending[x].ts)
    ensures QueueOk(Next(c, k), acc) && LatchOk(Next(c, k))
    decreases |c.chains[k].cids| - c.chains[k].i
  {
    hide QueueOk, ChainOk, ParkedOk, WireOk, LatchOk, OnlyLive, NoneLive, Live, GensOk, Emit;
    LatchPieces(c, acc);
    var ch := c.chains[k];
    if ch.i < |ch.cids| && c.hasSocket && c.connected {
      var cid := ch.cids[ch.i];
      var c1 := Advanced(c, k);
      AdvanceKeepsQueue(c, k, acc);
      if cid !in c1.pending {
        NextKeepsQueue(c1, k, acc);
      } else {
        CurrentIsLast(c, k);
        PassedPositions(c, acc, k);
        EmitKeepsQueue(c1, cid, acc, k, ch.i);
        HeldByOne(Next(c, k), |c.parked|);
      }
    } else {
      Released(c, acc);
    }
  }

  lemma LatchPieces(c: Client, acc: Accepted)
    requires QueueOk(c, acc)
    ensures GensOk(c)
    ensures forall k :: 0 <= k < |c.chains| ==> c.chains[k].i <= |c.chains[k].cids|
  {
    forall k | 0 <= k < |c.chains| ensures c.chains[k].i <= |c.chains[k].cids| {
      assert ChainOk(c.chains[k], acc);
    }
  }

  lemma PassedPositions(c: Client, acc: Accepted, k: nat)
    requires QueueOk(c, acc) && k < |c.chains|
    ensures forall f <- c.wire :: f.from.Some? && f.from.value.0 == k ==> f.from.value.1 < c.chains[k].i
  {
  }

  lemma HeldByOne(c: Client, k: nat)
    requires c.flushing && OnlyLive(c, k)
    ensures LatchOk(c)
  {
  }

  lemma Released(c: Client, acc: Accepted)
    requires QueueOk(c, acc) && NoneLive(c)
    ensures QueueOk(c.(flushing := false), acc) && LatchOk(c.(flushing := false))
  {
    var c' := c.(flushing := false);
    assert forall p <- c.parked :: Live(c', p) == Live(c, p);
  }

  /* ---- Closures ---- */

  /** Replacing a closure by one that will not resume the current chain frees the latch if it held it. */
  lemma ReplaceParked(c: Client, k: nat, p: Parked, acc: Accepted)
    requires QueueOk(c, acc) && LatchOk(c) && k < |c.parked|
    requires p.after == c.parked[k].after && p.gen == c.parked[k].gen
    requires (p.settled ==> p.advanced) && !Live(c, p)
    ensures var c' := c.(parked := c.parked[k := p]);
            && QueueOk(c', acc)
            && if Live(c, c.parked[k]) then c.flushing && NoneLive(c') else LatchOk(c')
  {
    var c' := c.(parked := c.parked[k := p]);
    assert forall q :: Live(c', q) == Live(c, q);
    if c.flushing {
      var j :| OnlyLive(c, j);
      if j != k {
        assert OnlyLive(c', j);
      }
    }
  }

  /** Settling closure `k` once: it resumes its chain if that chain still owns the queue. */
  lemma ResumeKeepsQueue(c: Client, k: nat, p: Parked, acc: Accepted)
    requires QueueOk(c, acc) && LatchOk(c) && k < |c.parked|
    requires p.after == c.parked[k].after && p.gen == c.parked[k].gen && p.advanced && !c.parked[k].advanced
    requires forall x <- c.pending :: x in acc && acc[x] == (c.pending[x].body, c.pending[x].ts)
    ensures var c' := c.(parked := c.parked[k := p]);
            var r := if p.after.Some? && p.after.value < |c'.chains| then Next(c', p.after.value) else c';
            QueueOk(r, acc) && LatchOk(r)
  {
    hide WireOk, ChainOk, GensOk, LatchOk;
    var c' := c.(parked := c.parked[k := p]);
    ReplaceParked(c, k, p, acc);
    if p.after.Some? {
      assert c.parked[k] in c.parked;
      if c.chains[p.after.value].gen == c.flushGen {
        NextKeepsQueue(c', p.after.value, acc);
      }
    }
  }

  lemma MarkKeepsQueue(c: Client, cid: Cid, s: Status, acc: Accepted)
    requires QueueOk(c, acc) && LatchOk(c)
    ensures QueueOk(Mark(c, cid, s), acc) && LatchOk(Mark(c, cid, s))
  {
    SameQueue(c, Mark(c, cid, s), acc);
  }

  /** The queue does not depend on what is pending or stored. */
  lemma SameQueue(c: Client, c': Client, acc: Accepted)
    requires QueueOk(c, acc) && LatchOk(c)
    requires c' == c.(pending := c'.pending, outbox := c'.outbox, hasSocket := c'.hasSocket, connected := c'.connected)
    ensures QueueOk(c', acc) && LatchOk(c')
  {
    assert forall p :: Live(c', p) == Live(c, p);
    if c.flushing {
      var j :| OnlyLive(c, j);
      assert OnlyLive(c', j);
    }
  }

  lemma AckKeeps(c: Client, k: nat, ok: bool, acc: Accepted, stored: set<Cid>, expired: set<Cid>)
    requires StoreOk(c, acc, stored, expired) && QueueOk(c, acc) && LatchOk(c) && k < |c.parked|
    requires ok ==> c.parked[k].cid in stored
    ensures StoreOk(AckStep(c, k, ok), acc, stored, expired) && AckStep(c, k, ok).pending.Keys == c.pending.Keys
    ensures QueueOk(AckStep(c, k, ok), acc) && LatchOk(AckStep(c, k, ok))
  {
    hide QueueOk, LatchOk, Next;
    var p := c.parked[k];
    if !p.settled {
      var s := if ok then Sent else Failed;
      SettleKeeps(c, k, s, p.(settled := true, armed := false), acc, stored, expired);
    }
  }

  lemma TimeoutKeeps(c: Client, k: nat, acc: Accepted, stored: set<Cid>, expired: set<Cid>)
    requires StoreOk(c, acc, stored, expired) && QueueOk(c, acc) && LatchOk(c) && k < |c.parked|
    ensures StoreOk(TimeoutStep(c, k), acc, stored, expired) && TimeoutStep(c, k).pending.Keys == c.pending.Keys
    ensures QueueOk(TimeoutStep(c, k), acc) && LatchOk(TimeoutStep(c, k))
  {
    hide Next, WireOk, ChainOk, GensOk, LatchOk;
    var p := c.parked[k];
    assert p in c.parked;
    if p.settled || (p.gen.Some? && p.gen.value != c.flushGen) {
      SameStore(c, TimeoutStep(c, k), acc, stored, expired);
      ReplaceParked(c, k, p.(armed := false), acc);
    } else {
      SettleKeeps(c, k, Failed, p.(armed := false), acc, stored, expired);
    }
  }

  /** Both callbacks: note the outcome, mark the message, and go on unless the closure has gone on before. */
  lemma SettleKeeps(c: Client, k: nat, s: Status, p: Parked, acc: Accepted, stored: set<Cid>, expired: set<Cid>)
    requires StoreOk(c, acc, stored, expired) && QueueOk(c, acc) && LatchOk(c) && k < |c.parked|
    requires p == c.parked[k].(settled := p.settled, armed := false)
    requires s == Sent ==> p.cid in stored
    ensures var r := Go(Mark(c.(parked := c.parked[k := p]), p.cid, s), k);
            && StoreOk(r, acc, stored, expired) && r.pending.Keys == c.pending.Keys
            && QueueOk(r, acc) && LatchOk(r)
  {
    hide QueueOk, LatchOk, Next, StoreOk, Mark, Live;
    var c1 := c.(parked := c.parked[k := p]);
    var m := Mark(c, p.cid, s);
    MarkLeavesClosures(c, c1, p.cid, s);
    MarkKeepsStore(c, p.cid, s, acc, stored, expired);
    MarkKeepsQueue(c, p.cid, s, acc);
    PendingIsAccepted(m, acc, stored, expired);
    if p.advanced {
      AdvancedIsNotLive(m, p);
      ReplaceParked(m, k, p, acc);
      AdvancedIsNotLive(m, m.parked[k]);
      SameStore(m, m.(parked := c1.parked), acc, stored, expired);
    } else {
      var p' := p.(advanced := true);
      var m' := m.(parked := m.parked[k := p']);
      assert m.parked[k := p'] == c1.parked[k := p'];
      SameStore(m, m', acc, stored, expired);
      ResumeKeepsQueue(m, k, p', acc);
      if p'.after.Some? && p'.after.value < |m'.chains| {
        NextKeepsStore(m', p'.after.value, acc, stored, expired);
      }
    }
  }

  lemma MarkLeavesClosures(c: Client, c1: Client, cid: Cid, s: Status)
    requires c1 == c.(parked := c1.parked)
    ensures Mark(c1, cid, s) == Mark(c, cid, s).(parked := c1.parked)
    ensures Mark(c, cid, s) == c.(pending := Mark(c, cid, s).pending, outbox := Mark(c, cid, s).outbox)
  {
  }

  lemma AdvancedIsNotLive(c: Client, p: Parked)
    requires p.advanced
    ensures !Live(c, p)
  {
  }

  lemma PendingIsAccepted(c: Client, acc: Accepted, stored: set<Cid>, expired: set<Cid>)
    requires StoreOk(c, acc, stored, expired)
    ensures forall x <- c.pending :: x in acc && acc[x] == (c.pending[x].body, c.pending[x].ts)
  {
  }

  /* ---- Flushing ---- */

  /** Advancing the generation makes every parked closure stale. */
  lemma NewGeneration(c: Client, acc: Accepted)
    requires QueueOk(c, acc)
    ensures forall p <- c.parked :: !Live(c.(flushGen := c.flushGen + 1), p)
    ensures QueueOk(c.(flushGen := c.flushGen + 1), acc)
  {
    var c' := c.(flushGen := c.flushGen + 1);
    forall p <- c.parked ensures !Live(c', p) {
      if p.after.Some? {
        assert c.chains[p.after.value].gen <= c.flushGen;
      }
    }
  }

  function Started(c: Client, order: seq<Cid>): Client {
    c.(flushing := true, flushGen := c.flushGen + 1, chains := c.chains + [Chain(order, 0, c.flushGen + 1)])
  }

  lemma StartKeepsQueue(c: Client, order: seq<Cid>, acc: Accepted)
    requires QueueOk(c, acc) && !c.flushing
    requires forall x <- c.pending :: x in acc && acc[x] == (c.pending[x].body, c.pending[x].ts)
    requires FlushOrder(order, c.pending)
    ensures QueueOk(Started(c, order), acc) && NoneLive(Started(c, order))
  {
    NewGeneration(c, acc);
    var c' := Started(c, order);
    var ch := Chain(order, 0, c.flushGen + 1);
    assert ChainOk(ch, acc);
    forall p <- c.parked ensures !Live(c', p) {
      assert !Live(c.(flushGen := c.flushGen + 1), p);
    }
    assert WireOk(c', acc) by {
      forall f <- c.wire | f.from.Some? ensures c'.chains[f.from.value.0] == c.chains[f.from.value.0] {
      }
    }
    assert ParkedOk(c');
  }

  lemma FlushKeeps(c: Client, order: seq<Cid>, acc: Accepted, stored: set<Cid>, expired: set<Cid>)
    requires StoreOk(c, acc, stored, expired) && QueueOk(c, acc) && LatchOk(c)
    requires FlushOrder(order, c.pending)
    ensures StoreOk(Flush(c, order), acc, stored, expired) && Flush(c, order).pending.Keys == c.pending.Keys
    ensures QueueOk(Flush(c, order), acc) && LatchOk(Flush(c, order))
  {
    hide QueueOk, LatchOk, Next, StoreOk, NoneLive, FlushOrder;
    if !(c.flushing || !c.hasSocket || !c.connected || order == []) {
      var c' := Started(c, order);
      PendingIsAccepted(c, acc, stored, expired);
      StartKeepsQueue(c, order, acc);
      SameStore(c, c', acc, stored, expired);
      NextKeepsQueue(c', |c.chains|, acc);
      NextKeepsStore(c', |c.chains|, acc, stored, expired);
    }
  }

  /* ---- The other events ---- */

  lemma LetGoKeeps(c: Client, c': Client, acc: Accepted)
    requires QueueOk(c, acc)
    requires c' == c.(pending := c'.pending, outbox := c'.outbox, flushing := false, flushGen := c.flushGen + 1,
                      hasSocket := c'.hasSocket, connected := c'.connected)
    ensures QueueOk(c', acc) && LatchOk(c')
  {
    hide ChainOk;
    NewGeneration(c, acc);
    var d := c.(flushGen := c.flushGen + 1);
    assert forall p <- c.parked :: Live(c', p) == Live(d, p);
  }

  lemma RetryKeeps(c: Client, cid: Cid, acc: Accepted, stored: set<Cid>, expired: set<Cid>)
    requires StoreOk(c, acc, stored, expired) && QueueOk(c, acc) && LatchOk(c)
    ensures StoreOk(RetryStep(c, cid), acc, stored, expired) && RetryStep(c, cid).pending.Keys == c.pending.Keys
    ensures QueueOk(RetryStep(c, cid), acc) && LatchOk(RetryStep(c, cid))
  {
    hide QueueOk, LatchOk, StoreOk;
    if cid in c.pending {
      var m := Mark(c, cid, Queued);
      MarkKeepsStore(c, cid, Queued, acc, stored, expired);
      MarkKeepsQueue(c, cid, Queued, acc);
      EmitKeepsStore(m, cid, None, None, None, acc, stored, expired);
      PendingIsAccepted(m, acc, stored, expired);
      LooseEmitKeepsQueue(m, cid, acc);
    }
  }

  /** A retry belongs to no chain and leaves the latch alone. */
  lemma LooseEmitKeepsQueue(c: Client, cid: Cid, acc: Accepted)
    requires QueueOk(c, acc) && LatchOk(c)
    requires cid in c.pending && cid in acc && acc[cid] == (c.pending[cid].body, c.pending[cid].ts)
    ensures QueueOk(Emit(c, cid, None, None, None), acc) && LatchOk(Emit(c, cid, None, None, None))
  {
    hide ChainOk;
    var c' := Emit(c, cid, None, None, None);
    assert forall p :: Live(c', p) == Live(c, p);
    if c.flushing {
      var j :| OnlyLive(c, j);
      assert OnlyLive(c', j);
    }
    assert forall j :: |c.wire| <= j < |c'.wire| ==> c'.wire[j].from.None?;
  }

  lemma RemoveKeeps(c: Client, cid: Cid, acc: Accepted, stored: set<Cid>, expired: set<Cid>)
    requires StoreOk(c, acc, stored, expired) && QueueOk(c, acc) && LatchOk(c)
    ensures StoreOk(Remove(c, cid), acc, stored, expired)
    ensures QueueOk(Remove(c, cid), acc) && LatchOk(Remove(c, cid))
    ensures Remove(c, cid).pending.Keys == c.pending.Keys - {cid}
  {
    hide QueueOk, LatchOk;
    SameQueue(c, Remove(c, cid), acc);
    if cid in c.pending {
      PersistIsStore(Remove(c, cid), acc, stored, expired);
    }
  }

  lemma ComposeKeeps(c: Client, cid: Cid, body: string, ts: int, acc: Accepted, stored: set<Cid>, expired: set<Cid>)
    requires StoreOk(c, acc, stored, expired) && QueueOk(c, acc) && LatchOk(c) && cid !in acc
    ensures var (c', acc') := (Composed(c, cid, body, ts), acc[cid := (body, ts)]);
            StoreOk(c', acc', stored, expired) && QueueOk(c', acc') && LatchOk(c')
  {
    hide LatchOk, GensOk, ParkedOk;
    PersistIsStore(Composed(c, cid, body, ts), acc[cid := (body, ts)], stored, expired);
    var c', acc' := Composed(c, cid, body, ts), acc[cid := (body, ts)];
    forall ch <- c.chains ensures ChainOk(ch, acc') {
      assert ChainOk(ch, acc);
    }
    assert QueueOk(c, acc');
    SameQueue(c, c', acc');
  }

  lemma BootKeeps(c: Client, acc: Accepted, stored: set<Cid>, expired: set<Cid>, now: int, idle: bool)
    requires StoreOk(c, acc, stored, expired)
    ensures var c' := ReloadStep(c, now, idle);
            && StoreOk(c', acc, stored, if idle then expired else expired + (c.outbox.Keys - c'.pending.Keys))
            && QueueOk(c', acc) && LatchOk(c')
  {
  }

  /* ---- Runs ---- */

  lemma InitiallyInv()
    ensures Inv(INIT)
  {
  }

  lemma StepKeepsInv(w: World, e: Event)
    requires Inv(w) && Enabled(w, e)
    ensures Inv(Apply(w, e))
  {
    hide QueueOk, LatchOk, StoreOk, FlushOrder, Flush, AckStep, TimeoutStep, RetryStep, Remove, Composed;
    var c, acc, stored, expired := w.client, w.accepted, w.stored, w.expired;
    match e
    case Send(cid, body, ts, order) =>
      ComposeKeeps(c, cid, body, ts, acc, stored, expired);
      ComposedKeys(c, cid, body, ts);
      FlushKeeps(Composed(c, cid, body, ts), order, acc[cid := (body, ts)], stored, expired);
    case FlushNow(order) => FlushKeeps(c, order, acc, stored, expired);
    case Receive(cid) => MoreStored(c, acc, stored, stored + {cid}, expired);
    case Ack(k, ok) => AckKeeps(c, k, ok, acc, stored, expired);
    case Timeout(k) => TimeoutKeeps(c, k, acc, stored, expired);
    case SocketCreated =>
      SameStore(c, c.(hasSocket := true), acc, stored, expired);
      SameQueue(c, c.(hasSocket := true), acc);
    case Connect(order) =>
      SameStore(c, c.(connected := true), acc, stored, expired);
      SameQueue(c, c.(connected := true), acc);
      FlushKeeps(c.(connected := true), order, acc, stored, expired);
    case Disconnect(own) =>
      SameStore(c, DisconnectStep(c, own), acc, stored, expired);
      LetGoKeeps(c, DisconnectStep(c, own), acc);
    case Echo(ext, hit) =>
      if hit.Some? {
        HitIsStored(w, ext, hit.value);
        RemoveKeeps(c, hit.value, acc, stored, expired);
      }
    case Retry(cid) => RetryKeeps(c, cid, acc, stored, expired);
    case Reload(now, idle) =>
      BootKeeps(c, acc, stored, expired, now, idle);
      ReloadAccounts(w, now, idle);
    case Reset =>
      EmptyStore(c, acc, stored, expired);
      LetGoKeeps(c, ResetStep(c), acc);
  }

  lemma ComposedKeys(c: Client, cid: Cid, body: string, ts: int)
    ensures Composed(c, cid, body, ts).pending.Keys == c.pending.Keys + {cid}
  {
  }

  lemma MoreStored(c: Client, acc: Accepted, stored: set<Cid>, stored': set<Cid>, expired: set<Cid>)
    requires StoreOk(c, acc, stored, expired) && stored <= stored'
    ensures StoreOk(c, acc, stored', expired)
  {
  }

  lemma HitIsStored(w: World, ext: string, cid: Cid)
    requires Inv(w) && Enabled(w, Echo(ext, Some(cid)))
    ensures cid in w.stored
  {
    assert cid in w.accepted;
  }

  lemma ReloadAccounts(w: World, now: int, idle: bool)
    requires Inv(w)
    ensures var w' := Apply(w, Reload(now, idle));
            forall x <- w'.accepted :: x in w'.stored || x in w'.client.pending || x in w'.expired || x in w'.cleared
  {
  }

  lemma EmptyStore(c: Client, acc: Accepted, stored: set<Cid>, expired: set<Cid>)
    ensures StoreOk(ResetStep(c), acc, stored, expired)
  {
  }

  function Run(w: World, es: seq<Event>): World
    decreases |es|
  {
    if es == [] then w else Run(Apply(w, es[0]), es[1..])
  }

  ghost predicate Feasible(w: World, es: seq<Event>)
    decreases |es|
  {
    es == [] || (Enabled(w, es[0]) && Feasible(Apply(w, es[0]), es[1..]))
  }

  lemma {:induction false} RunKeepsInv(w: World, es: seq<Event>)
    requires Inv(w) && Feasible(w, es)
    ensures Inv(Run(w, es))
    decreases |es|
  {
    hide Inv, Apply, Enabled;
    if es != [] {
      StepKeepsInv(w, es[0]);
      RunKeepsInv(Apply(w, es[0]), es[1..]);
    }
  }

  lemma ReachableInv(es: seq<Event>)
    requires Feasible(INIT, es)
    ensures Inv(Run(INIT, es))
  {
    InitiallyInv();
    RunKeepsInv(INIT, es);
  }

  /* ---- No text message is lost ---- */

  /**
   In every reachable state every message `onSend` ever took is at the server, or still
   pending just as it was typed, or was discarded by name: stale at a reload, or wiped.
   */
  lemma NothingIsLost(es: seq<Event>)
    requires Feasible(INIT, es)
    ensures var w := Run(INIT, es);
            forall x <- w.accepted ::
              || x in w.stored
              || (x in w.client.pending && (w.client.pending[x].body, w.client.pending[x].ts) == w.accepted[x])
              || x in w.expired || x in w.cleared
  {
    hide Run;
    ReachableInv(es);
  }

  /** An event that does not discard a message typed at `ts`: no wipe, and no reload 24 hours later. */
  predicate Spares(e: Event, ts: int) {
    match e
    case Reset => false
    case Reload(now, idle) => !idle && Fresh(ts, now)
    case _ => true
  }

  ghost predicate Safe(w: World, x: Cid) {
    x in w.accepted && (x in w.stored || x in w.client.pending)
  }

  lemma ReloadSpares(w: World, now: int, x: Cid)
    requires Inv(w) && Safe(w, x) && Fresh(w.accepted[x].1, now)
    ensures Safe(Apply(w, Reload(now, false)), x)
  {
    hide QueueOk, LatchOk;
  }

  lemma StepSpares(w: World, e: Event, x: Cid)
    requires Inv(w) && Enabled(w, e) && Safe(w, x) && Spares(e, w.accepted[x].1)
    ensures Safe(Apply(w, e), x) && Apply(w, e).accepted[x] == w.accepted[x]
  {
    hide QueueOk, LatchOk, FlushOrder, Flush, AckStep, TimeoutStep, RetryStep, Composed, ReloadStep, Fresh, StoreOk;
    var c, acc, stored, expired := w.client, w.accepted, w.stored, w.expired;
    match e
    case Send(cid, body, ts, order) =>
      ComposeKeeps(c, cid, body, ts, acc, stored, expired);
      ComposedKeys(c, cid, body, ts);
      FlushKeeps(Composed(c, cid, body, ts), order, acc[cid := (body, ts)], stored, expired);
    case FlushNow(order) => FlushKeeps(c, order, acc, stored, expired);
    case Ack(k, ok) => AckKeeps(c, k, ok, acc, stored, expired);
    case Timeout(k) => TimeoutKeeps(c, k, acc, stored, expired);
    case Connect(order) =>
      SameStore(c, c.(connected := true), acc, stored, expired);
      SameQueue(c, c.(connected := true), acc);
      FlushKeeps(c.(connected := true), order, acc, stored, expired);
    case Retry(cid) => RetryKeeps(c, cid, acc, stored, expired);
    case Echo(ext, hit) => if hit.Some? { HitIsStored(w, ext, hit.value); }
    case Reload(now, idle) => ReloadSpares(w, now, x);
    case _ =>
  }

  /** Whatever else happens, a message that nothing discards stays pending or reaches the server. */
  lemma {:induction false} MessageSurvives(w: World, es: seq<Event>, x: Cid)
    requires Inv(w) && Feasible(w, es) && Safe(w, x)
    requires forall e <- es :: Spares(e, w.accepted[x].1)
    ensures Safe(Run(w, es), x)
    ensures Run(w, es).accepted[x] == w.accepted[x]
    decreases |es|
  {
    hide Inv, Apply, Enabled, Safe;
    if es != [] {
      StepSpares(w, es[0], x);
      StepKeepsInv(w, es[0]);
      MessageSurvives(Apply(w, es[0]), es[1..], x);
    }
  }

  /**
   A reload at any reachable state restores each pending message, in flight as queued and
   failed as failed, unless it was acknowledged (and then the server has it) or is a day old.
   */
  lemma ReloadRestores(es: seq<Event>, now: int)
    requires Feasible(INIT, es)
    ensures var w := Run(INIT, es);
            var after := Apply(w, Reload(now, false)).client.pending;
            && (forall x <- w.client.pending ::
                  var e := w.client.pending[x];
                  if e.status == Sent then x in w.stored
                  else if Fresh(e.ts, now) then
                    x in after && after[x] == e.(status := if e.status == Failed then Failed else Queued)
                  else x !in after)
            && (forall x <- after :: x in w.client.pending || x in w.expired)
  {
    hide Run, QueueOk, LatchOk;
    ReachableInv(es);
  }

  /* ---- The flush latch ---- */

  /**
   The latch is held exactly when one parked closure, and only one, carries the current
   generation and is still to go on; and the timer of that closure is running.
   */
  lemma LatchIsHeldByOneClosure(es: seq<Event>)
    requires Feasible(INIT, es)
    ensures var c := Run(INIT, es).client;
            && (c.flushing <==> exists k :: OnlyLive(c, k))
            && (!c.flushing <==> NoneLive(c))
            && (forall k: nat :: OnlyLive(c, k) ==> c.parked[k].armed)
  {
    hide Run, StoreOk, ChainOk, WireOk, GensOk;
    ReachableInv(es);
    var c := Run(INIT, es).client;
    forall k: nat | OnlyLive(c, k) ensures c.parked[k].armed {
      assert c.parked[k] in c.parked;
    }
  }

  /** How much of the current chain is left while the latch is held. */
  function Remaining(c: Client): nat
    requires forall ch <- c.chains :: ch.i <= |ch.cids|
  {
    if c.flushing && c.chains != [] then
      var ch := c.chains[|c.chains| - 1];
      assert ch in c.chains;
      1 + |ch.cids| - ch.i
    else 0
  }

  lemma {:induction false} NextProgress(c: Client, k: nat, acc: Accepted)
    requires k == |c.chains| - 1 && c.chains[k].gen == c.flushGen && c.flushing && c.chains[k].i <= |c.chains[k].cids|
    ensures |Next(c, k).chains| == |c.chains| && Next(c, k).chains[k].cids == c.chains[k].cids
    ensures Next(c, k).flushing ==> c.chains[k].i < Next(c, k).chains[k].i <= |c.chains[k].cids|
    decreases |c.chains[k].cids| - c.chains[k].i
  {
    var ch := c.chains[k];
    if ch.i < |ch.cids| && c.hasSocket && c.connected && ch.cids[ch.i] !in c.pending {
      NextProgress(Advanced(c, k), k, acc);
    }
  }

  /** So the latch cannot stick: the holder's timeout is enabled, and either frees the latch or shortens the chain. */
  lemma LatchCannotStick(es: seq<Event>, k: nat)
    requires Feasible(INIT, es)
    requires OnlyLive(Run(INIT, es).client, k)
    ensures var w := Run(INIT, es);
            var w' := Apply(w, Timeout(k));
            && Enabled(w, Timeout(k))
            && (forall ch <- w.client.chains :: ch.i <= |ch.cids|)
            && (forall ch <- w'.client.chains :: ch.i <= |ch.cids|)
            && Remaining(w'.client) < Remaining(w.client)
  {
    hide Run, StoreOk, WireOk;
    ReachableInv(es);
    var w := Run(INIT, es);
    var c := w.client;
    var p := c.parked[k];
    assert p in c.parked;
    StepKeepsInv(w, Timeout(k));
    CurrentIsLast(c, p.after.value);
    var m := Mark(c.(parked := c.parked[k := p.(armed := false)]), p.cid, Failed);
    assert c.chains[p.after.value] in c.chains;
    NextProgress(m.(parked := m.parked[k := m.parked[k].(advanced := true)]), p.after.value, w.accepted);
  }
}
