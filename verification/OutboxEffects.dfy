/** What each event does to a page, field by field, and what an acknowledgement is worth in the run that follows. */
module OutboxEffects {
  import opened Options
  import opened Outbox
  import opened OutboxSafety

  /* ---- Passed positions ---- */

  /** A chain's closure carries an id that its chain has already taken. */
  ghost predicate Passed(c: Client) {
    && (forall ch <- c.chains :: ch.i <= |ch.cids|)
    && (forall p <- c.parked :: p.after.Some? ==>
          p.after.value < |c.chains| && TakenBy(c.chains[p.after.value], p.cid))
  }

  ghost predicate TakenBy(ch: Chain, cid: Cid) {
    exists j :: 0 <= j < ch.i && j < |ch.cids| && ch.cids[j] == cid
  }

  lemma {:induction false} NextPasses(c: Client, k: nat)
    requires Passed(c) && k < |c.chains|
    ensures Passed(Next(c, k))
    decreases |c.chains[k].cids| - c.chains[k].i
  {
    var ch := c.chains[k];
    assert ch in c.chains;
    if ch.gen == c.flushGen && ch.i < |ch.cids| && c.hasSocket && c.connected {
      var c1 := Advanced(c, k);
      AdvancePasses(c, k);
      if ch.cids[ch.i] !in c.pending {
        NextPasses(c1, k);
      } else {
        assert TakenBy(c1.chains[k], ch.cids[ch.i]);
      }
    }
  }

  lemma AdvancePasses(c: Client, k: nat)
    requires Passed(c) && k < |c.chains| && c.chains[k].i < |c.chains[k].cids|
    ensures Passed(Advanced(c, k))
  {
    var c1 := Advanced(c, k);
    forall p <- c1.parked | p.after.Some?
      ensures p.after.value < |c1.chains| && TakenBy(c1.chains[p.after.value], p.cid)
    {
      assert TakenBy(c.chains[p.after.value], p.cid);
    }
  }

  lemma SamePassed(c: Client, c': Client)
    requires Passed(c) && c'.chains == c.chains && |c'.parked| == |c.parked|
    requires forall k :: 0 <= k < |c.parked| ==>
      c'.parked[k].after == c.parked[k].after && c'.parked[k].cid == c.parked[k].cid
    ensures Passed(c')
  {
    forall p <- c'.parked | p.after.Some?
      ensures p.after.value < |c'.chains| && TakenBy(c'.chains[p.after.value], p.cid)
    {
      var k :| 0 <= k < |c'.parked| && c'.parked[k] == p;
      assert c.parked[k] in c.parked;
    }
  }

  lemma GoPasses(c: Client, k: nat)
    requires Passed(c) && k < |c.parked|
    ensures Passed(Go(c, k))
  {
    hide Next, TakenBy;
    var p := c.parked[k];
    if !p.advanced {
      var c1 := c.(parked := c.parked[k := p.(advanced := true)]);
      SamePassed(c, c1);
      if p.after.Some? && p.after.value < |c1.chains| {
        NextPasses(c1, p.after.value);
      }
    }
  }

  lemma FlushPasses(c: Client, order: seq<Cid>)
    requires Passed(c)
    ensures Passed(Flush(c, order))
  {
    hide Next;
    if !(c.flushing || !c.hasSocket || !c.connected || order == []) {
      assert Passed(Started(c, order)) by {
        forall p <- c.parked | p.after.Some?
          ensures Started(c, order).chains[p.after.value] == c.chains[p.after.value]
        {
        }
      }
      NextPasses(Started(c, order), |c.chains|);
    }
  }

  /** Noting an outcome in closure `k`, marking its message and going on. */
  lemma SettlePasses(c: Client, k: nat, p: Parked, s: Status)
    requires Passed(c) && k < |c.parked| && p.cid == c.parked[k].cid && p.after == c.parked[k].after
    ensures var c1 := c.(parked := c.parked[k := p]);
            Passed(c1) && Passed(Go(Mark(c1, p.cid, s), k))
  {
    hide Go, Passed;
    var c1 := c.(parked := c.parked[k := p]);
    SamePassed(c, c1);
    SamePassed(c, Mark(c1, p.cid, s));
    GoPasses(Mark(c1, p.cid, s), k);
  }

  lemma StepKeepsPassed(c: Client, e: Event)
    requires Passed(c)
    ensures Passed(ClientStep(c, e))
  {
    hide Passed, Flush, Go, Mark;
    match e
    case Send(cid, body, ts, order) =>
      SamePassed(c, Composed(c, cid, body, ts));
      FlushPasses(Composed(c, cid, body, ts), order);
    case FlushNow(order) => FlushPasses(c, order);
    case Connect(order) =>
      SamePassed(c, c.(connected := true));
      FlushPasses(c.(connected := true), order);
    case Ack(k, ok) =>
      if k < |c.parked| && !c.parked[k].settled {
        SettlePasses(c, k, c.parked[k].(settled := true, armed := false), if ok then Sent else Failed);
      }
    case Timeout(k) =>
      if k < |c.parked| {
        SettlePasses(c, k, c.parked[k].(armed := false), Failed);
      }
    case Retry(cid) => RetryPasses(c, cid);
    case Reload(now, idle) => FreshPasses(ReloadStep(c, now, idle));
    case _ => SamePassed(c, ClientStep(c, e));
  }

  lemma RetryPasses(c: Client, cid: Cid)
    requires Passed(c)
    ensures Passed(RetryStep(c, cid))
  {
    hide TakenBy;
  }

  lemma FreshPasses(c: Client)
    requires c.chains == [] && c.parked == []
    ensures Passed(c)
  {
  }

  lemma {:induction false} RunKeepsPassed(w: World, es: seq<Event>)
    requires Passed(w.client)
    ensures Passed(Run(w, es).client)
    decreases |es|
  {
    hide Passed, ClientStep;
    if es != [] {
      StepKeepsPassed(w.client, es[0]);
      RunKeepsPassed(Apply(w, es[0]), es[1..]);
    }
  }

  /* ---- How a chain goes on ---- */

  /** The first position from `i` on whose id is still pending, if any. */
  function NextPending(cids: seq<Cid>, i: nat, pending: map<Cid, Entry>): (r: Option<nat>)
    ensures r.Some? ==> i <= r.value < |cids| && cids[r.value] in pending
    ensures r.Some? ==> forall j :: i <= j < r.value ==> cids[j] !in pending
    ensures r.None? ==> forall j :: i <= j < |cids| ==> cids[j] !in pending
    decreases |cids| - i
  {
    if i >= |cids| then None else if cids[i] in pending then Some(i) else NextPending(cids, i + 1, pending)
  }

  /** The entry of a message that has just been handed to the socket. */
  function InFlight(e: Entry): Entry {
    Entry(e.body, e.ts, Inflight)
  }

  /** Chain `k` of `c` goes on to `d`: silent if superseded, done when nothing is left or offline, else one frame. */
  ghost predicate GoesOn(c: Client, d: Client, k: nat)
    requires k < |c.chains|
  {
    var ch := c.chains[k];
    var j := NextPending(ch.cids, ch.i, c.pending);
    if ch.gen != c.flushGen then d == c
    else if !c.hasSocket || !c.connected || j.None? then
      !d.flushing && d.pending == c.pending && d.outbox == c.outbox && d.wire == c.wire && d.parked == c.parked
    else
      var cid := ch.cids[j.value];
      && d.flushing == c.flushing
      && d.pending == c.pending[cid := InFlight(c.pending[cid])]
      && d.outbox == Persist(d.pending)
      && d.wire == c.wire + [Frame(cid, c.pending[cid].body, c.pending[cid].ts, Some((k, j.value)))]
      && |d.chains| == |c.chains| && d.chains[k] == ch.(i := j.value + 1)
  }

  lemma {:induction false} NextGoesOn(c: Client, k: nat)
    requires k < |c.chains|
    ensures GoesOn(c, Next(c, k), k)
    decreases |c.chains[k].cids| - c.chains[k].i
  {
    hide Persist;
    var ch := c.chains[k];
    if ch.gen == c.flushGen && ch.i < |ch.cids| && c.hasSocket && c.connected && ch.cids[ch.i] !in c.pending {
      NextGoesOn(Advanced(c, k), k);
    }
  }

  /* ---- Acknowledgements and timeouts ---- */

  /** What becomes of the message of closure `k` when its outcome is noted. */
  ghost predicate Settled(c: Client, d: Client, cid: Cid, s: Status)
    requires cid in c.pending
  {
    var e := c.pending[cid];
    && cid in d.pending && d.pending[cid] == Entry(e.body, e.ts, s)
    && (if s == Sent then cid !in d.outbox else cid in d.outbox && d.outbox[cid] == Saved(e.body, e.ts, s == Failed))
    && OthersWait(c, d, cid)
  }

  /** Every other message is as it was, but for one that may have been handed to the socket. */
  ghost predicate OthersWait(c: Client, d: Client, cid: Cid) {
    && d.pending.Keys == c.pending.Keys
    && forall y <- c.pending | y != cid ::
         d.pending[y] == c.pending[y] || (d.pending[y] == InFlight(c.pending[y]) && NewFrame(c, d, y))
  }

  ghost predicate NewFrame(c: Client, d: Client, x: Cid) {
    exists i :: |c.wire| <= i < |d.wire| && d.wire[i].cid == x
  }

  lemma MarkEffect(c: Client, cid: Cid, s: Status)
    requires cid in c.pending
    ensures var m := Mark(c, cid, s);
            && m == c.(pending := m.pending, outbox := m.outbox)
            && m.pending == c.pending[cid := Entry(c.pending[cid].body, c.pending[cid].ts, s)]
            && m.outbox == Persist(m.pending)
  {
  }

  lemma NotTakenAgain(c: Client, acc: Accepted, v: nat, cid: Cid)
    requires v < |c.chains| && TakenBy(c.chains[v], cid) && Distinct(c.chains[v].cids)
    ensures forall j :: c.chains[v].i <= j < |c.chains[v].cids| ==> c.chains[v].cids[j] != cid
  {
  }

  /** Going on from a closure whose message has been marked leaves that message alone. */
  lemma GoLeaves(m: Client, d: Client, v: nat, cid: Cid)
    requires v < |m.chains| && GoesOn(m, d, v) && cid in m.pending && m.outbox == Persist(m.pending)
    requires forall j :: m.chains[v].i <= j < |m.chains[v].cids| ==> m.chains[v].cids[j] != cid
    ensures cid in d.pending && d.pending[cid] == m.pending[cid] && d.outbox == Persist(d.pending)
    ensures |m.wire| <= |d.wire| && OthersWait(m, d, cid)
    ensures !NewFrame(m, d, cid)
  {
    var ch := m.chains[v];
    var j := NextPending(ch.cids, ch.i, m.pending);
    if ch.gen == m.flushGen && m.hasSocket && m.connected && j.Some? {
      assert d.wire[|m.wire|].cid == ch.cids[j.value];
      assert NewFrame(m, d, ch.cids[j.value]);
    }
  }

  lemma SettleEffect(c: Client, acc: Accepted, k: nat, p: Parked, s: Status)
    requires QueueOk(c, acc) && Passed(c) && k < |c.parked|
    requires p.cid == c.parked[k].cid && p.after == c.parked[k].after && p.cid in c.pending
    ensures var d := Go(Mark(c.(parked := c.parked[k := p]), p.cid, s), k);
            Settled(c, d, p.cid, s) && !NewFrame(c, d, p.cid)
  {
    hide QueueOk, Next, Persist, GoesOn, Distinct, TakenBy;
    var c1 := c.(parked := c.parked[k := p]);
    MarkEffect(c1, p.cid, s);
    var m := Mark(c1, p.cid, s);
    if !p.advanced && p.after.Some? {
      var v := p.after.value;
      var m' := m.(parked := m.parked[k := p.(advanced := true)]);
      assert c.parked[k] in c.parked;
      ChainIsDistinct(c, acc, v);
      NotTakenAgain(c, acc, v, p.cid);
      NextGoesOn(m', v);
      GoLeaves(m', Next(m', v), v, p.cid);
    }
    StoredAs(Go(m, k), p.cid);
  }

  lemma ChainIsDistinct(c: Client, acc: Accepted, v: nat)
    requires QueueOk(c, acc) && v < |c.chains|
    ensures Distinct(c.chains[v].cids)
  {
    assert ChainOk(c.chains[v], acc);
  }

  lemma StoredAs(d: Client, cid: Cid)
    requires d.outbox == Persist(d.pending) && cid in d.pending
    ensures var e := d.pending[cid];
            if e.status == Sent then cid !in d.outbox
            else cid in d.outbox && d.outbox[cid] == Saved(e.body, e.ts, e.status == Failed)
  {
  }

  /** A positive acknowledgement, however late, makes the message Sent and takes it out of storage. */
  lemma AckDelivers(w: World, k: nat)
    requires Inv(w) && Passed(w.client) && Enabled(w, Ack(k, true))
    requires !w.client.parked[k].settled && w.client.parked[k].cid in w.client.pending
    ensures Settled(w.client, Apply(w, Ack(k, true)).client, w.client.parked[k].cid, Sent)
  {
    hide QueueOk, Passed, Go, Mark, Settled, StoreOk, LatchOk;
    SettleEffect(w.client, w.accepted, k, w.client.parked[k].(settled := true, armed := false), Sent);
  }

  /** A negative one makes it Failed, in memory and in storage. */
  lemma AckRefuses(w: World, k: nat)
    requires Inv(w) && Passed(w.client) && Enabled(w, Ack(k, false))
    requires !w.client.parked[k].settled && w.client.parked[k].cid in w.client.pending
    ensures Settled(w.client, Apply(w, Ack(k, false)).client, w.client.parked[k].cid, Failed)
  {
    hide QueueOk, Passed, Go, Mark, Settled, StoreOk, LatchOk;
    SettleEffect(w.client, w.accepted, k, w.client.parked[k].(settled := true, armed := false), Failed);
  }

  /** The timer of a closure counts while it is unsettled and not of a superseded chain. */
  predicate TimerCounts(c: Client, p: Parked) {
    !p.settled && (p.gen.None? || p.gen.value == c.flushGen)
  }

  /** So does a timeout that counts. */
  lemma TimeoutFails(w: World, k: nat)
    requires Inv(w) && Passed(w.client) && Enabled(w, Timeout(k))
    requires TimerCounts(w.client, w.client.parked[k]) && w.client.parked[k].cid in w.client.pending
    ensures Settled(w.client, Apply(w, Timeout(k)).client, w.client.parked[k].cid, Failed)
  {
    hide QueueOk, Passed, Go, Mark, Settled, StoreOk, LatchOk;
    SettleEffect(w.client, w.accepted, k, w.client.parked[k].(armed := false), Failed);
  }

  /** A second acknowledgement changes nothing, and a timeout that does not count only disarms its timer. */
  lemma LateOutcomesAreIgnored(w: World, k: nat, ok: bool)
    requires k < |w.client.parked|
    ensures w.client.parked[k].settled ==> Apply(w, Ack(k, ok)).client == w.client
    ensures !TimerCounts(w.client, w.client.parked[k]) ==>
            Apply(w, Timeout(k)).client
            == w.client.(parked := w.client.parked[k := w.client.parked[k].(armed := false)])
  {
  }

  lemma {:induction false} NextOnlyParks(c: Client, k: nat)
    requires k < |c.chains|
    ensures c.parked <= Next(c, k).parked
    decreases |c.chains[k].cids| - c.chains[k].i
  {
    hide Persist;
    var ch := c.chains[k];
    if ch.gen == c.flushGen && ch.i < |ch.cids| && c.hasSocket && c.connected && ch.cids[ch.i] !in c.pending {
      NextOnlyParks(Advanced(c, k), k);
    }
  }

  lemma GoAdvances(c: Client, k: nat)
    requires k < |c.parked|
    ensures c.parked[k := c.parked[k].(advanced := true)] <= Go(c, k).parked
  {
    var p := c.parked[k];
    if p.advanced {
      assert c.parked[k := p] == c.parked;
    } else {
      var c1 := c.(parked := c.parked[k := p.(advanced := true)]);
      if p.after.Some? && p.after.value < |c1.chains| {
        NextOnlyParks(c1, p.after.value);
      }
    }
  }

  /** Going on from closure `k` rewritten to `q`, its message marked. */
  lemma OutcomeParks(c: Client, k: nat, q: Parked, s: Status)
    requires k < |c.parked|
    ensures c.parked[k := q.(advanced := true)] <= Go(Mark(c.(parked := c.parked[k := q]), q.cid, s), k).parked
  {
    hide Go, Persist;
    GoAdvances(Mark(c.(parked := c.parked[k := q]), q.cid, s), k);
    assert c.parked[k := q][k := q.(advanced := true)] == c.parked[k := q.(advanced := true)];
  }

  /** An acknowledgement settles its closure, stops the timer and lets the chain go on once. */
  lemma AckIsRecorded(w: World, k: nat, ok: bool)
    requires k < |w.client.parked| && !w.client.parked[k].settled
    ensures w.client.parked[k := w.client.parked[k].(settled := true, armed := false, advanced := true)]
            <= Apply(w, Ack(k, ok)).client.parked
  {
    hide Go, Mark;
    OutcomeParks(w.client, k, w.client.parked[k].(settled := true, armed := false), if ok then Sent else Failed);
  }

  /** A timeout that counts lets it go on too, but leaves the closure open for a late acknowledgement. */
  lemma TimeoutIsRecorded(w: World, k: nat)
    requires k < |w.client.parked| && TimerCounts(w.client, w.client.parked[k])
    ensures w.client.parked[k := w.client.parked[k].(armed := false, advanced := true)]
            <= Apply(w, Timeout(k)).client.parked
  {
    hide Go, Mark;
    OutcomeParks(w.client, k, w.client.parked[k].(armed := false), Failed);
  }

  /** The page once the outcome of closure `k` is noted and its message has status `s`, before anything goes on. */
  ghost predicate Noted(c: Client, m: Client, k: nat, s: Status)
    requires k < |c.parked|
  {
    var cid := c.parked[k].cid;
    && m == c.(pending := m.pending, outbox := m.outbox, parked := m.parked)
    && m.pending == (if cid in c.pending then c.pending[cid := Entry(c.pending[cid].body, c.pending[cid].ts, s)]
                     else c.pending)
    && (if cid in c.pending then m.outbox == Persist(m.pending) else m.outbox == c.outbox)
  }

  /**
   The closure that holds the latch, acknowledged or timed out, goes on with its chain: the next
   message still pending is handed to the socket, or the latch is free.
   */
  lemma HolderGoesOn(w: World, e: Event, k: nat)
    requires Inv(w) && OnlyLive(w.client, k)
    requires (e.Ack? && e.k == k && !w.client.parked[k].settled) || (e.Timeout? && e.k == k)
    ensures var (c, v) := (w.client, w.client.parked[k].after);
            && v.Some? && v.value < |c.chains|
            && exists m :: Noted(c, m, k, if e == Ack(k, true) then Sent else Failed)
                           && GoesOn(m, Apply(w, e).client, v.value)
  {
    hide StoreOk, LatchOk, Next, Mark, GoesOn, WireOk, ChainOk, GensOk;
    var c := w.client;
    var p := c.parked[k];
    assert p in c.parked;
    var s := if e == Ack(k, true) then Sent else Failed;
    var q := if e.Ack? then p.(settled := true, armed := false) else p.(armed := false);
    var c1 := c.(parked := c.parked[k := q]);
    MarkNotes(c1, p.cid, s);
    var m := Mark(c1, p.cid, s);
    var m' := m.(parked := m.parked[k := q.(advanced := true)]);
    NextGoesOn(m', p.after.value);
    assert Noted(c, m', k, s);
    assert Apply(w, e).client == Next(m', p.after.value);
  }

  lemma MarkNotes(c: Client, cid: Cid, s: Status)
    ensures var m := Mark(c, cid, s);
            && m == c.(pending := m.pending, outbox := m.outbox)
            && m.pending == (if cid in c.pending then c.pending[cid := Entry(c.pending[cid].body, c.pending[cid].ts, s)]
                             else c.pending)
            && (if cid in c.pending then m.outbox == Persist(m.pending) else m.outbox == c.outbox)
  {
  }

  /* ---- Retry, send, echo, reset and reload ---- */

  /** A retry hands the message to the socket, if there is one, in flight and stored as queued. */
  lemma RetryHandsOver(w: World, x: Cid)
    ensures var (c, d) := (w.client, Apply(w, Retry(x)).client);
            if x !in c.pending then d == c
            else
              && d.pending == c.pending[x := InFlight(c.pending[x])]
              && x in d.outbox && d.outbox[x] == Saved(c.pending[x].body, c.pending[x].ts, false)
              && d.wire == c.wire + (if c.hasSocket then [Frame(x, c.pending[x].body, c.pending[x].ts, None)] else [])
              && d.parked == c.parked + [Parked(x, None, None, false, false, true)]
              && d.chains == c.chains && d.flushing == c.flushing && d.flushGen == c.flushGen
  {
  }

  /** A message sent while the page is idle and connected with nothing else waiting is on the wire at once. */
  lemma SendGoesOut(w: World, x: Cid, body: string, ts: int, order: seq<Cid>)
    requires Enabled(w, Send(x, body, ts, order)) && Inv(w)
    requires !w.client.flushing && w.client.hasSocket && w.client.connected
    requires forall y <- w.client.pending :: w.client.pending[y].status == Sent || w.client.pending[y].status == Failed
    ensures var (c, d) := (w.client, Apply(w, Send(x, body, ts, order)).client);
            && d.pending == c.pending[x := Entry(body, ts, Inflight)]
            && d.wire == c.wire + [Frame(x, body, ts, Some((|c.chains|, 0)))]
            && d.flushing
  {
    hide StoreOk, QueueOk, LatchOk;
    var c := w.client;
    var c1 := Composed(c, x, body, ts);
    OnlyOneReady(c1.pending, order, x);
    hide FlushOrder, Next;
    NextGoesOn(Started(c1, order), |c.chains|);
  }

  lemma OnlyOneReady(pending: map<Cid, Entry>, order: seq<Cid>, x: Cid)
    requires FlushOrder(order, pending) && x in pending && pending[x].status == Queued
    requires forall y <- pending :: y != x ==> pending[y].status == Sent || pending[y].status == Failed
    ensures order == [x]
  {
    assert x in Ready(pending) && x in order;
    assert forall y <- order :: y in Ready(pending);
    forall i | 0 <= i < |order|
      ensures order[i] == x
    {
      assert order[i] in order;
    }
    AllTheSame(order, x);
  }

  lemma AllTheSame(order: seq<Cid>, x: Cid)
    requires forall i :: 0 <= i < |order| ==> order[i] == x
    ensures Distinct(order) ==> |order| <= 1
  {
    assert |order| > 1 ==> order[0] == order[1];
  }

  /** Offline, or while a chain owns the queue, it only waits in memory and in storage. */
  lemma SendWaits(w: World, x: Cid, body: string, ts: int, order: seq<Cid>)
    requires w.client.flushing || !w.client.hasSocket || !w.client.connected
    ensures var (c, d) := (w.client, Apply(w, Send(x, body, ts, order)).client);
            && d == c.(pending := c.pending[x := Entry(body, ts, Queued)], outbox := d.outbox)
            && x in d.outbox && d.outbox[x] == Saved(body, ts, false)
  {
  }

  /** A flush on an idle connected page sends the oldest waiting message, under a new chain over all of them. */
  lemma FlushStarts(w: World, order: seq<Cid>)
    requires Enabled(w, FlushNow(order))
    ensures var (c, d) := (w.client, Apply(w, FlushNow(order)).client);
            if c.flushing || !c.hasSocket || !c.connected || order == [] then d == c
            else
              && order[0] in c.pending && d.pending == c.pending[order[0] := InFlight(c.pending[order[0]])]
              && d.flushing && d.flushGen == c.flushGen + 1 && d.chains == c.chains + [Chain(order, 1, d.flushGen)]
              && d.wire == c.wire + [Frame(order[0], c.pending[order[0]].body, c.pending[order[0]].ts,
                                           Some((|c.chains|, 0)))]
              && d.parked == c.parked + [Parked(order[0], Some(|c.chains|), Some(d.flushGen), false, false, true)]
  {
    if order != [] {
      assert order[0] in Ready(w.client.pending);
    }
  }

  /** Connecting is a flush on the page that is now connected. */
  lemma ConnectFlushes(w: World, order: seq<Cid>)
    requires Enabled(w, Connect(order))
    ensures var up := w.(client := w.client.(connected := true));
            Enabled(up, FlushNow(order)) && Apply(w, Connect(order)).client == Apply(up, FlushNow(order)).client
  {
    hide Flush;
  }

  /** A drop frees the latch and supersedes every chain; the page counts as offline if the socket was its own. */
  lemma DisconnectSupersedes(w: World, own: bool)
    requires Inv(w)
    ensures var (c, d) := (w.client, Apply(w, Disconnect(own)).client);
            && (d.connected <==> c.connected && !own) && !d.flushing && d.hasSocket == c.hasSocket
            && d.pending == c.pending && d.outbox == c.outbox && d.wire == c.wire && d.parked == c.parked
            && d.chains == c.chains && forall ch <- d.chains :: ch.gen < d.flushGen
  {
    hide StoreOk, LatchOk, ChainOk, ParkedOk, WireOk;
  }

  /** An id matches an external id exactly when that ends with it. */
  lemma MatchesEnding(x: Cid, ext: string)
    ensures IsSuffix(x, ext) <==> exists front :: ext == front + x
  {
    if IsSuffix(x, ext) {
      assert ext == ext[..|ext| - |x|] + x;
    }
  }

  /** An echo removes its message from memory and storage and nothing else. */
  lemma EchoRemoves(w: World, ext: string, x: Cid)
    requires x in w.client.pending
    ensures var (c, d) := (w.client, Apply(w, Echo(ext, Some(x))).client);
            && x !in d.pending && x !in d.outbox
            && forall y <- c.pending | y != x :: y in d.pending && d.pending[y] == c.pending[y]
  {
  }

  /** A reset forgets everything, and supersedes every chain. */
  lemma ResetForgets(w: World)
    requires Inv(w)
    ensures var d := Apply(w, Reset).client;
            && d.pending == map[] && d.outbox == map[] && !d.flushing && !d.hasSocket && !d.connected
            && d.wire == w.client.wire
            && forall ch <- d.chains :: ch.gen < d.flushGen
  {
    hide StoreOk, LatchOk, ChainOk, ParkedOk, WireOk;
  }

  /** A reload restores exactly the stored messages typed within the last 24 hours, in flight ones as queued. */
  lemma ReloadRestoresFresh(w: World, now: int)
    ensures var d := Apply(w, Reload(now, false)).client;
            && (forall x :: x in d.pending <==>
                  && x in w.client.outbox && w.client.outbox[x].ts != 0
                  && now - w.client.outbox[x].ts < 24 * 60 * 60 * 1000)
            && (forall x <- d.pending :: var it := w.client.outbox[x];
                  d.pending[x] == Entry(it.body, it.ts, if it.failed then Failed else Queued))
            && d.wire == [] && d.chains == [] && d.parked == [] && !d.flushing
    ensures var d := Apply(w, Reload(now, true)).client;
            d.pending == map[] && d.outbox == map[] && d.wire == [] && d.chains == [] && d.parked == [] && !d.flushing
  {
  }

  /* ---- What an acknowledgement is worth ---- */

  /** Out of storage, and Sent if it is still shown. */
  ghost predicate Delivered(c: Client, x: Cid) {
    x !in c.outbox && (x in c.pending ==> c.pending[x].status == Sent)
  }

  /** An event that takes a Sent message up again: a retry, a refusal, a timeout that counts, a new frame for it. */
  ghost predicate TakesUp(w: World, e: Event, x: Cid) {
    || e == Retry(x)
    || (e.Ack? && e.k < |w.client.parked| && !e.ok && !w.client.parked[e.k].settled && w.client.parked[e.k].cid == x)
    || (e.Timeout? && e.k < |w.client.parked| && TimerCounts(w.client, w.client.parked[e.k])
        && w.client.parked[e.k].cid == x)
    || NewFrame(w.client, Apply(w, e).client, x)
  }

  lemma GoesOnDelivered(c: Client, d: Client, k: nat, x: Cid)
    requires k < |c.chains| && GoesOn(c, d, k) && Delivered(c, x) && !NewFrame(c, d, x)
    ensures Delivered(d, x)
  {
    var ch := c.chains[k];
    var j := NextPending(ch.cids, ch.i, c.pending);
    if ch.gen == c.flushGen && c.hasSocket && c.connected && j.Some? {
      assert d.wire[|c.wire|].cid == ch.cids[j.value];
    }
  }

  lemma FlushDelivered(c: Client, order: seq<Cid>, x: Cid)
    requires Delivered(c, x) && !NewFrame(c, Flush(c, order), x)
    ensures Delivered(Flush(c, order), x)
  {
    hide Next, GoesOn;
    if !(c.flushing || !c.hasSocket || !c.connected || order == []) {
      NextGoesOn(Started(c, order), |c.chains|);
      GoesOnDelivered(Started(c, order), Flush(c, order), |c.chains|, x);
    }
  }

  lemma MarkDelivered(c: Client, cid: Cid, s: Status, x: Cid)
    requires Delivered(c, x) && (cid == x ==> s == Sent)
    ensures Delivered(Mark(c, cid, s), x) && Mark(c, cid, s).wire == c.wire && Mark(c, cid, s).chains == c.chains
    ensures Mark(c, cid, s).parked == c.parked
  {
  }

  lemma SettleDelivered(c: Client, k: nat, p: Parked, s: Status, x: Cid)
    requires Delivered(c, x) && k < |c.parked| && (p.cid == x ==> s == Sent)
    requires !NewFrame(c, Go(Mark(c.(parked := c.parked[k := p]), p.cid, s), k), x)
    ensures Delivered(Go(Mark(c.(parked := c.parked[k := p]), p.cid, s), k), x)
  {
    hide Next, GoesOn, Mark;
    var c1 := c.(parked := c.parked[k := p]);
    MarkDelivered(c1, p.cid, s, x);
    var m := Mark(c1, p.cid, s);
    if !p.advanced && p.after.Some? && p.after.value < |m.chains| {
      var m' := m.(parked := m.parked[k := p.(advanced := true)]);
      NextGoesOn(m', p.after.value);
      GoesOnDelivered(m', Next(m', p.after.value), p.after.value, x);
    }
  }

  /** Once delivered, a message stays so on the page until something takes it up again. */
  lemma DeliveredStays(w: World, e: Event, x: Cid)
    requires Inv(w) && Enabled(w, e) && !e.Reload? && x in w.accepted && Delivered(w.client, x)
    requires !TakesUp(w, e, x)
    ensures Delivered(Apply(w, e).client, x)
  {
    hide StoreOk, QueueOk, LatchOk, Flush, Go, Mark, FlushOrder;
    var c := w.client;
    match e
    case Send(cid, body, ts, order) => FlushDelivered(Composed(c, cid, body, ts), order, x);
    case FlushNow(order) => FlushDelivered(c, order, x);
    case Connect(order) => FlushDelivered(c.(connected := true), order, x);
    case Ack(k, ok) =>
      if !c.parked[k].settled {
        SettleDelivered(c, k, c.parked[k].(settled := true, armed := false), if ok then Sent else Failed, x);
      }
    case Timeout(k) =>
      if TimerCounts(c, c.parked[k]) {
        SettleDelivered(c, k, c.parked[k].(armed := false), Failed, x);
      }
    case Retry(cid) => RetryDelivered(c, cid, x);
    case _ =>
  }

  lemma RetryDelivered(c: Client, cid: Cid, x: Cid)
    requires Delivered(c, x) && cid != x
    ensures Delivered(RetryStep(c, cid), x)
  {
  }

  /* A new frame for a message means that it is in flight. */

  lemma GoesOnFrame(c: Client, d: Client, k: nat, x: Cid)
    requires k < |c.chains| && GoesOn(c, d, k) && NewFrame(c, d, x)
    ensures x in d.pending && d.pending[x].status == Inflight
  {
  }

  lemma FlushFrame(c: Client, order: seq<Cid>, x: Cid)
    requires NewFrame(c, Flush(c, order), x)
    ensures x in Flush(c, order).pending && Flush(c, order).pending[x].status == Inflight
  {
    hide Next, GoesOn;
    if !(c.flushing || !c.hasSocket || !c.connected || order == []) {
      NextGoesOn(Started(c, order), |c.chains|);
      GoesOnFrame(Started(c, order), Flush(c, order), |c.chains|, x);
    }
  }

  lemma SettleFrame(c: Client, k: nat, p: Parked, s: Status, x: Cid)
    requires k < |c.parked| && NewFrame(c, Go(Mark(c.(parked := c.parked[k := p]), p.cid, s), k), x)
    ensures var d := Go(Mark(c.(parked := c.parked[k := p]), p.cid, s), k);
            x in d.pending && d.pending[x].status == Inflight
  {
    hide Next, GoesOn;
    var m := Mark(c.(parked := c.parked[k := p]), p.cid, s);
    if !p.advanced && p.after.Some? && p.after.value < |m.chains| {
      var m' := m.(parked := m.parked[k := p.(advanced := true)]);
      NextGoesOn(m', p.after.value);
      GoesOnFrame(m', Next(m', p.after.value), p.after.value, x);
    }
  }

  lemma FrameMeansInFlight(w: World, e: Event, x: Cid)
    requires Enabled(w, e) && !e.Reload? && NewFrame(w.client, Apply(w, e).client, x)
    ensures x in Apply(w, e).client.pending && Apply(w, e).client.pending[x].status == Inflight
  {
    hide Flush, Go, Mark, FlushOrder;
    var c := w.client;
    match e
    case Send(cid, body, ts, order) => FlushFrame(Composed(c, cid, body, ts), order, x);
    case FlushNow(order) => FlushFrame(c, order, x);
    case Connect(order) => FlushFrame(c.(connected := true), order, x);
    case Ack(k, ok) =>
      SettleFrame(c, k, c.parked[k].(settled := true, armed := false), if ok then Sent else Failed, x);
    case Timeout(k) => SettleFrame(c, k, c.parked[k].(armed := false), Failed, x);
    case Retry(cid) => RetryHandsOver(w, cid);
    case _ =>
  }

  /** And only then: after an event that takes it up, a Sent message that is still shown is Sent no longer. */
  lemma TakenUpIsNotSent(w: World, e: Event, x: Cid)
    requires Inv(w) && Passed(w.client) && Enabled(w, e) && !e.Reload? && TakesUp(w, e, x)
    requires x in w.client.pending && w.client.pending[x].status == Sent && x in Apply(w, e).client.pending
    ensures Apply(w, e).client.pending[x].status != Sent
  {
    hide Inv, Passed, ClientStep, NewFrame;
    if NewFrame(w.client, Apply(w, e).client, x) {
      FrameMeansInFlight(w, e, x);
    } else if e.Retry? {
      RetryHandsOver(w, x);
    } else if e.Ack? {
      AckRefuses(w, e.k);
    } else {
      TimeoutFails(w, e.k);
    }
  }

  /** A run in which nothing takes message `x` up again and the page is not reloaded. */
  ghost predicate LeftAlone(w: World, es: seq<Event>, x: Cid)
    decreases |es|
  {
    es == [] || (!es[0].Reload? && !TakesUp(w, es[0], x) && LeftAlone(Apply(w, es[0]), es[1..], x))
  }

  lemma {:induction false} DeliveredStaysThroughout(w: World, es: seq<Event>, x: Cid)
    requires Inv(w) && Feasible(w, es) && x in w.accepted && Delivered(w.client, x) && LeftAlone(w, es, x)
    ensures Delivered(Run(w, es).client, x)
    decreases |es|
  {
    hide Inv, Enabled, TakesUp, Delivered, ClientStep;
    if es != [] {
      StepKeepsInv(w, es[0]);
      DeliveredStays(w, es[0], x);
      DeliveredStaysThroughout(Apply(w, es[0]), es[1..], x);
    }
  }

  /** A message acknowledged and left alone since is not restored by a reload, whenever that happens. */
  lemma AckedIsNotRestored(w: World, k: nat, es: seq<Event>, now: int)
    requires Inv(w) && Passed(w.client) && Enabled(w, Ack(k, true))
    requires !w.client.parked[k].settled && w.client.parked[k].cid in w.client.pending
    requires var x := w.client.parked[k].cid;
             Feasible(Apply(w, Ack(k, true)), es) && LeftAlone(Apply(w, Ack(k, true)), es, x)
    ensures var x := w.client.parked[k].cid;
            x !in Apply(Run(Apply(w, Ack(k, true)), es), Reload(now, false)).client.pending
  {
    var x, v := w.client.parked[k].cid, Apply(w, Ack(k, true));
    AckDelivers(w, k);
    StepKeepsInv(w, Ack(k, true));
    PendingAccepted(w, x);
    hide Inv, Enabled, LeftAlone, Run, Feasible, ClientStep, Passed;
    assert Delivered(v.client, x);
    DeliveredStaysThroughout(v, es, x);
    ReloadRestoresFresh(Run(v, es), now);
  }

  lemma PendingAccepted(w: World, x: Cid)
    requires Inv(w) && x in w.client.pending
    ensures forall e :: x in Apply(w, e).accepted
  {
    hide QueueOk, LatchOk, ClientStep;
  }

  /* ---- Reachable pages ---- */

  ghost predicate Reachable(w: World) {
    exists es :: Feasible(INIT, es) && Run(INIT, es) == w
  }

  /** Every reachable state meets the hypotheses above. */
  lemma ReachableIsSound(w: World)
    requires Reachable(w)
    ensures Inv(w) && Passed(w.client)
  {
    hide Inv, Passed, ClientStep;
    var es :| Feasible(INIT, es) && Run(INIT, es) == w;
    ReachableInv(es);
    FreshPasses(INIT.client);
    RunKeepsPassed(INIT, es);
  }

  lemma {:induction false} Follow(w: World, es: seq<Event>, e: Event)
    requires Feasible(w, es) && Enabled(Run(w, es), e)
    ensures Feasible(w, es + [e]) && Run(w, es + [e]) == Apply(Run(w, es), e)
    decreases |es|
  {
    hide Enabled, Apply;
    if es == [] {
      assert [e][1..] == [] && es + [e] == [e];
    } else {
      assert (es + [e])[1..] == es[1..] + [e];
      Follow(Apply(w, es[0]), es[1..], e);
    }
  }

  lemma Reach(w: World, e: Event)
    requires Reachable(w) && Enabled(w, e)
    ensures Reachable(Apply(w, e))
  {
    hide Enabled, Apply;
    var es :| Feasible(INIT, es) && Run(INIT, es) == w;
    Follow(INIT, es, e);
  }

  lemma InitReachable()
    ensures Reachable(INIT)
  {
    assert Feasible(INIT, []) && Run(INIT, []) == INIT;
  }

  /* A run in which an acknowledged message fails again: the page after each of its steps. */

  const FIRST := Parked("m", Some(0), Some(1), false, false, true)
  const RETRY := Parked("m", None, None, false, false, true)
  const SENT := Frame("m", "hi", 1, Some((0, 0)))
  const RESENT := Frame("m", "hi", 1, None)

  /** Connected, with the message in the given state. */
  function Page(s: Option<Status>, flushing: bool, parked: seq<Parked>, wire: seq<Frame>): Client {
    match s
    case None => Client(map[], map[], false, 0, true, true, [], [], [])
    case Some(status) =>
      Client(map["m" := Entry("hi", 1, status)],
             if status == Sent then map[] else map["m" := Saved("hi", 1, status == Failed)],
             flushing, 1, true, true, [Chain(["m"], 1, 1)], parked, wire)
  }

  function At(c: Client, stored: set<Cid>): World {
    World(c, {"m"}, stored, map["m" := ("hi", 1)], {}, {})
  }

  lemma ConnectedReachable()
    ensures Reachable(World(Page(None, false, [], []), {}, {}, map[], {}, {}))
  {
    InitReachable();
    hide Reachable;
    Reach(INIT, SocketCreated);
    var w := Apply(INIT, SocketCreated);
    Reach(w, Connect([]));
    assert Apply(w, Connect([])) == World(Page(None, false, [], []), {}, {}, map[], {}, {});
  }

  lemma EmittedOnce(wire: seq<Frame>)
    requires wire == [SENT] || wire == [SENT, RESENT]
    ensures Emitted(wire) == {"m"} && {} + Emitted(wire) == {"m"} && {"m"} + Emitted(wire) == {"m"}
  {
    assert SENT in wire;
  }

  lemma SentPage()
    ensures ClientStep(Page(None, false, [], []), Send("m", "hi", 1, ["m"]))
            == Page(Some(Inflight), true, [FIRST], [SENT])
    ensures FlushOrder(["m"], Composed(Page(None, false, [], []), "m", "hi", 1).pending)
  {
    var c1 := Composed(Page(None, false, [], []), "m", "hi", 1);
    assert c1.pending == map["m" := Entry("hi", 1, Queued)] && c1.outbox == map["m" := Saved("hi", 1, false)];
    var d := Flush(c1, ["m"]);
    assert d.pending == map["m" := Entry("hi", 1, Inflight)] && d.outbox == map["m" := Saved("hi", 1, false)];
  }

  lemma SentReachable()
    ensures Reachable(At(Page(Some(Inflight), true, [FIRST], [SENT]), {}))
  {
    ConnectedReachable();
    SentPage();
    EmittedOnce([SENT]);
    hide Reachable, ClientStep, Page, Emitted, FlushOrder, Composed;
    var w := World(Page(None, false, [], []), {}, {}, map[], {}, {});
    Reach(w, Send("m", "hi", 1, ["m"]));
    assert Apply(w, Send("m", "hi", 1, ["m"])) == At(Page(Some(Inflight), true, [FIRST], [SENT]), {});
  }

  lemma TimedOutPage()
    ensures ClientStep(Page(Some(Inflight), true, [FIRST], [SENT]), Timeout(0))
            == Page(Some(Failed), false, [FIRST.(armed := false, advanced := true)], [SENT])
  {
    var d := ClientStep(Page(Some(Inflight), true, [FIRST], [SENT]), Timeout(0));
    assert d.pending == map["m" := Entry("hi", 1, Failed)] && d.outbox == map["m" := Saved("hi", 1, true)];
  }

  lemma TimedOutReachable()
    ensures Reachable(At(Page(Some(Failed), false, [FIRST.(armed := false, advanced := true)], [SENT]), {}))
  {
    SentReachable();
    TimedOutPage();
    EmittedOnce([SENT]);
    var w := At(Page(Some(Inflight), true, [FIRST], [SENT]), {});
    assert Enabled(w, Timeout(0));
    hide Reachable, ClientStep, Emitted, Enabled;
    Reach(w, Timeout(0));
    var c := Page(Some(Failed), false, [FIRST.(armed := false, advanced := true)], [SENT]);
    assert Apply(w, Timeout(0)) == At(c, {});
  }

  function RetriedClient(): Client {
    Page(Some(Inflight), false, [FIRST.(armed := false, advanced := true), RETRY], [SENT, RESENT])
  }

  lemma RetryReachable()
    ensures Reachable(At(RetriedClient(), {}))
  {
    TimedOutReachable();
    EmittedOnce([SENT, RESENT]);
    RetriedPage();
    var w := At(Page(Some(Failed), false, [FIRST.(armed := false, advanced := true)], [SENT]), {});
    hide Reachable, Emitted, ClientStep;
    Reach(w, Retry("m"));
    assert Apply(w, Retry("m")) == At(RetriedClient(), {});
  }

  lemma RetriedReachable()
    ensures Reachable(At(RetriedClient(), {"m"}))
  {
    RetryReachable();
    EmittedOnce([SENT, RESENT]);
    NothingReceived(RetriedClient());
    assert RetriedClient().wire == [SENT, RESENT];
    hide Reachable, Emitted, ClientStep, RetriedClient;
    Reach(At(RetriedClient(), {}), Receive("m"));
    assert {} + {"m"} == {"m"};
    assert Apply(At(RetriedClient(), {}), Receive("m")) == At(RetriedClient(), {"m"});
  }

  lemma NothingReceived(c: Client)
    ensures ClientStep(c, Receive("m")) == c
  {
  }

  lemma RetriedPage()
    ensures ClientStep(Page(Some(Failed), false, [FIRST.(armed := false, advanced := true)], [SENT]), Retry("m"))
            == Page(Some(Inflight), false, [FIRST.(armed := false, advanced := true), RETRY], [SENT, RESENT])
  {
    var d := ClientStep(Page(Some(Failed), false, [FIRST.(armed := false, advanced := true)], [SENT]), Retry("m"));
    assert d.pending == map["m" := Entry("hi", 1, Inflight)] && d.outbox == map["m" := Saved("hi", 1, false)];
  }

  lemma AckedPage()
    ensures var first := FIRST.(settled := true, armed := false, advanced := true);
            ClientStep(Page(Some(Inflight), false, [FIRST.(armed := false, advanced := true), RETRY], [SENT, RESENT]),
                       Ack(0, true))
            == Page(Some(Sent), false, [first, RETRY], [SENT, RESENT])
  {
    var c := Page(Some(Inflight), false, [FIRST.(armed := false, advanced := true), RETRY], [SENT, RESENT]);
    var d := ClientStep(c, Ack(0, true));
    assert d.pending == map["m" := Entry("hi", 1, Sent)] && d.outbox == map[];
  }

  lemma AckedReachable()
    ensures var first := FIRST.(settled := true, armed := false, advanced := true);
            Reachable(At(Page(Some(Sent), false, [first, RETRY], [SENT, RESENT]), {"m"}))
  {
    RetriedReachable();
    AckedPage();
    EmittedOnce([SENT, RESENT]);
    var w := At(Page(Some(Inflight), false, [FIRST.(armed := false, advanced := true), RETRY], [SENT, RESENT]), {"m"});
    assert Enabled(w, Ack(0, true));
    hide Reachable, ClientStep, Emitted, Enabled;
    Reach(w, Ack(0, true));
    var first := FIRST.(settled := true, armed := false, advanced := true);
    assert Apply(w, Ack(0, true)) == At(Page(Some(Sent), false, [first, RETRY], [SENT, RESENT]), {"m"});
  }

  /**
   Being left alone is more than not being retried or flushed: a message is acknowledged, and the timer of an
   earlier retry then marks it as failed again.
   */
  lemma AckedMayFailAgain()
    ensures exists w :: Reachable(w) && Enabled(w, Timeout(1))
                        && "m" in w.client.pending && w.client.pending["m"].status == Sent
                        && var d := Apply(w, Timeout(1)).client; "m" in d.outbox && d.outbox["m"].failed
  {
    AckedReachable();
    hide Reachable;
    var first := FIRST.(settled := true, armed := false, advanced := true);
    var w := At(Page(Some(Sent), false, [first, RETRY], [SENT, RESENT]), {"m"});
    var d := Apply(w, Timeout(1)).client;
    assert d.outbox == map["m" := Saved("hi", 1, true)];
    assert Reachable(w) && Enabled(w, Timeout(1));
  }
}
