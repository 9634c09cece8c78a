/**
 The website widget's outbox (apps/web/public/widget.js) as a state machine: the
 pending map, the stored outbox, the flush latch and its generation counter, and
 the closures parked in timers and acknowledgement callbacks.
 A step function specifies each handler; `Widget` has the handlers themselves.
 */
module Outbox {
  import opened Options

  /** A client message id. */
  type Cid = string

  const STALE_CLIENT_STATE_MS := 24 * 60 * 60 * 1000

  datatype Status = Queued | Inflight | Sent | Failed

  /** A pending message: what was typed and when, and how its delivery stands. */
  datatype Entry = Entry(body: string, ts: int, status: Status)

  /** A record of the stored outbox. In flight is stored as queued. */
  datatype Saved = Saved(body: string, ts: int, failed: bool)

  /** A flush chain: the ids it took when it started, the next position, and its generation. */
  datatype Chain = Chain(cids: seq<Cid>, i: nat, gen: nat)

  /** The closure of one `sendPayload` call: its timer and its acknowledgement callback. */
  datatype Parked = Parked(cid: Cid, after: Option<nat>, gen: Option<nat>, settled: bool, advanced: bool, armed: bool)

  /** A frame handed to the socket; for a chain's frame, which chain and which position it came from. */
  datatype Frame = Frame(cid: Cid, body: string, ts: int, from: Option<(nat, nat)>)

  /** The page: pending messages, storage, latch, socket and closures. `wire` lists the frames emitted since boot. */
  datatype Client = Client(
    pending: map<Cid, Entry>,
    outbox: map<Cid, Saved>,
    flushing: bool,
    flushGen: nat,
    hasSocket: bool,
    connected: bool,
    chains: seq<Chain>,
    parked: seq<Parked>,
    wire: seq<Frame>)

  /* ---- Storage ---- */

  function Save(e: Entry): Saved {
    Saved(e.body, e.ts, e.status == Failed)
  }

  /** `persistOutbox`: everything but what was acknowledged. */
  function Persist(pending: map<Cid, Entry>): map<Cid, Saved> {
    map c | c in pending && pending[c].status != Sent :: Save(pending[c])
  }

  /** `isFresh`. */
  predicate Fresh(ts: int, now: int) {
    ts != 0 && now - ts < STALE_CLIENT_STATE_MS
  }

  /** `restoreOutbox`: stale records are discarded, failed ones stay failed, the rest are queued again. */
  function Restore(outbox: map<Cid, Saved>, now: int): map<Cid, Entry> {
    map c | c in outbox && Fresh(outbox[c].ts, now) ::
      Entry(outbox[c].body, outbox[c].ts, if outbox[c].failed then Failed else Queued)
  }

  /* ---- Marking and removing ---- */

  /** `markPending`. */
  function Mark(c: Client, cid: Cid, s: Status): Client {
    if cid !in c.pending then c
    else
      var pending := c.pending[cid := c.pending[cid].(status := s)];
      c.(pending := pending, outbox := Persist(pending))
  }

  /** `removePending`. */
  function Remove(c: Client, cid: Cid): Client {
    if cid !in c.pending then c
    else c.(pending := c.pending - {cid}, outbox := Persist(c.pending - {cid}))
  }

  /* ---- Sending ---- */

  /** `sendPayload` for a pending message: mark, park the callbacks, hand the frame to the socket if there is one. */
  function Emit(c: Client, cid: Cid, after: Option<nat>, gen: Option<nat>, from: Option<(nat, nat)>): Client
    requires cid in c.pending
  {
    var e := c.pending[cid];
    var c1 := Mark(c, cid, Inflight);
    c1.(
      parked := c1.parked + [Parked(cid, after, gen, false, false, true)],
      wire := if c1.hasSocket then c1.wire + [Frame(cid, e.body, e.ts, from)] else c1.wire)
  }

  /** `next` of chain `k`. */
  function Next(c: Client, k: nat): Client
    requires k < |c.chains|
    decreases |c.chains[k].cids| - c.chains[k].i
  {
    var ch := c.chains[k];
    if ch.gen != c.flushGen then c
    else if ch.i >= |ch.cids| || !c.hasSocket || !c.connected then c.(flushing := false)
    else
      var cid := ch.cids[ch.i];
      var c1 := c.(chains := c.chains[k := ch.(i := ch.i + 1)]);
      if cid !in c1.pending then Next(c1, k)
      else Emit(c1, cid, Some(k), Some(ch.gen), Some((k, ch.i)))
  }

  /** What a flush takes: the queued messages and those in flight. */
  function Ready(pending: map<Cid, Entry>): set<Cid> {
    set c | c in pending && (pending[c].status == Queued || pending[c].status == Inflight)
  }

  predicate Distinct(cids: seq<Cid>) {
    forall i, j :: 0 <= i < j < |cids| ==> cids[i] != cids[j]
  }

  /** An order in which a flush may take them: each once, oldest first. */
  ghost predicate FlushOrder(order: seq<Cid>, pending: map<Cid, Entry>) {
    && Distinct(order)
    && (forall c :: c in order <==> c in Ready(pending))
    && (forall i, j :: 0 <= i < j < |order| ==>
          order[i] in pending && order[j] in pending && pending[order[i]].ts <= pending[order[j]].ts)
  }

  /** `flushOutbox`, given the order of the ids (which the sort leaves open for equal times). */
  function Flush(c: Client, order: seq<Cid>): Client {
    if c.flushing || !c.hasSocket || !c.connected || order == [] then c
    else
      var k := |c.chains|;
      Next(c.(flushing := true, flushGen := c.flushGen + 1, chains := c.chains + [Chain(order, 0, c.flushGen + 1)]), k)
  }

  /** `go` of closure `k`. */
  function Go(c: Client, k: nat): Client
    requires k < |c.parked|
  {
    var p := c.parked[k];
    if p.advanced then c
    else
      var c1 := c.(parked := c.parked[k := p.(advanced := true)]);
      if p.after.Some? && p.after.value < |c1.chains| then Next(c1, p.after.value) else c1
  }

  /** The send timer of closure `k` fires. */
  function TimeoutStep(c: Client, k: nat): Client
    requires k < |c.parked|
  {
    var p := c.parked[k];
    var c1 := c.(parked := c.parked[k := p.(armed := false)]);
    if p.settled || (p.gen.Some? && p.gen.value != c1.flushGen) then c1
    else Go(Mark(c1, p.cid, Failed), k)
  }

  /** The acknowledgement of closure `k` arrives, however late. */
  function AckStep(c: Client, k: nat, ok: bool): Client
    requires k < |c.parked|
  {
    var p := c.parked[k];
    if p.settled then c
    else
      var c1 := c.(parked := c.parked[k := p.(settled := true, armed := false)]);
      Go(Mark(c1, p.cid, if ok then Sent else Failed), k)
  }

  /* ---- Connection, retry, compose, reload, reset ---- */

  /** The `disconnect` handler; `own` is false when it comes late from a socket that a reset let go. */
  function DisconnectStep(c: Client, own: bool): Client {
    c.(flushGen := c.flushGen + 1, flushing := false, connected := if own then false else c.connected)
  }

  function ConnectStep(c: Client, order: seq<Cid>): Client {
    Flush(c.(connected := true), order)
  }

  function RetryStep(c: Client, cid: Cid): Client {
    if cid !in c.pending then c
    else Emit(Mark(c, cid, Queued), cid, None, None, None)
  }

  /** `onSend` with the text already checked; `order` is the flush it triggers. */
  function SendStep(c: Client, cid: Cid, body: string, ts: int, order: seq<Cid>): Client {
    Flush(Composed(c, cid, body, ts), order)
  }

  function Composed(c: Client, cid: Cid, body: string, ts: int): Client {
    var pending := c.pending[cid := Entry(body, ts, Queued)];
    c.(pending := pending, outbox := Persist(pending))
  }

  /** The page is gone and boots again from storage; an expired session is wiped first. */
  function BootFrom(stored: map<Cid, Saved>, now: int, idle: bool): Client {
    var outbox := if idle then map[] else stored;
    Client(Restore(outbox, now), outbox, false, 0, false, false, [], [], [])
  }

  function ReloadStep(c: Client, now: int, idle: bool): Client {
    BootFrom(c.outbox, now, idle)
  }

  /** `doReset`: parked closures stay parked, but nothing is pending or stored. */
  function ResetStep(c: Client): Client {
    c.(pending := map[], outbox := map[], flushing := false, flushGen := c.flushGen + 1,
       hasSocket := false, connected := false)
  }

  /** `externalId.slice(-cid.length) === cid`. */
  predicate IsSuffix(cid: Cid, ext: string) {
    |cid| <= |ext| && ext[|ext| - |cid|..] == cid
  }

  /* ---- The world: the page, the network and the server ---- */

  /**
   `emitted`: ids of all frames ever handed to a socket. `stored`: ids the server has
   ingested (it keeps one message per id). `accepted`: what `onSend` took, ever.
   `expired` and `cleared`: ids that a reload discarded as stale, and that a reset or an
   expired session wiped while they were pending.
   */
  datatype World = World(
    client: Client,
    emitted: set<Cid>,
    stored: set<Cid>,
    accepted: map<Cid, (string, int)>,
    expired: set<Cid>,
    cleared: set<Cid>)

  const INIT := World(BootFrom(map[], 0, false), {}, {}, map[], {}, {})

  datatype Event =
    | Send(cid: Cid, body: string, ts: int, order: seq<Cid>)
    | FlushNow(order: seq<Cid>)
    | Receive(cid: Cid)
    | Ack(k: nat, ok: bool)
    | Timeout(k: nat)
    | SocketCreated
    | Connect(order: seq<Cid>)
    | Disconnect(own: bool)
    | Echo(ext: string, hit: Option<Cid>)
    | Retry(cid: Cid)
    | Reload(now: int, idle: bool)
    | Reset

  /**
   When an event can happen. The last conjuncts of Send, Ack and Echo are the
   hypotheses on the environment: new ids are new, a positive acknowledgement follows
   storage, and an id ends a message's external id only if that message is its own.
   */
  ghost predicate Enabled(w: World, e: Event) {
    match e
    case Send(cid, body, ts, order) =>
      FlushOrder(order, Composed(w.client, cid, body, ts).pending) && cid !in w.accepted
    case FlushNow(order) => FlushOrder(order, w.client.pending)
    case Receive(cid) => cid in w.emitted
    case Ack(k, ok) => k < |w.client.parked| && (ok ==> w.client.parked[k].cid in w.stored)
    case Timeout(k) => k < |w.client.parked| && w.client.parked[k].armed
    case SocketCreated => !w.client.hasSocket
    case Connect(order) => w.client.hasSocket && FlushOrder(order, w.client.pending)
    case Disconnect(own) => own ==> w.client.hasSocket
    case Echo(ext, hit) =>
      && (hit.Some? ==> hit.value in w.client.pending && IsSuffix(hit.value, ext))
      && (hit.None? ==> forall c <- w.client.pending :: !IsSuffix(c, ext))
      && (forall c <- w.accepted :: IsSuffix(c, ext) ==> c in w.stored)
    case Retry(cid) => true
    case Reload(now, idle) => true
    case Reset => true
  }

  function ClientStep(c: Client, e: Event): Client
  {
    match e
    case Send(cid, body, ts, order) => SendStep(c, cid, body, ts, order)
    case FlushNow(order) => Flush(c, order)
    case Receive(_) => c
    case Ack(k, ok) => if k < |c.parked| then AckStep(c, k, ok) else c
    case Timeout(k) => if k < |c.parked| then TimeoutStep(c, k) else c
    case SocketCreated => c.(hasSocket := true)
    case Connect(order) => ConnectStep(c, order)
    case Disconnect(own) => DisconnectStep(c, own)
    case Echo(_, hit) => if hit.Some? then Remove(c, hit.value) else c
    case Retry(cid) => RetryStep(c, cid)
    case Reload(now, idle) => ReloadStep(c, now, idle)
    case Reset => ResetStep(c)
  }

  function Emitted(wire: seq<Frame>): set<Cid> {
    set f <- wire :: f.cid
  }

  function Apply(w: World, e: Event): World
  {
    var c := ClientStep(w.client, e);
    World(
      c,
      w.emitted + Emitted(c.wire),
      if e.Receive? then w.stored + {e.cid} else w.stored,
      if e.Send? then w.accepted[e.cid := (e.body, e.ts)] else w.accepted,
      if e.Reload? && !e.idle then w.expired + (w.client.outbox.Keys - c.pending.Keys) else w.expired,
      if e.Reset? || (e.Reload? && e.idle) then w.cleared + w.client.pending.Keys else w.cleared)
  }
}
