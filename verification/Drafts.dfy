/** Deciding AI drafts: the suggestion table, the requests working on it, and their atomic steps. */
module Drafts {
  import opened Options

  type DraftId = nat
  type RequestId = nat
  type GeneratorId = nat

  const SUGGESTION_TTL_MS: int := 24 * 60 * 60 * 1000

  datatype State = Pending | Accepted | Edited | Rejected | Superseded

  datatype Decision = Decision(user: nat, at: int)

  /** A row of the table. Its text and expiry never change after it is created. */
  datatype Row = Row(inbound: nat, text: string, expiresAt: int,
                     state: State, editedText: Option<string>, decided: Option<Decision>)

  /** What an agent asked for; `edited` is the replacement text, trimmed. */
  datatype Action = Accept(edited: string) | Reject

  /** The codes a send may fail with; `Untyped` is any failure that carries none. */
  datatype Code =
    | EmptyBody | MessageTooLong | ContactHasNoPhone | ProviderNotConfigured
    | Outside24hWindow | ContactShareNotSupported | MessageNotFound
    | ConversationNotFound | Untyped

  /** Failures after which the claim is released. */
  predicate Reverts(c: Code) {
    c != ConversationNotFound && c != Untyped
  }

  datatype Outcome =
    | NotFound | AlreadyDecided(state: State) | DecidedUnknown | Expired
    | Declined | Delivered | FailedWith(code: Code)

  /**
   * How far a request has come. `Lost` has had its claim refused: for expiry, or
   * because the row was decided, when `releases` releases had been seen.
   */
  datatype Phase =
    | Asked
    | Seen(text: string)
    | Lost(lapsed: bool, releases: nat)
    | Claimed(body: string, at: int)
    | Billed
    | Releasing(code: Code)
    | Done(outcome: Outcome)

  datatype Request = Request(draft: DraftId, user: nat, action: Action, phase: Phase)

  /** A provider call that reached the customer. */
  datatype Billing = Billing(request: RequestId, draft: DraftId, body: string, claimedAt: int)

  /** A generation that has looked up the draft it will supersede. */
  datatype Generator = Generator(inbound: nat, current: Option<DraftId>)

  datatype World = World(
    rows: map<DraftId, Row>,
    requests: map<RequestId, Request>,
    generators: map<GeneratorId, Generator>,
    bills: seq<Billing>,
    releases: seq<DraftId>,
    now: int)

  const INIT: World := World(map[], map[], map[], [], [], 0)

  datatype Event =
    | Ask(r: RequestId, draft: DraftId, user: nat, action: Action)
    | ReadRow(r: RequestId)
    | WriteReject(r: RequestId)
    | Claim(r: RequestId)
    | Reread(r: RequestId)
    | Provider(r: RequestId)
    | Succeed(r: RequestId)
    | Fail(r: RequestId, code: Code)
    | Release(r: RequestId)
    | LookUp(g: GeneratorId, inbound: nat, current: Option<DraftId>)
    | Replace(g: GeneratorId, draft: DraftId, text: string)
    | Tick(ms: nat)

  /* ---- The steps of a request ---- */

  /** The state an accept moves the row to. */
  function Target(a: Action): State {
    if a.Accept? && a.edited != "" then Edited else Accepted
  }

  /** The edited text an accept writes beside the draft. */
  function Edits(a: Action): Option<string> {
    if a.Accept? && a.edited != "" then Some(a.edited) else None
  }

  function BodyOf(edited: string, text: string): string {
    if edited != "" then edited else text
  }

  /** What a request makes of the row it reads first. */
  function FirstLook(rows: map<DraftId, Row>, q: Request, now: int): Phase {
    if q.draft !in rows then Done(NotFound)
    else
      var row := rows[q.draft];
      if row.state != Pending then Done(AlreadyDecided(row.state))
      else if q.action.Accept? && row.expiresAt <= now then Done(Expired)
      else Seen(row.text)
  }

  /** The condition of the claiming write. */
  predicate Claimable(rows: map<DraftId, Row>, d: DraftId, now: int) {
    d in rows && rows[d].state == Pending && rows[d].expiresAt > now
  }

  function ClaimedRow(row: Row, q: Request, now: int): Row
    requires q.action.Accept?
  {
    row.(state := Target(q.action),
         editedText := Edits(q.action),
         decided := Some(Decision(q.user, now)))
  }

  function ReleasedRow(row: Row): Row {
    row.(state := Pending, editedText := None, decided := None)
  }

  function RejectedRow(row: Row, q: Request, now: int): Row {
    row.(state := Rejected, decided := Some(Decision(q.user, now)))
  }

  /** The partial unique index: nobody else is pending for this inbound message. */
  predicate IndexAdmits(rows: map<DraftId, Row>, inbound: nat, d: DraftId) {
    forall o <- rows :: o != d && rows[o].inbound == inbound ==> rows[o].state != Pending
  }

  /** The releasing write finds the row as its claim left it, and the index lets it through. */
  predicate Releasable(rows: map<DraftId, Row>, q: Request) {
    && q.draft in rows && rows[q.draft].state == Target(q.action)
    && IndexAdmits(rows, rows[q.draft].inbound, q.draft)
  }

  /** What a request that lost its claim is told, from a second look at the row. */
  function SecondLook(rows: map<DraftId, Row>, d: DraftId): Outcome {
    if d !in rows then DecidedUnknown
    else if rows[d].state == Pending then Expired
    else AlreadyDecided(rows[d].state)
  }

  /** The pending draft of an inbound message, if there is one. */
  ghost predicate IsCurrent(rows: map<DraftId, Row>, inbound: nat, c: Option<DraftId>) {
    match c
    case Some(d) => d in rows && rows[d].inbound == inbound && rows[d].state == Pending
    case None => forall d <- rows :: rows[d].inbound == inbound ==> rows[d].state != Pending
  }

  /** The rows once the draft a generation looked up is superseded, whatever became of it since. */
  function SupersededRows(rows: map<DraftId, Row>, c: Option<DraftId>): map<DraftId, Row> {
    if c.Some? && c.value in rows then rows[c.value := rows[c.value].(state := Superseded)] else rows
  }

  /** Superseding and inserting in one transaction: both, or neither when the index refuses. */
  function ReplacedRows(rows: map<DraftId, Row>, g: Generator, d: DraftId, text: string, now: int): map<DraftId, Row> {
    var cleared := SupersededRows(rows, g.current);
    if IndexAdmits(cleared, g.inbound, d)
    then cleared[d := Row(g.inbound, text, now + SUGGESTION_TTL_MS, Pending, None, None)]
    else rows
  }

  /* ---- The world ---- */

  function Move(w: World, r: RequestId, p: Phase): World
    requires r in w.requests
  {
    w.(requests := w.requests[r := w.requests[r].(phase := p)])
  }

  /**
   * What can happen. A provider call that went out never fails with one of the
   * releasing codes; a generation finds the draft now pending for its message, if there is one.
   */
  ghost predicate Enabled(w: World, e: Event) {
    match e
    case Ask(r, _, _, _) => r !in w.requests
    case ReadRow(r) => r in w.requests && w.requests[r].phase.Asked?
    case WriteReject(r) => r in w.requests && w.requests[r].phase.Seen? && w.requests[r].action.Reject?
                           && w.requests[r].draft in w.rows
    case Claim(r) => r in w.requests && w.requests[r].phase.Seen? && w.requests[r].action.Accept?
    case Reread(r) => r in w.requests && w.requests[r].phase.Lost?
    case Provider(r) => r in w.requests && w.requests[r].phase.Claimed?
    case Succeed(r) => r in w.requests && w.requests[r].phase.Billed?
    case Fail(r, code) =>
      && r in w.requests
      && (w.requests[r].phase.Claimed? || (w.requests[r].phase.Billed? && !Reverts(code)))
    case Release(r) => r in w.requests && w.requests[r].phase.Releasing?
    case LookUp(g, inbound, c) => g !in w.generators && IsCurrent(w.rows, inbound, c)
    case Replace(g, d, _) => g in w.generators && d !in w.rows
    case Tick(_) => true
  }

  function Claiming(w: World, r: RequestId): World
    requires r in w.requests && w.requests[r].phase.Seen? && w.requests[r].action.Accept?
  {
    var q := w.requests[r];
    if Claimable(w.rows, q.draft, w.now) then
      Move(w, r, Claimed(BodyOf(q.action.edited, q.phase.text), w.now))
      .(rows := w.rows[q.draft := ClaimedRow(w.rows[q.draft], q, w.now)])
    else
      Move(w, r, Lost(q.draft in w.rows && w.rows[q.draft].state == Pending, |w.releases|))
  }

  function Unclaim(w: World, r: RequestId): World
    requires r in w.requests && w.requests[r].phase.Releasing?
  {
    var q := w.requests[r];
    var told := Move(w, r, Done(FailedWith(q.phase.code)));
    if Releasable(w.rows, q) then
      told.(rows := w.rows[q.draft := ReleasedRow(w.rows[q.draft])], releases := w.releases + [q.draft])
    else told
  }

  ghost function Apply(w: World, e: Event): World
    requires Enabled(w, e)
  {
    match e
    case Ask(r, d, u, a) => w.(requests := w.requests[r := Request(d, u, a, Asked)])
    case ReadRow(r) => Move(w, r, FirstLook(w.rows, w.requests[r], w.now))
    case WriteReject(r) =>
      var q := w.requests[r];
      Move(w, r, Done(Declined)).(rows := w.rows[q.draft := RejectedRow(w.rows[q.draft], q, w.now)])
    case Claim(r) => Claiming(w, r)
    case Reread(r) => Move(w, r, Done(SecondLook(w.rows, w.requests[r].draft)))
    case Provider(r) =>
      var q := w.requests[r];
      Move(w, r, Billed).(bills := w.bills + [Billing(r, q.draft, q.phase.body, q.phase.at)])
    case Succeed(r) => Move(w, r, Done(Delivered))
    case Fail(r, code) => Move(w, r, if Reverts(code) then Releasing(code) else Done(FailedWith(code)))
    case Release(r) => Unclaim(w, r)
    case LookUp(g, inbound, c) => w.(generators := w.generators[g := Generator(inbound, c)])
    case Replace(g, d, text) =>
      w.(generators := w.generators - {g}, rows := ReplacedRows(w.rows, w.generators[g], d, text, w.now))
    case Tick(ms) => w.(now := w.now + ms)
  }

  ghost predicate Feasible(w: World, es: seq<Event>)
    decreases |es|
  {
    es == [] || (Enabled(w, es[0]) && Feasible(Apply(w, es[0]), es[1..]))
  }

  ghost function Run(w: World, es: seq<Event>): World
    requires Feasible(w, es)
    decreases |es|
  {
    if es == [] then w else Run(Apply(w, es[0]), es[1..])
  }
}
