/** Every reachable state of the draft protocol, and the run-level results. */
module DraftSafety {
  import opened Options
  import opened Drafts

  /* ---- The invariant ---- */

  ghost predicate Unsent(bills: seq<Billing>, d: DraftId) {
    forall b <- bills :: b.draft != d
  }

  ghost predicate Once(bills: seq<Billing>) {
    forall i, j :: 0 <= i < j < |bills| ==> bills[i].draft != bills[j].draft
  }

  /** An accept that owns the row and has sent nothing. */
  predicate Holds(q: Request) {
    q.phase.Claimed? || q.phase.Releasing?
  }

  ghost predicate NobodyHolds(requests: map<RequestId, Request>, d: DraftId) {
    forall r <- requests :: Holds(requests[r]) ==> requests[r].draft != d
  }

  /** A pending row looks untouched, was never sent and is held by nobody. */
  ghost predicate PendingOk(w: World) {
    forall d <- w.rows :: w.rows[d].state == Pending ==>
      && w.rows[d].editedText == None && w.rows[d].decided == None
      && Unsent(w.bills, d) && NobodyHolds(w.requests, d)
  }

  ghost predicate OnePending(rows: map<DraftId, Row>) {
    forall d, o | d in rows && o in rows ::
      rows[d].inbound == rows[o].inbound && rows[d].state == Pending && rows[o].state == Pending ==> d == o
  }

  ghost predicate SingleHolder(requests: map<RequestId, Request>) {
    forall r, s | r in requests && s in requests ::
      Holds(requests[r]) && Holds(requests[s]) && requests[r].draft == requests[s].draft ==> r == s
  }

  /** What is known of a request in the middle of its work. */
  ghost predicate RequestOk(w: World, q: Request) {
    && (q.phase.Seen? ==> q.draft in w.rows && q.phase.text == w.rows[q.draft].text)
    && (Holds(q) ==> q.action.Accept? && q.draft in w.rows && Unsent(w.bills, q.draft)
                     && w.rows[q.draft].editedText == Edits(q.action))
    && (q.phase.Claimed? ==> q.phase.body == BodyOf(q.action.edited, w.rows[q.draft].text)
                             && q.phase.at < w.rows[q.draft].expiresAt)
    && (q.phase.Lost? ==> q.draft in w.rows && LossOk(w, q.draft, q.phase.lapsed, q.phase.releases))
  }

  /** Why a claim was refused, as it can still be seen. */
  ghost predicate LossOk(w: World, d: DraftId, lapsed: bool, seen: nat)
    requires d in w.rows
  {
    && seen <= |w.releases|
    && (lapsed ==> w.rows[d].expiresAt <= w.now)
    && (!lapsed && w.rows[d].state == Pending ==> d in w.releases[seen..])
  }

  ghost predicate RequestsOk(w: World) {
    forall r <- w.requests :: RequestOk(w, w.requests[r])
  }

  /** Every provider call carried the text its accept had claimed, before the draft expired. */
  ghost predicate GenuineBill(w: World, b: Billing) {
    && b.draft in w.rows && b.request in w.requests
    && w.requests[b.request].draft == b.draft && w.requests[b.request].action.Accept?
    && b.body == BodyOf(w.requests[b.request].action.edited, w.rows[b.draft].text)
    && b.claimedAt < w.rows[b.draft].expiresAt
    && w.rows[b.draft].editedText == Edits(w.requests[b.request].action)
  }

  ghost predicate BillsOk(w: World) {
    Once(w.bills) && forall b <- w.bills :: GenuineBill(w, b)
  }

  ghost predicate GeneratorsOk(w: World) {
    forall g <- w.generators :: w.generators[g].current.Some? ==>
      && w.generators[g].current.value in w.rows
      && w.rows[w.generators[g].current.value].inbound == w.generators[g].inbound
  }

  ghost predicate Inv(w: World) {
    PendingOk(w) && OnePending(w.rows) && SingleHolder(w.requests) && RequestsOk(w) && BillsOk(w) && GeneratorsOk(w)
  }

  lemma InitInv()
    ensures Inv(INIT)
  {
  }

  /* ---- One step keeps the invariant ---- */

  /** A request moves on without touching a row, and without becoming a holder. */
  lemma MoveKeepsInv(w: World, r: RequestId, q: Request)
    requires Inv(w) && RequestOk(w, q)
    requires r in w.requests ==> q.draft == w.requests[r].draft && q.action == w.requests[r].action
    requires Holds(q) ==> r in w.requests && Holds(w.requests[r])
    ensures Inv(w.(requests := w.requests[r := q]))
  {
    hide BodyOf, LossOk, OnePending, Once, Unsent;
    var v := w.(requests := w.requests[r := q]);
    forall s | s in v.requests
      ensures RequestOk(v, v.requests[s])
    {
      assert s != r ==> RequestOk(w, w.requests[s]);
      LossUnchanged(w, v);
    }
  }

  /** A refused claim is explained by rows, releases and clock alone. */
  lemma LossUnchanged(w: World, v: World)
    requires w.rows == v.rows && w.releases == v.releases && w.now <= v.now
    ensures forall d, lapsed, seen | d in w.rows :: LossOk(w, d, lapsed, seen) ==> LossOk(v, d, lapsed, seen)
  {
  }

  lemma QuietStepsKeepInv(w: World, e: Event)
    requires Inv(w) && Enabled(w, e)
    requires e.Ask? || e.ReadRow? || e.Reread? || e.Succeed? || e.Fail?
    ensures Inv(Apply(w, e))
  {
    hide BodyOf, LossOk, OnePending, BillsOk, SingleHolder, Unsent, PendingOk, GeneratorsOk;
    MoveKeepsInv(w, e.r, Apply(w, e).requests[e.r]);
  }

  lemma LookUpKeepsInv(w: World, e: Event)
    requires Inv(w) && Enabled(w, e) && (e.LookUp? || e.Tick?)
    ensures Inv(Apply(w, e))
  {
    hide BodyOf, LossOk, OnePending, Once, Unsent, NobodyHolds, Holds;
    LossUnchanged(w, Apply(w, e));
  }

  /** Rows keep their text, expiry and inbound message; one becomes pending again only by a release. */
  ghost predicate RowsEvolve(w: World, v: World) {
    && w.now <= v.now && w.releases <= v.releases
    && (forall d <- w.rows :: d in v.rows && SameDraft(w.rows[d], v.rows[d]))
    && (forall d <- w.rows :: v.rows[d].state == Pending && w.rows[d].state != Pending ==>
          d in v.releases[|w.releases|..])
  }

  predicate SameDraft(a: Row, b: Row) {
    a.inbound == b.inbound && a.text == b.text && a.expiresAt == b.expiresAt
  }

  lemma LossSurvives(w: World, v: World, d: DraftId, lapsed: bool, seen: nat)
    requires RowsEvolve(w, v) && d in w.rows && LossOk(w, d, lapsed, seen)
    ensures LossOk(v, d, lapsed, seen)
  {
    if !lapsed && v.rows[d].state == Pending {
      if w.rows[d].state == Pending {
        var k :| seen <= k < |w.releases| && w.releases[k] == d;
        assert v.releases[k] == d;
        assert v.releases[seen..][k - seen] == d;
      } else {
        var k :| |w.releases| <= k < |v.releases| && v.releases[k] == d;
        assert v.releases[seen..][k - seen] == d;
      }
    }
  }

  predicate SameEdits(w: World, v: World, d: DraftId) {
    d in w.rows && d in v.rows && v.rows[d].editedText == w.rows[d].editedText
  }

  /** What survives in a request that stood still while rows evolved. */
  lemma BystanderOk(w: World, v: World, q: Request)
    requires RowsEvolve(w, v) && RequestOk(w, q)
    requires Holds(q) ==> Unsent(v.bills, q.draft) && SameEdits(w, v, q.draft)
    ensures RequestOk(v, q)
  {
    hide BodyOf, LossOk, Unsent;
    if q.phase.Lost? {
      LossSurvives(w, v, q.draft, q.phase.lapsed, q.phase.releases);
    }
  }

  /** Provider calls stay genuine while rows evolve and requests keep their draft and action. */
  lemma BillsStayGenuine(w: World, v: World)
    requires RowsEvolve(w, v) && w.bills == v.bills && BillsOk(w)
    requires forall b <- w.bills :: SameEdits(w, v, b.draft)
    requires forall r <- w.requests ::
      r in v.requests && v.requests[r].draft == w.requests[r].draft && v.requests[r].action == w.requests[r].action
    ensures BillsOk(v)
  {
    hide BodyOf, Once;
    forall b <- v.bills
      ensures GenuineBill(v, b)
    {
      assert GenuineBill(w, b);
    }
  }

  /** One request moves on and the rows evolve. */
  lemma OthersOk(w: World, v: World, r: RequestId)
    requires RowsEvolve(w, v) && w.bills == v.bills && RequestsOk(w) && BillsOk(w) && GeneratorsOk(w)
    requires r in w.requests && r in v.requests && w.generators == v.generators
    requires v.requests == w.requests[r := v.requests[r]]
    requires v.requests[r].draft == w.requests[r].draft && v.requests[r].action == w.requests[r].action
    requires RequestOk(v, v.requests[r])
    requires forall d <- w.rows :: SameEdits(w, v, d) || (Unsent(w.bills, d) && OthersDoNotHold(w, r, d))
    ensures RequestsOk(v) && BillsOk(v) && GeneratorsOk(v)
  {
    forall b <- w.bills
      ensures SameEdits(w, v, b.draft)
    {
      assert GenuineBill(w, b);
    }
    BillsStayGenuine(w, v);
    forall s | s in v.requests
      ensures RequestOk(v, v.requests[s])
    {
      hide *;
      if s != r {
        assert RequestOk(w, w.requests[s]);
        HolderEdits(w, v, r, s);
        BystanderOk(w, v, w.requests[s]);
      }
    }
  }

  ghost predicate OthersDoNotHold(w: World, r: RequestId, d: DraftId) {
    forall s <- w.requests :: s != r && Holds(w.requests[s]) ==> w.requests[s].draft != d
  }

  lemma HolderEdits(w: World, v: World, r: RequestId, s: RequestId)
    requires s in w.requests && s != r && RequestOk(w, w.requests[s])
    requires forall d <- w.rows :: SameEdits(w, v, d) || (Unsent(w.bills, d) && OthersDoNotHold(w, r, d))
    ensures Holds(w.requests[s]) ==> Unsent(w.bills, w.requests[s].draft) && SameEdits(w, v, w.requests[s].draft)
  {
    hide Unsent;
  }

  lemma RejectKeepsInv(w: World, r: RequestId)
    requires Inv(w) && Enabled(w, WriteReject(r))
    ensures Inv(Apply(w, WriteReject(r)))
  {
    hide LossOk, BillsOk, Unsent;
    OthersOk(w, Apply(w, WriteReject(r)), r);
  }

  lemma ClaimableUnsent(w: World, d: DraftId)
    requires PendingOk(w)
    ensures Claimable(w.rows, d, w.now) ==> Unsent(w.bills, d) && NobodyHolds(w.requests, d)
  {
  }

  lemma ClaimedTable(w: World, r: RequestId)
    requires Inv(w) && Enabled(w, Claim(r))
    ensures PendingOk(Apply(w, Claim(r))) && OnePending(Apply(w, Claim(r)).rows)
    ensures SingleHolder(Apply(w, Claim(r)).requests)
  {
    hide LossOk, BillsOk, Unsent, BodyOf;
    assert RequestOk(w, w.requests[r]);
  }

  lemma ClaimKeepsInv(w: World, r: RequestId)
    requires Inv(w) && Enabled(w, Claim(r))
    ensures Inv(Apply(w, Claim(r)))
  {
    var v := Apply(w, Claim(r));
    assert RequestOk(v, v.requests[r]) by {
      hide PendingOk, OnePending, SingleHolder, BillsOk, GeneratorsOk;
      assert RequestOk(w, w.requests[r]);
      ClaimableUnsent(w, w.requests[r].draft);
    }
    ClaimedTable(w, r);
    hide BillsOk, Unsent, LossOk, RequestOk, BodyOf, PendingOk, OnePending, SingleHolder;
    ClaimableUnsent(w, w.requests[r].draft);
    OthersOk(w, v, r);
  }

  lemma ReleasedTable(w: World, r: RequestId)
    requires Inv(w) && Enabled(w, Release(r))
    ensures PendingOk(Apply(w, Release(r))) && OnePending(Apply(w, Release(r)).rows)
  {
    hide LossOk, BillsOk, Unsent, BodyOf;
    assert RequestOk(w, w.requests[r]);
  }

  lemma ReleaseKeepsInv(w: World, r: RequestId)
    requires Inv(w) && Enabled(w, Release(r))
    ensures Inv(Apply(w, Release(r)))
  {
    var v := Apply(w, Release(r));
    assert RequestOk(w, w.requests[r]);
    ReleasedTable(w, r);
    hide LossOk, BillsOk, Unsent, PendingOk, OnePending, IndexAdmits;
    OthersOk(w, v, r);
  }

  lemma ProviderKeepsInv(w: World, r: RequestId)
    requires Inv(w) && Enabled(w, Provider(r))
    ensures Inv(Apply(w, Provider(r)))
  {
    var v := Apply(w, Provider(r));
    var d := w.requests[r].draft;
    assert Unsent(w.bills, d) by { assert RequestOk(w, w.requests[r]); }
    hide LossOk;
    LossUnchanged(w, v);
    forall b <- v.bills
      ensures GenuineBill(v, b)
    {
      assert b in w.bills ==> GenuineBill(w, b);
      assert RequestOk(w, w.requests[r]);
    }
  }

  lemma ReplaceKeepsInv(w: World, g: GeneratorId, d: DraftId, text: string)
    requires Inv(w) && Enabled(w, Replace(g, d, text))
    ensures Inv(Apply(w, Replace(g, d, text)))
  {
    var v := Apply(w, Replace(g, d, text));
    hide BodyOf, LossOk, Once, Unsent;
    ReplacedTable(w, g, d, text);
    BillsStayGenuine(w, v);
    forall s | s in v.requests
      ensures RequestOk(v, v.requests[s])
    {
      assert RequestOk(w, w.requests[s]);
      BystanderOk(w, v, w.requests[s]);
    }
  }

  /** The table after a draft was replaced. */
  lemma ReplacedTable(w: World, g: GeneratorId, d: DraftId, text: string)
    requires Inv(w) && Enabled(w, Replace(g, d, text))
    ensures var v := Apply(w, Replace(g, d, text));
            PendingOk(v) && OnePending(v.rows) && RowsEvolve(w, v)
  {
    hide RequestsOk, BillsOk, NobodyHolds, Unsent;
    FreshDraft(w, d);
  }

  /** Nothing is held or sent under an id that is not in the table. */
  lemma FreshDraft(w: World, d: DraftId)
    requires Inv(w) && d !in w.rows
    ensures Unsent(w.bills, d) && NobodyHolds(w.requests, d)
  {
    forall b <- w.bills
      ensures b.draft != d
    {
      assert GenuineBill(w, b);
    }
    forall r <- w.requests | Holds(w.requests[r])
      ensures w.requests[r].draft != d
    {
      assert RequestOk(w, w.requests[r]);
    }
  }

  lemma StepKeepsInv(w: World, e: Event)
    requires Inv(w) && Enabled(w, e)
    ensures Inv(Apply(w, e))
  {
    hide Inv, Enabled, Apply;
    match e
    case WriteReject(r) => RejectKeepsInv(w, r);
    case Claim(r) => ClaimKeepsInv(w, r);
    case Release(r) => ReleaseKeepsInv(w, r);
    case Provider(r) => ProviderKeepsInv(w, r);
    case Replace(g, d, text) => ReplaceKeepsInv(w, g, d, text);
    case LookUp(_, _, _) => LookUpKeepsInv(w, e);
    case Tick(_) => LookUpKeepsInv(w, e);
    case _ => QuietStepsKeepInv(w, e);
  }

  lemma {:induction false} RunKeepsInv(w: World, es: seq<Event>)
    requires Inv(w) && Feasible(w, es)
    ensures Inv(Run(w, es))
    decreases |es|
  {
    hide Inv, Enabled, Apply;
    if es != [] {
      StepKeepsInv(w, es[0]);
      RunKeepsInv(Apply(w, es[0]), es[1..]);
    }
  }

  /* ---- What every interleaving keeps ---- */

  ghost predicate Reachable(w: World) {
    exists es :: Feasible(INIT, es) && Run(INIT, es) == w
  }

  lemma ReachableInv(w: World)
    requires Reachable(w)
    ensures Inv(w)
  {
    hide Inv;
    var es :| Feasible(INIT, es) && Run(INIT, es) == w;
    InitInv();
    RunKeepsInv(INIT, es);
  }

  /** One provider call per draft at most, and it carried what an accept claimed in time. */
  lemma SentAtMostOnce(w: World)
    requires Reachable(w)
    ensures forall i, j | 0 <= i < |w.bills| && 0 <= j < |w.bills| :: w.bills[i].draft == w.bills[j].draft ==> i == j
    ensures forall b <- w.bills :: GenuineBill(w, b)
  {
    hide Reachable, GenuineBill;
    ReachableInv(w);
  }

  /** The row of a sent draft keeps what the customer got: the edited text if there is one, else the draft's. */
  lemma RowShowsWhatWasSent(w: World, b: Billing)
    requires Reachable(w) && b in w.bills
    ensures b.draft in w.rows
    ensures var row := w.rows[b.draft];
            b.body == if row.editedText.Some? then row.editedText.value else row.text
  {
    hide Reachable;
    ReachableInv(w);
    assert GenuineBill(w, b);
  }

  /** A draft that shows as pending can be accepted afresh: nobody holds it, nothing of it was sent. */
  lemma PendingMeansUntouched(w: World, d: DraftId)
    requires Reachable(w) && d in w.rows && w.rows[d].state == Pending
    ensures Unsent(w.bills, d) && NobodyHolds(w.requests, d)
    ensures w.rows[d].editedText == None && w.rows[d].decided == None
    ensures forall o <- w.rows :: w.rows[o].inbound == w.rows[d].inbound && w.rows[o].state == Pending ==> o == d
  {
    hide Reachable, Unsent, NobodyHolds;
    ReachableInv(w);
  }

  /** At most one accept holds a draft, and a holder has not sent it. */
  lemma HolderIsUnique(w: World, r: RequestId, s: RequestId)
    requires Reachable(w) && r in w.requests && s in w.requests
    requires Holds(w.requests[r]) && Holds(w.requests[s]) && w.requests[r].draft == w.requests[s].draft
    ensures r == s && Unsent(w.bills, w.requests[r].draft)
  {
    hide Reachable, Unsent;
    ReachableInv(w);
    assert RequestOk(w, w.requests[r]);
  }

  /** A claim, a failure before sending and the release put the table back as it was. */
  lemma ReleaseUndoesClaim(w: World, r: RequestId, code: Code)
    requires Reachable(w) && Enabled(w, Claim(r)) && Claimable(w.rows, w.requests[r].draft, w.now) && Reverts(code)
    ensures Feasible(w, [Claim(r), Fail(r, code), Release(r)])
    ensures Run(w, [Claim(r), Fail(r, code), Release(r)]).rows == w.rows
  {
    var es := [Claim(r), Fail(r, code), Release(r)];
    var d := w.requests[r].draft;
    PendingMeansUntouched(w, d);
    var w1 := Apply(w, Claim(r));
    var w2 := Apply(w1, Fail(r, code));
    assert IndexAdmits(w2.rows, w2.rows[d].inbound, d);
    var w3 := Apply(w2, Release(r));
    assert w3.rows[d] == w.rows[d];
    assert w3.rows == w.rows;
    assert es[1..] == [Fail(r, code), Release(r)] && es[1..][1..] == [Release(r)] && es[1..][1..][1..] == [];
    assert Feasible(w2, [Release(r)]) && Run(w2, [Release(r)]) == w3;
    assert Feasible(w1, es[1..]) && Run(w1, es[1..]) == w3;
  }

  /* ---- Which drafts can no longer be sent ---- */

  ghost predicate SomeoneClaimed(w: World, d: DraftId) {
    exists r <- w.requests :: w.requests[r].phase.Claimed? && w.requests[r].draft == d
  }

  /** An accept that failed in time and is to put the row back as its claim found it. */
  ghost predicate SomeoneReleases(w: World, d: DraftId)
    requires d in w.rows
  {
    exists r <- w.requests ::
      w.requests[r].phase.Releasing? && w.requests[r].draft == d && Target(w.requests[r].action) == w.rows[d].state
  }

  /** No accept is about to send it, and it has lapsed, or is decided with no accept to release it. */
  ghost predicate Sealed(w: World, d: DraftId) {
    && d in w.rows && !SomeoneClaimed(w, d)
    && (w.rows[d].expiresAt <= w.now || (w.rows[d].state != Pending && !SomeoneReleases(w, d)))
  }

  lemma SealedStep(w: World, e: Event, d: DraftId)
    requires Inv(w) && Enabled(w, e) && Sealed(w, d)
    ensures Sealed(Apply(w, e), d) && w.bills <= Apply(w, e).bills
    ensures forall k :: |w.bills| <= k < |Apply(w, e).bills| ==> Apply(w, e).bills[k].draft != d
  {
    hide PendingOk, OnePending, BillsOk, RequestsOk;
    if e.Fail? {
      assert w.requests[e.r].phase.Claimed? ==> w.requests[e.r].draft != d;
    }
  }

  /** No continuation calls the provider for this draft again. */
  ghost predicate NeverSentAgain(w: World, d: DraftId) {
    forall es | Feasible(w, es) :: NoneNew(w, Run(w, es), d)
  }

  ghost predicate NoneNew(w: World, v: World, d: DraftId) {
    w.bills <= v.bills && forall k :: |w.bills| <= k < |v.bills| ==> v.bills[k].draft != d
  }

  lemma {:induction false} SealedIsNeverSent(w: World, es: seq<Event>, d: DraftId)
    requires Inv(w) && Sealed(w, d) && Feasible(w, es)
    ensures NoneNew(w, Run(w, es), d)
    decreases |es|
  {
    hide Inv, Enabled, Apply, Sealed;
    if es != [] {
      StepKeepsInv(w, es[0]);
      SealedStep(w, es[0], d);
      SealedIsNeverSent(Apply(w, es[0]), es[1..], d);
    }
  }

  /* ---- Exactly the drafts that can no longer be sent ---- */

  ghost predicate CanBeSent(w: World, d: DraftId) {
    exists es :: Feasible(w, es) && !NoneNew(w, Run(w, es), d)
  }

  lemma StepFirst(w: World, e: Event, d: DraftId)
    requires Enabled(w, e) && Apply(w, e).bills == w.bills && CanBeSent(Apply(w, e), d)
    ensures CanBeSent(w, d)
  {
    hide Enabled, Apply;
    var es :| Feasible(Apply(w, e), es) && !NoneNew(Apply(w, e), Run(Apply(w, e), es), d);
    var all := [e] + es;
    assert all[0] == e && all[1..] == es;
    assert Feasible(w, all) && Run(w, all) == Run(Apply(w, e), es);
  }

  lemma {:induction false} FreshId(ids: set<RequestId>) returns (r: RequestId)
    ensures forall i <- ids :: i < r
    decreases |ids|
  {
    if ids == {} {
      r := 0;
    } else {
      var i :| i in ids;
      var n := FreshId(ids - {i});
      r := if i < n then n else i + 1;
      assert forall j <- ids :: j == i || j in ids - {i};
    }
  }

  lemma ClaimedCanBeSent(w: World, c: RequestId)
    requires c in w.requests && w.requests[c].phase.Claimed?
    ensures CanBeSent(w, w.requests[c].draft)
  {
    OneStep(w, Provider(c));
    var v := Run(w, [Provider(c)]);
    assert v.bills[|w.bills|].draft == w.requests[c].draft;
    assert !NoneNew(w, v, w.requests[c].draft);
  }

  lemma OneStep(w: World, e: Event)
    requires Enabled(w, e)
    ensures Feasible(w, [e]) && Run(w, [e]) == Apply(w, e)
  {
    hide Enabled, Apply;
    var es := [e];
    assert es[0] == e && es[1..] == [];
    assert Feasible(Apply(w, e), es[1..]) && Run(Apply(w, e), es[1..]) == Apply(w, e);
  }

  /** A pending draft that has not lapsed: a fresh accept sends it. */
  lemma PendingCanBeSent(w: World, d: DraftId)
    requires Claimable(w.rows, d, w.now)
    ensures CanBeSent(w, d)
  {
    var r := FreshId(w.requests.Keys);
    var e1 := Ask(r, d, 0, Accept(""));
    var w1 := Apply(w, e1);
    var w2 := Apply(w1, ReadRow(r));
    var w3 := Apply(w2, Claim(r));
    ClaimedCanBeSent(w3, r);
    hide CanBeSent;
    StepFirst(w2, Claim(r), d);
    StepFirst(w1, ReadRow(r), d);
    StepFirst(w, e1, d);
  }

  /** A release that goes through makes the draft pending, and it can be sent again. */
  lemma ReleasedCanBeSent(w: World, r: RequestId)
    requires Enabled(w, Release(r)) && Releasable(w.rows, w.requests[r])
    requires w.now < w.rows[w.requests[r].draft].expiresAt
    ensures CanBeSent(Apply(w, Release(r)), w.requests[r].draft)
    ensures CanBeSent(w, w.requests[r].draft)
  {
    hide CanBeSent, IndexAdmits;
    PendingCanBeSent(Apply(w, Release(r)), w.requests[r].draft);
    StepFirst(w, Release(r), w.requests[r].draft);
  }

  /** A newer pending draft stands in the way only until somebody rejects it. */
  lemma BlockedCanBeSent(w: World, r: RequestId, o: DraftId)
    requires Inv(w) && Enabled(w, Release(r)) && w.requests[r].draft in w.rows
    requires w.rows[w.requests[r].draft].state == Target(w.requests[r].action)
    requires w.now < w.rows[w.requests[r].draft].expiresAt
    requires o in w.rows && o != w.requests[r].draft && w.rows[o].state == Pending
    requires w.rows[o].inbound == w.rows[w.requests[r].draft].inbound
    ensures CanBeSent(w, w.requests[r].draft)
  {
    var d := w.requests[r].draft;
    var n := FreshId(w.requests.Keys);
    var e1 := Ask(n, o, 0, Reject);
    var w1 := Apply(w, e1);
    var w2 := Apply(w1, ReadRow(n));
    var w3 := Apply(w2, WriteReject(n));
    assert w3.rows == w.rows[o := w3.rows[o]] && w3.rows[o].state == Rejected && w3.requests[r] == w.requests[r];
    IndexAdmitsOnce(w, w3, d, o);
    ReleasedCanBeSent(w3, r);
    hide CanBeSent, Inv;
    StepFirst(w2, WriteReject(n), d);
    StepFirst(w1, ReadRow(n), d);
    StepFirst(w, e1, d);
  }

  lemma IndexAdmitsOnce(w: World, v: World, d: DraftId, o: DraftId)
    requires Inv(w) && d in w.rows && o in w.rows && o != d && w.rows[o].state == Pending
    requires w.rows[o].inbound == w.rows[d].inbound
    requires o in v.rows && v.rows == w.rows[o := v.rows[o]] && v.rows[o].state != Pending
    ensures IndexAdmits(v.rows, w.rows[d].inbound, d)
  {
    hide PendingOk, SingleHolder, RequestsOk, BillsOk, GeneratorsOk;
  }

  /** A draft is beyond sending, in every continuation, exactly when it is sealed. */
  lemma NeverSentExactlyWhenSealed(w: World, d: DraftId)
    requires Reachable(w) && d in w.rows
    ensures NeverSentAgain(w, d) <==> Sealed(w, d)
  {
    ReachableInv(w);
    if Sealed(w, d) {
      hide Reachable, Inv, Sealed;
      SealedForever(w, d);
    } else {
      UnsealedCanBeSent(w, d);
    }
  }

  lemma UnsealedCanBeSent(w: World, d: DraftId)
    requires Inv(w) && d in w.rows && !Sealed(w, d)
    ensures CanBeSent(w, d)
  {
    hide CanBeSent, Inv;
    if SomeoneClaimed(w, d) {
      var c :| c in w.requests && w.requests[c].phase.Claimed? && w.requests[c].draft == d;
      ClaimedCanBeSent(w, c);
    } else if w.rows[d].state == Pending {
      PendingCanBeSent(w, d);
    } else {
      var r :| r in w.requests && w.requests[r].phase.Releasing? && w.requests[r].draft == d
        && Target(w.requests[r].action) == w.rows[d].state;
      if IndexAdmits(w.rows, w.rows[d].inbound, d) {
        ReleasedCanBeSent(w, r);
      } else {
        var o :| o in w.rows && o != d && w.rows[o].inbound == w.rows[d].inbound && w.rows[o].state == Pending;
        BlockedCanBeSent(w, r, o);
      }
    }
  }

  /** A reject keeps its draft from being sent later exactly when no accept has claimed it by then. */
  lemma RejectStopsTheSend(w: World, r: RequestId)
    requires Reachable(w) && Enabled(w, WriteReject(r))
    ensures NeverSentAgain(Apply(w, WriteReject(r)), w.requests[r].draft) <==> !SomeoneClaimed(w, w.requests[r].draft)
  {
    hide Reachable, NeverSentAgain;
    var v, d := Apply(w, WriteReject(r)), w.requests[r].draft;
    Reach(w, WriteReject(r));
    NeverSentExactlyWhenSealed(v, d);
    if c :| c in w.requests && w.requests[c].phase.Claimed? && w.requests[c].draft == d {
      assert v.requests[c] == w.requests[c];
    }
  }

  /** A failed accept makes its draft sendable again exactly when the release goes through before the draft lapses. */
  lemma ReleaseRearmsIff(w: World, r: RequestId)
    requires Reachable(w) && Enabled(w, Release(r))
    ensures var d := w.requests[r].draft;
            && d in w.rows
            && (NeverSentAgain(Apply(w, Release(r)), d) <==>
                  !Releasable(w.rows, w.requests[r]) || w.rows[d].expiresAt <= w.now)
  {
    var d := w.requests[r].draft;
    ReachableInv(w);
    assert RequestOk(w, w.requests[r]);
    var v := Apply(w, Release(r));
    Reach(w, Release(r));
    NeverSentExactlyWhenSealed(v, d);
    ReleaseSeals(w, r);
  }

  lemma ReleaseSeals(w: World, r: RequestId)
    requires Inv(w) && Enabled(w, Release(r)) && w.requests[r].draft in w.rows
    ensures var d := w.requests[r].draft;
            Sealed(Apply(w, Release(r)), d) <==> !Releasable(w.rows, w.requests[r]) || w.rows[d].expiresAt <= w.now
  {
    hide BillsOk, GeneratorsOk, Unsent, LossOk, IndexAdmits;
    var d := w.requests[r].draft;
    var v := Apply(w, Release(r));
    assert RequestOk(w, w.requests[r]) && w.rows[d].state != Pending;
    assert forall s <- w.requests :: s != r && Holds(w.requests[s]) ==> w.requests[s].draft != d;
    assert forall s <- v.requests :: Holds(v.requests[s]) ==> v.requests[s].draft != d;
  }

  /**
   What an accept that lost its claim is told. If the draft had lapsed, the answer is the truth. If the draft
   was decided, the answer is "expired" exactly when the row is pending again, and then a claim on it was
   released meanwhile.
   */
  lemma ExpiredAnswerExplained(w: World, r: RequestId)
    requires Reachable(w) && Enabled(w, Reread(r))
    ensures var (q, told) := (w.requests[r], Apply(w, Reread(r)).requests[r].phase);
            && q.draft in w.rows
            && (q.phase.lapsed ==>
                  if told == Done(Expired) then w.rows[q.draft].expiresAt <= w.now
                  else told == Done(AlreadyDecided(w.rows[q.draft].state)) && w.rows[q.draft].state != Pending)
            && (!q.phase.lapsed ==>
                  && q.phase.releases <= |w.releases|
                  && (told == Done(Expired) <==> w.rows[q.draft].state == Pending)
                  && (told == Done(Expired) ==> q.draft in w.releases[q.phase.releases..]))
  {
    ReachableInv(w);
    assert RequestOk(w, w.requests[r]);
  }

  /* ---- What the protocol does not promise: three runs ---- */

  lemma {:induction false} Follow(w: World, es: seq<Event>, e: Event)
    requires Feasible(w, es) && Enabled(Run(w, es), e)
    ensures Feasible(w, es + [e]) && Run(w, es + [e]) == Apply(Run(w, es), e)
    decreases |es|
  {
    hide Enabled, Apply;
    if es == [] {
      assert [e][1..] == [] && es + [e] == [e];
    } else {
      assert (es + [e])[1..] == es[1..] + [e];
      Follow(Apply(w, es[0]), es[1..], e);
    }
  }

  lemma Reach(w: World, e: Event)
    requires Reachable(w) && Enabled(w, e)
    ensures Reachable(Apply(w, e))
  {
    hide Enabled, Apply;
    var es :| Feasible(INIT, es) && Run(INIT, es) == w;
    Follow(INIT, es, e);
  }

  lemma InitReachable()
    ensures Reachable(INIT)
  {
    assert Feasible(INIT, []) && Run(INIT, []) == INIT;
  }

  /** One draft, and one accept that has read it. */
  lemma OneReader() returns (w: World)
    ensures Reachable(w) && w.rows == map[1 := Row(7, "Hi", SUGGESTION_TTL_MS, Pending, None, None)]
    ensures w.requests == map[1 := Request(1, 1, Accept(""), Seen("Hi"))]
    ensures w.generators == map[] && w.bills == [] && w.releases == [] && w.now == 0
  {
    InitReachable();
    hide Reachable;
    var w1 := Apply(INIT, LookUp(0, 7, None));
    Reach(INIT, LookUp(0, 7, None));
    var w2 := Apply(w1, Replace(0, 1, "Hi"));
    Reach(w1, Replace(0, 1, "Hi"));
    var w3 := Apply(w2, Ask(1, 1, 1, Accept("")));
    Reach(w2, Ask(1, 1, 1, Accept("")));
    w := Apply(w3, ReadRow(1));
    Reach(w3, ReadRow(1));
  }

  /** A reject that read the row in time can overwrite a draft that was sent. */
  lemma RejectedDraftMayHaveBeenSent()
    ensures exists w :: Reachable(w) && 1 in w.rows && w.rows[1].state == Rejected && !Unsent(w.bills, 1)
  {
    hide Reachable;
    var w := OneReader();
    var w1 := Apply(w, Ask(2, 1, 2, Reject));
    Reach(w, Ask(2, 1, 2, Reject));
    var w2 := Apply(w1, ReadRow(2));
    Reach(w1, ReadRow(2));
    var w3 := Apply(w2, Claim(1));
    Reach(w2, Claim(1));
    var w4 := Apply(w3, Provider(1));
    Reach(w3, Provider(1));
    var w5 := Apply(w4, WriteReject(2));
    Reach(w4, WriteReject(2));
    assert w5.bills[0].draft == 1;
    assert Reachable(w5) && !Unsent(w5.bills, 1);
  }

  /** Two accepts of one draft: the first has claimed it, the second has lost its claim to it. */
  lemma OneLost() returns (w: World)
    ensures Reachable(w) && w.releases == [] && w.now == 0
    ensures w.rows == map[1 := Row(7, "Hi", SUGGESTION_TTL_MS, Accepted, None, Some(Decision(1, 0)))]
    ensures w.requests == map[1 := Request(1, 1, Accept(""), Claimed("Hi", 0)),
                              2 := Request(1, 2, Accept(""), Lost(false, 0))]
  {
    hide Reachable;
    w := OneReader();
    Reach(w, Ask(2, 1, 2, Accept("")));
    w := Apply(w, Ask(2, 1, 2, Accept("")));
    Reach(w, ReadRow(2));
    w := Apply(w, ReadRow(2));
    Reach(w, Claim(1));
    w := Apply(w, Claim(1));
    Reach(w, Claim(2));
    w := Apply(w, Claim(2));
  }

  /** An accept can be told that a draft expired which is pending and far from expiring. */
  lemma ExpiredAnswerCanBeWrong()
    ensures exists w, r :: Reachable(w) && r in w.requests && w.requests[r].phase == Done(Expired)
                           && Claimable(w.rows, w.requests[r].draft, w.now)
  {
    hide Reachable;
    var w := OneLost();
    var w1 := Apply(w, Fail(1, Outside24hWindow));
    Reach(w, Fail(1, Outside24hWindow));
    var w2 := Apply(w1, Release(1));
    Reach(w1, Release(1));
    var w3 := Apply(w2, Reread(2));
    Reach(w2, Reread(2));
    assert Reachable(w3) && w3.requests[2].phase == Done(Expired);
  }

  /** A release the index refuses leaves an accepted draft that was not sent and never will be. */
  lemma ReleaseCanBeRefused()
    ensures exists w :: Reachable(w) && 1 in w.rows && w.rows[1].state == Accepted
                        && Unsent(w.bills, 1) && NeverSentAgain(w, 1)
  {
    hide Reachable, NeverSentAgain;
    var w := OneReader();
    var w1 := Apply(w, Claim(1));
    Reach(w, Claim(1));
    var w2 := Apply(w1, LookUp(1, 7, None));
    Reach(w1, LookUp(1, 7, None));
    var w3 := Apply(w2, Replace(1, 2, "Hello"));
    Reach(w2, Replace(1, 2, "Hello"));
    assert w3.rows[2].state == Pending && w3.rows[2].inbound == 7;
    var w4 := Apply(w3, Fail(1, EmptyBody));
    Reach(w3, Fail(1, EmptyBody));
    var w5 := Apply(w4, Release(1));
    Reach(w4, Release(1));
    assert w5.rows[1].state == Accepted && Sealed(w5, 1);
    SealedForever(w5, 1);
    assert Reachable(w5) && NeverSentAgain(w5, 1);
  }

  lemma SealedForever(w: World, d: DraftId)
    requires Reachable(w) && Sealed(w, d)
    ensures NeverSentAgain(w, d)
  {
    hide Inv, Sealed;
    ReachableInv(w);
    forall es | Feasible(w, es)
      ensures NoneNew(w, Run(w, es), d)
    {
      SealedIsNeverSent(w, es, d);
    }
  }
}
