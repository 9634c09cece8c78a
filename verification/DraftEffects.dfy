/** What each step of the draft protocol does, field by field, and what a request can still do once it was answered. */
module DraftEffects {
  import opened Options
  import opened Drafts
  import opened DraftSafety

  /** Nothing but request `r` and the rows differs, and of the rows nothing but row `d`. */
  ghost predicate OnlyTouches(w: World, v: World, r: RequestId, d: DraftId) {
    && r in w.requests && r in v.requests && v.requests == w.requests[r := v.requests[r]]
    && v.requests[r] == w.requests[r].(phase := v.requests[r].phase)
    && v.rows.Keys == w.rows.Keys && (forall o <- w.rows | o != d :: v.rows[o] == w.rows[o])
    && v.generators == w.generators && v.now == w.now
  }

  /** The first read: who goes on, and which of three answers the others get. */
  lemma FirstReadDecides(w: World, r: RequestId)
    requires Enabled(w, ReadRow(r))
    ensures var (v, q) := (Apply(w, ReadRow(r)), w.requests[r]);
            var phase := v.requests[r].phase;
            && v == w.(requests := w.requests[r := q.(phase := phase)])
            && (phase == Done(NotFound) <==> q.draft !in w.rows)
            && (q.draft in w.rows ==>
                  var row := w.rows[q.draft];
                  && (phase == Seen(row.text) <==> row.state == Pending && (q.action.Reject? || w.now < row.expiresAt))
                  && (phase == Done(Expired) <==> row.state == Pending && q.action.Accept? && row.expiresAt <= w.now)
                  && (phase == Done(AlreadyDecided(row.state)) <==> row.state != Pending))
  {
  }

  /** A claim that succeeds records the decision, its text, its author and its time; one that fails changes no row. */
  lemma ClaimRecords(w: World, r: RequestId)
    requires Inv(w) && Enabled(w, Claim(r))
    ensures var (v, q) := (Apply(w, Claim(r)), w.requests[r]);
            && q.draft in w.rows && OnlyTouches(w, v, r, q.draft) && v.bills == w.bills && v.releases == w.releases
            && var (row, after, edited) := (w.rows[q.draft], v.rows[q.draft], q.action.edited);
               if row.state == Pending && w.now < row.expiresAt then
                 && SameDraft(row, after) && after.decided == Some(Decision(q.user, w.now))
                 && after.state == (if edited == "" then Accepted else Edited)
                 && after.editedText == (if edited == "" then None else Some(edited))
                 && v.requests[r].phase == Claimed(if edited == "" then row.text else edited, w.now)
               else
                 after == row && v.requests[r].phase.Lost? && v.requests[r].phase.lapsed == (row.state == Pending)
  {
    hide PendingOk, OnePending, SingleHolder, BillsOk, GeneratorsOk;
    assert RequestOk(w, w.requests[r]);
  }

  /** A second look after a lost claim: a pending row is taken for an expired one, any other answer names its state. */
  lemma SecondReadDecides(w: World, r: RequestId)
    requires Inv(w) && Enabled(w, Reread(r))
    ensures var (v, q) := (Apply(w, Reread(r)), w.requests[r]);
            var phase := v.requests[r].phase;
            && v == w.(requests := w.requests[r := q.(phase := phase)]) && q.draft in w.rows
            && (phase == Done(Expired) <==> w.rows[q.draft].state == Pending)
            && (phase == Done(AlreadyDecided(w.rows[q.draft].state)) <==> w.rows[q.draft].state != Pending)
  {
    hide PendingOk, OnePending, SingleHolder, BillsOk, GeneratorsOk;
    assert RequestOk(w, w.requests[r]);
  }

  /** A reject that goes on writes its decision over whatever the row has become. */
  lemma RejectRecords(w: World, r: RequestId)
    requires Enabled(w, WriteReject(r))
    ensures var (v, q) := (Apply(w, WriteReject(r)), w.requests[r]);
            && OnlyTouches(w, v, r, q.draft) && v.bills == w.bills && v.releases == w.releases
            && v.rows[q.draft] == w.rows[q.draft].(state := Rejected, decided := Some(Decision(q.user, w.now)))
            && v.requests[r].phase == Done(Declined)
  {
  }

  /** The provider is given the claimed text once; success ends the request. */
  lemma SendingRecords(w: World, r: RequestId)
    requires r in w.requests
    ensures var q := w.requests[r];
            && (Enabled(w, Provider(r)) ==>
                  Apply(w, Provider(r)) == w.(requests := w.requests[r := q.(phase := Billed)],
                                              bills := w.bills + [Billing(r, q.draft, q.phase.body, q.phase.at)]))
            && (Enabled(w, Succeed(r)) ==>
                  Apply(w, Succeed(r)) == w.(requests := w.requests[r := q.(phase := Done(Delivered))]))
  {
  }

  /** A failed send keeps its claim unless it failed with one of the seven codes raised before the provider call. */
  lemma FailureDecides(w: World, r: RequestId, code: Code)
    requires Enabled(w, Fail(r, code))
    ensures var phase := Apply(w, Fail(r, code)).requests[r].phase;
            && Apply(w, Fail(r, code)) == w.(requests := w.requests[r := w.requests[r].(phase := phase)])
            && (phase == Releasing(code) <==>
                  code in {EmptyBody, MessageTooLong, ContactHasNoPhone, ProviderNotConfigured,
                           Outside24hWindow, ContactShareNotSupported, MessageNotFound})
            && (phase == Done(FailedWith(code)) <==> code == ConversationNotFound || code == Untyped)
  {
  }

  /** A release makes the row pending and undecided again if it is as claimed and the only candidate; else nothing. */
  lemma ReleaseRecords(w: World, r: RequestId)
    requires Inv(w) && Enabled(w, Release(r))
    ensures var (v, q) := (Apply(w, Release(r)), w.requests[r]);
            && q.draft in w.rows && OnlyTouches(w, v, r, q.draft) && v.bills == w.bills
            && v.requests[r].phase == Done(FailedWith(q.phase.code))
            && var row := w.rows[q.draft];
               if row.state == (if q.action.edited == "" then Accepted else Edited)
                  && forall o <- w.rows ::
                       o != q.draft && w.rows[o].state == Pending ==> w.rows[o].inbound != row.inbound
               then v.rows[q.draft] == Row(row.inbound, row.text, row.expiresAt, Pending, None, None)
               else v.rows[q.draft] == row
  {
    hide PendingOk, OnePending, SingleHolder, BillsOk, GeneratorsOk;
    assert RequestOk(w, w.requests[r]);
  }

  /** A generation remembers the pending draft of its message, or that there is none. */
  lemma LookUpRemembers(w: World, g: GeneratorId, inbound: nat, c: Option<DraftId>)
    requires Enabled(w, LookUp(g, inbound, c))
    ensures var v := Apply(w, LookUp(g, inbound, c));
            && v == w.(generators := w.generators[g := Generator(inbound, c)])
            && forall d <- w.rows | w.rows[d].inbound == inbound && w.rows[d].state == Pending :: c.Some?
    ensures c.Some? ==> c.value in w.rows && w.rows[c.value].inbound == inbound && w.rows[c.value].state == Pending
  {
  }

  /** A new draft supersedes the one looked up, keeps all others, and is good for a day; or nothing is stored. */
  lemma ReplaceRecords(w: World, g: GeneratorId, d: DraftId, text: string)
    requires Inv(w) && Enabled(w, Replace(g, d, text))
    ensures var (v, gen) := (Apply(w, Replace(g, d, text)), w.generators[g]);
            && v.requests == w.requests && v.bills == w.bills && v.now == w.now && v.generators == w.generators - {g}
            && if exists o <- w.rows ::
                    w.rows[o].inbound == gen.inbound && w.rows[o].state == Pending && gen.current != Some(o)
               then v.rows == w.rows
               else
                 && d in v.rows && v.rows[d] == Row(gen.inbound, text, w.now + 24 * 60 * 60 * 1000, Pending, None, None)
                 && v.rows.Keys == w.rows.Keys + {d}
                 && forall o <- w.rows ::
                      v.rows[o] == if gen.current == Some(o) then w.rows[o].(state := Superseded) else w.rows[o]
  {
    hide PendingOk, OnePending, SingleHolder, BillsOk, RequestsOk;
    var gen := w.generators[g];
    var cleared := SupersededRows(w.rows, gen.current);
    if o :| o in w.rows && w.rows[o].inbound == gen.inbound && w.rows[o].state == Pending && gen.current != Some(o) {
      assert cleared[o] == w.rows[o] && o != d;
    } else {
      assert IndexAdmits(cleared, gen.inbound, d);
    }
  }

  /* ---- Requests that have their answer ---- */

  /** The request an event belongs to. */
  predicate ActsFor(e: Event, r: RequestId) {
    && (e.Ask? || e.ReadRow? || e.WriteReject? || e.Claim? || e.Reread? || e.Provider? || e.Succeed? || e.Fail?
        || e.Release?)
    && e.r == r
  }

  /** An answered request never acts again: whatever rows change later, they are changed for others. */
  lemma {:induction false} AnsweredNeverActs(w: World, es: seq<Event>, r: RequestId)
    requires Feasible(w, es) && r in w.requests && w.requests[r].phase.Done?
    ensures r in Run(w, es).requests && Run(w, es).requests[r] == w.requests[r]
    ensures forall e <- es :: !ActsFor(e, r)
    decreases |es|
  {
    if es != [] {
      var v := Apply(w, es[0]);
      AnsweredStays(w, es[0], r);
      hide Apply, Enabled, ActsFor;
      AnsweredNeverActs(v, es[1..], r);
      assert es == [es[0]] + es[1..];
    }
  }

  lemma AnsweredStays(w: World, e: Event, r: RequestId)
    requires Enabled(w, e) && r in w.requests && w.requests[r].phase.Done?
    ensures r in Apply(w, e).requests && Apply(w, e).requests[r] == w.requests[r] && !ActsFor(e, r)
  {
  }

  /** A request whose first read found its draft decided, or gone, or lapsed, changes nothing in any continuation. */
  lemma RefusedChangesNothing(w: World, r: RequestId, es: seq<Event>)
    requires Enabled(w, ReadRow(r)) && Feasible(Apply(w, ReadRow(r)), es)
    requires w.requests[r].draft !in w.rows || w.rows[w.requests[r].draft].state != Pending
             || (w.requests[r].action.Accept? && w.rows[w.requests[r].draft].expiresAt <= w.now)
    ensures Apply(w, ReadRow(r)).rows == w.rows
    ensures forall e <- es :: !ActsFor(e, r)
  {
    FirstReadDecides(w, r);
    hide Apply, Enabled;
    AnsweredNeverActs(Apply(w, ReadRow(r)), es, r);
  }

  /* ---- A rejected draft was pending when the reject read it ---- */

  /** Some step of the history is the first read of reject `r`, and found draft `d` pending. */
  ghost predicate ReadPending(es: seq<Event>, r: RequestId, d: DraftId) {
    exists i :: 0 <= i < |es| && ReadPendingAt(es, i, r, d)
  }

  ghost predicate ReadPendingAt(es: seq<Event>, i: nat, r: RequestId, d: DraftId)
    requires i < |es|
  {
    && es[i] == ReadRow(r) && Feasible(INIT, es[..i])
    && var u := Run(INIT, es[..i]);
       && r in u.requests && u.requests[r].draft == d && u.requests[r].action.Reject?
       && d in u.rows && u.rows[d].state == Pending
  }

  lemma {:induction false} LastStep(w: World, es: seq<Event>, e: Event)
    requires Feasible(w, es + [e])
    ensures Feasible(w, es) && Enabled(Run(w, es), e) && Run(w, es + [e]) == Apply(Run(w, es), e)
    decreases |es|
  {
    hide Enabled, Apply;
    if es == [] {
      assert es + [e] == [e] && [e][1..] == [];
    } else {
      assert (es + [e])[1..] == es[1..] + [e] && (es + [e])[0] == es[0];
      LastStep(Apply(w, es[0]), es[1..], e);
    }
  }

  lemma LongerHistory(es: seq<Event>, e: Event, r: RequestId, d: DraftId)
    requires ReadPending(es, r, d)
    ensures ReadPending(es + [e], r, d)
  {
    hide Feasible, Run;
    var i :| 0 <= i < |es| && ReadPendingAt(es, i, r, d);
    assert (es + [e])[..i] == es[..i];
    assert ReadPendingAt(es + [e], i, r, d);
  }

  lemma {:induction false} HistoryOfRejects(es: seq<Event>)
    requires Feasible(INIT, es)
    ensures var w := Run(INIT, es);
            && (forall r <- w.requests :: w.requests[r].phase.Seen? && w.requests[r].action.Reject? ==>
                  ReadPending(es, r, w.requests[r].draft))
            && (forall d <- w.rows :: w.rows[d].state == Rejected ==> exists r :: ReadPending(es, r, d))
    decreases |es|
  {
    hide ReadPending, Feasible, Run;
    if es == [] {
      EmptyHistory();
    } else {
      var init, e := es[..|es| - 1], es[|es| - 1];
      assert es == init + [e];
      LastStep(INIT, init, e);
      HistoryOfRejects(init);
      OneMoreEvent(init, e, Run(INIT, init), Run(INIT, es));
    }
  }

  lemma EmptyHistory()
    ensures Run(INIT, []) == INIT
  {
  }

  lemma OneMoreEvent(init: seq<Event>, e: Event, w: World, v: World)
    requires Feasible(INIT, init) && w == Run(INIT, init) && Enabled(w, e) && v == Apply(w, e)
    requires forall r <- w.requests :: w.requests[r].phase.Seen? && w.requests[r].action.Reject? ==>
      ReadPending(init, r, w.requests[r].draft)
    requires forall d <- w.rows :: w.rows[d].state == Rejected ==> exists r :: ReadPending(init, r, d)
    ensures forall r <- v.requests :: v.requests[r].phase.Seen? && v.requests[r].action.Reject? ==>
      ReadPending(init + [e], r, v.requests[r].draft)
    ensures forall d <- v.rows :: v.rows[d].state == Rejected ==> exists r :: ReadPending(init + [e], r, d)
  {
    hide ReadPending, Run, Feasible;
    forall r, d | ReadPending(init, r, d)
      ensures ReadPending(init + [e], r, d)
    {
      LongerHistory(init, e, r, d);
    }
    if e.ReadRow? && v.requests[e.r].phase.Seen? && v.requests[e.r].action.Reject? {
      ReadJustNow(init, e.r);
    }
    if e.WriteReject? {
      assert ReadPending(init + [e], e.r, w.requests[e.r].draft);
    }
  }

  lemma ReadJustNow(init: seq<Event>, r: RequestId)
    requires Feasible(INIT, init) && Enabled(Run(INIT, init), ReadRow(r))
    requires Apply(Run(INIT, init), ReadRow(r)).requests[r].phase.Seen? && Run(INIT, init).requests[r].action.Reject?
    ensures ReadPending(init + [ReadRow(r)], r, Run(INIT, init).requests[r].draft)
  {
    hide Run, Feasible;
    var es := init + [ReadRow(r)];
    assert es[..|init|] == init;
    FirstReadDecides(Run(INIT, init), r);
    assert ReadPendingAt(es, |init|, r, Run(INIT, init).requests[r].draft);
  }

  /** In every run, a draft that shows as rejected was pending when some reject of it read it first. */
  lemma RejectedWasReadPending(es: seq<Event>, d: DraftId)
    requires Feasible(INIT, es) && d in Run(INIT, es).rows && Run(INIT, es).rows[d].state == Rejected
    ensures exists r :: ReadPending(es, r, d)
  {
    hide ReadPending, Feasible, Run;
    HistoryOfRejects(es);
  }
}
