/** The draft protocol as it runs: handlers over a shared table, each proved to take its step. */
module DraftDesk {
  import opened Options
  import opened Drafts

  class Desk {
    var rows: map<DraftId, Row>
    var requests: map<RequestId, Request>
    var generators: map<GeneratorId, Generator>
    var now: int
    var bills: seq<Billing>
    var releases: seq<DraftId>

    ghost function State(): World
      reads this
    {
      World(rows, requests, generators, bills, releases, now)
    }

    constructor ()
      ensures State() == INIT
    {
      rows, requests, generators, now := map[], map[], map[], 0;
      bills, releases := [], [];
    }

    method MoveTo(r: RequestId, p: Phase)
      requires r in requests
      modifies `requests
      ensures State() == Move(old(State()), r, p)
    {
      requests := requests[r := requests[r].(phase := p)];
    }

    /** The first read of a decision, with its three refusals. */
    method ReadDraft(r: RequestId)
      requires Enabled(State(), ReadRow(r))
      modifies this
      ensures State() == Apply(old(State()), ReadRow(r))
    {
      var q := requests[r];
      if q.draft !in rows {
        MoveTo(r, Done(NotFound));
        return;
      }
      var s := rows[q.draft];
      if s.state != Pending {
        MoveTo(r, Done(AlreadyDecided(s.state)));
        return;
      }
      if q.action.Accept? && s.expiresAt <= now {
        MoveTo(r, Done(Expired));
        return;
      }
      MoveTo(r, Seen(s.text));
    }

    /** The rejecting write looks at the id alone. */
    method RejectDraft(r: RequestId)
      requires Enabled(State(), WriteReject(r))
      modifies this
      ensures State() == Apply(old(State()), WriteReject(r))
    {
      var q := requests[r];
      var row := rows[q.draft];
      rows := rows[q.draft := row.(state := Rejected, decided := Some(Decision(q.user, now)))];
      MoveTo(r, Done(Declined));
    }

    /** A conditional write on one row: how many rows met the condition. */
    method ClaimWhereUnexpiredPending(d: DraftId, q: Request) returns (count: nat)
      requires q.action.Accept?
      modifies `rows
      ensures count == if Claimable(old(rows), d, now) then 1 else 0
      ensures rows == if count == 1 then old(rows)[d := ClaimedRow(old(rows)[d], q, now)] else old(rows)
    {
      if d !in rows || rows[d].state != Pending || rows[d].expiresAt <= now {
        return 0;
      }
      var edited := q.action.edited;
      var targetState := if edited != "" then Edited else Accepted;
      rows := rows[d := rows[d].(state := targetState,
                                 editedText := if edited != "" then Some(edited) else None,
                                 decided := Some(Decision(q.user, now)))];
      return 1;
    }

    method ClaimDraft(r: RequestId)
      requires Enabled(State(), Claim(r))
      modifies this
      ensures State() == Apply(old(State()), Claim(r))
    {
      var q := requests[r];
      var lapsed := q.draft in rows && rows[q.draft].state == Pending;
      var body := if q.action.edited != "" then q.action.edited else q.phase.text;
      var count := ClaimWhereUnexpiredPending(q.draft, q);
      if count == 0 {
        MoveTo(r, Lost(lapsed, |releases|));
      } else {
        MoveTo(r, Claimed(body, now));
      }
    }

    /** A claim that lost looks again to tell expiry from a decision. */
    method ExplainLoss(r: RequestId)
      requires Enabled(State(), Reread(r))
      modifies this
      ensures State() == Apply(old(State()), Reread(r))
    {
      var d := requests[r].draft;
      if d !in rows {
        MoveTo(r, Done(DecidedUnknown));
      } else if rows[d].state == Pending {
        MoveTo(r, Done(Expired));
      } else {
        MoveTo(r, Done(AlreadyDecided(rows[d].state)));
      }
    }

    /** The provider call of a claimed draft. */
    method CallProvider(r: RequestId)
      requires Enabled(State(), Provider(r))
      modifies this
      ensures State() == Apply(old(State()), Provider(r))
    {
      var q := requests[r];
      bills := bills + [Billing(r, q.draft, q.phase.body, q.phase.at)];
      MoveTo(r, Billed);
    }

    /** The send failed: only the codes raised before a provider call lead to a release. */
    method CatchFailure(r: RequestId, code: Code)
      requires Enabled(State(), Fail(r, code))
      modifies this
      ensures State() == Apply(old(State()), Fail(r, code))
    {
      if code in {EmptyBody, MessageTooLong, ContactHasNoPhone, ProviderNotConfigured,
                  Outside24hWindow, ContactShareNotSupported, MessageNotFound} {
        MoveTo(r, Releasing(code));
      } else {
        MoveTo(r, Done(FailedWith(code)));
      }
    }

    /** Is another draft of this message pending? Decided by going through the table. */
    method AnotherPending(inbound: nat, d: DraftId) returns (found: bool)
      ensures found == !IndexAdmits(rows, inbound, d)
    {
      var rest := rows.Keys;
      while rest != {}
        invariant rest <= rows.Keys
        invariant forall o | o in rows && o !in rest ::
          o != d && rows[o].inbound == inbound ==> rows[o].state != Pending
        decreases rest
      {
        var o :| o in rest;
        if o != d && rows[o].inbound == inbound && rows[o].state == Pending {
          return true;
        }
        rest := rest - {o};
      }
      return false;
    }

    /** The releasing write, conditional on the state the claim wrote, and subject to the index. */
    method ReleaseDraft(r: RequestId)
      requires Enabled(State(), Release(r))
      modifies this
      ensures State() == Apply(old(State()), Release(r))
    {
      var q := requests[r];
      var d := q.draft;
      if d in rows && rows[d].state == Target(q.action) {
        var refused := AnotherPending(rows[d].inbound, d);
        if !refused {
          rows := rows[d := rows[d].(state := Pending, decided := None, editedText := None)];
          releases := releases + [d];
        }
      }
      MoveTo(r, Done(FailedWith(q.phase.code)));
    }

    /** The pending draft of a message, found by going through the table. */
    method FindCurrent(inbound: nat) returns (c: Option<DraftId>)
      ensures IsCurrent(rows, inbound, c)
    {
      var rest := rows.Keys;
      while rest != {}
        invariant rest <= rows.Keys
        invariant forall d | d in rows && d !in rest :: rows[d].inbound == inbound ==> rows[d].state != Pending
        decreases rest
      {
        var d :| d in rest;
        if rows[d].inbound == inbound && rows[d].state == Pending {
          return Some(d);
        }
        rest := rest - {d};
      }
      return None;
    }

    /** A generation looks up the draft it is going to supersede. */
    method LookUpCurrent(g: GeneratorId, inbound: nat) returns (c: Option<DraftId>)
      requires g !in generators
      modifies `generators
      ensures Enabled(old(State()), LookUp(g, inbound, c)) && State() == Apply(old(State()), LookUp(g, inbound, c))
    {
      c := FindCurrent(inbound);
      generators := generators[g := Generator(inbound, c)];
    }

    /** A generation's transaction: supersede what was looked up, insert the new draft, or neither. */
    method PersistSuggestion(g: GeneratorId, d: DraftId, text: string)
      requires Enabled(State(), Replace(g, d, text))
      modifies this
      ensures State() == Apply(old(State()), Replace(g, d, text))
    {
      var gen := generators[g];
      var before := rows;
      if gen.current.Some? && gen.current.value in rows {
        rows := rows[gen.current.value := rows[gen.current.value].(state := Superseded)];
      }
      var refused := AnotherPending(gen.inbound, d);
      if refused {
        rows := before;
      } else {
        rows := rows[d := Row(gen.inbound, text, now + SUGGESTION_TTL_MS, Pending, None, None)];
      }
      generators := generators - {g};
    }
  }
}
