/** What holds of confirmations in every run of the manager (internal/core/manager.go). */
module ConfirmationRuns {
  import opened Options
  import opened Protocol
  import opened ManagerState
  import opened ManagerRuns

  ghost predicate IsOpen(c: Core, s: string) {
    s in c.sessions && c.sessions[s].open
  }

  /** A pending confirmation belongs to an open session and is the only pending one for its request. */
  ghost predicate ConfirmationsGood(c: Core, issued: set<string>) {
    && (forall i | i in c.confirmations :: i in issued && c.confirmations[i].id == i)
    && (forall i | i in c.confirmations && c.confirmations[i].status == Pending ::
       IsOpen(c, c.confirmations[i].session))
    && (forall i, j | i in c.confirmations && j in c.confirmations &&
                      c.confirmations[i].status == Pending && c.confirmations[j].status == Pending &&
                      SameRequest(c.confirmations[i], c.confirmations[j]) :: i == j)
  }

  ghost predicate OnlyStatusMoves(a: Confirmation, b: Confirmation) {
    b == a.(status := b.status) && (b.status == Pending ==> a.status == Pending)
  }

  /** Confirmations keep their request, nothing becomes pending again, and the pending ones that
      remain still have an open session. */
  ghost predicate ConfirmationsSettle(c: Core, d: Core) {
    && d.confirmations.Keys == c.confirmations.Keys
    && (forall i | i in c.confirmations :: OnlyStatusMoves(c.confirmations[i], d.confirmations[i]))
    && (forall i | i in d.confirmations && d.confirmations[i].status == Pending &&
                   IsOpen(c, d.confirmations[i].session) :: IsOpen(d, d.confirmations[i].session))
  }

  lemma SettlingKeepsConfirmations(c: Core, d: Core, issued: set<string>, ids: set<string>)
    requires ConfirmationsGood(c, issued) && ConfirmationsSettle(c, d)
    ensures ConfirmationsGood(d, issued + ids)
  {
  }

  ghost predicate SessionsStayOpen(c: Core, d: Core) {
    forall s | IsOpen(c, s) :: IsOpen(d, s)
  }

  lemma OpenShape(c: Core, id: string)
    ensures SessionsStayOpen(c, OpenSession(c, id)) && OpenSession(c, id).confirmations == c.confirmations
  {
  }

  lemma LeaseStepLeavesConfirmations(c: Core, serial: nat, st: Step)
    requires st.Claim? || st.Renew? || st.Bind? || st.Validate? || st.Release? || st.RevokeOne?
    ensures After(c, serial, st).sessions == c.sessions && After(c, serial, st).confirmations == c.confirmations
  {
    hide ClaimTab, RenewLease, BindBrowser, ValidLease, ReleaseTab, RevokeTab, RevokeBrowser, CloseSession, StopAll,
         EnterOperation, FinishOperation, CancelOperation, CancelContext, CreateConfirmation, Authorize, Consume,
         Resolve, Tick;
  }

  lemma OperationStepLeavesConfirmations(c: Core, serial: nat, st: Step)
    requires st.UseQueue? || st.Enter? || st.Return? || st.Observe? || st.Abandon? || st.CancelLate?
    ensures After(c, serial, st).sessions == c.sessions && After(c, serial, st).confirmations == c.confirmations
  {
    hide ClaimTab, RenewLease, BindBrowser, ValidLease, ReleaseTab, RevokeTab, RevokeBrowser, CloseSession, StopAll,
         EnterOperation, FinishOperation, CancelOperation, CancelContext, CreateConfirmation, Authorize, Consume,
         Resolve, Tick;
  }

  lemma CloseSettles(c: Core, s: string, now: int)
    ensures ConfirmationsSettle(c, CloseSession(c, s, now))
  {
  }

  lemma StopSettles(c: Core, now: int)
    ensures ConfirmationsSettle(c, StopAll(c, now))
  {
  }

  lemma RevocationSettles(c: Core, browser: string, now: int)
    ensures ConfirmationsSettle(c, RevokeBrowser(c, browser, now))
  {
    hide DropLeases;
  }

  lemma TickSettles(c: Core, now: int)
    ensures ConfirmationsSettle(c, Tick(c, now))
  {
    hide DropLeases, LapsedFor, Listed;
  }

  lemma CancelSettles(c: Core, s: string, id: string, now: int)
    ensures ConfirmationsSettle(c, CancelOperation(c, s, id, now).0)
  {
  }

  /** One decision is recorded, or none. */
  ghost predicate OneDecision(c: Core, d: Core, id: string) {
    d.confirmations == c.confirmations ||
    exists status :: status != Pending && id in c.confirmations &&
                     d.confirmations == c.confirmations[id := c.confirmations[id].(status := status)]
  }

  lemma OneDecisionSettles(c: Core, d: Core, id: string)
    requires OneDecision(c, d, id) && SessionsStayOpen(c, d)
    ensures ConfirmationsSettle(c, d)
  {
  }

  lemma CheckSettles(c: Core, id: string, s: string, tab: string, browser: string, hash: string, now: int)
    ensures ConfirmationsSettle(c, Authorize(c, id, s, tab, browser, hash, now).0)
  {
    var d := Authorize(c, id, s, tab, browser, hash, now).0;
    assert d.sessions == c.sessions;
    assert d.confirmations == c.confirmations || d.confirmations == SetDecision(c, id, Expired).confirmations;
    OneDecisionSettles(c, d, id);
  }

  lemma UseSettles(c: Core, id: string)
    ensures ConfirmationsSettle(c, Consume(c, id).0)
  {
    var d := Consume(c, id).0;
    assert d == c || d == SetDecision(c, id, Consumed);
    OneDecisionSettles(c, d, id);
  }

  lemma DecideSettles(c: Core, id: string, decision: Verdict, now: int)
    ensures ConfirmationsSettle(c, Resolve(c, id, decision, now).0)
  {
    var d := Resolve(c, id, decision, now).0;
    assert SessionsStayOpen(c, d) by {
      assert forall s | s in c.sessions :: d.sessions[s].open == c.sessions[s].open;
    }
    DecideIsOneDecision(c, id, decision, now);
    OneDecisionSettles(c, d, id);
  }

  lemma DecideIsOneDecision(c: Core, id: string, decision: Verdict, now: int)
    ensures OneDecision(c, Resolve(c, id, decision, now).0, id)
  {
  }

  lemma AskKeeps(c: Core, ask: Confirmation, ttl: int, now: int, issued: set<string>)
    requires ConfirmationsGood(c, issued) && ask.id !in issued
    ensures ConfirmationsGood(CreateConfirmation(c, ask, ttl, now), issued + {ask.id})
  {
  }

  lemma SameConfirmationsSettle(c: Core, d: Core)
    requires d.confirmations == c.confirmations && SessionsStayOpen(c, d)
    ensures ConfirmationsSettle(c, d)
  {
  }

  lemma StepSettles(c: Core, serial: nat, st: Step)
    requires !st.Ask?
    ensures ConfirmationsSettle(c, After(c, serial, st))
  {
    hide ConfirmationsSettle, RevokeBrowser, CloseSession, StopAll, CancelOperation, Authorize, Consume, Resolve, Tick;
    if st.Open? {
      OpenShape(c, st.session);
      SameConfirmationsSettle(c, After(c, serial, st));
    } else if st.Close? {
      CloseSettles(c, st.session, st.now);
    } else if st.Stop? {
      StopSettles(c, st.now);
    } else if st.RevokeAllIn? {
      RevocationSettles(c, st.browser, st.now);
    } else if st.Janitor? {
      TickSettles(c, st.now);
    } else if st.CancelOne? {
      CancelSettles(c, st.session, st.id, st.now);
    } else if st.Check? {
      CheckSettles(c, st.id, st.session, st.tab, st.browser, st.hash, st.now);
    } else if st.Use? {
      UseSettles(c, st.id);
    } else if st.Decide? {
      DecideSettles(c, st.id, st.decision, st.now);
    } else {
      RoutineStepSettles(c, serial, st);
    }
  }

  lemma RoutineStepSettles(c: Core, serial: nat, st: Step)
    requires st.Claim? || st.Renew? || st.Bind? || st.Validate? || st.Release? || st.RevokeOne? ||
             st.UseQueue? || st.Enter? || st.Return? || st.Observe? || st.Abandon? || st.CancelLate?
    ensures ConfirmationsSettle(c, After(c, serial, st))
  {
    if st.UseQueue? || st.Enter? || st.Return? || st.Observe? || st.Abandon? || st.CancelLate? {
      OperationStepLeavesConfirmations(c, serial, st);
    } else {
      LeaseStepLeavesConfirmations(c, serial, st);
    }
    SameConfirmationsSettle(c, After(c, serial, st));
  }

  lemma StepKeepsConfirmations(s: System, st: Step)
    requires ConfirmationsGood(s.core, s.issued) && Enabled(s, st)
    ensures ConfirmationsGood(Apply(s, st).core, Apply(s, st).issued)
  {
    if st.Ask? {
      AskKeeps(s.core, st.ask, st.ttl, st.now, s.issued);
    } else {
      StepSettles(s.core, s.nextSerial, st);
      SettlingKeepsConfirmations(s.core, After(s.core, s.nextSerial, st), s.issued, NewIds(st));
    }
  }

  lemma {:induction false} RunKeepsConfirmations(s: System, steps: seq<Step>, t: System)
    requires ConfirmationsGood(s.core, s.issued) && IsRun(s, steps, t)
    ensures ConfirmationsGood(t.core, t.issued)
    decreases |steps|
  {
    if steps != [] {
      StepKeepsConfirmations(s, steps[0]);
      RunKeepsConfirmations(Apply(s, steps[0]), steps[1..], t);
    }
  }

  /** In every reachable state pending confirmations belong to open sessions and no two ask the
      same; so approving one in time always takes effect and never meets a closed session. */
  lemma ApprovalFindsItsSession(s: System, id: string, now: int)
    requires Reachable(s)
    ensures ConfirmationsGood(s.core, s.issued)
    ensures id in s.core.confirmations && s.core.confirmations[id].status == Pending &&
            now <= s.core.confirmations[id].expiresAt ==>
              var f, (d, err) := s.core.confirmations[id], Resolve(s.core, id, Approve, now);
              && err == None && d.confirmations[id].status == Approved
              && (f.kind == Capability ==>
                 f.session in d.sessions && f.capabilities <= d.sessions[f.session].capabilities)
  {
    var steps :| IsRun(INITIAL, steps, s);
    RunKeepsConfirmations(INITIAL, steps, s);
  }

  /** Where a status may go in one step. */
  predicate MayBecome(a: Decision, b: Decision) {
    || a == b
    || (a == Pending && b in {Approved, Denied, Withdrawn})
    || (a == Approved && b == Consumed)
    || b == Expired
  }

  /** A pending confirmation is withdrawn or expires with others, or nothing happens to it. */
  lemma BulkMoves(c: Core, serial: nat, st: Step, id: string)
    requires id in c.confirmations && (st.Close? || st.Stop? || st.RevokeAllIn? || st.CancelOne? || st.Janitor?)
    ensures id in After(c, serial, st).confirmations
    ensures var was, f := c.confirmations[id], After(c, serial, st).confirmations[id];
            f == was || (was.status == Pending && f == was.(status := if st.Janitor? then Expired else Withdrawn))
  {
  }

  /** The steps about one confirmation: a check may let it expire, its use consumes it, a decision ends its wait. */
  lemma SingleMoves(c: Core, serial: nat, st: Step, id: string)
    requires id in c.confirmations && (st.Ask? || st.Check? || st.Use? || st.Decide? || st.Open?)
    requires st.Ask? ==> st.ask.id !in c.confirmations
    ensures id in After(c, serial, st).confirmations
    ensures var was, f := c.confirmations[id], After(c, serial, st).confirmations[id];
            || f == was
            || (st.Check? && st.id == id && f == was.(status := Expired))
            || (st == Use(id) && was.status == Approved && f == was.(status := Consumed))
            || (st.Decide? && st.id == id && was.status == Pending && st.now <= was.expiresAt &&
                f == was.(status := if st.decision == Approve then Approved else Denied))
            || (st.Decide? && st.id == id && was.status == Pending && st.now > was.expiresAt &&
               f == was.(status := Expired))
  {
    hide DropLeases, CancelOperations, AllCapabilities, Resolve, Authorize;
    if st.Decide? {
      DecideMoves(c, st.id, st.decision, st.now, id);
    } else if st.Check? {
      CheckMoves(c, st.id, st.session, st.tab, st.browser, st.hash, st.now, id);
    }
  }

  lemma DecideMoves(c: Core, asked: string, decision: Verdict, now: int, id: string)
    requires id in c.confirmations
    ensures id in Resolve(c, asked, decision, now).0.confirmations
    ensures var was, f := c.confirmations[id], Resolve(c, asked, decision, now).0.confirmations[id];
            || f == was
            || (asked == id && was.status == Pending && now <= was.expiresAt &&
                f == was.(status := if decision == Approve then Approved else Denied))
            || (asked == id && was.status == Pending && now > was.expiresAt && f == was.(status := Expired))
  {
  }

  lemma CheckMoves(c: Core, asked: string, s: string, tab: string, browser: string, hash: string, now: int, id: string)
    requires id in c.confirmations
    ensures id in Authorize(c, asked, s, tab, browser, hash, now).0.confirmations
    ensures var was, f := c.confirmations[id], Authorize(c, asked, s, tab, browser, hash, now).0.confirmations[id];
            f == was || (asked == id && f == was.(status := Expired))
  {
  }

  /** Statuses only move forward, except that any may expire; and nobody but a timely approval of a
      pending confirmation makes it approved, nobody but its use makes it consumed. */
  lemma DecisionsMoveForward(c: Core, serial: nat, st: Step, id: string)
    requires id in c.confirmations && (st.Ask? ==> st.ask.id !in c.confirmations)
    ensures id in After(c, serial, st).confirmations
    ensures var was, f := c.confirmations[id], After(c, serial, st).confirmations[id];
            && MayBecome(was.status, f.status) && f == was.(status := f.status)
            && (f.status == Approved && was.status != Approved ==>
                  st.Decide? && st.id == id && st.decision == Approve && was.status == Pending &&
                      st.now <= was.expiresAt)
            && (f.status == Consumed && was.status != Consumed ==> st == Use(id) && was.status == Approved)
  {
    hide After;
    if st.Close? || st.Stop? || st.RevokeAllIn? || st.CancelOne? || st.Janitor? {
      BulkMoves(c, serial, st, id);
    } else if st.Ask? || st.Check? || st.Use? || st.Decide? || st.Open? {
      SingleMoves(c, serial, st, id);
    } else if st.UseQueue? || st.Enter? || st.Return? || st.Observe? || st.Abandon? || st.CancelLate? {
      OperationStepLeavesConfirmations(c, serial, st);
    } else {
      LeaseStepLeavesConfirmations(c, serial, st);
    }
  }
}
