/** A cancelled operation context stays cancelled in every run of the manager (internal/core/manager.go). */
module ContextRuns {
  import opened Options
  import opened Protocol
  import opened ManagerState
  import opened ManagerRuns
  import opened OperationRuns

  ghost predicate StaysCancelled(c: Core, d: Core) {
    forall k | k in c.heap :: k in d.heap && (c.heap[k].cancelRequested ==> d.heap[k].cancelRequested)
  }

  lemma SameHeap(c: Core, d: Core)
    requires d.heap == c.heap
    ensures StaysCancelled(c, d)
  {
  }

  lemma DropKeepsContexts(c: Core, gone: set<string>, now: int)
    ensures StaysCancelled(c, DropLeases(c, gone, now))
  {
    hide LosesLease, Listed;
  }

  lemma CancelKeepsContexts(c: Core, session: string, tab: string, now: int)
    ensures StaysCancelled(c, CancelOperations(c, session, tab, now))
  {
    hide Matches, Listed;
  }

  lemma ValidKeepsContexts(c: Core, s: string, tab: string, lease: string, open: bool, now: int)
    ensures StaysCancelled(c, ValidLease(c, s, tab, lease, open, now).0)
  {
    hide DropLeases;
    DropKeepsContexts(c, {tab}, now);
    SameHeap(c, c);
  }

  /** The steps on one lease. */
  lemma LeaseStepKeepsContexts(c: Core, serial: nat, st: Step)
    requires st.Claim? || st.Renew? || st.Bind? || st.Validate? || st.Release? || st.RevokeOne?
    ensures StaysCancelled(c, After(c, serial, st))
  {
    hide DropLeases, StaysCancelled;
    DropKeepsContexts(c, {st.tab}, st.now);
    SameHeap(c, c);
    if st.Claim? {
      ClaimHeap(c, st.session, st.tab, st.ttl, st.force, st.id, st.leaseTtl, st.now);
      HeapDecides(c, DropLeases(c, {st.tab}, st.now), After(c, serial, st));
    } else if !st.RevokeOne? {
      ValidKeepsContexts(c, st.session, st.tab, st.lease, !st.Release?, st.now);
      TouchHeap(c, serial, st);
      HeapDecides(c, ValidLease(c, st.session, st.tab, st.lease, !st.Release?, st.now).0, After(c, serial, st));
      HeapDecides(c, DropLeases(c, {st.tab}, st.now), After(c, serial, st));
    }
  }

  lemma ClaimHeap(c: Core, s: string, tab: string, ttl: int, force: bool, id: string, leaseTtl: int, now: int)
    ensures ClaimTab(c, s, tab, ttl, force, id, leaseTtl, now).0.heap in {c.heap, DropLeases(c, {tab}, now).heap}
  {
    hide DropLeases, SessionError, EffectiveTtl;
  }

  lemma TouchHeap(c: Core, serial: nat, st: Step)
    requires st.Renew? || st.Bind? || st.Validate? || st.Release?
    ensures After(c, serial, st).heap in
              {c.heap, ValidLease(c, st.session, st.tab, st.lease, !st.Release?, st.now).0.heap,
               DropLeases(c, {st.tab}, st.now).heap}
  {
    hide DropLeases, SessionError, EffectiveTtl;
  }

  lemma HeapDecides(c: Core, x: Core, d: Core)
    ensures StaysCancelled(c, x) && d.heap == x.heap ==> StaysCancelled(c, d)
    ensures d.heap == c.heap ==> StaysCancelled(c, d)
  {
  }

  /** The steps on many leases and records at once. */
  lemma SweepKeepsContexts(c: Core, serial: nat, st: Step)
    requires st.Close? || st.Stop? || st.RevokeAllIn? || st.Janitor?
    ensures StaysCancelled(c, After(c, serial, st))
  {
    hide DropLeases, CancelOperations, LapsedFor, Listed, Settle;
    match st {
      case Close(s, now) =>
        if s in c.sessions && c.sessions[s].open {
          var closed := c.(sessions := c.sessions[s := c.sessions[s].(open := false)]);
          DropKeepsContexts(closed, TabsOf(c, s), now);
          CancelKeepsContexts(DropLeases(closed, TabsOf(c, s), now), s, "", now);
        }
      case Stop(now) => CancelKeepsContexts(Stopped(c), "", "", now);
      case RevokeAllIn(browser, now) => DropKeepsContexts(c, TabsIn(c, browser), now);
      case Janitor(now) => DropKeepsContexts(c, ExpiredTabs(c, now), now);
    }
  }

  /** The steps on confirmations, which may settle an awaiting record. */
  lemma DecisionKeepsContexts(c: Core, serial: nat, st: Step)
    requires st.CancelOne? || st.Check? || st.Decide?
    ensures StaysCancelled(c, After(c, serial, st))
  {
    hide Settle, Authorize, Resolve, CancelOperation, StaysCancelled;
    match st {
      case CancelOne(s, id, now) => CancelOneKeepsContexts(c, s, id, now);
      case Check(id, s, tab, browser, hash, now) => CheckKeepsContexts(c, id, s, tab, browser, hash, now);
      case Decide(id, decision, now) => DecideKeepsContexts(c, id, decision, now);
    }
  }

  lemma CancelOneKeepsContexts(c: Core, s: string, id: string, now: int)
    ensures StaysCancelled(c, CancelOperation(c, s, id, now).0)
  {
    hide Settle;
  }

  lemma CheckKeepsContexts(c: Core, id: string, s: string, tab: string, browser: string, hash: string, now: int)
    ensures StaysCancelled(c, Authorize(c, id, s, tab, browser, hash, now).0)
  {
  }

  lemma DecideKeepsContexts(c: Core, id: string, decision: Verdict, now: int)
    ensures StaysCancelled(c, Resolve(c, id, decision, now).0)
  {
    hide SessionError;
  }

  lemma OtherStepKeepsContexts(c: Core, serial: nat, st: Step)
    requires st.Open? || st.UseQueue? || st.Observe? || st.Abandon? || st.CancelLate? || st.Ask? || st.Use? ||
             st.Return?
    ensures StaysCancelled(c, After(c, serial, st))
  {
    hide AllCapabilities, SameRequest;
  }

  lemma StepKeepsContexts(s: System, st: Step)
    requires RecordsGood(s) && Enabled(s, st)
    ensures StaysCancelled(s.core, Apply(s, st).core)
  {
    hide After, EnterOperation, StaysCancelled;
    if st.Enter? {
      EnterKeepsContexts(s, st);
    } else if st.Claim? || st.Renew? || st.Bind? || st.Validate? || st.Release? || st.RevokeOne? {
      LeaseStepKeepsContexts(s.core, s.nextSerial, st);
    } else if st.Close? || st.Stop? || st.RevokeAllIn? || st.Janitor? {
      SweepKeepsContexts(s.core, s.nextSerial, st);
    } else if st.CancelOne? || st.Check? || st.Decide? {
      DecisionKeepsContexts(s.core, s.nextSerial, st);
    } else {
      OtherStepKeepsContexts(s.core, s.nextSerial, st);
    }
  }

  lemma EnterKeepsContexts(s: System, st: Step)
    requires RecordsGood(s) && Enabled(s, st) && st.Enter?
    ensures StaysCancelled(s.core, Apply(s, st).core)
  {
    hide Apply, Enabled, RecordsGood;
    forall k | k in s.core.heap
      ensures k in Apply(s, st).core.heap && Apply(s, st).core.heap[k] == s.core.heap[k]
    {
      EnterKeepsRecord(s, st, k);
    }
  }

  /** Whoever was told to stop stays told, over any continuation. */
  lemma {:induction false} ContextStaysCancelled(s: System, steps: seq<Step>, t: System, k: nat)
    requires OpsGood(s) && IsRun(s, steps, t) && k in s.core.heap && s.core.heap[k].cancelRequested
    ensures k in t.core.heap && t.core.heap[k].cancelRequested
    decreases |steps|
  {
    hide Apply, Enabled, RecordsGood, CallersGood, HistoryGood;
    if steps != [] {
      StepKeepsContexts(s, steps[0]);
      StepKeepsOps(s, steps[0]);
      ContextStaysCancelled(Apply(s, steps[0]), steps[1..], t, k);
    }
  }
}
