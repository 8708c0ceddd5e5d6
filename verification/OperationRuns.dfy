/** At-most-once execution of operations in every run of the manager (internal/core/manager.go). */
module OperationRuns {
  import opened Options
  import opened Protocol
  import opened ManagerState
  import opened ManagerRuns

  predicate Terminal(st: Status) {
    st == Completed || st == Failed || st == Cancelled
  }

  ghost predicate SameOutcome(a: Operation, b: Operation) {
    a.status == b.status && a.result == b.result && a.err == b.err && a.completedAt == b.completedAt
  }

  /** How an awaiting record ends without another callback: cancelled, denied or expired, and it says so. */
  predicate Settled(op: Operation) {
    || (op.status == Cancelled && op.err == Some(RpcError(CANCELLED, NoEffect)))
    || (op.status == Failed && op.err == Some(RpcError(USER_DENIED, NoEffect)))
    || (op.status == Failed && op.err == Some(RpcError(CONFIRMATION_EXPIRED, NoEffect)))
  }

  /** What may happen to one record outside ExecuteOperation: an awaiting record still in the table
      is settled, or nothing but the cancel flag moves. */
  ghost predicate RecordSettles(c: Core, d: Core, k: nat)
    requires k in c.heap && k in d.heap
  {
    var a, b := c.heap[k], d.heap[k];
    && a.id == b.id && a.session == b.session && a.tab == b.tab && a.fingerprint == b.fingerprint
    && (SameOutcome(a, b) ||
        (a.status == Awaiting && Listed(c, k) && Settled(b) && b.result == a.result))
  }

  ghost predicate OpsSettle(c: Core, d: Core) {
    && d.heap.Keys == c.heap.Keys
    && (forall k | k in c.heap :: RecordSettles(c, d, k))
    && (forall i | i in d.table :: i in c.table && d.table[i] == c.table[i])
    && (forall i | i in c.table && i !in d.table :: c.table[i] in d.heap ==> d.heap[c.table[i]].status != Running)
  }

  lemma SettleTransitive(a: Core, b: Core, c: Core)
    requires OpsSettle(a, b) && OpsSettle(b, c)
    ensures OpsSettle(a, c)
  {
  }

  lemma SameOpsSettle(c: Core, d: Core)
    requires d.heap == c.heap && d.table == c.table
    ensures OpsSettle(c, d)
  {
  }

  lemma FinishAwaitingSettles(c: Core, id: string, status: Status, kind: Kind, now: int)
    requires (status == Cancelled && kind == CANCELLED) || (status == Failed &&
            kind in {USER_DENIED, CONFIRMATION_EXPIRED})
    requires id in c.table && c.table[id] in c.heap ==> c.heap[c.table[id]].id == id
    ensures OpsSettle(c, FinishAwaiting(c, id, status, kind, now))
  {
  }

  lemma CancelOperationsSettles(c: Core, session: string, tab: string, now: int)
    ensures OpsSettle(c, CancelOperations(c, session, tab, now))
  {
  }

  lemma DropLeasesSettles(c: Core, gone: set<string>, now: int)
    ensures OpsSettle(c, DropLeases(c, gone, now))
  {
  }

  lemma CollectSettles(c: Core, now: int)
    ensures OpsSettle(c, Collect(c, now))
  {
  }

  lemma ExpireLapsedSettles(c: Core, now: int)
    ensures OpsSettle(c, ExpireLapsed(c, now))
  {
  }

  lemma TickSettles(c: Core, now: int)
    ensures OpsSettle(c, Tick(c, now))
  {
    var x := DropLeases(c, ExpiredTabs(c, now), now);
    DropLeasesSettles(c, ExpiredTabs(c, now), now);
    CollectSettles(x, now);
    ExpireLapsedSettles(Collect(x, now), now);
    SettleTransitive(c, x, Collect(x, now));
    SettleTransitive(c, Collect(x, now), Tick(c, now));
  }

  lemma CloseSettles(c: Core, s: string, now: int)
    ensures OpsSettle(c, CloseSession(c, s, now))
  {
    if s !in c.sessions || !c.sessions[s].open {
      SameOpsSettle(c, c);
    } else {
      var closed := c.(sessions := c.sessions[s := c.sessions[s].(open := false)]);
      var x := DropLeases(closed, TabsOf(c, s), now);
      var y := CancelOperations(x, s, "", now);
      SameOpsSettle(c, closed);
      DropLeasesSettles(closed, TabsOf(c, s), now);
      CancelOperationsSettles(x, s, "", now);
      SameOpsSettle(y, CloseSession(c, s, now));
      SettleTransitive(c, closed, x);
      SettleTransitive(c, x, y);
      SettleTransitive(c, y, CloseSession(c, s, now));
    }
  }

  lemma StopSettles(c: Core, now: int)
    ensures OpsSettle(c, StopAll(c, now))
  {
  }

  ghost predicate SameOps(c: Core, d: Core) {
    d.heap == c.heap && d.table == c.table
  }

  lemma ValidOps(c: Core, s: string, tab: string, lease: string, open: bool, now: int)
    ensures var (d, r) := ValidLease(c, s, tab, lease, open, now);
            if r.Ok? then SameOps(c, d) else SameOps(c, d) || SameOps(DropLeases(c, {tab}, now), d)
  {
  }

  lemma TouchOps(c: Core, s: string, tab: string, lease: string, ttl: int, leaseTtl: int, browser: string, now: int)
    ensures var d := RenewLease(c, s, tab, lease, ttl, leaseTtl, now).0;
            SameOps(c, d) || SameOps(DropLeases(c, {tab}, now), d)
    ensures var d := BindBrowser(c, s, tab, lease, browser, now).0;
            SameOps(c, d) || SameOps(DropLeases(c, {tab}, now), d)
  {
    hide DropLeases, SessionError, EffectiveTtl;
  }

  lemma LeaveOps(c: Core, s: string, tab: string, lease: string, now: int)
    ensures var d := ReleaseTab(c, s, tab, lease, now).0;
            SameOps(c, d) || SameOps(DropLeases(c, {tab}, now), d)
    ensures var d := RevokeTab(c, tab, now).0;
            SameOps(c, d) || SameOps(DropLeases(c, {tab}, now), d)
  {
    hide DropLeases, SessionError, EffectiveTtl;
  }

  lemma OneTabSettles(c: Core, tab: string, now: int, d: Core)
    requires SameOps(c, d) || SameOps(DropLeases(c, {tab}, now), d)
    ensures OpsSettle(c, d)
  {
  }

  lemma ClaimOps(c: Core, s: string, tab: string, ttl: int, force: bool, id: string, leaseTtl: int, now: int)
    ensures var d := ClaimTab(c, s, tab, ttl, force, id, leaseTtl, now).0;
            SameOps(c, d) || SameOps(DropLeases(c, {tab}, now), d)
  {
    hide DropLeases, SessionError, EffectiveTtl;
  }

  lemma LeaseStepSettles(c: Core, serial: nat, st: Step)
    requires st.Renew? || st.Bind? || st.Validate? || st.Release? || st.RevokeOne?
    ensures OpsSettle(c, After(c, serial, st))
  {
    if st.Renew? {
      TouchOps(c, st.session, st.tab, st.lease, st.ttl, st.leaseTtl, "", st.now);
    } else if st.Bind? {
      TouchOps(c, st.session, st.tab, st.lease, 0, 0, st.browser, st.now);
    } else if st.Validate? {
      ValidOps(c, st.session, st.tab, st.lease, true, st.now);
    } else if st.Release? {
      LeaveOps(c, st.session, st.tab, st.lease, st.now);
    } else {
      LeaveOps(c, "", st.tab, "", st.now);
    }
    OneTabSettles(c, st.tab, st.now, After(c, serial, st));
  }

  lemma RevokeBrowserSettles(c: Core, browser: string, now: int)
    ensures OpsSettle(c, RevokeBrowser(c, browser, now))
  {
  }

  lemma CancelOneSettles(c: Core, s: string, id: string, now: int)
    requires TableGood(c)
    ensures OpsSettle(c, CancelOperation(c, s, id, now).0)
  {
    var d := CancelOperation(c, s, id, now).0;
    FinishAwaitingSettles(c, id, Cancelled, CANCELLED, now);
    SameOpsSettle(c, c);
    var x := FinishAwaiting(c, id, Cancelled, CANCELLED, now);
    assert (d.heap == c.heap && d.table == c.table) || (d.heap == x.heap && d.table == x.table);
  }

  lemma FinishAfterDecision(c: Core, id: string, status: Decision, kind: Kind, now: int)
    requires TableGood(c) && id in c.confirmations && kind in {USER_DENIED, CONFIRMATION_EXPIRED}
    ensures OpsSettle(c, FinishAwaiting(SetDecision(c, id, status), c.confirmations[id].operation, Failed, kind, now))
  {
  }

  lemma CheckSettles(c: Core, id: string, s: string, tab: string, browser: string, hash: string, now: int)
    requires TableGood(c)
    ensures OpsSettle(c, Authorize(c, id, s, tab, browser, hash, now).0)
  {
    SameOpsSettle(c, c);
    if id in c.confirmations {
      FinishAfterDecision(c, id, Expired, CONFIRMATION_EXPIRED, now);
    }
  }

  lemma DecideSettles(c: Core, id: string, decision: Verdict, now: int)
    requires TableGood(c)
    ensures OpsSettle(c, Resolve(c, id, decision, now).0)
  {
    var d := Resolve(c, id, decision, now).0;
    if id in c.confirmations && c.confirmations[id].status == Pending && now > c.confirmations[id].expiresAt {
      FinishAfterDecision(c, id, Expired, CONFIRMATION_EXPIRED, now);
    } else if id in c.confirmations && c.confirmations[id].status == Pending && decision == Deny {
      FinishAfterDecision(c, id, Denied, USER_DENIED, now);
    } else {
      assert d.heap == c.heap;
      SameOpsSettle(c, d);
    }
  }

  lemma QuietStep(c: Core, serial: nat, st: Step)
    requires st.Open? || st.UseQueue? || st.Observe? || st.Abandon? || st.Ask? || st.Use?
    ensures After(c, serial, st).heap == c.heap && After(c, serial, st).table == c.table
  {
    hide ClaimTab, RenewLease, BindBrowser, ValidLease, ReleaseTab, RevokeTab, RevokeBrowser, CloseSession, StopAll,
         EnterOperation, FinishOperation, CancelOperation, CancelContext, CreateConfirmation, Authorize, Consume,
         Resolve, Tick;
  }

  lemma RemovalStepSettles(c: Core, serial: nat, st: Step)
    requires st.Close? || st.Stop? || st.Claim? || st.Renew? || st.Bind? || st.Validate? || st.Release? ||
             st.RevokeOne? ||
             st.RevokeAllIn? || st.Janitor?
    ensures OpsSettle(c, After(c, serial, st))
  {
    if st.Close? {
      CloseSettles(c, st.session, st.now);
    } else if st.Stop? {
      StopSettles(c, st.now);
    } else if st.Claim? {
      ClaimOps(c, st.session, st.tab, st.ttl, st.force, st.id, st.leaseTtl, st.now);
      OneTabSettles(c, st.tab, st.now, After(c, serial, st));
    } else if st.RevokeAllIn? {
      RevokeBrowserSettles(c, st.browser, st.now);
    } else if st.Janitor? {
      TickSettles(c, st.now);
    } else {
      LeaseStepSettles(c, serial, st);
    }
  }

  lemma CancelLateSettles(c: Core, k: nat)
    ensures OpsSettle(c, CancelContext(c, k))
  {
  }

  /** Every step outside ExecuteOperation. */
  lemma StepSettles(c: Core, serial: nat, st: Step)
    requires TableGood(c) && !st.Enter? && !st.Return?
    ensures OpsSettle(c, After(c, serial, st))
  {
    hide OpsSettle, SameOps, ClaimTab, RenewLease, BindBrowser, ValidLease, ReleaseTab, RevokeTab, RevokeBrowser,
         CloseSession, StopAll, CancelOperation, CancelContext, CreateConfirmation, Authorize, Consume, Resolve, Tick;
    if st.CancelOne? {
      CancelOneSettles(c, st.session, st.id, st.now);
    } else if st.Check? {
      CheckSettles(c, st.id, st.session, st.tab, st.browser, st.hash, st.now);
    } else if st.Decide? {
      DecideSettles(c, st.id, st.decision, st.now);
    } else if st.CancelLate? {
      CancelLateSettles(c, st.serial);
    } else if st.Open? || st.UseQueue? || st.Observe? || st.Abandon? || st.Ask? || st.Use? {
      QuietStep(c, serial, st);
      SameOpsSettle(c, After(c, serial, st));
    } else {
      RemovalStepSettles(c, serial, st);
    }
  }

  // ---------------------------------------------------------------- the invariant

  ghost predicate RecordsGood(s: System) {
    && TableGood(s.core)
    && (forall k | k in s.core.heap ::
          && k < s.nextSerial
          && (s.core.heap[k].status == Running ==> Listed(s.core, k))
          && (s.core.heap[k].status == Completed ==>
                k in s.outcome && s.outcome[k] == (s.core.heap[k].result, None) && s.core.heap[k].err == None))
  }

  /** Where each caller of ExecuteOperation stands with its record. */
  ghost predicate CallerGood(s: System, x: nat)
    requires x in s.callers
  {
    match s.callers[x]
    case InCallback(k) => k in s.core.heap && s.core.heap[k].status == Running
    case WaitingFor(k) => k in s.core.heap
    case Answered(k, result, err) =>
      && k in s.core.heap && s.core.heap[k].status != Running
      && (s.core.heap[k].status == Completed ==> k in s.outcome && s.outcome[k] == (result, err))
    case TurnedAway => true
  }

  ghost predicate CallersGood(s: System) {
    && (forall x | x in s.callers :: CallerGood(s, x))
    && (forall x, y | x in s.callers && y in s.callers && s.callers[x].InCallback? && s.callers[x] == s.callers[y] ::
          x == y)
  }

  ghost predicate HistoryGood(s: System) {
    && (forall b | b in s.begun ::
          && b.serial in s.core.heap && s.core.heap[b.serial].id == b.operation
          && (Listed(s.core, b.serial) || b.serial in s.gone))
    && (forall b | b in s.begun && b.operation in s.core.table :: b.serial <= s.core.table[b.operation])
    && (forall i, j | 0 <= i < j < |s.begun| :: s.begun[i].serial < s.begun[j].serial)
    && (forall k | k in s.gone ::
          && k in s.core.heap && !Listed(s.core, k) && s.core.heap[k].status != Running
          && (s.gone[k] == ReplacedWhileAwaiting ==> s.core.heap[k].status == Awaiting)
          && (s.gone[k].Collected? ==> Collectable(s.core.heap[k], s.gone[k].at)))
  }

  ghost predicate OpsGood(s: System) {
    RecordsGood(s) && CallersGood(s) && HistoryGood(s)
  }

  lemma SettlingKeepsRecords(s: System, t: System)
    requires RecordsGood(s) && OpsSettle(s.core, t.core) && t.nextSerial == s.nextSerial && t.outcome == s.outcome
    ensures RecordsGood(t)
  {
  }

  lemma SettlingKeepsCaller(s: System, t: System, x: nat)
    requires x in s.callers && CallerGood(s, x) && OpsSettle(s.core, t.core)
    requires x in t.callers && t.callers[x] == s.callers[x] && t.outcome == s.outcome
    ensures CallerGood(t, x)
  {
  }

  lemma SettlingKeepsHistory(s: System, t: System, now: int)
    requires TableGood(s.core) && HistoryGood(s) && OpsSettle(s.core, t.core) && t.begun == s.begun
    requires t.gone == MarkCollected(s.gone, s.core.table, t.core.table, now)
    requires forall k | k in Dropped(s.core.table, t.core.table) :: k in t.core.heap && Collectable(t.core.heap[k], now)
    ensures HistoryGood(t)
  {
    var lost := Dropped(s.core.table, t.core.table);
    forall k | k in s.core.heap ensures Listed(s.core, k) <==> Listed(t.core, k) || k in lost {
      assert RecordSettles(s.core, t.core, k);
    }
    forall k | k in t.gone
      ensures k in t.core.heap && !Listed(t.core, k) && t.core.heap[k].status != Running
      ensures t.gone[k] == ReplacedWhileAwaiting ==> t.core.heap[k].status == Awaiting
      ensures t.gone[k].Collected? ==> Collectable(t.core.heap[k], t.gone[k].at)
    {
      assert k in s.core.heap && RecordSettles(s.core, t.core, k);
    }
    forall b | b in t.begun ensures t.core.heap[b.serial].id == b.operation {
      assert RecordSettles(s.core, t.core, b.serial);
    }
  }

  function TickTime(st: Step): int {
    if st.Janitor? then st.now else 0
  }

  /** What a tick takes out of the table had been finished for more than an hour. */
  lemma TickCollects(c: Core, now: int)
    requires TableGood(c)
    ensures forall k | k in Dropped(c.table, Tick(c, now).table) ::
              k in Tick(c, now).heap && Collectable(Tick(c, now).heap[k], now)
  {
    var x := DropLeases(c, ExpiredTabs(c, now), now);
    var y := Collect(x, now);
    var d := ExpireLapsed(y, now);
    forall k | k in Dropped(c.table, d.table) ensures k in d.heap && Collectable(d.heap[k], now) {
      var i :| i in c.table && i !in d.table && c.table[i] == k;
      assert x.heap[k].id == i;
      assert !Listed(y, k);
    }
  }

  lemma StepCollects(s: System, st: Step)
    requires RecordsGood(s) && Enabled(s, st) && !st.Enter? && !st.Return?
    ensures forall k | k in Dropped(s.core.table, Apply(s, st).core.table) ::
              k in Apply(s, st).core.heap && Collectable(Apply(s, st).core.heap[k], TickTime(st))
  {
    hide Tick;
    if st.Janitor? {
      TickCollects(s.core, st.now);
    } else {
      hide After, Apply;
      SettlingStepEffect(s, st);
    }
  }

  /** Steps outside ExecuteOperation touch the callers only by answering or dismissing a waiter. */
  lemma SettlingStepEffect(s: System, st: Step)
    requires Enabled(s, st) && !st.Enter? && !st.Return?
    ensures var t := Apply(s, st);
            && t.core == After(s.core, s.nextSerial, st)
            && t.nextSerial == s.nextSerial && t.outcome == s.outcome && t.begun == s.begun
            && t.gone == MarkCollected(s.gone, s.core.table, t.core.table, TickTime(st))
            && (!st.Janitor? ==> t.core.table == s.core.table)
            && t.callers.Keys == s.callers.Keys
            && (forall x | x in s.callers && t.callers[x] != s.callers[x] ::
                  s.callers[x].WaitingFor? && (t.callers[x].TurnedAway? ||
                    (s.callers[x].serial in s.core.heap && s.core.heap[s.callers[x].serial].status != Running &&
                     t.core == s.core &&
                     t.callers[x] == Answered(s.callers[x].serial, s.core.heap[s.callers[x].serial].result,
                                              s.core.heap[s.callers[x].serial].err))))
  {
    if !st.Janitor? {
      OnlyJanitorCollects(s.core, s.nextSerial, st);
    }
    hide After;
    if !st.Janitor? {
      assert Dropped(s.core.table, s.core.table) == {};
      assert MarkCollected(s.gone, s.core.table, s.core.table, TickTime(st)) == s.gone;
    }
  }

  lemma SettlingStepKeepsOps(s: System, st: Step)
    requires OpsGood(s) && Enabled(s, st) && !st.Enter? && !st.Return?
    ensures OpsGood(Apply(s, st))
  {
    SettlingStepEffect(s, st);
    StepSettles(s.core, s.nextSerial, st);
    SettlingKeepsRecords(s, Apply(s, st));
    StepCollects(s, st);
    SettlingKeepsHistory(s, Apply(s, st), TickTime(st));
    SettlingKeepsCallers(s, Apply(s, st));
  }

  lemma SettlingKeepsCallers(s: System, t: System)
    requires RecordsGood(s) && CallersGood(s) && OpsSettle(s.core, t.core) && t.outcome == s.outcome
    requires t.callers.Keys == s.callers.Keys
    requires forall x | x in s.callers && t.callers[x] != s.callers[x] ::
               t.callers[x].TurnedAway? ||
               (t.callers[x].Answered? && t.callers[x].serial in s.core.heap && t.core == s.core &&
                s.core.heap[t.callers[x].serial].status != Running &&
                t.callers[x].result == s.core.heap[t.callers[x].serial].result &&
                t.callers[x].err == s.core.heap[t.callers[x].serial].err)
    ensures CallersGood(t)
  {
    hide OpsSettle;
    forall x | x in t.callers ensures CallerGood(t, x) {
      if t.callers[x] == s.callers[x] {
        SettlingKeepsCaller(s, t, x);
      }
    }
  }

  lemma OnlyJanitorCollects(c: Core, serial: nat, st: Step)
    requires !st.Janitor? && !st.Enter?
    ensures After(c, serial, st).table == c.table
  {
    hide ClaimTab, RenewLease, BindBrowser, ValidLease, ReleaseTab, RevokeTab, RevokeBrowser, CloseSession, StopAll,
         EnterOperation, FinishOperation, CancelOperation, CancelContext, CreateConfirmation, Authorize, Consume,
         Resolve, Tick;
  }

  /** The caller that starts a callback finds the id unused, collected or awaiting. */
  lemma EnterShape(s: System, st: Step)
    requires RecordsGood(s) && Enabled(s, st) && st.Enter?
    ensures var (d, e) := EnterOperation(s.core, st.session, st.tab, st.id, st.fingerprint, s.nextSerial);
            match e
            case Rejected(_) => d == s.core
            case Replay(k, result, err) =>
              d == s.core && Listed(d, k) && d.heap[k].status != Running && result == d.heap[k].result &&
                  err == d.heap[k].err
            case Join(k) => d == s.core && Listed(d, k) && d.heap[k].status == Running
            case Start(k) =>
              && k == s.nextSerial && k !in s.core.heap
              && d.heap == s.core.heap[
                   k := Operation(st.id, st.session, st.tab, st.fingerprint, Running, "", None, 0, false)]
              && d.table == s.core.table[st.id := k]
              && (st.id in s.core.table ==> s.core.heap[s.core.table[st.id]].status == Awaiting)
  {
  }

  /** A callback starts: one new record, listed under its id, and one new caller inside it. */
  ghost predicate Starts(s: System, t: System, x: nat, op: Operation) {
    var k := s.nextSerial;
    && k !in s.core.heap && op.status == Running && x !in s.callers
    && t.core.heap == s.core.heap[k := op] && t.core.table == s.core.table[op.id := k]
    && t.callers == s.callers[x := InCallback(k)] && t.outcome == s.outcome && t.nextSerial == k + 1
    && t.begun == s.begun + [Begun(op.id, k)]
    && (op.id in s.core.table ==>
          s.core.table[op.id] in s.core.heap && s.core.heap[s.core.table[op.id]].status == Awaiting)
    && t.gone == if op.id in s.core.table then s.gone[s.core.table[op.id] := ReplacedWhileAwaiting] else s.gone
  }

  lemma StartEffect(s: System, st: Step)
    requires RecordsGood(s) && Enabled(s, st) && st.Enter? && Apply(s, st).nextSerial == s.nextSerial + 1
    ensures Starts(s, Apply(s, st), st.caller,
                   Operation(st.id, st.session, st.tab, st.fingerprint, Running, "", None, 0, false))
  {
    EnterShape(s, st);
  }

  lemma StartKeepsRecords(s: System, t: System, x: nat, op: Operation)
    requires RecordsGood(s) && CallersGood(s) && Starts(s, t, x, op)
    ensures RecordsGood(t) && CallersGood(t)
  {
    forall y | y in t.callers ensures CallerGood(t, y) {
      assert y != x ==> CallerGood(s, y);
    }
    forall y, z | y in t.callers && z in t.callers && t.callers[y].InCallback? && t.callers[y] == t.callers[z]
      ensures y == z
    {
      assert y != x ==> CallerGood(s, y);
      assert z != x ==> CallerGood(s, z);
    }
  }

  lemma StartRelists(s: System, t: System, x: nat, op: Operation)
    requires RecordsGood(s) && Starts(s, t, x, op)
    ensures forall j | j in s.core.heap :: Listed(t.core, j) <==> Listed(s.core, j) && s.core.heap[j].id != op.id
    ensures Listed(t.core, s.nextSerial)
  {
  }

  lemma StartKeepsBegun(s: System, t: System, x: nat, op: Operation, b: Begun)
    requires RecordsGood(s) && HistoryGood(s) && Starts(s, t, x, op) && b in t.begun
    ensures b.serial in t.core.heap && t.core.heap[b.serial].id == b.operation
    ensures Listed(t.core, b.serial) || b.serial in t.gone
    ensures b.operation in t.core.table ==> b.serial <= t.core.table[b.operation]
  {
  }

  lemma StartKeepsHistory(s: System, t: System, x: nat, op: Operation)
    requires RecordsGood(s) && HistoryGood(s) && Starts(s, t, x, op)
    ensures HistoryGood(t)
  {
    forall b | b in t.begun
      ensures b.serial in t.core.heap && t.core.heap[b.serial].id == b.operation
      ensures Listed(t.core, b.serial) || b.serial in t.gone
      ensures b.operation in t.core.table ==> b.serial <= t.core.table[b.operation]
    {
      StartKeepsBegun(s, t, x, op, b);
    }
    forall i, j | 0 <= i < j < |t.begun| ensures t.begun[i].serial < t.begun[j].serial {
      assert t.begun[i] in s.begun;
    }
    StartRelists(s, t, x, op);
  }

  lemma StartKeepsOps(s: System, st: Step)
    requires OpsGood(s) && Enabled(s, st) && st.Enter? && Apply(s, st).nextSerial == s.nextSerial + 1
    ensures OpsGood(Apply(s, st))
  {
    var op := Operation(st.id, st.session, st.tab, st.fingerprint, Running, "", None, 0, false);
    StartEffect(s, st);
    StartKeepsRecords(s, Apply(s, st), st.caller, op);
    StartKeepsHistory(s, Apply(s, st), st.caller, op);
  }

  /** A caller that starts nothing only takes its seat. */
  lemma AnswerEffect(s: System, st: Step)
    requires RecordsGood(s) && Enabled(s, st) && st.Enter? && Apply(s, st).nextSerial == s.nextSerial
    ensures var e := EnterOperation(s.core, st.session, st.tab, st.id, st.fingerprint, s.nextSerial).1;
            !e.Start? && Apply(s, st) == s.(callers := s.callers[st.caller := Seated(e)])
  {
    hide EnterOperation;
    EnterShape(s, st);
  }

  lemma SeatKeepsCallers(s: System, x: nat, seat: Caller)
    requires CallersGood(s) && x !in s.callers && !seat.InCallback?
    requires seat.WaitingFor? ==> seat.serial in s.core.heap
    requires seat.Answered? ==>
               && seat.serial in s.core.heap && s.core.heap[seat.serial].status != Running
               && (s.core.heap[seat.serial].status == Completed ==>
                     seat.serial in s.outcome && s.outcome[seat.serial] == (seat.result, seat.err))
    ensures CallersGood(s.(callers := s.callers[x := seat]))
  {
    var t := s.(callers := s.callers[x := seat]);
    forall y | y in t.callers ensures CallerGood(t, y) {
      assert y != x ==> CallerGood(s, y);
    }
  }

  lemma AnsweredKeepsOps(s: System, st: Step)
    requires OpsGood(s) && Enabled(s, st) && st.Enter? && Apply(s, st).nextSerial == s.nextSerial
    ensures OpsGood(Apply(s, st))
  {
    var t := Apply(s, st);
    EnterShape(s, st);
    AnswerEffect(s, st);
    hide Apply, EnterOperation, CallersGood, CallerGood, Seated;
    SeatKeepsCallers(s, st.caller, t.callers[st.caller]);
  }

  /** A callback returns: its record takes the final status and the answer. */
  ghost predicate Returns(s: System, t: System, x: nat, k: nat, result: string, err: Option<RpcError>, now: int) {
    && x in s.callers && s.callers[x] == InCallback(k) && k in s.core.heap
    && t.core.table == s.core.table
    && t.core.heap == s.core.heap[k := s.core.heap[k].(status := FinalStatus(err), result := result, err := err,
                                                       completedAt := now, cancelRequested := true)]
    && t.callers == s.callers[x := Answered(k, result, err)] && t.outcome == s.outcome[k := (result, err)]
    && t.nextSerial == s.nextSerial && t.begun == s.begun && t.gone == s.gone
  }

  lemma ReturnEffect(s: System, st: Step)
    requires CallersGood(s) && Enabled(s, st) && st.Return?
    ensures Returns(s, Apply(s, st), st.caller, st.serial, st.result, st.err, st.now)
  {
  }

  lemma ReturnKeepsRecords(s: System, t: System, x: nat, k: nat, result: string, err: Option<RpcError>, now: int)
    requires RecordsGood(s) && CallersGood(s) && Returns(s, t, x, k, result, err, now)
    ensures RecordsGood(t) && CallersGood(t)
  {
    forall y | y in t.callers ensures CallerGood(t, y) {
      assert CallerGood(s, y) && CallerGood(s, x);
    }
  }

  lemma ReturnKeepsHistory(s: System, t: System, x: nat, k: nat, result: string, err: Option<RpcError>, now: int)
    requires RecordsGood(s) && CallersGood(s) && HistoryGood(s) && Returns(s, t, x, k, result, err, now)
    ensures HistoryGood(t)
  {
  }

  lemma ReturnKeepsOps(s: System, st: Step)
    requires OpsGood(s) && Enabled(s, st) && st.Return?
    ensures OpsGood(Apply(s, st))
  {
    ReturnEffect(s, st);
    ReturnKeepsRecords(s, Apply(s, st), st.caller, st.serial, st.result, st.err, st.now);
    ReturnKeepsHistory(s, Apply(s, st), st.caller, st.serial, st.result, st.err, st.now);
  }

  lemma StepKeepsOps(s: System, st: Step)
    requires OpsGood(s) && Enabled(s, st)
    ensures OpsGood(Apply(s, st))
  {
    if st.Return? {
      ReturnKeepsOps(s, st);
    } else if !st.Enter? {
      SettlingStepKeepsOps(s, st);
    } else if Apply(s, st).nextSerial == s.nextSerial {
      AnsweredKeepsOps(s, st);
    } else {
      StartKeepsOps(s, st);
    }
  }

  lemma {:induction false} RunKeepsOps(s: System, steps: seq<Step>, t: System)
    requires OpsGood(s) && IsRun(s, steps, t)
    ensures OpsGood(t)
    decreases |steps|
  {
    if steps != [] {
      StepKeepsOps(s, steps[0]);
      RunKeepsOps(Apply(s, steps[0]), steps[1..], t);
    }
  }

  lemma ReachableOps(s: System)
    requires Reachable(s)
    ensures OpsGood(s)
  {
    var steps :| IsRun(INITIAL, steps, s);
    RunKeepsOps(INITIAL, steps, s);
  }

  // ---------------------------------------------------------------- theorems

  /** At most one callback per operation id is in flight, and its record is the one in the table. */
  lemma OneCallbackAtATime(s: System, x: nat, y: nat)
    requires Reachable(s) && x in s.callers && y in s.callers
    requires s.callers[x].InCallback? && s.callers[y].InCallback?
    requires s.callers[x].serial in s.core.heap && s.callers[y].serial in s.core.heap
    requires s.core.heap[s.callers[x].serial].id == s.core.heap[s.callers[y].serial].id
    ensures x == y && Listed(s.core, s.callers[x].serial)
  {
    ReachableOps(s);
    assert CallerGood(s, x) && CallerGood(s, y);
  }

  /** When a callback was started twice for one id, the earlier record had left the table: it was
      awaiting confirmation when a retry replaced it, or the janitor had collected it more than an hour
      after it was finished. */
  lemma SecondStartNeedsRemoval(s: System, i: nat, j: nat)
    requires Reachable(s) && i < j < |s.begun| && s.begun[i].operation == s.begun[j].operation
    ensures var k := s.begun[i].serial;
            && k in s.gone && k in s.core.heap && s.core.heap[k].status != Running
            && (s.gone[k] == ReplacedWhileAwaiting ==> s.core.heap[k].status == Awaiting)
            && (s.gone[k].Collected? ==> s.gone[k].at - s.core.heap[k].completedAt > HOUR)
  {
    ReachableOps(s);
    assert s.begun[i] in s.begun && s.begun[j] in s.begun;
  }

  lemma EnterKeepsRecord(s: System, st: Step, k: nat)
    requires RecordsGood(s) && Enabled(s, st) && st.Enter? && k in s.core.heap
    ensures k in Apply(s, st).core.heap && Apply(s, st).core.heap[k] == s.core.heap[k]
  {
    hide EnterOperation;
    EnterShape(s, st);
  }

  /** Completed, failed and cancelled are final, whatever the step. */
  lemma TerminalIsFinal(s: System, st: Step, k: nat)
    requires OpsGood(s) && Enabled(s, st) && k in s.core.heap && Terminal(s.core.heap[k].status)
    ensures k in Apply(s, st).core.heap && SameOutcome(s.core.heap[k], Apply(s, st).core.heap[k])
  {
    hide After, HistoryGood;
    if st.Return? {
      ReturnEffect(s, st);
      assert CallerGood(s, st.caller);
    } else if st.Enter? {
      EnterKeepsRecord(s, st, k);
    } else {
      StepSettles(s.core, s.nextSerial, st);
      SettlingStepEffect(s, st);
      assert RecordSettles(s.core, Apply(s, st).core, k);
    }
  }

  lemma {:induction false} TerminalStaysFinal(s: System, steps: seq<Step>, t: System, k: nat)
    requires OpsGood(s) && IsRun(s, steps, t) && k in s.core.heap && Terminal(s.core.heap[k].status)
    ensures k in t.core.heap && SameOutcome(s.core.heap[k], t.core.heap[k])
    decreases |steps|
  {
    if steps != [] {
      TerminalIsFinal(s, steps[0], k);
      StepKeepsOps(s, steps[0]);
      TerminalStaysFinal(Apply(s, steps[0]), steps[1..], t, k);
    }
  }

  /** Whoever was answered from a completed record, the executor or a replay, got exactly what the
      one callback of that record returned. */
  lemma ReplaysReturnTheResult(s: System, x: nat)
    requires Reachable(s) && x in s.callers && s.callers[x].Answered?
    requires s.callers[x].serial in s.core.heap && s.core.heap[s.callers[x].serial].status == Completed
    ensures var a := s.callers[x];
            a.serial in s.outcome && s.outcome[a.serial] == (a.result, None) && a.err == None &&
            s.core.heap[a.serial].result == a.result
  {
    ReachableOps(s);
    assert CallerGood(s, x);
  }

  /** A request under a used id with another session or another fingerprint changes nothing, runs
      nothing and is told so. */
  lemma MismatchIsRejected(s: System, x: nat, session: string, tab: string, id: string, fingerprint: string)
    requires Reachable(s) && Enabled(s, Enter(x, session, tab, id, fingerprint)) && id in s.core.table
    requires var op := s.core.table[id];
             op in s.core.heap && (s.core.heap[op].session != session || s.core.heap[op].fingerprint != fingerprint)
    ensures var t := Apply(s, Enter(x, session, tab, id, fingerprint));
            t.core == s.core && t.begun == s.begun && t.callers == s.callers[x := TurnedAway]
  {
  }
}
