/** What a callback's outcome leads to in every run of the manager (internal/core/manager.go). */
module OutcomeRuns {
  import opened Options
  import opened Protocol
  import opened ManagerState
  import opened ManagerRuns
  import opened OperationRuns

  predicate AsksForConfirmation(err: Option<RpcError>) {
    err.Some? && err.value.kind == CONFIRMATION_REQUIRED
  }

  /** The record of a callback that returned (result, err): completed without an error, cancelled or
      failed with that error, or waiting for a confirmation if it asked for one, until that is settled. */
  ghost predicate Follows(op: Operation, result: string, err: Option<RpcError>) {
    && op.result == result
    && (err == None ==> op.status == Completed && op.err == None)
    && (err.Some? && err.value.kind == CANCELLED ==> op.status == Cancelled && op.err == err)
    && (err.Some? && err.value.kind == CONFIRMATION_REQUIRED ==>
       (op.status == Awaiting && op.err == err) || Settled(op))
    && (err.Some? && err.value.kind != CANCELLED && err.value.kind != CONFIRMATION_REQUIRED ==>
          op.status == Failed && op.err == err)
  }

  ghost predicate Recorded(s: System, k: nat)
    requires k in s.core.heap
  {
    if s.core.heap[k].status == Running then k !in s.outcome
    else k in s.outcome && Follows(s.core.heap[k], s.outcome[k].0, s.outcome[k].1)
  }

  ghost predicate AllRecorded(s: System) {
    && (forall k | k in s.core.heap :: Recorded(s, k))
    && (forall k | k in s.outcome :: k in s.core.heap)
  }

  lemma SettlingRecords(s: System, t: System)
    requires AllRecorded(s) && OpsSettle(s.core, t.core) && t.outcome == s.outcome
    ensures AllRecorded(t)
  {
    forall k | k in t.core.heap ensures Recorded(t, k) {
      assert Recorded(s, k) && RecordSettles(s.core, t.core, k);
    }
  }

  lemma StartRecords(s: System, t: System, x: nat, op: Operation)
    requires AllRecorded(s) && Starts(s, t, x, op)
    ensures AllRecorded(t)
  {
    forall k | k in t.core.heap ensures Recorded(t, k) {
      assert k != s.nextSerial ==> Recorded(s, k);
    }
  }

  lemma ReturnRecords(s: System, t: System, x: nat, k: nat, result: string, err: Option<RpcError>, now: int)
    requires AllRecorded(s) && Returns(s, t, x, k, result, err, now)
    ensures AllRecorded(t)
  {
    forall j | j in t.core.heap ensures Recorded(t, j) {
      assert j != k ==> Recorded(s, j);
    }
  }

  lemma StepRecords(s: System, st: Step)
    requires OpsGood(s) && AllRecorded(s) && Enabled(s, st)
    ensures AllRecorded(Apply(s, st))
  {
    hide After, AllRecorded, HistoryGood;
    if st.Return? {
      ReturnEffect(s, st);
      ReturnRecords(s, Apply(s, st), st.caller, st.serial, st.result, st.err, st.now);
    } else if st.Enter? {
      hide EnterOperation;
      EnterRecords(s, st);
    } else {
      SettlingStepEffect(s, st);
      StepSettles(s.core, s.nextSerial, st);
      SettlingRecords(s, Apply(s, st));
    }
  }

  lemma EnterRecords(s: System, st: Step)
    requires RecordsGood(s) && AllRecorded(s) && Enabled(s, st) && st.Enter?
    ensures AllRecorded(Apply(s, st))
  {
    var t := Apply(s, st);
    if t.nextSerial == s.nextSerial {
      AnswerEffect(s, st);
      SameOpsSettle(s.core, t.core);
      SettlingRecords(s, t);
    } else {
      StartEffect(s, st);
      StartRecords(s, t, st.caller, Operation(st.id, st.session, st.tab, st.fingerprint, Running, "", None, 0, false));
    }
  }

  lemma {:induction false} RunRecords(s: System, steps: seq<Step>, t: System)
    requires OpsGood(s) && AllRecorded(s) && IsRun(s, steps, t)
    ensures AllRecorded(t)
    decreases |steps|
  {
    hide OpsGood, AllRecorded, Apply, Enabled;
    if steps != [] {
      StepRecords(s, steps[0]);
      StepKeepsOps(s, steps[0]);
      RunRecords(Apply(s, steps[0]), steps[1..], t);
    }
  }

  /** In every reachable state each finished record follows from what its callback returned: without an
      error it is completed, after CANCELLED it is cancelled, after CONFIRMATION_REQUIRED it waits or was
      settled, and after anything else it failed. Nothing else ever waits for a confirmation. */
  lemma StatusFollowsOutcome(s: System, k: nat)
    requires Reachable(s) && k in s.core.heap
    ensures s.core.heap[k].status == Running <==> k !in s.outcome
    ensures k in s.outcome ==> Follows(s.core.heap[k], s.outcome[k].0, s.outcome[k].1)
    ensures s.core.heap[k].status == Awaiting ==> k in s.outcome && AsksForConfirmation(s.outcome[k].1)
  {
    hide Apply, Enabled;
    var steps :| IsRun(INITIAL, steps, s);
    RunRecords(INITIAL, steps, s);
    assert Recorded(s, k);
  }

  // ---------------------------------------------------------------- the outcome is what was returned

  lemma OutcomeStays(s: System, st: Step, k: nat)
    requires OpsGood(s) && AllRecorded(s) && Enabled(s, st) && k in s.outcome
    ensures k in Apply(s, st).outcome && Apply(s, st).outcome[k] == s.outcome[k]
  {
    hide After, EnterOperation, HistoryGood, RecordsGood;
    if st.Return? {
      assert CallerGood(s, st.caller) && Recorded(s, st.serial);
    }
  }

  lemma {:induction false} RunKeepsOutcome(s: System, steps: seq<Step>, t: System, k: nat)
    requires OpsGood(s) && AllRecorded(s) && IsRun(s, steps, t) && k in s.outcome
    ensures k in t.outcome && t.outcome[k] == s.outcome[k]
    decreases |steps|
  {
    hide OpsGood, AllRecorded, Apply, Enabled;
    if steps != [] {
      OutcomeStays(s, steps[0], k);
      StepRecords(s, steps[0]);
      StepKeepsOps(s, steps[0]);
      RunKeepsOutcome(Apply(s, steps[0]), steps[1..], t, k);
    }
  }

  /** What the step of a returning callback writes. */
  lemma ReturnWrites(s: System, st: Step)
    requires OpsGood(s) && Enabled(s, st) && st.Return?
    ensures var t := Apply(s, st);
            && st.serial in t.core.heap && st.serial in t.outcome && t.outcome[st.serial] == (st.result, st.err)
            && Follows(t.core.heap[st.serial], st.result, st.err) && t.core.heap[st.serial].completedAt == st.now
            && (!AsksForConfirmation(st.err) ==> Terminal(t.core.heap[st.serial].status))
            && st.caller in t.callers && t.callers[st.caller] == Answered(st.serial, st.result, st.err)
  {
    hide HistoryGood, RecordsGood;
    ReturnEffect(s, st);
  }

  /** Over any run, for every callback that returned: the record holds what it returned, with the status that
      calls for, and unless it asked for a confirmation, from that moment on and stamped with its time. */
  lemma {:induction false} ReturnIsRecorded(s: System, steps: seq<Step>, t: System, i: nat)
    requires OpsGood(s) && AllRecorded(s) && IsRun(s, steps, t) && i < |steps| && steps[i].Return?
    ensures var st := steps[i];
            && st.serial in t.core.heap && Follows(t.core.heap[st.serial], st.result, st.err)
            && (!AsksForConfirmation(st.err) ==> t.core.heap[st.serial].completedAt == st.now)
    decreases |steps|
  {
    hide OpsGood, AllRecorded, Apply, Enabled, Follows;
    var u, k := Apply(s, steps[0]), steps[i].serial;
    StepRecords(s, steps[0]);
    StepKeepsOps(s, steps[0]);
    if i > 0 {
      ReturnIsRecorded(u, steps[1..], t, i - 1);
    } else {
      ReturnWrites(s, steps[0]);
      RunKeepsOutcome(u, steps[1..], t, k);
      RunRecords(u, steps[1..], t);
      RecordFollows(t, k);
      if !AsksForConfirmation(steps[0].err) {
        TerminalStaysFinal(u, steps[1..], t, k);
      }
    }
  }

  lemma RecordFollows(t: System, k: nat)
    requires AllRecorded(t) && k in t.outcome
    ensures k in t.core.heap && Follows(t.core.heap[k], t.outcome[k].0, t.outcome[k].1)
  {
    assert Recorded(t, k);
  }

  // ---------------------------------------------------------------- entering again

  /** A second callback for an id needs a confirmation to have been asked for, or an hour to have passed. */
  lemma SecondStartNeedsReason(s: System, i: nat, j: nat)
    requires Reachable(s) && i < j < |s.begun| && s.begun[i].operation == s.begun[j].operation
    ensures var k := s.begun[i].serial;
            && k in s.gone && k in s.core.heap && k in s.outcome
            && (s.gone[k] == ReplacedWhileAwaiting ==> AsksForConfirmation(s.outcome[k].1))
            && (s.gone[k].Collected? ==> s.gone[k].at - s.core.heap[k].completedAt > 3_600_000_000_000)
  {
    SecondStartNeedsRemoval(s, i, j);
    StatusFollowsOutcome(s, s.begun[i].serial);
  }

  /** A request under a listed id, from its own open session and with its own fingerprint: it waits while the
      callback runs, is answered with the outcome once there is one, and starts another callback only when
      the outcome asked for a confirmation that is still open. */
  lemma EnterAgain(s: System, x: nat, session: string, tab: string, id: string, fingerprint: string)
    requires Reachable(s) && Enabled(s, Enter(x, session, tab, id, fingerprint))
    requires id != "" && session in s.core.sessions && s.core.sessions[session].open && id in s.core.table
    requires var k := s.core.table[id];
             k in s.core.heap && s.core.heap[k].session == session && s.core.heap[k].fingerprint == fingerprint
    ensures var k, t := s.core.table[id], Apply(s, Enter(x, session, tab, id, fingerprint));
            && x in t.callers
            && (k !in s.outcome ==> t.callers[x] == WaitingFor(k) && t.core == s.core && t.begun == s.begun)
            && (k in s.outcome && !AsksForConfirmation(s.outcome[k].1) ==>
                  t.callers[x] == Answered(k, s.outcome[k].0, s.outcome[k].1) && t.core == s.core && t.begun == s.begun)
            && (k in s.outcome && AsksForConfirmation(s.outcome[k].1) && s.core.heap[k].status == Awaiting ==>
                  t.callers[x] == InCallback(s.nextSerial) && t.begun == s.begun + [Begun(id, s.nextSerial)])
            && (k in s.outcome && AsksForConfirmation(s.outcome[k].1) && s.core.heap[k].status != Awaiting ==>
                  t.callers[x] == Answered(k, s.outcome[k].0, s.core.heap[k].err) && t.core == s.core &&
                  t.begun == s.begun)
  {
    StatusFollowsOutcome(s, s.core.table[id]);
    hide Reachable;
  }

  /** Whoever waited for a running callback is answered with its outcome, unless that asked for a
      confirmation which was settled meanwhile. */
  lemma WaiterGetsTheOutcome(s: System, x: nat, k: nat)
    requires Reachable(s) && Enabled(s, Observe(x, k))
    ensures var t := Apply(s, Observe(x, k));
            && k in s.outcome && x in t.callers && t.callers[x].Answered? && t.callers[x].result == s.outcome[k].0
            && (!AsksForConfirmation(s.outcome[k].1) ==> t.callers[x].err == s.outcome[k].1)
            && (t.callers[x].err != s.outcome[k].1 ==> Settled(s.core.heap[k]))
  {
    StatusFollowsOutcome(s, k);
    hide Reachable;
  }

  lemma ReachableRecords(s: System)
    requires Reachable(s)
    ensures AllRecorded(s)
  {
    hide Apply, Enabled;
    var steps :| IsRun(INITIAL, steps, s);
    RunRecords(INITIAL, steps, s);
  }

  /** A new id starts a callback, and a closed or unknown session never does. */
  lemma EnterFirst(s: System, x: nat, session: string, tab: string, id: string, fingerprint: string)
    requires Enabled(s, Enter(x, session, tab, id, fingerprint))
    ensures var t := Apply(s, Enter(x, session, tab, id, fingerprint));
            if id == "" || session !in s.core.sessions || !s.core.sessions[session].open
            then t.callers == s.callers[x := TurnedAway] && t.core == s.core && t.begun == s.begun
            else id !in s.core.table ==>
                   t.callers == s.callers[x := InCallback(s.nextSerial)] &&
                       t.begun == s.begun + [Begun(id, s.nextSerial)]
  {
  }
}
