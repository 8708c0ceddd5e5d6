/** What a forwarded call may rely on (internal/server/server.go): effects, answers, and lost leases. */
module ForwardingLaws {
  import opened Options
  import opened Protocol
  import opened ManagerState
  import M = ManagerRuns
  import Q = TabQueueRuns
  import Ops = OperationRuns
  import Contexts = ContextRuns
  import Exits = LeaseExits
  import opened Forwarding
  import opened ForwardingRuns

  // ---------------------------------------------------------------- effects

  /** An answered call reports a possible effect where it should: a mutating method that was handed to
      the bridge and failed without a verdict is marked, and one stopped before that is not touched. */
  lemma EffectIsAccounted(s: System, c: nat)
    requires Reachable(s) && c in s.jobs && s.jobs[c].phase.Told?
    ensures var j := s.jobs[c];
            var raw, answer := j.phase.raw, j.phase.answer;
            && answer.result == raw.result && (answer.err.Some? <==> raw.err.Some?)
            && (raw.err.Some? ==> answer.err.value.kind == raw.err.value.kind)
            && (j.handed && Mutating(j.name) && raw.err.Some? && Uncertain(raw.err.value.kind) ==>
                  answer.err.value.effect == Possible)
            && (!j.handed || !Mutating(j.name) || (raw.err.Some? && !Uncertain(raw.err.value.kind)) ==> answer == raw)
  {
    hide Mutating, Enabled, Apply, GoodPlace, Bound, Elsewhere;
    ReachableInv(s);
    assert JobGood(s, c);
  }

  /** Who ended the call decides: the queue's refusal is a plain cancellation of a call whose body never
      began, a failed preflight passes its own error on, and only the rest reached the bridge. */
  lemma StoppedEarlyMeansNoEffect(s: System, c: nat)
    requires Reachable(s) && c in s.jobs && s.jobs[c].phase.Told?
    ensures var j := s.jobs[c];
            && (j.phase.stop == ByBridge <==> j.handed)
            && (j.phase.stop == ByQueue ==>
                  && j.tab != "" && c !in QueueOf(s, j.tab).started
                  && j.phase.answer == Outcome("", Some(RpcError(CANCELLED, NoEffect))))
            && (j.phase.stop == ByGate ==>
                  j.phase.raw.err.Some? && j.phase.answer == j.phase.raw && NeedsPreflight(j.name))
  {
    hide Mutating, NeedsPreflight, Enabled, Apply, Bound, Elsewhere;
    ReachableInv(s);
    assert JobGood(s, c);
  }

  /** What the executing caller of ExecuteOperation gets back is that answer. */
  lemma ExecutorGetsTheAnswer(s: System, c: nat)
    requires Reachable(s) && c in s.jobs && s.jobs[c].finished
    ensures s.jobs[c].phase.Told? && c in s.manager.callers && s.manager.callers[c].Answered?
    ensures s.manager.callers[c].err == s.jobs[c].phase.answer.err
    ensures s.manager.callers[c].result == s.jobs[c].phase.answer.result
  {
    hide Mutating, NeedsPreflight, Account, Enabled, Apply, Elsewhere, GoodPlace;
    ReachableInv(s);
    assert JobGood(s, c);
  }

  // ---------------------------------------------------------------- tabs

  /** Calls on one tab run their bodies one at a time. */
  lemma OneBodyPerTab(s: System, c: nat, d: nat)
    requires Reachable(s) && c in s.jobs && d in s.jobs && s.jobs[c].tab == s.jobs[d].tab != ""
    requires InBody(s.jobs[c].phase) && InBody(s.jobs[d].phase)
    ensures c == d
  {
    hide Enabled, Apply, Flags, Reasons, Bound, Elsewhere, Q.Reachable;
    ReachableInv(s);
    assert JobGood(s, c) && JobGood(s, d);
    RunningIsAt(s.queues[s.jobs[c].tab], c);
    RunningIsAt(s.queues[s.jobs[c].tab], d);
    Q.MutualExclusion(s.queues[s.jobs[c].tab]);
  }

  lemma RunningIsAt(q: Q.System, c: nat)
    requires Q.Reachable(q) && c in q.pc
    ensures Q.At(q, c, q.pc[c])
  {
    hide Q.Reachable;
    Q.ReachableInv(q);
  }

  lemma {:induction false} RunsOn(a: System, steps: seq<Step>, b: System, st: Step)
    requires IsRun(a, steps, b) && Enabled(b, st)
    ensures IsRun(a, steps + [st], Apply(b, st))
    decreases |steps|
  {
    hide Apply, Enabled;
    if steps == [] {
      assert [st][1..] == [];
    } else {
      assert (steps + [st])[1..] == steps[1..] + [st];
      RunsOn(Apply(a, steps[0]), steps[1..], b, st);
    }
  }

  lemma StaysReachable(s: System, st: Step)
    requires Reachable(s) && Enabled(s, st)
    ensures Reachable(Apply(s, st))
  {
    hide Apply, Enabled;
    var steps: seq<Step> :| IsRun(INITIAL, steps, s);
    RunsOn(INITIAL, steps, s, st);
  }

  /** A call on a tab that nobody has used yet gets into its body at once, whatever goes on elsewhere. */
  lemma FirstCallEnters(s: System, c: nat, tab: string, name: string) returns (t: System)
    requires Reachable(s) && c !in s.jobs && tab != "" && tab !in s.queues && !Mutating(name)
    ensures Reachable(t) && c in t.jobs && t.jobs[c].tab == tab && t.jobs[c].phase == Inside
    ensures t.jobs == s.jobs[c := t.jobs[c]] && t.queues.Keys == s.queues.Keys + {tab}
  {
    hide Apply, Enabled, Reachable, Mutating;
    BeginningSteps(s, c, tab, name);
    StaysReachable(s, Plain(c, tab, name));
    var a := Apply(s, Plain(c, tab, name));
    StaysReachable(a, Find(c));
    var b := Apply(a, Find(c));
    QueueSteps(b, c, tab);
    StaysReachable(b, Arrive(c));
    var d := Apply(b, Arrive(c));
    StaysReachable(d, Line(tab, Q.CheckGeneration(c)));
    t := Apply(d, Line(tab, Q.CheckGeneration(c)));
  }

  lemma BeginningSteps(s: System, c: nat, tab: string, name: string)
    requires c !in s.jobs && tab != "" && tab !in s.queues && !Mutating(name)
    ensures Enabled(s, Plain(c, tab, name))
    ensures var j := Job(name, "", "", tab, Outside, false, false, false);
            var a := Apply(s, Plain(c, tab, name));
            && Enabled(a, Find(c)) && Apply(a, Find(c)).jobs == s.jobs[c := j]
            && Apply(a, Find(c)).queues == s.queues[tab := Q.INITIAL]
  {
    hide M.Apply, M.Enabled, Q.Apply, Q.Enabled, Mutating, AcceptedId, NeedsPreflight, Account;
  }

  lemma QueueSteps(b: System, c: nat, tab: string)
    requires InPhase(b, c, Outside) && b.jobs[c].tab == tab != "" && tab in b.queues && b.queues[tab] == Q.INITIAL
    ensures Enabled(b, Arrive(c)) && Enabled(Apply(b, Arrive(c)), Line(tab, Q.CheckGeneration(c)))
    ensures var t := Apply(Apply(b, Arrive(c)), Line(tab, Q.CheckGeneration(c)));
            t.jobs == b.jobs[c := b.jobs[c].(phase := Inside)] && t.queues.Keys == b.queues.Keys
  {
    hide M.Apply, M.Enabled, Q.Apply, Q.Enabled, Mutating, AcceptedId, NeedsPreflight, Account;
    FreshQueueAdmits(c);
  }

  lemma FreshQueueAdmits(c: nat)
    ensures Q.Enabled(Q.INITIAL, Q.Arrive(c))
    ensures var q := Q.Apply(Q.INITIAL, Q.Arrive(c));
            Q.Enabled(q, Q.CheckGeneration(c)) && PcOf(Q.Apply(q, Q.CheckGeneration(c)), c) == Some(Q.Running)
  {
  }

  /** ... so calls on different tabs do run their bodies at the same time. */
  lemma TwoTabsAtOnce() returns (s: System)
    ensures Reachable(s) && 1 in s.jobs && 2 in s.jobs && s.jobs[1].tab != s.jobs[2].tab
    ensures InBody(s.jobs[1].phase) && InBody(s.jobs[2].phase)
  {
    hide Apply, Enabled;
    assert IsRun(INITIAL, [], INITIAL);
    var t := FirstCallEnters(INITIAL, 1, "a", "");
    s := FirstCallEnters(t, 2, "b", "");
  }

  /** The counter the manager advances is the generation of the tab's queue, for every tab. */
  lemma CountersAreGenerations(s: System)
    requires Reachable(s)
    ensures s.queues.Keys == s.manager.core.queues.Keys
    ensures forall t | t in s.queues :: s.manager.core.queues[t] == s.queues[t].queue.generation
  {
    hide Enabled, Apply, Layers, JobGood;
    ReachableInv(s);
  }

  // ---------------------------------------------------------------- progress

  // The guards of the product never hold a call back.

  /** A call that has not arrived can look up its queue, if it has a tab, and arrive there. */
  lemma CallCanArrive(s: System, c: nat)
    requires Reachable(s) && c in s.jobs && s.jobs[c].phase.Outside? && c !in QueueOf(s, s.jobs[c].tab).pc
    ensures s.jobs[c].tab == "" ==> Enabled(s, Arrive(c))
    ensures s.jobs[c].tab != "" ==> Enabled(s, Find(c)) && Enabled(Apply(s, Find(c)), Arrive(c))
  {
    hide M.Apply, M.Enabled, Mutating, NeedsPreflight, Reachable;
  }

  /** A body can always return to its queue. */
  lemma BodyCanReturn(s: System, c: nat)
    requires Reachable(s) && c in s.jobs && InBody(s.jobs[c].phase)
    ensures CanLeave(s, c)
  {
    hide Enabled, Apply, Flags, Reasons, Bound, Elsewhere, Q.Reachable, M.Reachable;
    ReachableInv(s);
    assert JobGood(s, c);
    if s.jobs[c].tab != "" {
      RunningIsAt(s.queues[s.jobs[c].tab], c);
    }
  }

  /** A call whose outcome is known answers at once, or as soon as it has released its slot. */
  lemma EndedCallCanAnswer(s: System, c: nat)
    requires Reachable(s) && c in s.jobs && s.jobs[c].phase.Left?
    ensures || Enabled(s, Answer(c))
            || (Enabled(s, Line(s.jobs[c].tab, Q.ReleaseSlot(c))) &&
                Enabled(Apply(s, Line(s.jobs[c].tab, Q.ReleaseSlot(c))), Answer(c)))
  {
    ReachableInv(s);
    assert JobGood(s, c);
    hide JobGood, Reachable;
    if s.jobs[c].tab != "" {
      hide Enabled, Apply;
      SlotCanBeReleased(s, c);
    } else {
      hide M.Enabled, Q.Enabled, M.Apply, Q.Apply, Mutating, NeedsPreflight, AcceptedId;
    }
  }

  /** The answer of an operation can always be recorded: its caller is still inside the callback. */
  lemma AnswerCanBeRecorded(s: System, c: nat, now: int)
    requires Reachable(s) && c in s.jobs && s.jobs[c].phase.Told? && s.jobs[c].operation != "" && !s.jobs[c].finished
    ensures Enabled(s, Finish(c, now))
  {
    hide M.Enabled, Q.Enabled, Apply, Mutating, NeedsPreflight, AcceptedId, Flags, Reasons, GoodPlace, Elsewhere;
    ReachableInv(s);
    assert JobGood(s, c);
  }

  lemma SlotCanBeReleased(s: System, c: nat)
    requires Layers(s) && JobGood(s, c) && c in s.jobs && s.jobs[c].phase.Left? && s.jobs[c].tab != ""
    ensures || Enabled(s, Answer(c))
            || (Enabled(s, Line(s.jobs[c].tab, Q.ReleaseSlot(c))) &&
                Enabled(Apply(s, Line(s.jobs[c].tab, Q.ReleaseSlot(c))), Answer(c)))
  {
    hide M.Apply, M.Enabled, Mutating, NeedsPreflight, Account, Q.Reachable, M.Reachable, Flags, Bound, Reasons,
         Elsewhere;
    var tab := s.jobs[c].tab;
    RunningIsAt(s.queues[tab], c);
    if s.queues[tab].pc[c] == Q.Releasing {
      ReleaseEnds(s.queues[tab], c);
    }
  }

  lemma ReleaseEnds(q: Q.System, c: nat)
    requires Q.Reachable(q) && Q.At(q, c, Q.Releasing)
    ensures Q.Enabled(q, Q.ReleaseSlot(c)) && Q.At(Q.Apply(q, Q.ReleaseSlot(c)), c, Q.Done)
  {
    hide Q.Reachable;
    Q.ReachableInv(q);
  }

  // ---------------------------------------------------------------- lost leases

  /** The part of a step that a tab's queue sees: at most one of its own. */
  lemma StepProjects(s: System, st: Step, tab: string) returns (moves: seq<Q.Step>)
    requires Layers(s) && Enabled(s, st) && tab in s.queues
    ensures tab in Apply(s, st).queues && Q.IsRun(s.queues[tab], moves, Apply(s, st).queues[tab])
  {
    hide Q.Apply, Q.Enabled, M.Apply, M.Enabled, Mutating, NeedsPreflight, AcceptedId, Account, Q.Reachable,
         M.Reachable, Revoke;
    var q, r := s.queues[tab], Apply(s, st).queues[tab];
    moves := [];
    if r != q {
      RevokeIsRevoke(q);
      moves := match st
        case Manage(_) => [Q.Revoke]
        case Arrive(c) => [Q.Arrive(c)]
        case Line(_, move) => [move]
        case Gate(c, _) => [Q.FnReturns(c)]
        case Reply(c, _) => [Q.FnReturns(c)]
        case _ => [];
      assert Q.Enabled(q, moves[0]) && r == Q.Apply(q, moves[0]);
      assert Q.IsRun(r, moves[1..], r);
    }
  }

  lemma {:induction false} QRunsJoin(a: Q.System, xs: seq<Q.Step>, b: Q.System, ys: seq<Q.Step>, c: Q.System)
    requires Q.IsRun(a, xs, b) && Q.IsRun(b, ys, c)
    ensures Q.IsRun(a, xs + ys, c)
    decreases |xs|
  {
    hide Q.Apply, Q.Enabled;
    if xs == [] {
      assert xs + ys == ys;
    } else {
      assert (xs + ys)[1..] == xs[1..] + ys;
      QRunsJoin(Q.Apply(a, xs[0]), xs[1..], b, ys, c);
    }
  }

  /** The whole run as one tab's queue sees it. */
  lemma {:induction false} RunProjects(s: System, steps: seq<Step>, t: System, tab: string) returns (moves: seq<Q.Step>)
    requires Inv(s) && IsRun(s, steps, t) && tab in s.queues
    ensures tab in t.queues && Q.IsRun(s.queues[tab], moves, t.queues[tab])
    decreases |steps|
  {
    hide Apply, Enabled, Layers, Counted, JobGood;
    if steps == [] {
      moves := [];
    } else {
      var u := Apply(s, steps[0]);
      var first := StepProjects(s, steps[0], tab);
      StepKeepsInv(s, steps[0]);
      var rest := RunProjects(u, steps[1..], t, tab);
      QRunsJoin(s.queues[tab], first, u.queues[tab], rest, t.queues[tab]);
      moves := first + rest;
    }
  }

  lemma JobStays(s: System, st: Step, c: nat)
    requires Enabled(s, st) && c in s.jobs
    ensures c in Apply(s, st).jobs && Apply(s, st).jobs[c].tab == s.jobs[c].tab
  {
    hide M.Apply, Q.Apply, M.Enabled, Q.Enabled, Mutating, NeedsPreflight, AcceptedId, Account;
  }

  lemma {:induction false} JobRemains(s: System, steps: seq<Step>, t: System, c: nat)
    requires IsRun(s, steps, t) && c in s.jobs
    ensures c in t.jobs && t.jobs[c].tab == s.jobs[c].tab
    decreases |steps|
  {
    hide Apply, Enabled;
    if steps != [] {
      JobStays(s, steps[0], c);
      JobRemains(Apply(s, steps[0]), steps[1..], t, c);
    }
  }

  ghost predicate LosesTab(s: System, m: M.Step, tab: string) {
    && Enabled(s, Manage(m))
    && Exits.Exits(s.manager.core, M.Apply(s.manager, m).core, tab)
  }

  /** When a lease leaves, in whatever way, its tab's queue is cancelled in the same step. */
  lemma LostLeaseRevokes(s: System, m: M.Step, tab: string)
    requires Layers(s) && Counted(s) && LosesTab(s, m, tab) && tab in s.queues
    ensures Q.Enabled(s.queues[tab], Q.Revoke)
    ensures tab in Apply(s, Manage(m)).queues
    ensures Apply(s, Manage(m)).queues[tab] == Q.Apply(s.queues[tab], Q.Revoke)
  {
    hide M.Apply, M.Enabled, Q.Apply, Q.Enabled, Q.Reachable, M.Reachable, Revoke, Mutating, NeedsPreflight, AcceptedId;
    CountersMove(s.manager, m, tab);
    RevokeIsRevoke(s.queues[tab]);
  }

  /** A call that was waiting in its tab's queue when the lease left never reaches the bridge afterwards;
      if it is answered at all, it is told that it was cancelled without effect. */
  lemma RevokedCallHasNoEffect(s: System, m: M.Step, tab: string, steps: seq<Step>, t: System, c: nat)
    requires Reachable(s) && LosesTab(s, m, tab) && IsRun(Apply(s, Manage(m)), steps, t)
    requires c in s.jobs && s.jobs[c].tab == tab && s.jobs[c].phase.Outside? && c in QueueOf(s, tab).arrivals
    ensures c in t.jobs && !t.jobs[c].handed
    ensures t.jobs[c].phase.Told? ==> t.jobs[c].phase.answer == Outcome("", Some(RpcError(CANCELLED, NoEffect)))
  {
    hide Apply, Enabled, Q.Apply, Q.Enabled, M.Apply, M.Enabled, Mutating, NeedsPreflight, Bound, Elsewhere,
         Q.Reachable;
    var r := Apply(s, Manage(m));
    ReachableInv(s);
    assert JobGood(s, c);
    NotStarted(s, m, tab, steps, t, c);
    JobStays(s, Manage(m), c);
    JobRemains(r, steps, t, c);
    StepKeepsInv(s, Manage(m));
    RunKeepsInv(r, steps, t);
    assert JobGood(t, c);
  }

  lemma NotStarted(s: System, m: M.Step, tab: string, steps: seq<Step>, t: System, c: nat)
    requires Inv(s) && LosesTab(s, m, tab) && IsRun(Apply(s, Manage(m)), steps, t)
    requires tab in s.queues && c in s.queues[tab].arrivals
    ensures tab in t.queues
    ensures c !in s.queues[tab].started ==> c !in t.queues[tab].started
    ensures Q.At(s.queues[tab], c, Q.Running) ==> c in t.queues[tab].queue.cancelled
  {
    hide Apply, Enabled, Q.Apply, Q.Enabled, M.Apply, M.Enabled, JobGood, Q.Reachable, Counted;
    LostLeaseRevokes(s, m, tab);
    StepKeepsInv(s, Manage(m));
    var moves := RunProjects(Apply(s, Manage(m)), steps, t, tab);
    Q.RevokeStopsEarlierCallers(s.queues[tab], moves, t.queues[tab], c);
  }

  lemma ManageCancels(s: System, m: M.Step, tab: string, c: nat)
    requires Inv(s) && LosesTab(s, m, tab) && c in s.jobs && s.jobs[c].tab == tab
    requires s.jobs[c].operation != "" && !s.jobs[c].finished && s.jobs[c].session == s.manager.core.leases[tab].session
    ensures c in s.manager.callers && s.manager.callers[c].InCallback?
    ensures var k, d := s.manager.callers[c].serial, Apply(s, Manage(m)).manager.core;
            k in d.heap && d.heap[k].cancelRequested
  {
    hide M.Apply, M.Enabled, Q.Reachable, Flags, Reasons, GoodPlace, Elsewhere, Mutating, NeedsPreflight, AcceptedId,
         RevokeAdvanced, Ops.HistoryGood;
    assert JobGood(s, c);
    LeasesAreGood(s.manager);
    Ops.ReachableOps(s.manager);
    assert Ops.CallerGood(s.manager, c);
    Exits.LeaseExitCancelsWork(s.manager, m);
  }

  lemma StepKeepsContext(s: System, st: Step, k: nat)
    requires Layers(s) && Enabled(s, st) && k in s.manager.core.heap && s.manager.core.heap[k].cancelRequested
    ensures k in Apply(s, st).manager.core.heap && Apply(s, st).manager.core.heap[k].cancelRequested
  {
    hide Q.Apply, Q.Enabled, M.Apply, M.Enabled, Mutating, NeedsPreflight, AcceptedId, Account, Q.Reachable,
         M.Reachable, RevokeAdvanced, AfterLine, LeaveBody, Ops.CallersGood, Ops.HistoryGood, Ops.RecordsGood;
    Ops.ReachableOps(s.manager);
    match st {
      case Manage(m) => Contexts.StepKeepsContexts(s.manager, m);
      case Enter(c, session, tab, id, fp, _) => Contexts.StepKeepsContexts(s.manager, M.Enter(c, session, tab, id, fp));
      case Find(c) =>
        UseQueueEnabled(s.manager, s.jobs[c].tab);
        Contexts.StepKeepsContexts(s.manager, M.UseQueue(s.jobs[c].tab));
      case Finish(c, now) =>
        var a := s.jobs[c].phase.answer;
        var back := M.Return(c, s.manager.callers[c].serial, a.result, a.err, now);
        ReturnEnabled(s.manager, back);
        Contexts.StepKeepsContexts(s.manager, back);
      case Gate(c, error) =>
        if error.Some? {
          LeavingIsNotManaging(s, c, Left(ByGate, Outcome("", error)));
        }
      case Reply(c, raw) => LeavingIsNotManaging(s, c, Left(ByBridge, raw));
      case Line(tab, move) => MovingIsNotManaging(s, tab, move);
      case _ =>
    }
  }

  lemma LeavingIsNotManaging(s: System, c: nat, p: Phase)
    requires CanLeave(s, c)
    ensures LeaveBody(s, c, p).manager == s.manager
  {
    hide Q.Apply, Q.Enabled;
  }

  lemma MovingIsNotManaging(s: System, tab: string, move: Q.Step)
    requires tab in s.queues && Q.Enabled(s.queues[tab], move)
    ensures AfterLine(s, tab, move).manager == s.manager
  {
    hide Q.Apply, Q.Enabled;
  }

  lemma {:induction false} RunKeepsContext(s: System, steps: seq<Step>, t: System, k: nat)
    requires Inv(s) && IsRun(s, steps, t) && k in s.manager.core.heap && s.manager.core.heap[k].cancelRequested
    ensures k in t.manager.core.heap && t.manager.core.heap[k].cancelRequested
    decreases |steps|
  {
    hide Apply, Enabled, Layers, Counted, JobGood;
    if steps != [] {
      StepKeepsContext(s, steps[0], k);
      StepKeepsInv(s, steps[0]);
      RunKeepsContext(Apply(s, steps[0]), steps[1..], t, k);
    }
  }

  /** A call that was inside its body when the lease left keeps a cancelled run context for ever, and if
      it executes an operation of the session that lost the lease, a cancelled operation context too. */
  lemma InsideCallIsCancelled(s: System, m: M.Step, tab: string, steps: seq<Step>, t: System, c: nat)
    requires Reachable(s) && LosesTab(s, m, tab) && IsRun(Apply(s, Manage(m)), steps, t)
    requires c in s.jobs && s.jobs[c].tab == tab != "" && InBody(s.jobs[c].phase)
    ensures tab in t.queues && c in t.queues[tab].queue.cancelled
    ensures s.jobs[c].operation != "" && s.jobs[c].session == s.manager.core.leases[tab].session ==>
              && c in s.manager.callers && s.manager.callers[c].InCallback?
              && var k := s.manager.callers[c].serial;
                 k in t.manager.core.heap && t.manager.core.heap[k].cancelRequested
  {
    hide Apply, Enabled, Q.Apply, Q.Enabled, M.Apply, M.Enabled, Mutating, NeedsPreflight, Bound, Elsewhere,
         Q.Reachable;
    ReachableInv(s);
    assert JobGood(s, c);
    RunningIsAt(s.queues[tab], c);
    StartedHasArrived(s.queues[tab], c);
    NotStarted(s, m, tab, steps, t, c);
    if s.jobs[c].operation != "" && s.jobs[c].session == s.manager.core.leases[tab].session {
      ManageCancels(s, m, tab, c);
      StepKeepsInv(s, Manage(m));
      RunKeepsContext(Apply(s, Manage(m)), steps, t, s.manager.callers[c].serial);
    }
  }

  lemma StartedHasArrived(q: Q.System, c: nat)
    requires Q.Reachable(q) && c in q.pc
    ensures c in q.arrivals
  {
    hide Q.Reachable;
    Q.ReachableInv(q);
  }
}
