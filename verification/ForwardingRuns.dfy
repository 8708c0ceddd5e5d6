/**
 What holds of forwarded calls in every run, whatever the interleaving and however many tabs
 (internal/server/server.go, internal/core/tab_queue.go and internal/core/manager.go together).
 */
module ForwardingRuns {
  import opened Options
  import opened Protocol
  import opened ManagerState
  import M = ManagerRuns
  import Q = TabQueueRuns
  import Ops = OperationRuns
  import Outcomes = OutcomeRuns
  import Exits = LeaseExits
  import Leases = LeaseRuns
  import opened Forwarding

  // ---------------------------------------------------------------- the layers by themselves

  lemma {:induction false} ManagerRunsOn(a: M.System, steps: seq<M.Step>, b: M.System, st: M.Step)
    requires M.IsRun(a, steps, b) && M.Enabled(b, st)
    ensures M.IsRun(a, steps + [st], M.Apply(b, st))
    decreases |steps|
  {
    hide M.Apply, M.Enabled;
    if steps == [] {
      assert [st][1..] == [];
    } else {
      assert (steps + [st])[1..] == steps[1..] + [st];
      ManagerRunsOn(M.Apply(a, steps[0]), steps[1..], b, st);
    }
  }

  lemma ManagerStaysReachable(m: M.System, st: M.Step)
    requires M.Reachable(m) && M.Enabled(m, st)
    ensures M.Reachable(M.Apply(m, st))
  {
    hide M.Apply, M.Enabled;
    var steps :| M.IsRun(M.INITIAL, steps, m);
    ManagerRunsOn(M.INITIAL, steps, m, st);
  }

  lemma {:induction false} QueueRunsOn(a: Q.System, moves: seq<Q.Step>, b: Q.System, move: Q.Step)
    requires Q.IsRun(a, moves, b) && Q.Enabled(b, move)
    ensures Q.IsRun(a, moves + [move], Q.Apply(b, move))
    decreases |moves|
  {
    hide Q.Apply, Q.Enabled;
    if moves == [] {
      assert [move][1..] == [];
    } else {
      assert (moves + [move])[1..] == moves[1..] + [move];
      QueueRunsOn(Q.Apply(a, moves[0]), moves[1..], b, move);
    }
  }

  lemma QueueStaysReachable(q: Q.System, move: Q.Step)
    requires Q.Reachable(q) && Q.Enabled(q, move)
    ensures Q.Reachable(Q.Apply(q, move))
  {
    hide Q.Apply, Q.Enabled;
    var moves :| Q.IsRun(Q.INITIAL, moves, q);
    QueueRunsOn(Q.INITIAL, moves, q, move);
  }

  lemma FreshQueueReachable()
    ensures Q.Reachable(Q.INITIAL)
  {
    hide Q.Apply, Q.Enabled;
    assert Q.IsRun(Q.INITIAL, [], Q.INITIAL);
  }

  /** In a reachable queue cancelAll is always possible, and advances the generation by one. */
  lemma RevokeIsRevoke(q: Q.System)
    requires Q.Reachable(q)
    ensures Q.Enabled(q, Q.Revoke) && Revoke(q) == Q.Apply(q, Q.Revoke)
    ensures Revoke(q).queue.generation == q.queue.generation + 1
  {
    hide Q.Apply;
    Q.ReachableInv(q);
    RevokeAdvances(q);
  }

  lemma RevokeAdvances(q: Q.System)
    requires Q.Inv(q)
    ensures Q.Enabled(q, Q.Revoke) && Q.Apply(q, Q.Revoke).queue.generation == q.queue.generation + 1
  {
  }

  // ---------------------------------------------------------------- the invariant

  predicate EndedBy(p: Phase, stop: Stop) {
    (p.Left? || p.Told?) && p.stop == stop
  }

  predicate InBody(p: Phase) {
    p.Inside? || p.Cleared? || p.Marked? || p.AtBridge?
  }

  predicate Flags(j: Job) {
    && (j.dispatched <==> j.phase.Marked? || j.phase.AtBridge? || EndedBy(j.phase, ByBridge))
    && (j.handed <==> j.phase.AtBridge? || EndedBy(j.phase, ByBridge))
  }

  predicate Reasons(j: Job) {
    && (EndedBy(j.phase, ByQueue) ==> j.tab != "" && j.phase.raw == Outcome("", Some(NewError(CANCELLED))))
    && (EndedBy(j.phase, ByGate) ==> j.phase.raw.err.Some? && NeedsPreflight(j.name))
    && (j.phase.Told? ==> j.phase.answer == Account(j, j.phase.raw))
    && (Mutating(j.name) ==> AcceptedId(j.operation))
    && (j.finished ==> j.phase.Told?)
  }

  /** Where a call stands in its tab's queue. */
  predicate Places(j: Job, pc: Option<Q.Pc>, started: bool) {
    if j.tab == "" then pc.None?
    else if j.phase.Outside? then !started && pc in {None, Some(Q.Waiting), Some(Q.Withdrawing), Some(Q.PreRun)}
    else if InBody(j.phase) then started && pc == Some(Q.Running)
    else (started <==> !EndedBy(j.phase, ByQueue)) && pc in {Some(Q.Releasing), Some(Q.Done)}
  }

  function PcOf(q: Q.System, c: nat): Option<Q.Pc> {
    if c in q.pc then Some(q.pc[c]) else None
  }

  /** A call that executes an operation is inside its callback until it has finished, under a record with
      its own name, session and tab; then it holds the answer. */
  ghost predicate Bound(m: M.System, j: Job, c: nat) {
    if j.operation == "" then !j.finished else c in m.callers && Seat(m, j, m.callers[c])
  }

  ghost predicate Seat(m: M.System, j: Job, seat: M.Caller) {
    match seat
    case InCallback(k) =>
      && !j.finished && k in m.core.heap
      && m.core.heap[k].id == j.operation && m.core.heap[k].session == j.session && m.core.heap[k].tab == j.tab
    case Answered(k, result, err) =>
      && j.finished && j.phase.Told? && j.phase.answer == Outcome(result, err)
      && k in m.outcome && m.outcome[k] == (result, err)
    case _ => false
  }

  ghost predicate Elsewhere(s: System, c: nat) {
    forall t | t in s.queues && !(c in s.jobs && s.jobs[c].tab == t) ::
        c !in s.queues[t].pc && c !in s.queues[t].started
  }

  ghost predicate GoodPlace(s: System, c: nat)
    requires c in s.jobs
  {
    var q := QueueOf(s, s.jobs[c].tab);
    Places(s.jobs[c], PcOf(q, c), c in q.started)
  }

  ghost predicate JobGood(s: System, c: nat) {
    && Elsewhere(s, c)
    && (c in s.jobs ==> Flags(s.jobs[c]) && Reasons(s.jobs[c]) && GoodPlace(s, c) && Bound(s.manager, s.jobs[c], c))
  }

  /** The manager's counter of a tab is the generation of that tab's queue. */
  ghost predicate Counted(s: System) {
    && "" !in s.queues && s.queues.Keys == s.manager.core.queues.Keys
    && forall t | t in s.queues :: s.manager.core.queues[t] == s.queues[t].queue.generation
  }

  ghost predicate Layers(s: System) {
    M.Reachable(s.manager) && forall t | t in s.queues :: Q.Reachable(s.queues[t])
  }

  ghost predicate Inv(s: System) {
    Layers(s) && Counted(s) && forall c: nat :: JobGood(s, c)
  }

  // ---------------------------------------------------------------- how the queues move

  function Mover(move: Q.Step): Option<nat> {
    if move.Revoke? then None else Some(move.c)
  }

  /** A move of a queue changes the place of its own caller only. */
  lemma OthersKeepTheirPlace(q: Q.System, move: Q.Step, c: nat)
    requires Q.Enabled(q, move) && Mover(move) != Some(c)
    ensures PcOf(Q.Apply(q, move), c) == PcOf(q, c) && (c in Q.Apply(q, move).started <==> c in q.started)
  {
  }

  /** How the place of the caller that moves changes. */
  lemma OwnPlace(q: Q.System, move: Q.Step, c: nat)
    requires Q.Enabled(q, move) && Mover(move) == Some(c)
    ensures var r := Q.Apply(q, move);
            var pc := PcOf(r, c);
            && (!move.CheckGeneration? ==> (c in r.started <==> c in q.started))
            && match move
               case Arrive(_) => pc in {Some(Q.Waiting), Some(Q.PreRun)}
               case CancelCaller(_) => pc == PcOf(q, c)
               case ChooseDone(_) => PcOf(q, c) == Some(Q.Waiting) && pc == Some(Q.Withdrawing)
               case TakeLockAndWithdraw(_) =>
                 PcOf(q, c) == Some(Q.Withdrawing) && pc in {Some(Q.Releasing), Some(Q.Done)}
               case Wake(_) => PcOf(q, c) == Some(Q.Waiting) && pc in {Some(Q.Done), Some(Q.PreRun)}
               case CheckGeneration(_) =>
                 && PcOf(q, c) == Some(Q.PreRun)
                 && ((pc == Some(Q.Running) && c in r.started) ||
                     (pc == Some(Q.Releasing) && (c in r.started <==> c in q.started)))
               case FnReturns(_) => PcOf(q, c) == Some(Q.Running) && pc == Some(Q.Releasing)
               case ReleaseSlot(_) => PcOf(q, c) == Some(Q.Releasing) && pc == Some(Q.Done)
  {
  }

  lemma MovesKeepGeneration(q: Q.System, move: Q.Step)
    requires Q.Reachable(q) && Q.Enabled(q, move) && !move.Revoke?
    ensures Q.Apply(q, move).queue.generation == q.queue.generation
  {
    Q.ReachableInv(q);
    hide Q.Reachable;
    if move.ReleaseSlot? {
      Q.GrantPopsHead(q.queue.(active := None));
    }
  }

  // ---------------------------------------------------------------- how the manager moves

  lemma QueuesStay(c: Core, serial: nat, st: M.Step)
    requires !st.UseQueue?
    ensures M.After(c, serial, st).queues.Keys == c.queues.Keys
  {
    hide ClaimTab, RenewLease, BindBrowser, ValidLease, ReleaseTab, RevokeTab, RevokeBrowser, CloseSession, StopAll,
         EnterOperation, FinishOperation, CancelOperation, CancelContext, CreateConfirmation, Authorize, Consume,
         Resolve, Tick;
  }

  lemma CallbacksLeaveQueues(m: M.System, st: M.Step)
    requires M.Enabled(m, st) && (st.Enter? || st.Return?)
    ensures M.Apply(m, st).core.queues == m.core.queues
  {
    hide EnterOperation, FinishOperation;
  }

  lemma FindMakesQueue(m: M.System, tab: string)
    requires tab != ""
    ensures M.Apply(m, M.UseQueue(tab)) ==
            m.(core := m.core.(queues := if tab in m.core.queues then m.core.queues else m.core.queues[tab := 0]))
  {
    assert m.issued + {} == m.issued;
  }

  /** A record never changes its name, session or tab. */
  lemma RecordKeepsName(m: M.System, st: M.Step, k: nat)
    requires Ops.OpsGood(m) && M.Enabled(m, st) && k in m.core.heap
    ensures var d := M.Apply(m, st).core;
            && k in d.heap && d.heap[k].id == m.core.heap[k].id
            && d.heap[k].session == m.core.heap[k].session && d.heap[k].tab == m.core.heap[k].tab
  {
    hide M.Apply, M.Enabled, M.After, Ops.HistoryGood, Ops.CallersGood;
    if st.Return? {
      Ops.ReturnEffect(m, st);
    } else if st.Enter? {
      Ops.EnterKeepsRecord(m, st, k);
    } else {
      Ops.StepSettles(m.core, m.nextSerial, st);
      Ops.SettlingStepEffect(m, st);
      assert Ops.RecordSettles(m.core, M.Apply(m, st).core, k);
    }
  }

  /** Nobody leaves its callback or loses its answer through a step of another. */
  lemma SeatStays(m: M.System, st: M.Step, c: nat)
    requires M.Enabled(m, st) && c in m.callers && (m.callers[c].InCallback? || m.callers[c].Answered?)
    requires !(st.Return? && st.caller == c)
    ensures c in M.Apply(m, st).callers && M.Apply(m, st).callers[c] == m.callers[c]
  {
    hide M.After;
  }

  lemma BoundStays(m: M.System, st: M.Step, j: Job, c: nat)
    requires M.Reachable(m) && M.Enabled(m, st) && Bound(m, j, c) && !(st.Return? && st.caller == c)
    ensures Bound(M.Apply(m, st), j, c)
  {
    hide M.Apply, M.Enabled, M.Reachable, Ops.OpsGood, Outcomes.AllRecorded;
    Ops.ReachableOps(m);
    if j.operation != "" {
      SeatStays(m, st, c);
      if m.callers[c].InCallback? {
        RecordKeepsName(m, st, m.callers[c].serial);
      } else {
        Outcomes.ReachableRecords(m);
        Outcomes.OutcomeStays(m, st, m.callers[c].serial);
      }
    }
  }

  /** A lease that leaves advances exactly its own tab's counter, by one. */
  lemma CountersMove(m: M.System, st: M.Step, tab: string)
    requires M.Reachable(m) && M.Enabled(m, st) && !st.UseQueue? && tab in m.core.queues
    ensures var d := M.Apply(m, st).core;
            && tab in d.queues
            && d.queues[tab] == m.core.queues[tab] + if Exits.Exits(m.core, d, tab) then 1 else 0
  {
    hide M.Apply, M.Enabled, M.After;
    LeasesAreGood(m);
    Exits.LeaseExitCancelsWork(m, st);
  }

  lemma LeasesAreGood(m: M.System)
    requires M.Reachable(m)
    ensures Leases.LeasesGood(m.core, m.issued)
  {
    hide M.Apply, M.Enabled;
    var steps :| M.IsRun(M.INITIAL, steps, m);
    Leases.RunKeepsLeases(M.INITIAL, steps, m);
  }

  // ---------------------------------------------------------------- one queue moves

  function Moved(s: System, tab: string, move: Q.Step): System
    requires tab in s.queues && Q.Enabled(s.queues[tab], move)
  {
    s.(queues := s.queues[tab := Q.Apply(s.queues[tab], move)])
  }

  lemma MoveKeepsLayers(s: System, tab: string, move: Q.Step)
    requires Layers(s) && Counted(s) && tab in s.queues && Q.Enabled(s.queues[tab], move) && !move.Revoke?
    ensures Layers(Moved(s, tab, move)) && Counted(Moved(s, tab, move))
  {
    hide Q.Apply, Q.Enabled, Q.Reachable, M.Reachable;
    QueueStaysReachable(s.queues[tab], move);
    MovesKeepGeneration(s.queues[tab], move);
  }

  lemma MoveLeavesOthers(s: System, tab: string, move: Q.Step, c: nat)
    requires tab in s.queues && Q.Enabled(s.queues[tab], move) && JobGood(s, c) && Mover(move) != Some(c)
    ensures JobGood(Moved(s, tab, move), c)
  {
    hide Q.Apply, Q.Enabled, Flags, Reasons, Places, Bound;
    OthersKeepTheirPlace(s.queues[tab], move, c);
  }

  /** The mover takes the phase that goes with its new place. */
  lemma MoverStaysGood(s: System, tab: string, move: Q.Step, c: nat, j: Job)
    requires tab in s.queues && Q.Enabled(s.queues[tab], move) && Mover(move) == Some(c)
    requires JobGood(s, c) && c in s.jobs && s.jobs[c].tab == tab == j.tab != ""
    requires Flags(j) && Reasons(j) && Bound(s.manager, j, c)
    requires var r := Q.Apply(s.queues[tab], move); Places(j, PcOf(r, c), c in r.started)
    ensures JobGood(Moved(s, tab, move).(jobs := s.jobs[c := j]), c)
  {
    hide Q.Apply, Q.Enabled, Flags, Reasons, Places, Bound;
  }

  /** Another call's variables say nothing about c. */
  lemma OtherJob(s: System, d: nat, j: Job, c: nat)
    requires JobGood(s, c) && c != d
    ensures JobGood(s.(jobs := s.jobs[d := j]), c)
  {
    hide Flags, Reasons, Places, Bound;
  }

  /** A call changes only its own variables. */
  lemma OwnJob(s: System, c: nat, j: Job)
    requires JobGood(s, c) && c in s.jobs && j.tab == s.jobs[c].tab
    requires Flags(j) && Reasons(j) && Bound(s.manager, j, c)
    requires var q := QueueOf(s, j.tab); Places(j, PcOf(q, c), c in q.started)
    ensures JobGood(s.(jobs := s.jobs[c := j]), c)
  {
    hide Flags, Reasons, Places, Bound;
  }

  /** A call begins: nobody of that number was anywhere before. */
  lemma NewJob(s: System, c: nat, j: Job)
    requires JobGood(s, c) && c !in s.jobs && "" !in s.queues
    requires j.phase == Outside && !j.dispatched && !j.handed && !j.finished
    requires Mutating(j.name) ==> AcceptedId(j.operation)
    requires Bound(s.manager, j, c)
    ensures JobGood(s.(jobs := s.jobs[c := j]), c)
  {
    hide Bound, Mutating, AcceptedId;
  }

  lemma LineKeeps(s: System, tab: string, move: Q.Step, c: nat)
    requires Enabled(s, Line(tab, move)) && JobGood(s, c) && "" !in s.queues
    ensures JobGood(AfterLine(s, tab, move), c)
  {
    hide Q.Apply, Q.Enabled, Mutating, AcceptedId, Account, NeedsPreflight;
    var r := Q.Apply(s.queues[tab], move);
    if Mover(move) != Some(c) {
      MoveLeavesOthers(s, tab, move, c);
      if move.c in s.jobs && s.jobs[move.c].tab == tab {
        OtherJob(Moved(s, tab, move), move.c, s.jobs[move.c].(phase := NextPhase(move, r, s.jobs[move.c].phase)), c);
      }
    } else {
      OwnPlace(s.queues[tab], move, c);
      if c in s.jobs && s.jobs[c].tab == tab {
        var j := s.jobs[c].(phase := NextPhase(move, r, s.jobs[c].phase));
        MoverStaysGood(s, tab, move, c, j);
      } else {
        StrangerStays(s, tab, move, c);
      }
    }
  }

  /** Only its own calls move in a queue; a cancelled context of anyone else leaves no trace in it. */
  lemma StrangerStays(s: System, tab: string, move: Q.Step, c: nat)
    requires Enabled(s, Line(tab, move)) && JobGood(s, c) && Mover(move) == Some(c)
    requires !(c in s.jobs && s.jobs[c].tab == tab)
    ensures JobGood(Moved(s, tab, move), c)
  {
    hide Q.Apply, Q.Enabled, Flags, Reasons, Places, Bound, Mutating, AcceptedId, NeedsPreflight;
    OwnPlace(s.queues[tab], move, c);
    assert c !in s.queues[tab].pc && c !in s.queues[tab].started;
  }

  // ---------------------------------------------------------------- the steps

  /** cancelAll moves nobody. */
  lemma RevokedPlace(q: Q.System, c: nat)
    ensures PcOf(Revoke(q), c) == PcOf(q, c) && (c in Revoke(q).started <==> c in q.started)
  {
    hide Q.Apply, Q.Enabled;
    if Q.Enabled(q, Q.Revoke) {
      OthersKeepTheirPlace(q, Q.Revoke, c);
    }
  }

  lemma ManagedQueue(s: System, m: M.Step, tab: string)
    requires M.Enabled(s.manager, m) && tab in s.queues
    ensures tab in Managed(s, m).queues && Managed(s, m).queues[tab] in {s.queues[tab], Revoke(s.queues[tab])}
  {
    hide M.Apply, M.Enabled, Revoke;
  }

  lemma ManageKeepsJob(s: System, m: M.Step, c: nat)
    requires M.Reachable(s.manager) && M.Enabled(s.manager, m) && !m.Return? && JobGood(s, c)
    ensures JobGood(Managed(s, m), c)
  {
    hide M.Apply, M.Enabled, M.Reachable, Revoke, Flags, Reasons, Places, Bound, RevokeAdvanced;
    var t := Managed(s, m);
    if c in s.jobs {
      BoundStays(s.manager, m, s.jobs[c], c);
    }
    ManagedKeys(s, m);
    forall tab | tab in s.queues
      ensures PcOf(t.queues[tab], c) == PcOf(s.queues[tab], c)
      ensures c in t.queues[tab].started <==> c in s.queues[tab].started
    {
      ManagedQueue(s, m, tab);
      RevokedPlace(s.queues[tab], c);
    }
    SamePlaces(s, t, c);
  }

  lemma ManagedKeys(s: System, m: M.Step)
    requires M.Enabled(s.manager, m)
    ensures Managed(s, m).queues.Keys == s.queues.Keys
  {
    hide M.Apply, M.Enabled, Revoke;
  }

  lemma SamePlaces(s: System, t: System, c: nat)
    requires JobGood(s, c) && t.jobs == s.jobs && t.queues.Keys == s.queues.Keys
    requires forall tab | tab in s.queues ::
               && PcOf(t.queues[tab], c) == PcOf(s.queues[tab], c)
               && (c in t.queues[tab].started <==> c in s.queues[tab].started)
    requires c in s.jobs ==> Bound(t.manager, s.jobs[c], c)
    ensures JobGood(t, c)
  {
    hide Flags, Reasons, Places, Bound;
    forall tab | tab in t.queues && !(c in t.jobs && t.jobs[c].tab == tab)
      ensures c !in t.queues[tab].pc && c !in t.queues[tab].started
    {
      assert PcOf(t.queues[tab], c) == PcOf(s.queues[tab], c) == None;
    }
  }

  lemma ManageKeepsLayers(s: System, m: M.Step)
    requires Layers(s) && Counted(s) && M.Enabled(s.manager, m) && !m.UseQueue?
    ensures Layers(Managed(s, m)) && Counted(Managed(s, m))
  {
    hide M.Apply, M.Enabled, M.Reachable, Q.Apply, Q.Enabled, Q.Reachable, Revoke;
    var t := Managed(s, m);
    ManagerStaysReachable(s.manager, m);
    ManagedCore(s, m);
    forall tab | tab in s.queues
      ensures Q.Reachable(t.queues[tab]) && tab in t.manager.core.queues
      ensures t.manager.core.queues[tab] == t.queues[tab].queue.generation
    {
      CountersMove(s.manager, m, tab);
      RevokeIsRevoke(s.queues[tab]);
      QueueStaysReachable(s.queues[tab], Q.Revoke);
    }
  }

  lemma ManagedCore(s: System, m: M.Step)
    requires M.Enabled(s.manager, m) && !m.UseQueue?
    ensures M.Apply(s.manager, m).core.queues.Keys == s.manager.core.queues.Keys
  {
    hide M.After, EnterOperation, M.Enabled;
    QueuesStay(s.manager.core, s.manager.nextSerial, m);
    Exits.ApplyMovesCore(s.manager, m);
  }

  lemma FindKeeps(s: System, tab: string)
    requires Layers(s) && Counted(s) && tab != ""
    ensures Layers(Found(s, tab)) && Counted(Found(s, tab))
  {
    hide M.Apply, M.Enabled, M.Reachable, Q.Reachable;
    FreshQueueReachable();
    FindMakesQueue(s.manager, tab);
    UseQueueEnabled(s.manager, tab);
    ManagerStaysReachable(s.manager, M.UseQueue(tab));
  }

  lemma UseQueueEnabled(m: M.System, tab: string)
    ensures M.Enabled(m, M.UseQueue(tab))
  {
  }

  lemma FindKeepsJob(s: System, tab: string, c: nat)
    requires tab != "" && JobGood(s, c)
    ensures JobGood(Found(s, tab), c)
  {
    hide M.Apply, M.Enabled, Flags, Reasons, Places;
    FindMakesQueue(s.manager, tab);
  }

  /** The manager moves without touching a queue. */
  lemma CallbackKeepsLayers(s: System, m: M.Step)
    requires Layers(s) && Counted(s) && M.Enabled(s.manager, m) && (m.Enter? || m.Return?)
    ensures Layers(s.(manager := M.Apply(s.manager, m))) && Counted(s.(manager := M.Apply(s.manager, m)))
  {
    hide M.Apply, M.Enabled, M.Reachable, Q.Reachable;
    ManagerStaysReachable(s.manager, m);
    CallbacksLeaveQueues(s.manager, m);
  }

  lemma CallbackKeepsJob(s: System, m: M.Step, c: nat)
    requires M.Reachable(s.manager) && M.Enabled(s.manager, m) && JobGood(s, c) && !(m.Return? && m.caller == c)
    ensures JobGood(s.(manager := M.Apply(s.manager, m)), c)
  {
    hide M.Apply, M.Enabled, M.Reachable, Flags, Reasons, Places, Bound;
    if c in s.jobs {
      BoundStays(s.manager, m, s.jobs[c], c);
    }
  }

  /** A caller that starts a callback sits in a record with its own name, session and tab. */
  lemma EntrySeat(m: M.System, c: nat, session: string, tab: string, id: string, fp: string, j: Job)
    requires Ops.OpsGood(m) && M.Enabled(m, M.Enter(c, session, tab, id, fp))
    requires j.operation == id != "" && j.session == session && j.tab == tab && !j.finished
    requires var t := M.Apply(m, M.Enter(c, session, tab, id, fp)); c in t.callers && t.callers[c].InCallback?
    ensures Bound(M.Apply(m, M.Enter(c, session, tab, id, fp)), j, c)
  {
    hide EnterOperation, Ops.HistoryGood, Ops.CallersGood;
    Ops.EnterShape(m, M.Enter(c, session, tab, id, fp));
  }

  lemma EnterKeepsJob(s: System, st: Step, c: nat)
    requires Layers(s) && "" !in s.queues && st.Enter? && Enabled(s, st) && JobGood(s, c)
    ensures JobGood(Apply(s, st), c)
  {
    var m := M.Enter(st.c, st.session, st.tab, st.id, st.fingerprint);
    var j := Job(st.name, st.id, st.session, st.tab, Outside, false, false, false);
    var t := s.(manager := M.Apply(s.manager, m));
    hide M.Apply, M.Enabled, M.Reachable, JobGood, Mutating, AcceptedId;
    CallbackKeepsJob(s, m, c);
    if st.c in t.manager.callers && t.manager.callers[st.c].InCallback? {
      if c == st.c {
        Ops.ReachableOps(s.manager);
        EntrySeat(s.manager, st.c, st.session, st.tab, st.id, st.fingerprint, j);
        NewJob(t, c, j);
      } else {
        OtherJob(t, st.c, j, c);
      }
    }
  }

  lemma FinishKeepsJob(s: System, st: Step, c: nat)
    requires Layers(s) && st.Finish? && Enabled(s, st) && JobGood(s, c)
    ensures JobGood(Apply(s, st), c)
  {
    hide M.Enabled, M.Reachable, Mutating, AcceptedId, NeedsPreflight, M.After;
    var a := s.jobs[st.c].phase.answer;
    var back := M.Return(st.c, s.manager.callers[st.c].serial, a.result, a.err, st.now);
    assert M.Enabled(s.manager, back) by { ReturnEnabled(s.manager, back); }
    if c != st.c {
      hide M.Apply, JobGood;
      CallbackKeepsJob(s, back, c);
      OtherJob(s.(manager := M.Apply(s.manager, back)), st.c, s.jobs[st.c].(finished := true), c);
    }
  }

  lemma ReturnEnabled(m: M.System, st: M.Step)
    requires st.Return? && st.caller in m.callers && m.callers[st.caller] == M.InCallback(st.serial)
    ensures M.Enabled(m, st)
  {
  }

  lemma ArriveKeepsJob(s: System, st: Step, c: nat)
    requires "" !in s.queues && st.Arrive? && Enabled(s, st) && JobGood(s, c)
    ensures JobGood(Apply(s, st), c)
  {
    hide Q.Apply, Q.Enabled, Mutating, AcceptedId, NeedsPreflight, Account;
    var tab := s.jobs[st.c].tab;
    if tab == "" {
      if c == st.c {
        OwnJob(s, c, s.jobs[c].(phase := Inside));
      } else {
        OtherJob(s, st.c, s.jobs[st.c].(phase := Inside), c);
      }
    } else if c == st.c {
      OwnPlace(s.queues[tab], Q.Arrive(c), c);
      MoverStaysGood(s, tab, Q.Arrive(c), c, s.jobs[c]);
      assert s.jobs[c := s.jobs[c]] == s.jobs;
    } else {
      MoveLeavesOthers(s, tab, Q.Arrive(st.c), c);
    }
  }

  lemma LeaveKeepsJob(s: System, d: nat, p: Phase, c: nat)
    requires CanLeave(s, d) && JobGood(s, c) && JobGood(s, d) && InBody(s.jobs[d].phase)
    requires p.Left? && p.stop != ByQueue && Flags(s.jobs[d].(phase := p)) && Reasons(s.jobs[d].(phase := p))
    ensures JobGood(LeaveBody(s, d, p), c)
  {
    hide Q.Apply, Q.Enabled, Mutating, AcceptedId, NeedsPreflight, Account;
    var tab, j := s.jobs[d].tab, s.jobs[d].(phase := p);
    if tab == "" {
      if c == d {
        OwnJob(s, c, j);
      } else {
        OtherJob(s, d, j, c);
      }
    } else if c == d {
      OwnPlace(s.queues[tab], Q.FnReturns(c), c);
      MoverStaysGood(s, tab, Q.FnReturns(c), c, j);
    } else {
      MoveLeavesOthers(s, tab, Q.FnReturns(d), c);
      OtherJob(Moved(s, tab, Q.FnReturns(d)), d, j, c);
    }
  }

  lemma EndKeepsJob(s: System, st: Step, c: nat)
    requires (st.Gate? || st.Reply?) && Enabled(s, st) && JobGood(s, c) && JobGood(s, st.c)
    ensures JobGood(Apply(s, st), c)
  {
    hide Q.Apply, Q.Enabled, Mutating, AcceptedId, NeedsPreflight, LeaveBody, Account;
    if st.Reply? {
      LeaveKeepsJob(s, st.c, Left(ByBridge, st.raw), c);
    } else if st.error.Some? {
      LeaveKeepsJob(s, st.c, Left(ByGate, Outcome("", st.error)), c);
    } else if c == st.c {
      OwnJob(s, c, s.jobs[c].(phase := Cleared));
    } else {
      OtherJob(s, st.c, s.jobs[st.c].(phase := Cleared), c);
    }
  }

  lemma BodyKeepsJob(s: System, st: Step, c: nat)
    requires (st.Mark? || st.Hand? || st.Answer?) && Enabled(s, st) && JobGood(s, c)
    ensures JobGood(Apply(s, st), c)
  {
    hide JobGood, Apply, Enabled;
    BodyStep(s, st);
    if c == st.c {
      OwnBodyStep(s, st, c);
      OwnJob(s, c, Apply(s, st).jobs[c]);
    } else {
      OtherJob(s, st.c, Apply(s, st).jobs[st.c], c);
    }
  }

  lemma BodyStep(s: System, st: Step)
    requires (st.Mark? || st.Hand? || st.Answer?) && Enabled(s, st)
    ensures st.c in s.jobs && st.c in Apply(s, st).jobs
    ensures Apply(s, st) == s.(jobs := s.jobs[st.c := Apply(s, st).jobs[st.c]])
  {
    hide Q.Enabled, M.Enabled, NeedsPreflight, Account;
  }

  lemma OwnBodyStep(s: System, st: Step, c: nat)
    requires (st.Mark? || st.Hand? || st.Answer?) && Enabled(s, st) && c == st.c && c in s.jobs && JobGood(s, c)
    ensures c in Apply(s, st).jobs
    ensures var j := Apply(s, st).jobs[c];
            && j.tab == s.jobs[c].tab && Flags(j) && Reasons(j) && Bound(s.manager, j, c)
            && var q := QueueOf(s, j.tab); Places(j, PcOf(q, c), c in q.started)
  {
    hide Q.Enabled, M.Enabled, Mutating, AcceptedId, NeedsPreflight, Elsewhere, Seat, Account, Reasons, Places;
    var j, q := s.jobs[c], QueueOf(s, s.jobs[c].tab);
    if st.Answer? {
      AnsweredJob(s.manager, j, c, PcOf(q, c), c in q.started);
    } else if st.Mark? {
      BusyJob(s.manager, j, Marked, true, j.handed, c, PcOf(q, c), c in q.started);
    } else {
      BusyJob(s.manager, j, AtBridge, j.dispatched, true, c, PcOf(q, c), c in q.started);
    }
  }

  lemma AnsweredJob(m: M.System, j: Job, c: nat, pc: Option<Q.Pc>, started: bool)
    requires j.phase.Left? && Flags(j) && Reasons(j) && Bound(m, j, c) && Places(j, pc, started)
    ensures var i := j.(phase := Told(j.phase.stop, j.phase.raw, Account(j, j.phase.raw)));
            Flags(i) && Reasons(i) && Bound(m, i, c) && Places(i, pc, started)
  {
    hide Mutating, AcceptedId, NeedsPreflight;
  }

  lemma BusyJob(m: M.System, j: Job, p: Phase, dispatched: bool, handed: bool, c: nat, pc: Option<Q.Pc>, started: bool)
    requires InBody(j.phase) && Flags(j) && Reasons(j) && Bound(m, j, c) && Places(j, pc, started)
    requires InBody(p) && (dispatched <==> p.Marked? || p.AtBridge?) && (handed <==> p.AtBridge?)
    ensures var i := j.(phase := p, dispatched := dispatched, handed := handed);
            Flags(i) && Reasons(i) && Bound(m, i, c) && Places(i, pc, started)
  {
    hide Mutating, AcceptedId, NeedsPreflight, Account;
  }

  lemma StepKeepsJob(s: System, st: Step, c: nat)
    requires Inv(s) && Enabled(s, st)
    ensures JobGood(Apply(s, st), c)
  {
    hide JobGood, M.Enabled, Q.Enabled, M.Apply, Q.Apply, M.Reachable, Q.Reachable, Managed, Found, Entered, AfterLine,
         LeaveBody, Finished, Mutating, NeedsPreflight, AcceptedId, Account;
    assert JobGood(s, c);
    match st {
      case Manage(m) => ManageKeepsJob(s, m, c);
      case Enter(_, _, _, _, _, _) => EnterKeepsJob(s, st, c);
      case Plain(d, tab, name) =>
        assert JobGood(s, d);
        PlainKeepsJob(s, d, tab, name, c);
      case Find(d) => FindKeepsJob(s, s.jobs[d].tab, c);
      case Arrive(_) => ArriveKeepsJob(s, st, c);
      case Line(tab, move) => LineKeeps(s, tab, move, c);
      case Finish(_, _) => FinishKeepsJob(s, st, c);
      case Gate(d, _) => assert JobGood(s, d); EndKeepsJob(s, st, c);
      case Reply(d, _) => assert JobGood(s, d); EndKeepsJob(s, st, c);
      case _ => BodyKeepsJob(s, st, c);
    }
  }

  lemma PlainKeepsJob(s: System, d: nat, tab: string, name: string, c: nat)
    requires JobGood(s, c) && d !in s.jobs && "" !in s.queues && !Mutating(name)
    ensures JobGood(s.(jobs := s.jobs[d := Job(name, "", "", tab, Outside, false, false, false)]), c)
  {
    hide JobGood, Mutating, AcceptedId;
    var j := Job(name, "", "", tab, Outside, false, false, false);
    if c == d {
      NewJob(s, c, j);
    } else {
      OtherJob(s, d, j, c);
    }
  }

  lemma LeaveKeepsLayers(s: System, c: nat, p: Phase)
    requires Layers(s) && Counted(s) && CanLeave(s, c)
    ensures Layers(LeaveBody(s, c, p)) && Counted(LeaveBody(s, c, p))
  {
    hide Q.Apply, Q.Enabled, Q.Reachable, M.Reachable;
    if s.jobs[c].tab != "" {
      MoveKeepsLayers(s, s.jobs[c].tab, Q.FnReturns(c));
    }
  }

  lemma StepKeepsLayers(s: System, st: Step)
    requires Layers(s) && Counted(s) && Enabled(s, st)
    ensures Layers(Apply(s, st)) && Counted(Apply(s, st))
  {
    hide M.Enabled, Q.Enabled, M.Apply, Q.Apply, M.Reachable, Q.Reachable, Managed, Found, LeaveBody, Mutating,
         NeedsPreflight, AcceptedId, Account;
    match st {
      case Manage(m) => ManageKeepsLayers(s, m);
      case Enter(c, session, tab, id, fp, _) => CallbackKeepsLayers(s, M.Enter(c, session, tab, id, fp));
      case Find(c) => FindKeeps(s, s.jobs[c].tab);
      case Arrive(c) =>
        if s.jobs[c].tab != "" {
          MoveKeepsLayers(s, s.jobs[c].tab, Q.Arrive(c));
        }
      case Line(tab, move) => MoveKeepsLayers(s, tab, move);
      case Gate(c, error) =>
        if error.Some? {
          LeaveKeepsLayers(s, c, Left(ByGate, Outcome("", error)));
        }
      case Reply(c, raw) => LeaveKeepsLayers(s, c, Left(ByBridge, raw));
      case Finish(c, now) =>
        var a := s.jobs[c].phase.answer;
        var back := M.Return(c, s.manager.callers[c].serial, a.result, a.err, now);
        ReturnEnabled(s.manager, back);
        CallbackKeepsLayers(s, back);
      case _ =>
    }
  }

  lemma StepKeepsInv(s: System, st: Step)
    requires Inv(s) && Enabled(s, st)
    ensures Inv(Apply(s, st))
  {
    hide JobGood, Layers, Counted, Enabled, Apply;
    StepKeepsLayers(s, st);
    forall c: nat ensures JobGood(Apply(s, st), c) {
      StepKeepsJob(s, st, c);
    }
  }

  lemma {:induction false} RunKeepsInv(s: System, steps: seq<Step>, t: System)
    requires Inv(s) && IsRun(s, steps, t)
    ensures Inv(t)
    decreases |steps|
  {
    hide Inv, Apply, Enabled;
    if steps != [] {
      StepKeepsInv(s, steps[0]);
      RunKeepsInv(Apply(s, steps[0]), steps[1..], t);
    }
  }

  lemma ReachableInv(s: System)
    requires Reachable(s)
    ensures Inv(s)
  {
    hide Apply, Enabled, M.Apply, M.Enabled;
    var steps: seq<Step> :| IsRun(INITIAL, steps, s);
    assert M.IsRun(M.INITIAL, [], M.INITIAL);
    assert Inv(INITIAL);
    RunKeepsInv(INITIAL, steps, s);
  }
}
