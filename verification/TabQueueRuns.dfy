/**
 Every interleaving of any number of callers of `tabQueue.run` with `cancelAll` and with
 the callers' own cancellations (internal/core/tab_queue.go).

 One step is one critical section of `q.mu` or one local move between sections.  The
 fields `arrivals`, `ticket`, `started` and `owner` are history: the order in which callers
 took the lock for the first time, the order in which `fn` was entered, and the caller the
 slot was last handed to.  No step consults them.
 */
module TabQueueRuns {
  import opened Options
  import opened TabQueues

  datatype Pc =
    | Waiting       // blocked in the select
    | Withdrawing   // ctx.Done() won the select, the lock is not taken yet
    | PreRun        // owns the slot, generation not re-checked yet
    | Running       // inside fn
    | Releasing     // about to call release
    | Done

  datatype System = System(
    queue: Queue,
    pc: map<Caller, Pc>,
    ctxDone: set<Caller>,
    arrivals: seq<Caller>,
    ticket: map<Caller, nat>,
    started: seq<Caller>,
    owner: Option<Caller>)

  datatype Step =
    | Arrive(c: Caller)
    | CancelCaller(c: Caller)
    | ChooseDone(c: Caller)
    | TakeLockAndWithdraw(c: Caller)
    | Wake(c: Caller)
    | CheckGeneration(c: Caller)
    | FnReturns(c: Caller)
    | ReleaseSlot(c: Caller)
    | Revoke

  const INITIAL := System(EMPTY, map[], {}, [], map[], [], None)

  predicate At(s: System, c: Caller, p: Pc) {
    c in s.pc && s.pc[c] == p && c in s.queue.cells
  }

  predicate Enabled(s: System, st: Step) {
    match st
    case Arrive(c) => c !in s.pc
    case CancelCaller(c) => true
    case ChooseDone(c) => At(s, c, Waiting) && c in s.ctxDone
    case TakeLockAndWithdraw(c) => At(s, c, Withdrawing)
    case Wake(c) => At(s, c, Waiting) && s.queue.cells[c].closes > 0
    case CheckGeneration(c) => At(s, c, PreRun)
    case FnReturns(c) => At(s, c, Running)
    case ReleaseSlot(c) => At(s, c, Releasing) && Listed(s.queue)
    case Revoke => Listed(s.queue)
  }

  /** The executable form of WellFormed. */
  predicate Listed(q: Queue)
    ensures Listed(q) == WellFormed(q)
  {
    forall w | w in q.waiters :: w in q.cells
  }

  function FirstUnfailed(q: Queue): Option<Caller>
    requires Listed(q)
    decreases |q.waiters|
  {
    if q.waiters == [] then None
    else if q.cells[q.waiters[0]].failed then
      assert forall v | v in q.waiters[1..] :: v in q.waiters;
      FirstUnfailed(q.(waiters := q.waiters[1..]))
    else Some(q.waiters[0])
  }

  function Goto(s: System, c: Caller, p: Pc): System {
    s.(pc := s.pc[c := p])
  }

  function Apply(s: System, st: Step): System
    requires Enabled(s, st)
  {
    match st
    case Arrive(c) =>
      s.(queue := Enter(s.queue, c),
         pc := s.pc[c := if s.queue.running then Waiting else PreRun],
         arrivals := s.arrivals + [c],
         ticket := s.ticket[c := |s.arrivals|],
         owner := if s.queue.running then s.owner else Some(c))
    case CancelCaller(c) => s.(ctxDone := s.ctxDone + {c})
    case ChooseDone(c) => Goto(s, c, Withdrawing)
    case TakeLockAndWithdraw(c) =>
      Goto(s, c, if s.queue.cells[c].granted then Releasing else Done).(queue := Withdraw(s.queue, c))
    case Wake(c) => Goto(s, c, if s.queue.cells[c].failed then Done else PreRun)
    case CheckGeneration(c) =>
      if Admissible(s.queue, c) then
        Goto(s, c, Running).(queue := Admit(s.queue, c), started := s.started + [c])
      else Goto(s, c, Releasing)
    case FnReturns(c) => Goto(s, c, Releasing)
    case ReleaseSlot(c) => 
      Goto(s, c, Done).(queue := Release(s.queue), owner := FirstUnfailed(s.queue))
    case Revoke => s.(queue := CancelAll(s.queue))
  }

  /** The states of a run, one more than its steps. */
  ghost predicate IsRun(s: System, steps: seq<Step>, t: System)
    decreases |steps|
  {
    if steps == [] then s == t
    else Enabled(s, steps[0]) && IsRun(Apply(s, steps[0]), steps[1..], t)
  }

  // ---------------------------------------------------------------- the invariant

  predicate Blocked(p: Pc) {
    p.Waiting? || p.Withdrawing?
  }

  /** Read off the program counters and the granted flags alone. */
  predicate Owns(s: System, c: Caller) {
    c in s.pc && c in s.queue.cells && !s.pc[c].Done? && (Blocked(s.pc[c]) ==> s.queue.cells[c].granted)
  }

  ghost predicate Domains(s: System) {
    s.pc.Keys == s.queue.cells.Keys == s.ticket.Keys
  }

  ghost predicate Tickets(s: System)
    requires Domains(s)
  {
    && (forall c | c in s.pc :: s.ticket[c] < |s.arrivals| && s.arrivals[s.ticket[c]] == c)
    && (forall i | 0 <= i < |s.arrivals| :: s.arrivals[i] in s.ticket && s.ticket[s.arrivals[i]] == i)
  }

  /** Everyone in the list is blocked, unresolved and of the current generation. */
  ghost predicate GoodList(s: System)
    requires Domains(s)
  {
    forall w | w in s.queue.waiters ::
      w in s.pc && Blocked(s.pc[w]) && s.queue.cells[w] == Waiter(s.queue.generation, false, false, 0)
  }

  ghost predicate GoodCell(s: System, c: Caller)
    requires Domains(s) && c in s.pc
  {
    var w := s.queue.cells[c];
    && w.closes <= 1
    && w.generation <= s.queue.generation
    && !(w.granted && w.failed)
    && (w.failed ==> w.generation < s.queue.generation)
    && (Blocked(s.pc[c]) ==>
          (w.closes == 1 <==> w.granted || w.failed) && (c in s.queue.waiters || w.granted || w.failed))
  }

  ghost predicate GoodCells(s: System)
    requires Domains(s)
  {
    forall c | c in s.pc :: GoodCell(s, c)
  }

  ghost predicate OneOwner(s: System) {
    && (forall c | c in s.pc :: Owns(s, c) <==> s.owner == Some(c))
    && (s.owner.Some? ==> s.owner.value in s.pc)
    && (s.queue.running <==> s.owner.Some?)
    && (s.queue.waiters != [] ==> s.queue.running)
    && (forall c | c in s.pc && s.pc[c].Running? :: s.queue.active == Some(c))
    && (s.queue.active.Some? ==> s.owner == s.queue.active && s.queue.active.value in s.started)
  }

  ghost predicate Ascending(ws: seq<Caller>, ticket: map<Caller, nat>) {
    && (forall w | w in ws :: w in ticket)
    && (forall i, j | 0 <= i < j < |ws| :: ticket[ws[i]] < ticket[ws[j]])
  }

  /** The waiting list is in arrival order and behind the owner. */
  ghost predicate ListInOrder(s: System)
    requires Domains(s) && GoodList(s)
  {
    && Ascending(s.queue.waiters, s.ticket)
    && (s.owner.Some? && s.owner.value in s.ticket ==>
          forall w | w in s.queue.waiters :: s.ticket[s.owner.value] < s.ticket[w])
  }

  /** fn was entered in arrival order, and nobody who entered it arrived after the owner. */
  ghost predicate StartedInOrder(s: System)
    requires Domains(s)
  {
    && (forall c | c in s.started :: c in s.pc && !Blocked(s.pc[c]) && !s.pc[c].PreRun?)
    && Ascending(s.started, s.ticket)
    && (s.owner.Some? && s.owner.value in s.ticket ==>
          forall c | c in s.started :: s.ticket[c] <= s.ticket[s.owner.value])
  }

  ghost predicate RevokedOnlyEarlier(s: System)
    requires Domains(s)
  {
    forall c | c in s.queue.cancelled :: c in s.pc && s.queue.cells[c].generation < s.queue.generation
  }

  ghost predicate Inv(s: System) {
    && Domains(s) && Tickets(s)
    && GoodList(s) && GoodCells(s)
    && OneOwner(s)
    && ListInOrder(s) && StartedInOrder(s)
    && RevokedOnlyEarlier(s)
  }

  /** cancelAll on a duplicate-free list marks and closes each listed waiter once and no other. */
  lemma {:induction false} FailAllMarks(cells: map<Caller, Waiter>, ws: seq<Caller>)
    requires forall w | w in ws :: w in cells
    requires forall i, j | 0 <= i < j < |ws| :: ws[i] != ws[j]
    ensures FailAll(cells, ws) ==
            map c | c in cells :: if c in ws then cells[c].(failed := true, closes := cells[c].closes + 1) else cells[c]
  {
    if ws != [] {
      var next := cells[ws[0] := cells[ws[0]].(failed := true, closes := cells[ws[0]].closes + 1)];
      assert ws[0] !in ws[1..];
      FailAllMarks(next, ws[1..]);
      assert forall c :: c in ws <==> c == ws[0] || c in ws[1..];
    }
  }

  lemma {:induction false} WithoutKeeps(ws: seq<Caller>, c: Caller, f: map<Caller, nat>)
    requires Ascending(ws, f)
    ensures forall w :: w in Without(ws, c) <==> w in ws && w != c
    ensures Ascending(Without(ws, c), f)
  {
    if c in ws {
      var i :| 0 <= i < |ws| && ws[i] == c;
      WithoutIsRemoval(ws, i);
    } else {
      WithoutAbsent(ws, c);
    }
  }

  /** With an unresolved list, release pops its head and never skips. */
  lemma {:induction false} GrantPopsHead(q: Queue)
    requires WellFormed(q)
    requires forall w | w in q.waiters :: !q.cells[w].failed
    ensures Grant(q) ==
            if q.waiters == [] then q.(running := false)
            else var w := q.waiters[0];
                 q.(waiters := q.waiters[1..],
                    cells := q.cells[w := q.cells[w].(granted := true, closes := q.cells[w].closes + 1)])
    ensures FirstUnfailed(q) == if q.waiters == [] then None else Some(q.waiters[0])
  {
  }

  /** Only an arrival adds a caller. */
  lemma NobodyAdded(s: System, st: Step)
    requires Domains(s) && Enabled(s, st) && !st.Arrive?
    ensures var t := Apply(s, st);
            && t.arrivals == s.arrivals && t.ticket == s.ticket
            && t.pc.Keys == s.pc.Keys && t.queue.cells.Keys == s.queue.cells.Keys
  {
  }

  lemma ArrivalKeepsBooks(s: System, c: Caller)
    requires Domains(s) && Tickets(s) && Enabled(s, Arrive(c))
    ensures Domains(Apply(s, Arrive(c))) && Tickets(Apply(s, Arrive(c)))
  {
  }

  lemma BooksKept(s: System, st: Step)
    requires Domains(s) && Tickets(s) && Enabled(s, st)
    ensures Domains(Apply(s, st)) && Tickets(Apply(s, st))
  {
    hide Apply, Enabled;
    if st.Arrive? {
      ArrivalKeepsBooks(s, st.c);
    } else {
      NobodyAdded(s, st);
    }
  }

  lemma CellsKeptByArrival(s: System, c: Caller)
    requires Domains(s) && GoodList(s) && GoodCells(s) && Enabled(s, Arrive(c))
    requires Domains(Apply(s, Arrive(c)))
    ensures GoodList(Apply(s, Arrive(c))) && GoodCells(Apply(s, Arrive(c)))
  {
    var t := Apply(s, Arrive(c));
    forall d | d in t.pc ensures GoodCell(t, d) {
      assert d in s.pc ==> GoodCell(s, d);
    }
  }

  lemma CellsKept(s: System, st: Step)
    requires Domains(s) && GoodList(s) && GoodCells(s) && Enabled(s, st)
    requires !st.Arrive? && !st.TakeLockAndWithdraw? && !st.ReleaseSlot? && !st.Revoke?
    requires Domains(Apply(s, st))
    ensures GoodList(Apply(s, st)) && GoodCells(Apply(s, st))
  {
    var t := Apply(s, st);
    forall d | d in t.pc ensures GoodCell(t, d) {
      assert d in s.pc ==> GoodCell(s, d);
    }
  }

  lemma CellsKeptByWithdraw(s: System, c: Caller)
    requires Domains(s) && GoodList(s) && GoodCells(s) && ListInOrder(s) && Enabled(s, TakeLockAndWithdraw(c))
    requires Domains(Apply(s, TakeLockAndWithdraw(c)))
    ensures GoodList(Apply(s, TakeLockAndWithdraw(c))) && GoodCells(Apply(s, TakeLockAndWithdraw(c)))
  {
    var t := Apply(s, TakeLockAndWithdraw(c));
    WithoutKeeps(s.queue.waiters, c, s.ticket);
    forall d | d in t.pc ensures GoodCell(t, d) {
      assert GoodCell(s, d);
    }
  }

  lemma CellsKeptByRelease(s: System, c: Caller)
    requires Domains(s) && GoodList(s) && GoodCells(s) && ListInOrder(s) && Enabled(s, ReleaseSlot(c))
    requires Domains(Apply(s, ReleaseSlot(c)))
    ensures GoodList(Apply(s, ReleaseSlot(c))) && GoodCells(Apply(s, ReleaseSlot(c)))
  {
    var t := Apply(s, ReleaseSlot(c));
    GrantPopsHead(s.queue.(active := None));
    if s.queue.waiters != [] {
      assert s.queue.waiters[0] !in s.queue.waiters[1..];
    }
    forall d | d in t.pc ensures GoodCell(t, d) {
      assert GoodCell(s, d);
    }
  }

  lemma CellsKeptByRevoke(s: System)
    requires Inv(s) && Enabled(s, Revoke)
    requires Domains(Apply(s, Revoke))
    ensures GoodList(Apply(s, Revoke)) && GoodCells(Apply(s, Revoke))
  {
    var t := Apply(s, Revoke);
    FailAllMarks(s.queue.cells, s.queue.waiters);
    forall d | d in t.pc ensures GoodCell(t, d) {
      assert GoodCell(s, d);
    }
  }

  lemma OwnerKept(s: System, st: Step)
    requires Domains(s) && OneOwner(s) && Enabled(s, st)
    requires st.Arrive? || st.CancelCaller? || st.ChooseDone? || st.FnReturns?
    ensures OneOwner(Apply(s, st))
  {
  }

  lemma OwnerKeptByWakeUp(s: System, st: Step)
    requires Domains(s) && GoodCells(s) && OneOwner(s) && Enabled(s, st)
    requires st.Wake? || st.CheckGeneration?
    ensures OneOwner(Apply(s, st))
  {
  }

  lemma OwnerKeptByListChange(s: System, st: Step)
    requires Domains(s) && GoodList(s) && ListInOrder(s) && OneOwner(s) && Enabled(s, st)
    requires st.TakeLockAndWithdraw? || st.Revoke?
    ensures OneOwner(Apply(s, st))
  {
    match st
    case TakeLockAndWithdraw(c) => WithoutKeeps(s.queue.waiters, c, s.ticket);
    case Revoke => FailAllMarks(s.queue.cells, s.queue.waiters);
  }

  lemma OwnerKeptByRelease(s: System, c: Caller)
    requires Domains(s) && GoodList(s) && OneOwner(s) && Enabled(s, ReleaseSlot(c))
    ensures OneOwner(Apply(s, ReleaseSlot(c)))
  {
  }

  lemma AscendingAppend(ws: seq<Caller>, f: map<Caller, nat>, g: map<Caller, nat>, c: Caller)
    requires Ascending(ws, f)
    requires c in g && (forall w | w in ws :: w in g && g[w] == f[w] < g[c])
    ensures Ascending(ws, g) && Ascending(ws + [c], g)
  {
  }

  lemma OrderKept(s: System, st: Step)
    requires Domains(s) && Tickets(s) && GoodList(s) && ListInOrder(s) && OneOwner(s) && Enabled(s, st)
    requires !st.ReleaseSlot?
    requires Domains(Apply(s, st)) && GoodList(Apply(s, st))
    ensures ListInOrder(Apply(s, st))
  {
    hide Grant, FailAll, FirstUnfailed, Release;
    match st
    case Arrive(c) => AscendingAppend(s.queue.waiters, s.ticket, Apply(s, st).ticket, c);
    case TakeLockAndWithdraw(c) => WithoutKeeps(s.queue.waiters, c, s.ticket);
    case _ =>
  }

  lemma OrderKeptByRelease(s: System, c: Caller)
    requires Domains(s) && GoodList(s) && ListInOrder(s) && Enabled(s, ReleaseSlot(c))
    requires Domains(Apply(s, ReleaseSlot(c))) && GoodList(Apply(s, ReleaseSlot(c)))
    ensures ListInOrder(Apply(s, ReleaseSlot(c)))
  {
  }

  lemma StartsKept(s: System, st: Step)
    requires Domains(s) && StartedInOrder(s) && Enabled(s, st)
    requires !st.Arrive? && !st.CheckGeneration? && !st.ReleaseSlot?
    requires Domains(Apply(s, st))
    ensures StartedInOrder(Apply(s, st))
  {
  }

  lemma StartsKeptByArrival(s: System, c: Caller)
    requires Domains(s) && Tickets(s) && StartedInOrder(s) && Enabled(s, Arrive(c))
    requires Domains(Apply(s, Arrive(c)))
    ensures StartedInOrder(Apply(s, Arrive(c)))
  {
  }

  /** The caller that enters fn arrived after everyone who entered it before. */
  lemma StartsKeptByCheck(s: System, c: Caller)
    requires Domains(s) && Tickets(s) && OneOwner(s) && StartedInOrder(s) && Enabled(s, CheckGeneration(c))
    requires Domains(Apply(s, CheckGeneration(c)))
    ensures StartedInOrder(Apply(s, CheckGeneration(c)))
  {
    hide Release, CancelAll, Enter, Withdraw, FirstUnfailed, Listed;
    assert Owns(s, c) && s.owner == Some(c) && c !in s.started;
    OwnerIsLatest(s, c);
  }

  lemma OwnerIsLatest(s: System, c: Caller)
    requires Domains(s) && Tickets(s) && StartedInOrder(s)
    requires c in s.pc && s.owner == Some(c) && c !in s.started
    ensures Ascending(s.started + [c], s.ticket)
  {
  }

  lemma StartsKeptByRelease(s: System, c: Caller)
    requires Domains(s) && GoodList(s) && OneOwner(s) && ListInOrder(s) && StartedInOrder(s)
    requires Enabled(s, ReleaseSlot(c)) && Domains(Apply(s, ReleaseSlot(c)))
    ensures StartedInOrder(Apply(s, ReleaseSlot(c)))
  {
  }

  /** Held back for ever: the caller has not entered fn and its generation is over. */
  ghost predicate Outdated(s: System, c: Caller) {
    c in s.queue.cells && s.queue.cells[c].generation < s.queue.generation && c !in s.started
  }

  lemma StepKeepsRevocation(s: System, st: Step, c: Caller)
    requires Domains(s) && GoodList(s) && ListInOrder(s) && Enabled(s, st) && c in s.queue.cells
    ensures c in Apply(s, st).queue.cells
    ensures Apply(s, st).queue.cells[c].generation == s.queue.cells[c].generation
    ensures Apply(s, st).queue.generation == s.queue.generation + if st.Revoke? then 1 else 0
    ensures Outdated(s, c) ==> Outdated(Apply(s, st), c)
    ensures c in s.queue.cancelled ==> c in Apply(s, st).queue.cancelled
  {
    match st
    case ReleaseSlot(_) => GrantPopsHead(s.queue.(active := None));
    case Revoke => FailAllMarks(s.queue.cells, s.queue.waiters);
    case _ =>
  }

  lemma RevokedKept(s: System, st: Step)
    requires Domains(s) && GoodList(s) && GoodCells(s) && OneOwner(s) && ListInOrder(s) && RevokedOnlyEarlier(s)
    requires Enabled(s, st) && Domains(Apply(s, st))
    ensures RevokedOnlyEarlier(Apply(s, st))
  {
    forall c | c in Apply(s, st).queue.cancelled
      ensures c in s.pc && Apply(s, st).queue.cells[c].generation < Apply(s, st).queue.generation
    {
      CancelledSource(s, st, c);
      StepKeepsRevocation(s, st, c);
      assert GoodCell(s, c);
    }
  }

  lemma CancelledSource(s: System, st: Step, c: Caller)
    requires Enabled(s, st) && WellFormed(s.queue) && c in Apply(s, st).queue.cancelled
    requires forall w | w in s.queue.waiters :: !s.queue.cells[w].failed
    ensures c in s.queue.cancelled || (st.Revoke? && s.queue.active == Some(c))
  {
  }

  /** Every step keeps the invariant. */
  lemma StepKeepsInv(s: System, st: Step)
    requires Inv(s) && Enabled(s, st)
    ensures Inv(Apply(s, st))
  {
    hide Apply, Enabled, Domains, Tickets, GoodList, GoodCells, OneOwner, ListInOrder, StartedInOrder,
         RevokedOnlyEarlier;
    BooksKept(s, st);
    match st {
      case ReleaseSlot(c) => CellsKeptByRelease(s, c); OwnerKeptByRelease(s, c);
      case Revoke => CellsKeptByRevoke(s); OwnerKeptByListChange(s, st);
      case TakeLockAndWithdraw(c) => CellsKeptByWithdraw(s, c); OwnerKeptByListChange(s, st);
      case Wake(_) => CellsKept(s, st); OwnerKeptByWakeUp(s, st);
      case CheckGeneration(_) => CellsKept(s, st); OwnerKeptByWakeUp(s, st);
      case Arrive(c) => CellsKeptByArrival(s, c); OwnerKept(s, st);
      case _ => CellsKept(s, st); OwnerKept(s, st);
    }
    match st {
      case ReleaseSlot(c) => OrderKeptByRelease(s, c); StartsKeptByRelease(s, c);
      case Arrive(c) => OrderKept(s, st); StartsKeptByArrival(s, c);
      case CheckGeneration(c) => OrderKept(s, st); StartsKeptByCheck(s, c);
      case _ => OrderKept(s, st); StartsKept(s, st);
    }
    RevokedKept(s, st);
  }

  lemma {:induction false} RunKeepsInv(s: System, steps: seq<Step>, t: System)
    requires Inv(s) && IsRun(s, steps, t)
    ensures Inv(t)
    decreases |steps|
  {
    if steps != [] {
      StepKeepsInv(s, steps[0]);
      RunKeepsInv(Apply(s, steps[0]), steps[1..], t);
    }
  }

  // ---------------------------------------------------------------- theorems over runs

  ghost predicate Reachable(s: System) {
    exists steps :: IsRun(INITIAL, steps, s)
  }

  lemma ReachableInv(s: System)
    requires Reachable(s)
    ensures Inv(s)
  {
    var steps :| IsRun(INITIAL, steps, s);
    RunKeepsInv(INITIAL, steps, s);
  }

  /** At most one caller owns the slot, `running` says exactly that one does, fn never overlaps
      with itself, and a caller inside fn is the one activeCancel interrupts. */
  lemma MutualExclusion(s: System)
    requires Reachable(s)
    ensures forall c: Caller, d: Caller | Owns(s, c) && Owns(s, d) :: c == d
    ensures s.queue.running <==> exists c: Caller :: Owns(s, c)
    ensures forall c: Caller, d: Caller | At(s, c, Running) && At(s, d, Running) :: c == d
    ensures forall c: Caller | At(s, c, Running) :: s.queue.active == Some(c)
  {
    ReachableInv(s);
    if s.queue.running {
      assert Owns(s, s.owner.value);
    }
  }

  ghost predicate Subsequence(xs: seq<Caller>, ys: seq<Caller>, at: seq<nat>) {
    && |at| == |xs|
    && (forall i | 0 <= i < |xs| :: at[i] < |ys| && ys[at[i]] == xs[i])
    && (forall i, j | 0 <= i < j < |xs| :: at[i] < at[j])
  }

  /** fn is entered in arrival order, at most once per caller: nobody overtakes, not even on
      the immediate path. */
  lemma StartsFollowArrivals(s: System) returns (at: seq<nat>)
    requires Reachable(s)
    ensures Subsequence(s.started, s.arrivals, at)
  {
    ReachableInv(s);
    at := seq(|s.started|, i requires 0 <= i < |s.started| && s.started[i] in s.ticket => s.ticket[s.started[i]]);
  }

  /** No ready channel is closed twice, every listed waiter carries the current generation, and
      release never meets a waiter that already holds an error. */
  lemma ListedWaitersAreFresh(s: System)
    requires Reachable(s)
    ensures forall c | c in s.queue.cells :: s.queue.cells[c].closes <= 1
    ensures forall w | w in s.queue.waiters ::
              w in s.queue.cells && s.queue.cells[w] == Waiter(s.queue.generation, false, false, 0)
    ensures forall i, j | 0 <= i < j < |s.queue.waiters| :: s.queue.waiters[i] != s.queue.waiters[j]
  {
    ReachableInv(s);
    forall c | c in s.queue.cells ensures s.queue.cells[c].closes <= 1 {
      assert c in s.pc && GoodCell(s, c);
    }
  }

  // ---- revocation

  lemma {:induction false} RunKeepsRevocation(s: System, steps: seq<Step>, t: System, c: Caller)
    requires Inv(s) && IsRun(s, steps, t) && c in s.queue.cells
    ensures Outdated(s, c) ==> Outdated(t, c)
    ensures c in s.queue.cancelled ==> c in t.queue.cancelled
    decreases |steps|
  {
    if steps != [] {
      StepKeepsRevocation(s, steps[0], c);
      StepKeepsInv(s, steps[0]);
      RunKeepsRevocation(Apply(s, steps[0]), steps[1..], t, c);
    }
  }

  /** cancelAll, then any continuation: whoever had arrived and not entered fn never enters it,
      and whoever was inside fn keeps a cancelled context. */
  lemma RevokeStopsEarlierCallers(s: System, steps: seq<Step>, t: System, c: Caller)
    requires Reachable(s) && Enabled(s, Revoke) && IsRun(Apply(s, Revoke), steps, t)
    requires c in s.arrivals
    ensures c !in s.started ==> c !in t.started
    ensures At(s, c, Running) ==> c in t.queue.cancelled
  {
    ReachableInv(s);
    var r := Apply(s, Revoke);
    StepKeepsInv(s, Revoke);
    StepKeepsRevocation(s, Revoke, c);
    assert GoodCell(s, c);
    RunKeepsRevocation(r, steps, t, c);
  }

  lemma {:induction false} GenerationCounts(s: System, steps: seq<Step>, t: System, c: Caller)
    requires Inv(s) && IsRun(s, steps, t) && c in s.queue.cells
    requires Revoke !in steps
    ensures c in t.queue.cells && t.queue.generation == s.queue.generation
    ensures t.queue.cells[c].generation == s.queue.cells[c].generation
    decreases |steps|
  {
    if steps != [] {
      assert steps[0] in steps;
      StepKeepsRevocation(s, steps[0], c);
      StepKeepsInv(s, steps[0]);
      GenerationCounts(Apply(s, steps[0]), steps[1..], t, c);
    }
  }

  /** A caller that arrived after the last cancelAll is untouched by it and all earlier ones: it
      holds no error, its run context is not cancelled, and its generation check will pass. */
  lemma RevokeSparesLaterCallers(s: System, c: Caller, steps: seq<Step>, t: System)
    requires Reachable(s) && Enabled(s, Arrive(c)) && IsRun(Apply(s, Arrive(c)), steps, t)
    requires Revoke !in steps
    ensures c in t.queue.cells && !t.queue.cells[c].failed && c !in t.queue.cancelled
    ensures At(t, c, PreRun) ==> c in Apply(t, CheckGeneration(c)).started
  {
    ReachableInv(s);
    var r := Apply(s, Arrive(c));
    StepKeepsInv(s, Arrive(c));
    GenerationCounts(r, steps, t, c);
    RunKeepsInv(r, steps, t);
    CurrentGenerationIsUntouched(t, c);
  }

  lemma CurrentGenerationIsUntouched(s: System, c: Caller)
    requires Inv(s) && c in s.queue.cells && Admissible(s.queue, c)
    ensures !s.queue.cells[c].failed && c !in s.queue.cancelled
    ensures At(s, c, PreRun) ==> c in Apply(s, CheckGeneration(c)).started
  {
  }

  // ---- progress

  /** A step that a caller of run takes on its own after arriving. */
  predicate Internal(st: Step) {
    !st.Arrive? && !st.CancelCaller? && !st.Revoke?
  }

  lemma {:induction false} Leaves(ws: seq<Caller>, c: Caller) returns (k: nat)
    ensures c !in ws ==> Without(ws, c) == ws
    ensures c in ws ==> k < |ws| && ws[k] == c && Without(ws, c) == ws[..k] + ws[k + 1..]
  {
    k := 0;
    if ws != [] && ws[0] != c {
      var j := Leaves(ws[1..], c);
      k := j + 1;
      if c in ws[1..] {
        assert ws[..k] == [ws[0]] + ws[1..][..j] && ws[k + 1..] == ws[1..][j + 1..];
      }
    }
  }

  /** A waiting caller can give up whenever it is told to. It then leaves the list to the others, in their
      order, and is done; unless the slot was its own already, which it hands on. */
  lemma WaitersCanGiveUp(s: System, c: Caller)
    requires Reachable(s) && At(s, c, Waiting)
    ensures Enabled(s, CancelCaller(c)) && Enabled(Apply(s, CancelCaller(c)), ChooseDone(c))
    ensures var asked := Apply(Apply(s, CancelCaller(c)), ChooseDone(c));
            && Enabled(asked, TakeLockAndWithdraw(c))
            && var t := Apply(asked, TakeLockAndWithdraw(c));
               && t.queue == s.queue.(waiters := t.queue.waiters) && t.started == s.started && t.owner == s.owner
               && t.pc[c] == (if s.owner == Some(c) then Releasing else Done)
               && (s.owner == Some(c) || c !in s.queue.waiters ==> t.queue.waiters == s.queue.waiters)
               && (s.owner != Some(c) && c in s.queue.waiters ==>
                     exists k :: 0 <= k < |s.queue.waiters| && s.queue.waiters[k] == c &&
                         t.queue.waiters == s.queue.waiters[..k] + s.queue.waiters[k + 1..])
  {
    hide Without;
    ReachableInv(s);
    var k := Leaves(s.queue.waiters, c);
  }

  /** Only a cancelled caller gives up: over any run each one that does was cancelled on the way. */
  lemma {:induction false} DoneWasAsked(s: System, steps: seq<Step>, t: System, c: Caller)
    requires IsRun(s, steps, t)
    ensures c in t.ctxDone <==> c in s.ctxDone || CancelCaller(c) in steps
    ensures (c in s.pc && s.pc[c] == Withdrawing ==> c in s.ctxDone) && c in t.pc && t.pc[c] == Withdrawing ==>
              c in t.ctxDone
    decreases |steps|
  {
    if steps != [] {
      AskedStep(s, steps[0], c);
      hide Apply, Enabled;
      DoneWasAsked(Apply(s, steps[0]), steps[1..], t, c);
      assert steps == [steps[0]] + steps[1..];
    }
  }

  lemma AskedStep(s: System, st: Step, c: Caller)
    requires Enabled(s, st)
    ensures c in Apply(s, st).ctxDone <==> c in s.ctxDone || st == CancelCaller(c)
    ensures c in Apply(s, st).pc && Apply(s, st).pc[c] == Withdrawing ==>
              c in Apply(s, st).ctxDone || (c in s.pc && s.pc[c] == Withdrawing)
  {
  }

  lemma OnlyCancelledGiveUp(steps: seq<Step>, t: System, c: Caller)
    requires IsRun(INITIAL, steps, t) && c in t.pc && t.pc[c] == Withdrawing
    ensures CancelCaller(c) in steps
  {
    hide Apply, Enabled;
    DoneWasAsked(INITIAL, steps, t, c);
  }

  /** No lost slot: whoever holds it can move, and waiters exist only behind a holder. */
  lemma OwnerCanMove(s: System)
    requires Reachable(s)
    ensures s.queue.waiters != [] ==> s.queue.running
    ensures s.queue.running ==> exists st :: Internal(st) && Enabled(s, st)
  {
    ReachableInv(s);
    if s.queue.running {
      var c := s.owner.value;
      assert Owns(s, c) && GoodCell(s, c);
      var st := match s.pc[c]
        case Waiting => Wake(c)
        case Withdrawing => TakeLockAndWithdraw(c)
        case PreRun => CheckGeneration(c)
        case Running => FnReturns(c)
        case _ => ReleaseSlot(c);
      assert Internal(st) && Enabled(s, st);
    }
  }

  /** A run that cannot go on by itself has released everyone: idle, empty, all callers returned. */
  lemma QuietMeansIdle(s: System)
    requires Reachable(s)
    requires forall st | Internal(st) :: !Enabled(s, st)
    ensures !s.queue.running && s.queue.waiters == []
    ensures forall c | c in s.arrivals :: c in s.pc && s.pc[c] == Done
  {
    OwnerCanMove(s);
    ReachableInv(s);
    forall c | c in s.arrivals ensures c in s.pc && s.pc[c] == Done {
      assert GoodCell(s, c);
      assert !Enabled(s, Wake(c)) && !Enabled(s, TakeLockAndWithdraw(c)) && !Enabled(s, CheckGeneration(c));
      assert !Enabled(s, FnReturns(c)) && !Enabled(s, ReleaseSlot(c));
    }
  }

  function Rank(p: Pc): nat {
    match p
    case Waiting => 5
    case Withdrawing => 4
    case PreRun => 3
    case Running => 2
    case Releasing => 1
    case Done => 0
  }

  /** The work left, summed over the callers in arrival order. */
  function Work(pc: map<Caller, Pc>, cs: seq<Caller>): nat {
    if cs == [] then 0
    else (if cs[0] in pc then Rank(pc[cs[0]]) else 0) + Work(pc, cs[1..])
  }

  lemma {:induction false} WorkFrame(pc: map<Caller, Pc>, cs: seq<Caller>, c: Caller, p: Pc)
    requires c !in cs
    ensures Work(pc[c := p], cs) == Work(pc, cs)
  {
    if cs != [] {
      WorkFrame(pc, cs[1..], c, p);
    }
  }

  lemma {:induction false} WorkAppend(pc: map<Caller, Pc>, cs: seq<Caller>, c: Caller)
    requires c in pc
    ensures Work(pc, cs + [c]) == Work(pc, cs) + Rank(pc[c])
  {
    if cs == [] {
      assert cs + [c] == [c];
    } else {
      assert (cs + [c])[1..] == cs[1..] + [c];
      WorkAppend(pc, cs[1..], c);
    }
  }

  lemma {:induction false} WorkUpdate(pc: map<Caller, Pc>, cs: seq<Caller>, i: nat, p: Pc)
    requires i < |cs| && cs[i] in pc
    requires forall j, k | 0 <= j < k < |cs| :: cs[j] != cs[k]
    ensures Work(pc[cs[i] := p], cs) == Work(pc, cs) - Rank(pc[cs[i]]) + Rank(p)
  {
    if i == 0 {
      assert cs[0] !in cs[1..];
      WorkFrame(pc, cs[1..], cs[0], p);
    } else {
      WorkUpdate(pc, cs[1..], i - 1, p);
    }
  }

  lemma ArrivalWork(s: System, c: Caller)
    requires Domains(s) && Tickets(s) && Enabled(s, Arrive(c))
    ensures Work(Apply(s, Arrive(c)).pc, s.arrivals + [c]) <= Work(s.pc, s.arrivals) + 5
  {
    var t := Apply(s, Arrive(c));
    assert c !in s.arrivals;
    WorkFrame(s.pc, s.arrivals, c, t.pc[c]);
    WorkAppend(t.pc, s.arrivals, c);
  }

  lemma InternalWork(s: System, c: Caller, p: Pc)
    requires Domains(s) && Tickets(s) && c in s.pc && Rank(p) < Rank(s.pc[c])
    ensures Work(s.pc[c := p], s.arrivals) < Work(s.pc, s.arrivals)
  {
    WorkUpdate(s.pc, s.arrivals, s.ticket[c], p);
  }

  /** Every move of a caller lowers the work left; only arrivals raise it, by at most 5. */
  lemma StepWork(s: System, st: Step)
    requires Domains(s) && Tickets(s) && Enabled(s, st)
    ensures Internal(st) ==> Work(Apply(s, st).pc, Apply(s, st).arrivals) < Work(s.pc, s.arrivals)
    ensures st.Arrive? ==> Work(Apply(s, st).pc, Apply(s, st).arrivals) <= Work(s.pc, s.arrivals) + 5
    ensures !Internal(st) && !st.Arrive? ==> Work(Apply(s, st).pc, Apply(s, st).arrivals) == Work(s.pc, s.arrivals)
  {
    if st.Arrive? {
      ArrivalWork(s, st.c);
    } else if Internal(st) {
      InternalWork(s, st.c, Apply(s, st).pc[st.c]);
    }
  }

  function CountInternal(steps: seq<Step>): nat {
    if steps == [] then 0 else (if Internal(steps[0]) then 1 else 0) + CountInternal(steps[1..])
  }

  function CountArrivals(steps: seq<Step>): nat {
    if steps == [] then 0 else (if steps[0].Arrive? then 1 else 0) + CountArrivals(steps[1..])
  }

  lemma {:induction false} RunWork(s: System, steps: seq<Step>, t: System)
    requires Inv(s) && IsRun(s, steps, t)
    ensures CountInternal(steps) + Work(t.pc, t.arrivals) <= Work(s.pc, s.arrivals) + 5 * CountArrivals(steps)
    decreases |steps|
  {
    if steps != [] {
      StepWork(s, steps[0]);
      StepKeepsInv(s, steps[0]);
      RunWork(Apply(s, steps[0]), steps[1..], t);
    }
  }

  /** n callers make at most 5n moves whatever the interleaving, the cancellations and the
      revocations, so the queue always drains. */
  lemma RunsAreShort(steps: seq<Step>, t: System)
    requires IsRun(INITIAL, steps, t)
    ensures CountInternal(steps) <= 5 * CountArrivals(steps)
  {
    RunWork(INITIAL, steps, t);
  }
}
