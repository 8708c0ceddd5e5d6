/**
 The per-tab executor of internal/core/tab_queue.go.

 A `tabWaiter` is a heap object in the source; here its pointer identity is a `Caller`
 and its fields live in `cells`.  The class `TabQueue` runs each critical section of
 `q.mu` in the source's own form; the functions above it say what each section does to
 the queue, and `TabQueueRuns` reasons about every interleaving of those sections.
 */
module TabQueues {
  import opened Options

  type Caller = nat

  /** The fields of a tabWaiter; `closes` counts calls of close(waiter.ready). */
  datatype Waiter = Waiter(generation: nat, granted: bool, failed: bool, closes: nat)

  /** `active` is the caller whose cancel function is stored in activeCancel, and
      `cancelled` the callers whose run context was cancelled through it. */
  datatype Queue = Queue(
    running: bool,
    generation: nat,
    active: Option<Caller>,
    waiters: seq<Caller>,
    cells: map<Caller, Waiter>,
    cancelled: set<Caller>)

  const EMPTY := Queue(false, 0, None, [], map[], {})

  ghost predicate WellFormed(q: Queue) {
    forall w | w in q.waiters :: w in q.cells
  }

  function Enter(q: Queue, c: Caller): Queue {
    var cell := Waiter(q.generation, !q.running, false, 0);
    if q.running then q.(waiters := q.waiters + [c], cells := q.cells[c := cell])
    else q.(running := true, cells := q.cells[c := cell])
  }

  /** The list without the first occurrence of c. */
  function Without(ws: seq<Caller>, c: Caller): seq<Caller> {
    if ws == [] then [] else if ws[0] == c then ws[1..] else [ws[0]] + Without(ws[1..], c)
  }

  /** The section entered after ctx.Done() won the select. */
  function Withdraw(q: Queue, c: Caller): Queue
    requires c in q.cells
  {
    if q.cells[c].granted then q else q.(waiters := Without(q.waiters, c))
  }

  predicate Admissible(q: Queue, c: Caller)
    requires c in q.cells
  {
    q.cells[c].generation == q.generation
  }

  /** The section that runs just before fn. */
  function Admit(q: Queue, c: Caller): Queue
    requires c in q.cells
  {
    if Admissible(q, c) then q.(active := Some(c)) else q
  }

  function FailAll(cells: map<Caller, Waiter>, ws: seq<Caller>): (r: map<Caller, Waiter>)
    requires forall w | w in ws :: w in cells
    ensures r.Keys == cells.Keys
  {
    if ws == [] then cells
    else
      var cell := cells[ws[0]];
      FailAll(cells[ws[0] := cell.(failed := true, closes := cell.closes + 1)], ws[1..])
  }

  function CancelAll(q: Queue): Queue
    requires WellFormed(q)
  {
    Queue(
      q.running,
      q.generation + 1,
      q.active,
      [],
      FailAll(q.cells, q.waiters),
      if q.active.Some? then q.cancelled + {q.active.value} else q.cancelled)
  }

  /** Hands the slot to the first waiter that carries no error, or frees it. */
  function Grant(q: Queue): (r: Queue)
    requires WellFormed(q)
    ensures r.cells.Keys == q.cells.Keys
    decreases |q.waiters|
  {
    if q.waiters == [] then q.(running := false)
    else
      var w, rest := q.waiters[0], q.(waiters := q.waiters[1..]);
      assert forall v | v in rest.waiters :: v in q.waiters;
      if q.cells[w].failed then Grant(rest)
      else rest.(cells := q.cells[w := q.cells[w].(granted := true, closes := q.cells[w].closes + 1)])
  }

  function Release(q: Queue): Queue
    requires WellFormed(q)
  {
    Grant(q.(active := None))
  }

  lemma {:induction false} WithoutIsRemoval(ws: seq<Caller>, i: nat)
    requires i < |ws| && ws[i] !in ws[..i]
    ensures Without(ws, ws[i]) == ws[..i] + ws[i + 1..]
  {
    if i == 0 {
      assert ws[..0] + ws[1..] == ws[1..];
    } else {
      assert ws[0] in ws[..i];
      assert ws[1..][..i - 1] == ws[..i][1..];
      WithoutIsRemoval(ws[1..], i - 1);
      assert ws[..i] + ws[i + 1..] == [ws[0]] + (ws[1..][..i - 1] + ws[1..][i..]);
    }
  }

  lemma {:induction false} WithoutAbsent(ws: seq<Caller>, c: Caller)
    requires c !in ws
    ensures Without(ws, c) == ws
  {
    if ws != [] {
      WithoutAbsent(ws[1..], c);
    }
  }

  lemma FailAllNext(cells: map<Caller, Waiter>, ws: seq<Caller>, i: nat)
    requires i < |ws| && forall w | w in ws :: w in cells
    ensures var cell := cells[ws[i]];
            FailAll(cells, ws[i..]) == FailAll(cells[ws[i] := cell.(failed := true, closes := cell.closes + 1)],
                ws[i + 1..])
  {
    assert ws[i..][1..] == ws[i + 1..];
  }

  lemma FailAllDone(cells: map<Caller, Waiter>, ws: seq<Caller>)
    ensures FailAll(cells, ws[|ws|..]) == cells
  {
  }

  class TabQueue {
    var running: bool
    var generation: nat
    var activeCancel: Option<Caller>
    var waiters: seq<Caller>
    var cells: map<Caller, Waiter>
    var cancelledRuns: set<Caller>

    ghost function Model(): Queue
      reads this
    {
      Queue(running, generation, activeCancel, waiters, cells, cancelledRuns)
    }

    ghost predicate Valid()
      reads this
    {
      WellFormed(Model())
    }

    constructor ()
      ensures Valid() && Model() == EMPTY
    {
      running, generation, activeCancel, waiters, cells, cancelledRuns := false, 0, None, [], map[], {};
    }

    method Join(c: Caller) returns (immediate: bool)
      requires Valid()
      modifies this
      ensures Valid() && Model() == Enter(old(Model()), c)
      ensures immediate == !old(running)
    {
      immediate := !running;
      cells := cells[c := Waiter(generation, immediate, false, 0)];
      if immediate {
        running := true;
      } else {
        waiters := waiters + [c];
      }
    }

    method RemoveWaiter(target: Caller)
      requires Valid()
      modifies this`waiters
      ensures Valid() && waiters == Without(old(waiters), target)
    {
      var index := 0;
      while index < |waiters|
        invariant index <= |waiters|
        invariant waiters == old(waiters)
        invariant target !in waiters[..index]
      {
        if waiters[index] == target {
          WithoutIsRemoval(waiters, index);
          waiters := waiters[..index] + waiters[index + 1..];
          return;
        }
        index := index + 1;
      }
      WithoutAbsent(waiters, target);
    }

    /** True means the caller left the queue; false means the slot is already its own. */
    method Leave(c: Caller) returns (left: bool)
      requires Valid() && c in cells
      modifies this`waiters
      ensures Valid() && Model() == Withdraw(old(Model()), c)
      ensures left == !cells[c].granted
    {
      left := !cells[c].granted;
      if left {
        RemoveWaiter(c);
      }
    }

    method Begin(c: Caller) returns (run: bool)
      requires Valid() && c in cells
      modifies this`activeCancel
      ensures Valid() && Model() == Admit(old(Model()), c)
      ensures run == Admissible(old(Model()), c)
    {
      run := cells[c].generation == generation;
      if run {
        activeCancel := Some(c);
      }
    }

    method CancelEverything()
      requires Valid()
      modifies this
      ensures Valid() && Model() == CancelAll(old(Model()))
    {
      hide FailAll;
      generation := generation + 1;
      if activeCancel.Some? {
        cancelledRuns := cancelledRuns + {activeCancel.value};
      }
      var i := 0;
      while i < |waiters|
        modifies this`cells
        invariant i <= |waiters|
        invariant cells.Keys == old(cells).Keys
        invariant forall w | w in waiters :: w in cells
        invariant FailAll(cells, waiters[i..]) == FailAll(old(cells), old(waiters))
      {
        var w := waiters[i];
        FailAllNext(cells, waiters, i);
        cells := cells[w := cells[w].(failed := true, closes := cells[w].closes + 1)];
        i := i + 1;
      }
      FailAllDone(cells, waiters);
      waiters := [];
    }

    method HandOver()
      requires Valid()
      modifies this
      ensures Valid() && Model() == Release(old(Model()))
    {
      activeCancel := None;
      while |waiters| > 0
        invariant Valid()
        invariant Grant(Model()) == Release(old(Model()))
        decreases |waiters|
      {
        var w := waiters[0];
        waiters := waiters[1..];
        if !cells[w].failed {
          cells := cells[w := cells[w].(granted := true, closes := cells[w].closes + 1)];
          return;
        }
      }
      running := false;
    }
  }
}
