/**
 Every interleaving of the manager's critical sections (internal/core/manager.go), with any
 number of concurrent callers of ExecuteOperation and an arbitrary clock.

 `issued`, `begun`, `outcome` and `gone` are history: the ids handed out by newID, the
 callbacks started, what each callback returned, and why a record left m.operations.
 */
module ManagerRuns {
  import opened Options
  import opened Protocol
  import opened ManagerState

  datatype Caller =
    | InCallback(serial: nat)
    | WaitingFor(serial: nat)
    | Answered(serial: nat, result: string, err: Option<RpcError>)
    | TurnedAway

  datatype Begun = Begun(operation: string, serial: nat)

  /** Why a record left m.operations; a collected one with the time of the janitor's tick. */
  datatype Removal = ReplacedWhileAwaiting | Collected(at: int)

  datatype System = System(
    core: Core,
    callers: map<nat, Caller>,
    nextSerial: nat,
    issued: set<string>,
    begun: seq<Begun>,
    outcome: map<nat, (string, Option<RpcError>)>,
    gone: map<nat, Removal>)

  datatype Step =
    | Open(session: string)
    | Close(session: string, now: int)
    | Stop(now: int)
    | Claim(session: string, tab: string, ttl: int, force: bool, id: string, leaseTtl: int, now: int)
    | Renew(session: string, tab: string, lease: string, ttl: int, leaseTtl: int, now: int)
    | Bind(session: string, tab: string, lease: string, browser: string, now: int)
    | Validate(session: string, tab: string, lease: string, now: int)
    | Release(session: string, tab: string, lease: string, now: int)
    | RevokeOne(tab: string, now: int)
    | RevokeAllIn(browser: string, now: int)
    | UseQueue(tab: string)
    | Enter(caller: nat, session: string, tab: string, id: string, fingerprint: string)
    | Return(caller: nat, serial: nat, result: string, err: Option<RpcError>, now: int)
    | Observe(caller: nat, serial: nat)
    | Abandon(caller: nat)
    | CancelOne(session: string, id: string, now: int)
    | CancelLate(serial: nat)
    | Ask(ask: Confirmation, ttl: int, now: int)
    | Check(id: string, session: string, tab: string, browser: string, hash: string, now: int)
    | Use(id: string)
    | Decide(id: string, decision: Verdict, now: int)
    | Janitor(now: int)

  const INITIAL := System(Core(map[], map[], map[], map[], map[], map[]), map[], 0, {}, [], map[], map[])

  predicate Enabled(s: System, st: Step) {
    match st
    case Open(id) => id != "" && id !in s.issued
    case Claim(_, _, _, _, id, _, _) => id !in s.issued
    case Ask(ask, _, _) => ask.id !in s.issued
    case Enter(caller, _, _, _, _) => caller !in s.callers
    case Return(caller, k, _, _, _) => caller in s.callers && s.callers[caller] == InCallback(k)
    case Observe(caller, k) =>
      caller in s.callers && s.callers[caller] == WaitingFor(k) && k in s.core.heap && s.core.heap[k].status != Running
    case Abandon(caller) => caller in s.callers && s.callers[caller].WaitingFor?
    case _ => true
  }

  /** The state after the step's critical section. */
  function After(c: Core, serial: nat, st: Step): Core {
    match st
    case Open(id) => OpenSession(c, id)
    case Close(s, now) => CloseSession(c, s, now)
    case Stop(now) => StopAll(c, now)
    case Claim(s, tab, ttl, force, id, leaseTtl, now) => ClaimTab(c, s, tab, ttl, force, id, leaseTtl, now).0
    case Renew(s, tab, lease, ttl, leaseTtl, now) => RenewLease(c, s, tab, lease, ttl, leaseTtl, now).0
    case Bind(s, tab, lease, browser, now) => BindBrowser(c, s, tab, lease, browser, now).0
    case Validate(s, tab, lease, now) => ValidLease(c, s, tab, lease, true, now).0
    case Release(s, tab, lease, now) => ReleaseTab(c, s, tab, lease, now).0
    case RevokeOne(tab, now) => RevokeTab(c, tab, now).0
    case RevokeAllIn(browser, now) => RevokeBrowser(c, browser, now)
    case UseQueue(tab) => EnsureQueue(c, tab)
    case Enter(_, s, tab, id, fp) => EnterOperation(c, s, tab, id, fp, serial).0
    case Return(_, k, result, err, now) => FinishOperation(c, k, result, err, now)
    case Observe(_, _) => c
    case Abandon(_) => c
    case CancelOne(s, id, now) => CancelOperation(c, s, id, now).0
    case CancelLate(k) => CancelContext(c, k)
    case Ask(ask, ttl, now) => CreateConfirmation(c, ask, ttl, now)
    case Check(id, s, tab, browser, hash, now) => Authorize(c, id, s, tab, browser, hash, now).0
    case Use(id) => Consume(c, id).0
    case Decide(id, decision, now) => Resolve(c, id, decision, now).0
    case Janitor(now) => Tick(c, now)
  }

  function NewIds(st: Step): set<string> {
    match st
    case Open(id) => {id}
    case Claim(_, _, _, _, id, _, _) => {id}
    case Ask(ask, _, _) => {ask.id}
    case _ => {}
  }

  function Seated(e: Entry): Caller {
    match e
    case Rejected(_) => TurnedAway
    case Replay(k, result, err) => Answered(k, result, err)
    case Join(k) => WaitingFor(k)
    case Start(k) => InCallback(k)
  }

  function Apply(s: System, st: Step): System
    requires Enabled(s, st)
  {
    var t := s.(core := After(s.core, s.nextSerial, st), issued := s.issued + NewIds(st));
    match st
    case Enter(caller, session, tab, id, fp) =>
      var e := EnterOperation(s.core, session, tab, id, fp, s.nextSerial).1;
      var u := t.(callers := s.callers[caller := Seated(e)]);
      if e.Start? then
        u.(nextSerial := s.nextSerial + 1,
           begun := s.begun + [Begun(id, s.nextSerial)],
           gone := if id in s.core.table then s.gone[s.core.table[id] := ReplacedWhileAwaiting] else s.gone)
      else u
    case Return(caller, k, result, err, _) =>
      t.(callers := s.callers[caller := Answered(k, result, err)], outcome := s.outcome[k := (result, err)])
    case Observe(caller, k) =>
      t.(callers := s.callers[caller := Answered(k, s.core.heap[k].result, s.core.heap[k].err)])
    case Abandon(caller) => t.(callers := s.callers[caller := TurnedAway])
    case Janitor(now) => t.(gone := MarkCollected(s.gone, s.core.table, t.core.table, now))
    case _ => t
  }

  function Dropped(before: map<string, nat>, after: map<string, nat>): set<nat> {
    set i | i in before && i !in after :: before[i]
  }

  function MarkCollected(gone: map<nat, Removal>, before: map<string, nat>, after: map<string, nat>, now: int)
    : map<nat, Removal>
  {
    gone + map k | k in Dropped(before, after) :: Collected(now)
  }

  ghost predicate IsRun(s: System, steps: seq<Step>, t: System)
    decreases |steps|
  {
    if steps == [] then s == t
    else Enabled(s, steps[0]) && IsRun(Apply(s, steps[0]), steps[1..], t)
  }

  ghost predicate Reachable(s: System) {
    exists steps :: IsRun(INITIAL, steps, s)
  }
}
