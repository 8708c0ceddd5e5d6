/**
 What `forward` of internal/server/server.go tells its caller about effects: the call closure, run
 under the tab queues and the operation table by any number of callers on any number of tabs.

 The state is the product of the manager's, the queue of every tab and the closures' variables; calls
 without a tab bypass the queues. Every layer may move between any two steps of another, and where
 the manager calls cancelTabQueue, the queue of that tab is cancelled in the same step. `handed`,
 `stop` and `raw` are history: whether the method was passed to the bridge, who ended the call and
 with what.
 */
module Forwarding {
  import opened Options
  import opened Protocol
  import M = ManagerRuns
  import Q = TabQueueRuns

  datatype Outcome = Outcome(result: string, err: Option<RpcError>)

  datatype Stop = ByQueue | ByGate | ByBridge

  datatype Phase =
    | Outside                                  // RunTab has not entered the closure's body
    | Inside                                   // before the preflight
    | Cleared                                  // preflight passed or not needed
    | Marked                                   // dispatched is set
    | AtBridge
    | Left(stop: Stop, raw: Outcome)           // what RunTab returns is known
    | Told(stop: Stop, raw: Outcome, answer: Outcome)

  datatype Job = Job(
    name: string, operation: string, session: string, tab: string,
    phase: Phase, dispatched: bool, handed: bool, finished: bool)

  /** `queues` is m.tabQueues with its queues; a tab without one has had no call yet. */
  datatype System = System(manager: M.System, queues: map<string, Q.System>, jobs: map<nat, Job>)

  const INITIAL := System(M.INITIAL, map[], map[])

  function QueueOf(s: System, tab: string): Q.System {
    if tab in s.queues then s.queues[tab] else Q.INITIAL
  }

  predicate Mutating(name: string) {
    name in {
      "tab.open", "tab.activate", "tab.close", "tab.navigate", "tab.back", "tab.forward", "tab.reload",
      "action.perform", "dialog.respond", "clipboard.write", "fileChooser.setFiles", "content.export",
      "pageAssets.export", "secureInput.request", "unsafe.evaluate", "unsafe.cdp.send" }
  }

  predicate NeedsPreflight(name: string) {
    name == "action.perform"
  }

  /** forward lets a mutating method through only under an operation id of this form. */
  predicate AcceptedId(id: string) {
    "op_" <= id && |id| <= 160
  }

  /** The kinds of failure that do not tell whether the page was changed. */
  predicate Uncertain(kind: Kind) {
    kind in {TIMEOUT, CANCELLED, EXTENSION_DISCONNECTED, CHROME_DISCONNECTED}
  }

  /** The end of the call closure. */
  function Account(j: Job, raw: Outcome): Outcome {
    if raw.err.Some? && j.dispatched && j.operation != "" && Mutating(j.name) && Uncertain(raw.err.value.kind)
    then raw.(err := Some(WithEffect(raw.err.value, Possible)))
    else raw
  }

  datatype Step =
    | Manage(st: M.Step)
    | Enter(c: nat, session: string, tab: string, id: string, fingerprint: string, name: string)
    | Plain(c: nat, tab: string, name: string)
    | Find(c: nat)
    | Arrive(c: nat)
    | Line(tab: string, move: Q.Step)
    | Gate(c: nat, error: Option<RpcError>)
    | Mark(c: nat)
    | Hand(c: nat)
    | Reply(c: nat, raw: Outcome)
    | Answer(c: nat)
    | Finish(c: nat, now: int)

  predicate InPhase(s: System, c: nat, p: Phase) {
    c in s.jobs && s.jobs[c].phase == p
  }

  /** Still inside the closure passed to RunTab, so that it can return. */
  predicate CanLeave(s: System, c: nat) {
    && c in s.jobs
    && (s.jobs[c].tab != "" ==> s.jobs[c].tab in s.queues && Q.Enabled(s.queues[s.jobs[c].tab], Q.FnReturns(c)))
  }

  ghost predicate Enabled(s: System, st: Step) {
    match st
    case Manage(m) => !m.Enter? && !m.Return? && !m.UseQueue? && M.Enabled(s.manager, m)
    case Enter(c, session, tab, id, fp, name) =>
      && c !in s.jobs && id != "" && (Mutating(name) ==> AcceptedId(id))
      && M.Enabled(s.manager, M.Enter(c, session, tab, id, fp))
    case Plain(c, _, name) => c !in s.jobs && !Mutating(name)
    case Find(c) => InPhase(s, c, Outside) && s.jobs[c].tab != ""
    case Arrive(c) =>
      && InPhase(s, c, Outside)
      && (s.jobs[c].tab != "" ==> s.jobs[c].tab in s.queues && Q.Enabled(s.queues[s.jobs[c].tab], Q.Arrive(c)))
    case Line(tab, move) =>
      && !move.Arrive? && !move.FnReturns? && !move.Revoke?
      && tab in s.queues && Q.Enabled(s.queues[tab], move)
    case Gate(c, _) => InPhase(s, c, Inside) && NeedsPreflight(s.jobs[c].name) && CanLeave(s, c)
    case Mark(c) => InPhase(s, c, Cleared) || (InPhase(s, c, Inside) && !NeedsPreflight(s.jobs[c].name))
    case Hand(c) => InPhase(s, c, Marked)
    case Reply(c, _) => InPhase(s, c, AtBridge) && CanLeave(s, c)
    case Answer(c) =>
      && c in s.jobs && s.jobs[c].phase.Left?
      && (s.jobs[c].tab != "" ==> Q.At(QueueOf(s, s.jobs[c].tab), c, Q.Done))
    case Finish(c, _) =>
      && c in s.jobs && s.jobs[c].phase.Told? && s.jobs[c].operation != "" && !s.jobs[c].finished
      && c in s.manager.callers && s.manager.callers[c].InCallback?
  }

  function Goto(s: System, c: nat, p: Phase): System
    requires c in s.jobs
  {
    s.(jobs := s.jobs[c := s.jobs[c].(phase := p)])
  }

  /** The queue's own refusals: the caller gave up waiting, or control was revoked. */
  const REFUSED := Left(ByQueue, Outcome("", Some(NewError(CANCELLED))))

  function LeaveBody(s: System, c: nat, p: Phase): System
    requires CanLeave(s, c)
  {
    var tab := s.jobs[c].tab;
    Goto(if tab == "" then s else s.(queues := s.queues[tab := Q.Apply(s.queues[tab], Q.FnReturns(c))]), c, p)
  }

  /** What a move of a queue means for the closure it concerns. */
  function NextPhase(move: Q.Step, r: Q.System, p: Phase): Phase {
    match move
    case TakeLockAndWithdraw(_) => REFUSED
    case Wake(c) => if c in r.pc && r.pc[c] == Q.Done then REFUSED else p
    case CheckGeneration(c) => if c in r.pc && r.pc[c] == Q.Running then Inside else REFUSED
    case _ => p
  }

  function AfterLine(s: System, tab: string, move: Q.Step): System
    requires tab in s.queues && Q.Enabled(s.queues[tab], move)
  {
    var r := Q.Apply(s.queues[tab], move);
    var t := s.(queues := s.queues[tab := r]);
    if !move.Revoke? && move.c in s.jobs && s.jobs[move.c].tab == tab
    then Goto(t, move.c, NextPhase(move, r, s.jobs[move.c].phase))
    else t
  }

  /** cancelAll on the queues whose generation the manager advanced. */
  function Revoke(q: Q.System): Q.System {
    if Q.Enabled(q, Q.Revoke) then Q.Apply(q, Q.Revoke) else q
  }

  function RevokeAdvanced(queues: map<string, Q.System>, before: map<string, nat>, after: map<string, nat>)
    : map<string, Q.System>
  {
    map t | t in queues :: if t in before && t in after && after[t] != before[t] then Revoke(queues[t]) else queues[t]
  }

  function Managed(s: System, m: M.Step): System
    requires M.Enabled(s.manager, m)
  {
    var t := M.Apply(s.manager, m);
    System(t, RevokeAdvanced(s.queues, s.manager.core.queues, t.core.queues), s.jobs)
  }

  /** RunTab's lookup, which makes the tab's queue if there is none. */
  function Found(s: System, tab: string): System {
    System(M.Apply(s.manager, M.UseQueue(tab)), s.queues[tab := QueueOf(s, tab)], s.jobs)
  }

  function Entered(s: System, c: nat, m: M.Step, j: Job): System
    requires M.Enabled(s.manager, m)
  {
    var t := s.(manager := M.Apply(s.manager, m));
    if c in t.manager.callers && t.manager.callers[c].InCallback? then t.(jobs := s.jobs[c := j]) else t
  }

  ghost function Apply(s: System, st: Step): System
    requires Enabled(s, st)
  {
    match st
    case Manage(m) => Managed(s, m)
    case Enter(c, session, tab, id, fp, name) =>
      Entered(s, c, M.Enter(c, session, tab, id, fp), Job(name, id, session, tab, Outside, false, false, false))
    case Plain(c, tab, name) => s.(jobs := s.jobs[c := Job(name, "", "", tab, Outside, false, false, false)])
    case Find(c) => Found(s, s.jobs[c].tab)
    case Arrive(c) =>
      var tab := s.jobs[c].tab;
      if tab == "" then Goto(s, c, Inside)
      else s.(queues := s.queues[tab := Q.Apply(s.queues[tab], Q.Arrive(c))])
    case Line(tab, move) => AfterLine(s, tab, move)
    case Gate(c, error) =>
      if error.Some? then LeaveBody(s, c, Left(ByGate, Outcome("", error))) else Goto(s, c, Cleared)
    case Mark(c) => s.(jobs := s.jobs[c := s.jobs[c].(phase := Marked, dispatched := true)])
    case Hand(c) => s.(jobs := s.jobs[c := s.jobs[c].(phase := AtBridge, handed := true)])
    case Reply(c, raw) => LeaveBody(s, c, Left(ByBridge, raw))
    case Answer(c) =>
      var p := s.jobs[c].phase;
      Goto(s, c, Told(p.stop, p.raw, Account(s.jobs[c], p.raw)))
    case Finish(c, now) => Finished(s, c, now)
  }

  function Finished(s: System, c: nat, now: int): System
    requires c in s.jobs && s.jobs[c].phase.Told? && c in s.manager.callers && s.manager.callers[c].InCallback?
  {
    var a := s.jobs[c].phase.answer;
    s.(manager := M.Apply(s.manager, M.Return(c, s.manager.callers[c].serial, a.result, a.err, now)),
       jobs := s.jobs[c := s.jobs[c].(finished := true)])
  }

  ghost predicate IsRun(s: System, steps: seq<Step>, t: System)
    decreases |steps|
  {
    if steps == [] then s == t
    else Enabled(s, steps[0]) && IsRun(Apply(s, steps[0]), steps[1..], t)
  }

  ghost predicate Reachable(s: System) {
    exists steps: seq<Step> :: IsRun(INITIAL, steps, s)
  }
}
