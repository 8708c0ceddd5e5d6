/**
 The shared state of internal/core/manager.go and what each critical section of `m.mu`
 does to it.

 Operation records are heap objects that callers keep pointers to after the table has
 dropped them, so `heap` holds every record ever made and `table` is m.operations.
 Go iterates its maps in an unspecified order; the functions here do not depend on it,
 and the class in ManagerMethods runs the loops in every order.
 */
module ManagerState {
  import opened Options
  import opened Protocol

  datatype Session = Session(open: bool, capabilities: set<string>)

  datatype Lease = Lease(
    id: string, session: string, tab: string, browser: string,
    createdAt: int, renewedAt: int, expiresAt: int, revoked: bool)

  datatype Status = Running | Awaiting | Completed | Failed | Cancelled

  /** `cancelRequested` is the sticky state of the operation's context. */
  datatype Operation = Operation(
    id: string, session: string, tab: string, fingerprint: string, status: Status,
    result: string, err: Option<RpcError>, completedAt: int, cancelRequested: bool)

  datatype Decision = Pending | Approved | Consumed | Denied | Expired | Withdrawn

  datatype Request = Capability | Action

  /** The decision text of ResolveConfirmation: approve(d), deny (denied), anything else. */
  datatype Verdict = Approve | Deny | Unrecognised

  datatype Confirmation = Confirmation(
    id: string, operation: string, kind: Request, session: string, tab: string, browser: string,
    hash: string, capabilities: set<string>, status: Decision, expiresAt: int)

  /** `queues` maps a tab to the generation of its queue, if it has one. */
  datatype Core = Core(
    sessions: map<string, Session>,
    leases: map<string, Lease>,
    heap: map<nat, Operation>,
    table: map<string, nat>,
    confirmations: map<string, Confirmation>,
    queues: map<string, nat>)

  datatype Reply<+T> = Ok(value: T) | Refused(error: RpcError)

  const SECOND: int := 1_000_000_000
  const MINUTE := 60 * SECOND
  const HOUR := 60 * MINUTE

  function AllCapabilities(): set<string> {
    { "history.read", "clipboard.read", "clipboard.write", "files.upload", "files.download",
    "secureInput", "artifact.localPath", "unsafe.evaluate", "unsafe.cdp" }
  }

  function Refuse(kind: Kind): Reply<Lease> {
    Refused(NewError(kind))
  }

  // ---------------------------------------------------------------- operations

  predicate Matches(op: Operation, session: string, tab: string) {
    (session == "" || op.session == session) && (tab == "" || op.tab == tab)
  }

  /** What cancelOperationsLocked does to one record it selects. */
  function Cancel(op: Operation, now: int): Operation {
    match op.status
    case Running => op.(cancelRequested := true)
    case Awaiting => op.(status := Cancelled, err := Some(NewError(CANCELLED)), completedAt := now)
    case _ => op
  }

  predicate Listed(c: Core, k: nat) {
    k in c.heap && c.heap[k].id in c.table && c.table[c.heap[k].id] == k
  }

  /** The table points at records of the same name. */
  ghost predicate TableGood(c: Core) {
    forall i | i in c.table :: c.table[i] in c.heap && c.heap[c.table[i]].id == i
  }

  function CancelOperations(c: Core, session: string, tab: string, now: int): (d: Core)
    ensures d == c.(heap := d.heap) && d.heap.Keys == c.heap.Keys
  {
    c.(heap := map k | k in c.heap ::
         if Listed(c, k) && Matches(c.heap[k], session, tab) then Cancel(c.heap[k], now) else c.heap[k])
  }

  function FinishAwaiting(c: Core, id: string, status: Status, kind: Kind, now: int): (d: Core)
    ensures d == c.(heap := d.heap) && d.heap.Keys == c.heap.Keys
  {
    if id in c.table && c.table[id] in c.heap && c.heap[c.table[id]].status == Awaiting then
      var k := c.table[id];
      c.(heap := c.heap[k := c.heap[k].(status := status, err := Some(NewError(kind)), completedAt := now)])
    else c
  }

  // ---------------------------------------------------------------- leases leaving the table

  predicate LosesLease(c: Core, gone: set<string>, op: Operation) {
    exists t | t in gone && t in c.leases :: Matches(op, c.leases[t].session, t)
  }

  /** Deletes the leases of the tabs in `gone`, cancels the work done under each of them and
      advances each tab's queue. */
  function DropLeases(c: Core, gone: set<string>, now: int): (d: Core)
    ensures d == c.(leases := d.leases, heap := d.heap, queues := d.queues)
    ensures d.heap.Keys == c.heap.Keys && d.queues.Keys == c.queues.Keys
  {
    c.(leases := c.leases - gone,
       heap := map k | k in c.heap ::
         if Listed(c, k) && LosesLease(c, gone, c.heap[k]) then Cancel(c.heap[k], now) else c.heap[k],
       queues := map t | t in c.queues :: if t in gone && t in c.leases then c.queues[t] + 1 else c.queues[t])
  }

  function TabsOf(c: Core, session: string): set<string> {
    set t | t in c.leases && c.leases[t].session == session
  }

  function TabsIn(c: Core, browser: string): set<string> {
    set t | t in c.leases && c.leases[t].browser == browser
  }

  function ExpiredTabs(c: Core, now: int): set<string> {
    set t | t in c.leases && now > c.leases[t].expiresAt
  }

  // ---------------------------------------------------------------- sessions

  function SessionError(c: Core, s: string): Option<RpcError> {
    if s !in c.sessions then Some(NewError(SESSION_NOT_FOUND))
    else if !c.sessions[s].open then Some(NewError(SESSION_CLOSED))
    else None
  }

  function OpenSession(c: Core, id: string): Core {
    c.(sessions := c.sessions[id := Session(true, AllCapabilities())])
  }

  /** Every confirmation in `hit` that is still pending gets the new status. */
  function Settle(confs: map<string, Confirmation>, hit: set<string>, status: Decision): map<string, Confirmation> {
    map i | i in confs :: if i in hit && confs[i].status == Pending then confs[i].(status := status) else confs[i]
  }

  function AskedBy(c: Core, session: string): set<string> {
    set i | i in c.confirmations && c.confirmations[i].session == session
  }

  function AskedIn(c: Core, browser: string): set<string> {
    set i | i in c.confirmations && c.confirmations[i].browser == browser
  }

  function AskedFor(c: Core, operation: string, session: string): set<string> {
    set i | i in c.confirmations && c.confirmations[i].operation == operation && c.confirmations[i].session == session
  }

  function CloseSession(c: Core, s: string, now: int): (d: Core)
    ensures d.table == c.table && d.heap.Keys == c.heap.Keys && d.queues.Keys == c.queues.Keys
  {
    if s !in c.sessions || !c.sessions[s].open then c
    else
      var closed := c.(sessions := c.sessions[s := c.sessions[s].(open := false)]);
      var dropped := DropLeases(closed, TabsOf(c, s), now);
      var cancelled := CancelOperations(dropped, s, "", now);
      cancelled.(confirmations := Settle(c.confirmations, AskedBy(c, s), Withdrawn))
  }

  /** StopAll up to the cancellation of the operations. */
  function Stopped(c: Core): Core {
    c.(sessions := map s | s in c.sessions :: c.sessions[s].(open := false),
       leases := map[],
       queues := map t | t in c.queues :: if t in c.leases then c.queues[t] + 1 else c.queues[t],
       confirmations := Settle(c.confirmations, c.confirmations.Keys, Withdrawn))
  }

  /** StopAll cancels the queues while it deletes the leases and the operations once at the end. */
  function StopAll(c: Core, now: int): (d: Core)
    ensures d.table == c.table && d.heap.Keys == c.heap.Keys && d.queues.Keys == c.queues.Keys
  {
    CancelOperations(Stopped(c), "", "", now)
  }

  // ---------------------------------------------------------------- leases

  function EffectiveTtl(ttl: int, leaseTtl: int): int {
    if ttl <= 0 then leaseTtl
    else if ttl < SECOND then SECOND
    else if ttl > leaseTtl then leaseTtl
    else ttl
  }

  function ValidLease(c: Core, s: string, tab: string, lease: string, requireOpen: bool, now: int)
    : (r: (Core, Reply<Lease>))
    ensures r.0 == c.(leases := r.0.leases, heap := r.0.heap, queues := r.0.queues)
    ensures r.0.heap.Keys == c.heap.Keys && r.0.queues.Keys == c.queues.Keys
  {
    if requireOpen && SessionError(c, s).Some? then (c, Refused(SessionError(c, s).value))
    else if tab !in c.leases then (c, Refuse(LEASE_REQUIRED))
    else
      var l := c.leases[tab];
      if l.expiresAt <= now then (DropLeases(c, {tab}, now), Refuse(LEASE_EXPIRED))
      else if l.revoked then (c, Refuse(LEASE_REVOKED))
      else if l.session != s || l.id != lease then (c, Refuse(LEASE_CONFLICT))
      else (c, Ok(l))
  }

  function PutLease(c: Core, l: Lease): Core {
    c.(leases := c.leases[l.tab := l])
  }

  function ClaimTab(c: Core, s: string, tab: string, ttl: int, force: bool, id: string, leaseTtl: int, now: int)
    : (r: (Core, Reply<Lease>))
    ensures r.0 == c.(leases := r.0.leases, heap := r.0.heap, queues := r.0.queues)
    ensures r.0.heap.Keys == c.heap.Keys && r.0.queues.Keys == c.queues.Keys
  {
    var until := now + EffectiveTtl(ttl, leaseTtl);
    if tab == "" then (c, Refuse(INVALID_REQUEST))
    else if SessionError(c, s).Some? then (c, Refused(SessionError(c, s).value))
    else if tab in c.leases && c.leases[tab].expiresAt > now && !c.leases[tab].revoked &&
        c.leases[tab].session == s then
      var l := c.leases[tab].(renewedAt := now, expiresAt := until);
      (c.(leases := c.leases[tab := l]), Ok(l))
    else if tab in c.leases && c.leases[tab].expiresAt > now && !c.leases[tab].revoked && !force then
      (c, Refuse(LEASE_CONFLICT))
    else
      var free := if tab in c.leases then DropLeases(c, {tab}, now) else c;
      var l := Lease(id, s, tab, "", now, now, until, false);
      (PutLease(free, l), Ok(l))
  }

  function RenewLease(c: Core, s: string, tab: string, lease: string, ttl: int, leaseTtl: int, now: int)
    : (r: (Core, Reply<Lease>))
    ensures r.0 == c.(leases := r.0.leases, heap := r.0.heap, queues := r.0.queues)
    ensures r.0.heap.Keys == c.heap.Keys && r.0.queues.Keys == c.queues.Keys
  {
    var (d, r) := ValidLease(c, s, tab, lease, true, now);
    if r.Refused? then (d, r)
    else
      var l := r.value.(renewedAt := now, expiresAt := now + EffectiveTtl(ttl, leaseTtl));
      (d.(leases := d.leases[tab := l]), Ok(l))
  }

  function BindBrowser(c: Core, s: string, tab: string, lease: string, browser: string, now: int)
    : (r: (Core, Reply<Lease>))
    ensures r.0 == c.(leases := r.0.leases, heap := r.0.heap, queues := r.0.queues)
    ensures r.0.heap.Keys == c.heap.Keys && r.0.queues.Keys == c.queues.Keys
  {
    if browser == "" then (c, Refuse(INVALID_REQUEST))
    else
      var (d, r) := ValidLease(c, s, tab, lease, true, now);
      if r.Refused? then (d, r)
      else if r.value.browser != "" && r.value.browser != browser then (d, Refuse(LEASE_CONFLICT))
      else
        var l := r.value.(browser := browser);
        (d.(leases := d.leases[tab := l]), Ok(l))
  }

  function ReleaseTab(c: Core, s: string, tab: string, lease: string, now: int): (r: (Core, Reply<Lease>))
    ensures r.0 == c.(leases := r.0.leases, heap := r.0.heap, queues := r.0.queues)
    ensures r.0.heap.Keys == c.heap.Keys && r.0.queues.Keys == c.queues.Keys
  {
    var (d, r) := ValidLease(c, s, tab, lease, false, now);
    if r.Refused? then (d, r) else (DropLeases(d, {tab}, now), r)
  }

  function RevokeTab(c: Core, tab: string, now: int): (r: (Core, Reply<Lease>))
    ensures r.0 == c.(leases := r.0.leases, heap := r.0.heap, queues := r.0.queues)
    ensures r.0.heap.Keys == c.heap.Keys && r.0.queues.Keys == c.queues.Keys
  {
    if tab !in c.leases then (c, Refuse(LEASE_REQUIRED))
    else (DropLeases(c, {tab}, now), Ok(c.leases[tab].(revoked := true)))
  }

  function RevokeBrowser(c: Core, browser: string, now: int): (d: Core)
    ensures d.sessions == c.sessions && d.table == c.table
    ensures d.heap.Keys == c.heap.Keys && d.queues.Keys == c.queues.Keys
  {
    var dropped := DropLeases(c, TabsIn(c, browser), now);
    dropped.(confirmations := Settle(c.confirmations, AskedIn(c, browser), Withdrawn))
  }

  /** RunTab's lookup: the first request for a tab makes its queue. */
  function EnsureQueue(c: Core, tab: string): Core {
    if tab == "" || tab in c.queues then c else c.(queues := c.queues[tab := 0])
  }

  // ---------------------------------------------------------------- operations, caller side

  datatype Entry =
    | Rejected(error: RpcError)
    | Replay(serial: nat, result: string, err: Option<RpcError>)
    | Join(serial: nat)     // another caller's callback is running
    | Start(serial: nat)    // this caller runs the callback

  /** The first critical section of ExecuteOperation; `serial` names the record it may create. */
  function EnterOperation(c: Core, s: string, tab: string, id: string, fingerprint: string, serial: nat)
    : (r: (Core, Entry))
    ensures r.0 == c.(heap := r.0.heap, table := r.0.table)
  {
    var started := c.(
      heap := c.heap[serial := Operation(id, s, tab, fingerprint, Running, "", None, 0, false)],
      table := c.table[id := serial]);
    if id == "" then (c, Rejected(NewError(INVALID_REQUEST)))
    else if SessionError(c, s).Some? then (c, Rejected(SessionError(c, s).value))
    else if id in c.table && c.table[id] in c.heap then
      var k := c.table[id];
      var op := c.heap[k];
      if op.session != s || op.fingerprint != fingerprint then (c, Rejected(NewError(INVALID_REQUEST)))
      else if op.status == Awaiting then (started, Start(serial))
      else if op.status != Running then (c, Replay(k, op.result, op.err))
      else (c, Join(k))
    else (started, Start(serial))
  }

  function FinalStatus(err: Option<RpcError>): Status {
    if ErrorKind(err) == Some(CONFIRMATION_REQUIRED) then Awaiting
    else if ErrorKind(err) == Some(CANCELLED) then Cancelled
    else if err.Some? then Failed
    else Completed
  }

  /** The second critical section of ExecuteOperation. */
  function FinishOperation(c: Core, k: nat, result: string, err: Option<RpcError>, now: int): (d: Core)
    ensures d == c.(heap := d.heap) && d.heap.Keys == c.heap.Keys
  {
    if k !in c.heap then c
    else c.(heap := c.heap[k := c.heap[k].(
      status := FinalStatus(err), result := result, err := err, completedAt := now, cancelRequested := true)])
  }

  /** CancelOperation up to the point where it unlocks: the record whose context it will cancel. */
  function CancelOperation(c: Core, s: string, id: string, now: int): (r: (Core, Reply<Option<nat>>))
    ensures r.0 == c.(heap := r.0.heap, confirmations := r.0.confirmations) && r.0.heap.Keys == c.heap.Keys
  {
    if id !in c.table || c.table[id] !in c.heap || c.heap[c.table[id]].session != s then
      (c, Refused(NewError(INVALID_REQUEST)))
    else
      var k := c.table[id];
      match c.heap[k].status
      case Awaiting =>
        (FinishAwaiting(c, id, Cancelled, CANCELLED, now).(
           confirmations := Settle(c.confirmations, AskedFor(c, id, s), Withdrawn)),
         Ok(None))
      case Running => (c, Ok(Some(k)))
      case _ => (c, Ok(None))
  }

  /** ... and the cancel() it calls after unlocking. */
  function CancelContext(c: Core, k: nat): (d: Core)
    ensures d == c.(heap := d.heap) && d.heap.Keys == c.heap.Keys
  {
    if k !in c.heap then c else c.(heap := c.heap[k := c.heap[k].(cancelRequested := true)])
  }

  // ---------------------------------------------------------------- confirmations

  predicate SameRequest(a: Confirmation, b: Confirmation) {
    && a.kind == b.kind && a.session == b.session && a.tab == b.tab
    && a.browser == b.browser && a.operation == b.operation && a.hash == b.hash
  }

  function ConfirmationTtl(ttl: int): int {
    if ttl <= 0 || ttl > 10 * MINUTE then 2 * MINUTE else ttl
  }

  /** `ask` carries the request's key fields and a fresh id. */
  function CreateConfirmation(c: Core, ask: Confirmation, ttl: int, now: int): (d: Core)
    ensures d == c.(confirmations := d.confirmations)
  {
    if SessionError(c, ask.session).Some? then c
    else if ask.kind == Capability && !(ask.capabilities != {} && ask.capabilities <= AllCapabilities()) then c
    else if exists i | i in c.confirmations ::
        c.confirmations[i].status == Pending && SameRequest(c.confirmations[i], ask)
    then c
    else
      var asked := ask.(status := Pending, expiresAt := now + ConfirmationTtl(ttl));
      c.(confirmations := c.confirmations[ask.id := asked])
  }

  function SetDecision(c: Core, id: string, status: Decision): Core
    requires id in c.confirmations
  {
    c.(confirmations := c.confirmations[id := c.confirmations[id].(status := status)])
  }

  function ExpireConfirmation(c: Core, id: string, now: int): (d: Core)
    requires id in c.confirmations
    ensures d == c.(heap := d.heap, confirmations := d.confirmations) && d.heap.Keys == c.heap.Keys
  {
    FinishAwaiting(SetDecision(c, id, Expired), c.confirmations[id].operation, Failed, CONFIRMATION_EXPIRED, now)
  }

  function Authorize(c: Core, id: string, s: string, tab: string, browser: string, hash: string, now: int)
    : (r: (Core, Option<RpcError>))
    ensures r.0 == c.(heap := r.0.heap, confirmations := r.0.confirmations) && r.0.heap.Keys == c.heap.Keys
  {
    if id !in c.confirmations || c.confirmations[id].kind != Action then (c, Some(NewError(CONFIRMATION_REQUIRED)))
    else
      var f := c.confirmations[id];
      if f.session != s || f.tab != tab || f.browser != browser || f.hash != hash then
        (c, Some(NewError(PERMISSION_DENIED)))
      else if f.expiresAt <= now then (ExpireConfirmation(c, id, now), Some(NewError(CONFIRMATION_REQUIRED)))
      else match f.status
        case Approved | Consumed => (c, None)
        case Denied => (c, Some(NewError(USER_DENIED)))
        case _ => (c, Some(NewError(CONFIRMATION_REQUIRED)))
  }

  function Consume(c: Core, id: string): (r: (Core, Option<RpcError>))
    ensures r.0 == c.(confirmations := r.0.confirmations)
  {
    if id !in c.confirmations || c.confirmations[id].kind != Action then (c, Some(NewError(CONFIRMATION_REQUIRED)))
    else match c.confirmations[id].status
      case Approved => (SetDecision(c, id, Consumed), None)
      case Consumed => (c, None)
      case _ => (c, Some(NewError(CONFIRMATION_REQUIRED)))
  }

  function Resolve(c: Core, id: string, decision: Verdict, now: int): (r: (Core, Option<RpcError>))
    ensures r.0 == c.(sessions := r.0.sessions, heap := r.0.heap, confirmations := r.0.confirmations)
    ensures r.0.heap.Keys == c.heap.Keys && r.0.sessions.Keys == c.sessions.Keys
  {
    if id !in c.confirmations then (c, Some(NewError(INVALID_REQUEST)))
    else
      var f := c.confirmations[id];
      if f.status != Pending then (c, None)
      else if now > f.expiresAt then (ExpireConfirmation(c, id, now), Some(NewError(CONFIRMATION_REQUIRED)))
      else if decision == Approve then
        var d := SetDecision(c, id, Approved);
        if f.kind != Capability then (d, None)
        else if SessionError(c, f.session).Some? then (d, SessionError(c, f.session))
        else
          var s := c.sessions[f.session];
          (d.(sessions := c.sessions[f.session := s.(capabilities := s.capabilities + f.capabilities)]), None)
      else if decision == Deny then
        (FinishAwaiting(SetDecision(c, id, Denied), f.operation, Failed, USER_DENIED, now), None)
      else (c, Some(NewError(INVALID_REQUEST)))
  }

  // ---------------------------------------------------------------- one janitor tick

  predicate Collectable(op: Operation, now: int) {
    op.status != Running && now - op.completedAt > HOUR
  }

  function Collect(c: Core, now: int): Core {
    c.(table := map i | i in c.table && !(c.table[i] in c.heap && Collectable(c.heap[c.table[i]], now)) :: c.table[i])
  }

  predicate Lapsed(f: Confirmation, now: int) {
    f.status == Pending && now > f.expiresAt
  }

  predicate LapsedFor(c: Core, id: string, now: int) {
    exists i | i in c.confirmations :: Lapsed(c.confirmations[i], now) && c.confirmations[i].operation == id
  }

  function FailLapsed(op: Operation, now: int): Operation {
    if op.status == Awaiting then
      op.(status := Failed, err := Some(NewError(CONFIRMATION_EXPIRED)), completedAt := now)
    else op
  }

  function ExpireLapsed(c: Core, now: int): Core {
    c.(confirmations := map i | i in c.confirmations ::
         if Lapsed(c.confirmations[i], now) then c.confirmations[i].(status := Expired) else c.confirmations[i],
       heap := map k | k in c.heap ::
         if Listed(c, k) && LapsedFor(c, c.heap[k].id, now) then FailLapsed(c.heap[k], now) else c.heap[k])
  }

  function Tick(c: Core, now: int): (d: Core)
    ensures d.sessions == c.sessions && d.heap.Keys == c.heap.Keys && d.queues.Keys == c.queues.Keys
  {
    var dropped := DropLeases(c, ExpiredTabs(c, now), now);
    ExpireLapsed(Collect(dropped, now), now)
  }
}
