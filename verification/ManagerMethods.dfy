/**
 The methods of internal/core/manager.go on its own maps, with its own loops.  Go leaves the
 order of a map iteration open, so each loop picks the next key with no order of its own.
 Every method is proved to do to the state what the function of ManagerState says.
 */
module ManagerMethods {
  import opened Options
  import opened Protocol
  import opened ManagerState

  // ---------------------------------------------------------------- what a loop has done so far

  ghost function CancelledIn(c: Core, session: string, tab: string, done: set<string>, now: int): map<nat, Operation> {
    map k | k in c.heap ::
      if Listed(c, k) && Matches(c.heap[k], session, tab) && c.heap[k].id in done then Cancel(c.heap[k], now)
          else c.heap[k]
  }

  lemma CancelledInMore(c: Core, session: string, tab: string, done: set<string>, i: string, now: int)
    requires TableGood(c) && i in c.table && i !in done
    ensures var k, h := c.table[i], CancelledIn(c, session, tab, done, now);
            && h[k] == c.heap[k]
            && CancelledIn(c, session, tab, done + {i}, now) ==
                 if Matches(c.heap[k], session, tab) then h[k := Cancel(c.heap[k], now)] else h
  {
  }

  lemma CancelTwice(op: Operation, now: int)
    ensures Cancel(Cancel(op, now), now) == Cancel(op, now)
  {
  }

  lemma LosesOneMore(c: Core, done: set<string>, tab: string, op: Operation)
    requires tab in c.leases
    ensures LosesLease(c, done + {tab}, op) <==> LosesLease(c, done, op) || Matches(op, c.leases[tab].session, tab)
  {
  }

  lemma LosesOnly(c: Core, tab: string, op: Operation)
    requires tab in c.leases
    ensures LosesLease(c, {tab}, op) <==> Matches(op, c.leases[tab].session, tab)
  {
  }

  lemma DropMoreRecord(c: Core, done: set<string>, tab: string, now: int, k: nat)
    requires tab in c.leases && tab !in done && k in c.heap
    ensures DropLeases(DropLeases(c, done, now), {tab}, now).heap[k] == DropLeases(c, done + {tab}, now).heap[k]
  {
    hide LosesLease, Matches;
    var x := DropLeases(c, done, now);
    assert Listed(x, k) == Listed(c, k);
    LosesOneMore(c, done, tab, c.heap[k]);
    LosesOnly(x, tab, x.heap[k]);
    CancelTwice(c.heap[k], now);
  }

  /** Dropping one more lease after some others. */
  lemma DropMore(c: Core, done: set<string>, tab: string, now: int)
    requires tab in c.leases && tab !in done
    ensures DropLeases(DropLeases(c, done, now), {tab}, now) == DropLeases(c, done + {tab}, now)
  {
    hide LosesLease, Cancel, Listed;
    var y := DropLeases(DropLeases(c, done, now), {tab}, now);
    var z := DropLeases(c, done + {tab}, now);
    forall k | k in c.heap ensures y.heap[k] == z.heap[k] {
      DropMoreRecord(c, done, tab, now, k);
    }
    assert y.heap == z.heap && y.leases == z.leases && y.queues == z.queues;
  }

  lemma DropNone(c: Core, now: int)
    ensures DropLeases(c, {}, now) == c
  {
  }

  lemma DropOneIsCancel(c: Core, tab: string, now: int)
    requires tab in c.leases
    ensures var x := CancelOperations(c.(leases := c.leases - {tab}), c.leases[tab].session, tab, now);
            DropLeases(c, {tab}, now) ==
              if tab in c.queues then x.(queues := c.queues[tab := c.queues[tab] + 1]) else x
  {
  }

  /** The leases of these tabs, each once and with its revoked mark, in the order of the walk. */
  ghost predicate Revoked(leases: map<string, Lease>, tabs: set<string>, order: seq<string>, released: seq<Lease>) {
    && multiset(order) == multiset(tabs) && |released| == |order|
    && forall i | 0 <= i < |order| :: order[i] in leases && released[i] == leases[order[i]].(revoked := true)
  }

  lemma RevokedMore(leases: map<string, Lease>, tabs: set<string>, order: seq<string>, released: seq<Lease>,
      tab: string)
    requires Revoked(leases, tabs, order, released) && tab in leases && tab !in tabs
    ensures Revoked(leases, tabs + {tab}, order + [tab], released + [leases[tab].(revoked := true)])
  {
    assert multiset(tabs + {tab}) == multiset(tabs) + multiset{tab};
  }

  lemma RevokedNone(leases: map<string, Lease>)
    ensures Revoked(leases, {}, [], [])
  {
  }

  lemma StillThere(c: Core, done: set<string>, tab: string, now: int)
    requires tab in c.leases && tab !in done
    ensures tab in DropLeases(c, done, now).leases && DropLeases(c, done, now).leases[tab] == c.leases[tab]
  {
  }

  class Manager {
    var sessions: map<string, Session>
    var leases: map<string, Lease>
    var heap: map<nat, Operation>
    var operations: map<string, nat>
    var confirmations: map<string, Confirmation>
    var tabQueues: map<string, nat>
    const leaseTtl: int

    ghost function Model(): Core
      reads this
    {
      Core(sessions, leases, heap, operations, confirmations, tabQueues)
    }

    ghost predicate Valid()
      reads this
    {
      TableGood(Model())
    }

    constructor (ttl: int)
      ensures Valid() && Model() == Core(map[], map[], map[], map[], map[], map[])
      ensures leaseTtl == if ttl <= 0 then 30 * SECOND else ttl
    {
      leaseTtl := if ttl <= 0 then 30 * SECOND else ttl;
      sessions, leases, heap, operations, confirmations, tabQueues := map[], map[], map[], map[], map[], map[];
    }

    // -------------------------------------------------------------- helpers that hold the lock

    method FinishAwaitingOperation(id: string, status: Status, kind: Kind, now: int)
      requires Valid()
      modifies this`heap
      ensures Valid() && Model() == FinishAwaiting(old(Model()), id, status, kind, now)
    {
      if id in operations && heap[operations[id]].status == Awaiting {
        var k := operations[id];
        heap := heap[k := heap[k].(status := status, err := Some(NewError(kind)), completedAt := now)];
      }
    }

    /** One turn of the loop of cancelOperationsLocked. */
    method CancelIfMatching(id: string, session: string, tab: string, now: int)
      requires Valid() && id in operations
      modifies this`heap
      ensures Valid()
      ensures var k := operations[id];
              heap == if Matches(old(heap)[k], session, tab) then old(heap)[k := Cancel(old(heap)[k], now)]
                  else old(heap)
    {
      var op := heap[operations[id]];
      if session != "" && op.session != session {
        return;
      }
      if tab != "" && op.tab != tab {
        return;
      }
      match op.status {
        case Running => heap := heap[operations[id] := op.(cancelRequested := true)];
        case Awaiting => FinishAwaitingOperation(id, Cancelled, CANCELLED, now);
        case _ => assert heap == heap[operations[id] := op];
      }
    }

    method CancelMatching(session: string, tab: string, now: int)
      requires Valid()
      modifies this`heap
      ensures Valid() && Model() == CancelOperations(old(Model()), session, tab, now)
    {
      ghost var c, done := Model(), {};
      var rest := operations.Keys;
      assert CancelledIn(c, session, tab, {}, now) == heap;
      while rest != {}
        invariant done !! rest && done + rest == operations.Keys
        invariant Valid() && heap == CancelledIn(c, session, tab, done, now)
      {
        var id :| id in rest;
        CancelledInMore(c, session, tab, done, id, now);
        CancelIfMatching(id, session, tab, now);
        rest, done := rest - {id}, done + {id};
      }
      assert heap == CancelOperations(c, session, tab, now).heap;
    }

    method CancelTabQueue(tab: string)
      modifies this`tabQueues
      ensures tabQueues == if tab in old(tabQueues) then old(tabQueues)[tab := old(tabQueues)[tab] + 1]
              else old(tabQueues)
    {
      if tab in tabQueues {
        tabQueues := tabQueues[tab := tabQueues[tab] + 1];
      }
    }

    /** The deletion of one lease as every path but StopAll writes it. */
    method DropLease(tab: string, now: int)
      requires Valid() && tab in leases
      modifies this`leases, this`heap, this`tabQueues
      ensures Valid() && Model() == DropLeases(old(Model()), {tab}, now)
    {
      DropOneIsCancel(Model(), tab, now);
      var session := leases[tab].session;
      leases := leases - {tab};
      CancelMatching(session, tab, now);
      CancelTabQueue(tab);
    }

    /** The loops of releaseSessionLeasesLocked, RevokeBrowser and the janitor, with the list of the leases
        they took out; `order` is the order in which the map was walked. */
    method DropAll(gone: set<string>, now: int) returns (released: seq<Lease>, ghost order: seq<string>)
      requires Valid() && gone <= leases.Keys
      modifies this`leases, this`heap, this`tabQueues
      ensures Valid() && Model() == DropLeases(old(Model()), gone, now)
      ensures Revoked(old(leases), gone, order, released)
    {
      hide DropLeases, Revoked;
      ghost var c, done := Model(), {};
      DropNone(c, now);
      RevokedNone(leases);
      released, order := [], [];
      var rest := gone;
      while rest != {}
        invariant done !! rest && done + rest == gone
        invariant Valid() && Model() == DropLeases(c, done, now)
        invariant Revoked(c.leases, done, order, released)
      {
        var tab :| tab in rest;
        DropMore(c, done, tab, now);
        StillThere(c, done, tab, now);
        RevokedMore(c.leases, done, order, released, tab);
        released := released + [leases[tab].(revoked := true)];
        order := order + [tab];
        DropLease(tab, now);
        rest, done := rest - {tab}, done + {tab};
      }
      assert done == gone;
    }

    method SettleAll(hit: set<string>, status: Decision)
      requires hit <= confirmations.Keys
      modifies this`confirmations
      ensures confirmations == Settle(old(confirmations), hit, status)
    {
      var rest := hit;
      SettleNone(confirmations, status);
      hide Settle;
      assert hit - rest == {};
      while rest != {}
        invariant rest <= hit <= confirmations.Keys == old(confirmations).Keys
        invariant confirmations == Settle(old(confirmations), hit - rest, status)
      {
        var id :| id in rest;
        SettleMore(old(confirmations), hit - rest, id, status);
        if confirmations[id].status == Pending {
          confirmations := confirmations[id := confirmations[id].(status := status)];
        }
        assert hit - (rest - {id}) == hit - rest + {id};
        rest := rest - {id};
      }
      assert hit - {} == hit;
    }

    method CheckLease(s: string, tab: string, lease: string, requireOpen: bool, now: int) returns (r: Reply<Lease>)
      requires Valid()
      modifies this`leases, this`heap, this`tabQueues
      ensures Valid() && (Model(), r) == ValidLease(old(Model()), s, tab, lease, requireOpen, now)
    {
      if requireOpen {
        if s !in sessions {
          return Refuse(SESSION_NOT_FOUND);
        }
        if !sessions[s].open {
          return Refuse(SESSION_CLOSED);
        }
      }
      if tab !in leases {
        return Refuse(LEASE_REQUIRED);
      }
      var l := leases[tab];
      if l.expiresAt <= now {
        DropLease(tab, now);
        return Refuse(LEASE_EXPIRED);
      }
      if l.revoked {
        return Refuse(LEASE_REVOKED);
      }
      if l.session != s || l.id != lease {
        return Refuse(LEASE_CONFLICT);
      }
      return Ok(l);
    }

    // -------------------------------------------------------------- sessions

    method Close(s: string, now: int) returns (r: Reply<seq<Lease>>, ghost order: seq<string>)
      requires Valid()
      modifies this
      ensures Valid() && Model() == CloseSession(old(Model()), s, now)
      ensures r.Refused? <==> s !in old(sessions)
      ensures r.Refused? ==> r.error == NewError(SESSION_NOT_FOUND)
      ensures r.Ok? && !old(sessions)[s].open ==> r.value == []
      ensures r.Ok? && old(sessions)[s].open ==>
                Revoked(old(leases), TabsOf(old(Model()), s), order, r.value)
    {
      hide DropLeases, Settle, CancelOperations;
      order := [];
      if s !in sessions {
        return Refused(NewError(SESSION_NOT_FOUND)), [];
      }
      if !sessions[s].open {
        return Ok([]), [];
      }
      sessions := sessions[s := sessions[s].(open := false)];
      var released;
      released, order := DropAll((set t | t in leases && leases[t].session == s), now);
      CancelMatching(s, "", now);
      SettleAll((set i | i in confirmations && confirmations[i].session == s), Withdrawn);
      r := Ok(released);
    }

    /** The middle loop of StopAll, which leaves the operations to the end. */
    method ClearLeases() returns (all: seq<Lease>, ghost order: seq<string>)
      modifies this`leases, this`tabQueues
      ensures leases == map[] && tabQueues == AdvancedIn(old(Model()), old(leases).Keys)
      ensures Revoked(old(leases), old(leases).Keys, order, all)
    {
      ghost var c, done := Model(), {};
      all, order := [], [];
      var rest := leases.Keys;
      AdvanceNone(c);
      RevokedNone(leases);
      hide AdvancedIn, Revoked;
      while rest != {}
        invariant done !! rest && done + rest == c.leases.Keys
        invariant leases == c.leases - done
        invariant tabQueues == AdvancedIn(c, done)
        invariant Revoked(c.leases, done, order, all)
      {
        var tab :| tab in rest;
        RevokedMore(c.leases, done, order, all, tab);
        assert leases[tab] == c.leases[tab];
        assert c.leases - (done + {tab}) == c.leases - done - {tab};
        all := all + [leases[tab].(revoked := true)];
        order := order + [tab];
        leases := leases - {tab};
        CancelTabQueue(tab);
        AdvanceMore(c, done, tab);
        rest, done := rest - {tab}, done + {tab};
      }
      assert done == c.leases.Keys;
    }

    method Stop(now: int) returns (all: seq<Lease>, ghost order: seq<string>)
      requires Valid()
      modifies this
      ensures Valid() && Model() == StopAll(old(Model()), now)
      ensures Revoked(old(leases), old(leases).Keys, order, all)
    {
      hide Settle, CancelOperations;
      sessions := map s | s in sessions :: sessions[s].(open := false);
      all, order := ClearLeases();
      SettleAll(confirmations.Keys, Withdrawn);
      assert Model() == Stopped(old(Model()));
      hide Stopped;
      CancelMatching("", "", now);
    }

    // -------------------------------------------------------------- leases

    method Claim(s: string, tab: string, ttl: int, force: bool, id: string, now: int) returns (r: Reply<Lease>)
      requires Valid()
      modifies this
      ensures Valid() && (Model(), r) == ClaimTab(old(Model()), s, tab, ttl, force, id, leaseTtl, now)
    {
      if tab == "" {
        return Refuse(INVALID_REQUEST);
      }
      if s !in sessions {
        return Refuse(SESSION_NOT_FOUND);
      }
      if !sessions[s].open {
        return Refuse(SESSION_CLOSED);
      }
      if tab in leases {
        var current := leases[tab];
        if current.expiresAt > now && !current.revoked {
          if current.session == s {
            var l := current.(renewedAt := now, expiresAt := now + EffectiveTtl(ttl, leaseTtl));
            leases := leases[tab := l];
            return Ok(l);
          }
          if !force {
            return Refuse(LEASE_CONFLICT);
          }
        }
        DropLease(tab, now);
      }
      var l := Lease(id, s, tab, "", now, now, now + EffectiveTtl(ttl, leaseTtl), false);
      leases := leases[tab := l];
      r := Ok(l);
    }

    method Renew(s: string, tab: string, lease: string, ttl: int, now: int) returns (r: Reply<Lease>)
      requires Valid()
      modifies this`leases, this`heap, this`tabQueues
      ensures Valid() && (Model(), r) == RenewLease(old(Model()), s, tab, lease, ttl, leaseTtl, now)
    {
      r := CheckLease(s, tab, lease, true, now);
      if r.Ok? {
        r := Ok(r.value.(renewedAt := now, expiresAt := now + EffectiveTtl(ttl, leaseTtl)));
        leases := leases[tab := r.value];
      }
    }

    method Bind(s: string, tab: string, lease: string, browser: string, now: int) returns (r: Reply<Lease>)
      requires Valid()
      modifies this`leases, this`heap, this`tabQueues
      ensures Valid() && (Model(), r) == BindBrowser(old(Model()), s, tab, lease, browser, now)
    {
      if browser == "" {
        return Refuse(INVALID_REQUEST);
      }
      r := CheckLease(s, tab, lease, true, now);
      if r.Ok? {
        if r.value.browser != "" && r.value.browser != browser {
          return Refuse(LEASE_CONFLICT);
        }
        r := Ok(r.value.(browser := browser));
        leases := leases[tab := r.value];
      }
    }

    method Release(s: string, tab: string, lease: string, now: int) returns (r: Reply<Lease>)
      requires Valid()
      modifies this`leases, this`heap, this`tabQueues
      ensures Valid() && (Model(), r) == ReleaseTab(old(Model()), s, tab, lease, now)
    {
      r := CheckLease(s, tab, lease, false, now);
      if r.Ok? {
        DropLease(tab, now);
      }
    }

    method Revoke(tab: string, now: int) returns (r: Reply<Lease>)
      requires Valid()
      modifies this`leases, this`heap, this`tabQueues
      ensures Valid() && (Model(), r) == RevokeTab(old(Model()), tab, now)
    {
      if tab !in leases {
        return Refuse(LEASE_REQUIRED);
      }
      r := Ok(leases[tab].(revoked := true));
      DropLease(tab, now);
    }

    method RevokeAllIn(browser: string, now: int) returns (released: seq<Lease>, ghost order: seq<string>)
      requires Valid()
      modifies this
      ensures Valid() && Model() == RevokeBrowser(old(Model()), browser, now)
      ensures Revoked(old(leases), TabsIn(old(Model()), browser), order, released)
    {
      hide DropLeases, Settle;
      released, order := DropAll((set t | t in leases && leases[t].browser == browser), now);
      SettleAll((set i | i in confirmations && confirmations[i].browser == browser), Withdrawn);
    }

    // -------------------------------------------------------------- operations

    method Enter(s: string, tab: string, id: string, fingerprint: string, serial: nat) returns (e: Entry)
      requires Valid() && serial !in heap
      modifies this
      ensures Valid() && (Model(), e) == EnterOperation(old(Model()), s, tab, id, fingerprint, serial)
    {
      if id == "" {
        return Rejected(NewError(INVALID_REQUEST));
      }
      if s !in sessions {
        return Rejected(NewError(SESSION_NOT_FOUND));
      }
      if !sessions[s].open {
        return Rejected(NewError(SESSION_CLOSED));
      }
      if id in operations {
        var k := operations[id];
        var existing := heap[k];
        if existing.session != s || existing.fingerprint != fingerprint {
          return Rejected(NewError(INVALID_REQUEST));
        }
        if existing.status == Awaiting {
          operations := operations - {id};
        } else if existing.status != Running {
          return Replay(k, existing.result, existing.err);
        } else {
          return Join(k);
        }
      }
      heap := heap[serial := Operation(id, s, tab, fingerprint, Running, "", None, 0, false)];
      operations := operations[id := serial];
      assert operations == old(operations)[id := serial];
      e := Start(serial);
    }

    method Finish(k: nat, result: string, err: Option<RpcError>, now: int)
      requires Valid() && k in heap
      modifies this`heap
      ensures Valid() && Model() == FinishOperation(old(Model()), k, result, err, now)
    {
      var op := heap[k].(result := result, err := err, completedAt := now, cancelRequested := true);
      if ErrorKind(err) == Some(CONFIRMATION_REQUIRED) {
        op := op.(status := Awaiting);
      } else if ErrorKind(err) == Some(CANCELLED) {
        op := op.(status := Cancelled);
      } else if err.Some? {
        op := op.(status := Failed);
      } else {
        op := op.(status := Completed);
      }
      heap := heap[k := op];
    }

    method CancelOne(s: string, id: string, now: int) returns (r: Reply<Option<nat>>)
      requires Valid()
      modifies this
      ensures Valid() && (Model(), r) == CancelOperation(old(Model()), s, id, now)
    {
      if id !in operations || heap[operations[id]].session != s {
        return Refused(NewError(INVALID_REQUEST));
      }
      var k := operations[id];
      if heap[k].status == Awaiting {
        FinishAwaitingOperation(id, Cancelled, CANCELLED, now);
        SettleAll((set i | i in confirmations && confirmations[i].operation == id &&
            confirmations[i].session == s), Withdrawn);
        return Ok(None);
      }
      if heap[k].status != Running {
        return Ok(None);
      }
      return Ok(Some(k));
    }

    // -------------------------------------------------------------- confirmations

    /** The checks of the two Create methods, then createConfirmationLocked: the search for an equal
        pending request and the insertion. */
    method Ask(ask: Confirmation, ttl: int, now: int) returns (r: Reply<string>)
      requires Valid() && ask.id !in confirmations
      modifies this`confirmations
      ensures Valid() && Model() == CreateConfirmation(old(Model()), ask, ttl, now)
      ensures r.Ok? ==> r.value in confirmations && confirmations[r.value].status == Pending &&
                        SameRequest(confirmations[r.value], ask)
      ensures match SessionError(Model(), ask.session)
              case Some(e) => r == Refused(e)
              case None =>
                if ask.kind == Capability && ask.capabilities == {} then r == Refused(NewError(INVALID_REQUEST))
                else if ask.kind == Capability && !(ask.capabilities <= AllCapabilities())
                then r == Refused(NewError(CAPABILITY_REQUIRED))
                else r.Ok?
    {
      if ask.session !in sessions {
        return Refused(NewError(SESSION_NOT_FOUND));
      }
      if !sessions[ask.session].open {
        return Refused(NewError(SESSION_CLOSED));
      }
      if ask.kind == Capability && ask.capabilities == {} {
        return Refused(NewError(INVALID_REQUEST));
      }
      if ask.kind == Capability && !(ask.capabilities <= AllCapabilities()) {
        return Refused(NewError(CAPABILITY_REQUIRED));
      }
      var rest := confirmations.Keys;
      while rest != {}
        invariant rest <= confirmations.Keys && confirmations == old(confirmations)
        invariant forall i | i in confirmations && i !in rest ::
                    !(confirmations[i].status == Pending && SameRequest(confirmations[i], ask))
      {
        var i :| i in rest;
        if confirmations[i].status == Pending && SameRequest(confirmations[i], ask) {
          return Ok(i);
        }
        rest := rest - {i};
      }
      confirmations := confirmations[ask.id := ask.(status := Pending, expiresAt := now + ConfirmationTtl(ttl))];
      r := Ok(ask.id);
    }

    /** A confirmation of any status whose time is up becomes expired here. */
    method AuthorizeAction(id: string, s: string, tab: string, browser: string, hash: string, now: int)
      returns (err: Option<RpcError>)
      requires Valid()
      modifies this`confirmations, this`heap
      ensures Valid() && (Model(), err) == Authorize(old(Model()), id, s, tab, browser, hash, now)
    {
      if id !in confirmations || confirmations[id].kind != Action {
        return Some(NewError(CONFIRMATION_REQUIRED));
      }
      var f := confirmations[id];
      if f.session != s || f.tab != tab || f.browser != browser || f.hash != hash {
        return Some(NewError(PERMISSION_DENIED));
      }
      if !(f.expiresAt > now) {
        confirmations := confirmations[id := f.(status := Expired)];
        FinishAwaitingOperation(f.operation, Failed, CONFIRMATION_EXPIRED, now);
        return Some(NewError(CONFIRMATION_REQUIRED));
      }
      match f.status {
        case Approved | Consumed => return None;
        case Denied => return Some(NewError(USER_DENIED));
        case _ => return Some(NewError(CONFIRMATION_REQUIRED));
      }
    }

    method ConsumeAction(id: string) returns (err: Option<RpcError>)
      requires Valid()
      modifies this`confirmations
      ensures Valid() && (Model(), err) == Consume(old(Model()), id)
    {
      if id !in confirmations || confirmations[id].kind != Action {
        return Some(NewError(CONFIRMATION_REQUIRED));
      }
      if confirmations[id].status == Approved {
        confirmations := confirmations[id := confirmations[id].(status := Consumed)];
      }
      if confirmations[id].status != Consumed {
        return Some(NewError(CONFIRMATION_REQUIRED));
      }
      return None;
    }

    method Decide(id: string, decision: Verdict, now: int) returns (err: Option<RpcError>)
      requires Valid()
      modifies this`confirmations, this`heap, this`sessions
      ensures Valid() && (Model(), err) == Resolve(old(Model()), id, decision, now)
    {
      if id !in confirmations {
        return Some(NewError(INVALID_REQUEST));
      }
      var f := confirmations[id];
      if f.status != Pending {
        return None;
      }
      if now > f.expiresAt {
        confirmations := confirmations[id := f.(status := Expired)];
        FinishAwaitingOperation(f.operation, Failed, CONFIRMATION_EXPIRED, now);
        return Some(NewError(CONFIRMATION_REQUIRED));
      }
      match decision {
        case Approve =>
          confirmations := confirmations[id := f.(status := Approved)];
          if f.kind == Capability {
            if f.session !in sessions {
              return Some(NewError(SESSION_NOT_FOUND));
            }
            if !sessions[f.session].open {
              return Some(NewError(SESSION_CLOSED));
            }
            var session := sessions[f.session];
            sessions := sessions[f.session := session.(capabilities := session.capabilities + f.capabilities)];
          }
        case Deny =>
          confirmations := confirmations[id := f.(status := Denied)];
          FinishAwaitingOperation(f.operation, Failed, USER_DENIED, now);
        case Unrecognised => return Some(NewError(INVALID_REQUEST));
      }
      return None;
    }

    // -------------------------------------------------------------- one tick of the janitor

    method JanitorTick(now: int)
      requires Valid()
      modifies this
      ensures Valid() && Model() == Tick(old(Model()), now)
    {
      var _, _ := DropAll((set t | t in leases && now > leases[t].expiresAt), now);
      CollectOperations(now);
      ExpireConfirmations(now);
    }

    method CollectOperations(now: int)
      requires Valid()
      modifies this`operations
      ensures Valid() && Model() == Collect(old(Model()), now)
    {
      ghost var c := Model();
      var rest := operations.Keys;
      assert operations == CollectedIn(c, {}, now);
      while rest != {}
        invariant rest <= c.table.Keys && rest <= operations.Keys
        invariant operations == CollectedIn(c, c.table.Keys - rest, now)
      {
        var id :| id in rest;
        assert c.table.Keys - (rest - {id}) == c.table.Keys - rest + {id};
        var op := heap[operations[id]];
        if op.status != Running && now - op.completedAt > HOUR {
          operations := operations - {id};
        }
        rest := rest - {id};
        assert operations == CollectedIn(c, c.table.Keys - rest, now);
      }
      assert operations == Collect(c, now).table;
    }

    /** One turn of the janitor's loop over the confirmations. */
    method ExpireIfLapsed(id: string, now: int)
      requires Valid() && id in confirmations
      modifies this`confirmations, this`heap
      ensures Valid()
      ensures Model() == if Lapsed(old(confirmations)[id], now) then ExpireConfirmation(old(Model()), id, now)
              else old(Model())
    {
      if confirmations[id].status == Pending && now > confirmations[id].expiresAt {
        confirmations := confirmations[id := confirmations[id].(status := Expired)];
        FinishAwaitingOperation(confirmations[id].operation, Failed, CONFIRMATION_EXPIRED, now);
      }
    }

    method ExpireConfirmations(now: int)
      requires Valid()
      modifies this`confirmations, this`heap
      ensures Valid() && Model() == ExpireLapsed(old(Model()), now)
    {
      ghost var c, done := Model(), {};
      var rest := confirmations.Keys;
      assert ExpiredIn(c, {}, now) == c;
      while rest != {}
        invariant done !! rest && done + rest == c.confirmations.Keys == confirmations.Keys
        invariant Valid() && Model() == ExpiredIn(c, done, now)
      {
        var id :| id in rest;
        ExpireMore(c, done, id, now);
        ExpireIfLapsed(id, now);
        rest, done := rest - {id}, done + {id};
      }
      ExpiredInAll(c, now);
    }
  }

  lemma SettleNone(confs: map<string, Confirmation>, status: Decision)
    ensures Settle(confs, {}, status) == confs
  {
  }

  lemma SettleMore(confs: map<string, Confirmation>, done: set<string>, id: string, status: Decision)
    requires id in confs && id !in done
    ensures var x := Settle(confs, done, status);
            && id in x
            && Settle(confs, done + {id}, status) ==
               if x[id].status == Pending then x[id := x[id].(status := status)] else x
  {
  }

  ghost function AdvancedIn(c: Core, done: set<string>): map<string, nat> {
    map t | t in c.queues :: if t in done && t in c.leases then c.queues[t] + 1 else c.queues[t]
  }

  lemma AdvanceNone(c: Core)
    ensures AdvancedIn(c, {}) == c.queues
  {
  }

  lemma AdvanceMore(c: Core, done: set<string>, tab: string)
    requires tab in c.leases && tab !in done
    ensures var q := AdvancedIn(c, done);
            AdvancedIn(c, done + {tab}) == if tab in q then q[tab := q[tab] + 1] else q
  {
  }

  ghost function CollectedIn(c: Core, done: set<string>, now: int): map<string, nat> {
    map i | i in c.table && !(i in done && c.table[i] in c.heap && Collectable(c.heap[c.table[i]], now)) :: c.table[i]
  }

  ghost predicate LapsedIn(c: Core, done: set<string>, id: string, now: int) {
    exists i | i in done && i in c.confirmations ::
        Lapsed(c.confirmations[i], now) && c.confirmations[i].operation == id
  }

  /** The janitor's last loop after it has visited the confirmations in `done`. */
  ghost function ExpiredIn(c: Core, done: set<string>, now: int): Core {
    c.(confirmations := map i | i in c.confirmations ::
         if i in done && Lapsed(c.confirmations[i], now) then c.confirmations[i].(status := Expired)
             else c.confirmations[i],
       heap := map k | k in c.heap ::
         if Listed(c, k) && LapsedIn(c, done, c.heap[k].id, now) then FailLapsed(c.heap[k], now) else c.heap[k])
  }

  lemma LapsedOneMore(c: Core, done: set<string>, i: string, id: string, now: int)
    requires i in c.confirmations
    ensures LapsedIn(c, done + {i}, id, now) <==>
            LapsedIn(c, done, id, now) || (Lapsed(c.confirmations[i], now) && c.confirmations[i].operation == id)
  {
  }

  lemma ExpireOne(x: Core, i: string, now: int)
    requires i in x.confirmations
    ensures var d, id := ExpireConfirmation(x, i, now), x.confirmations[i].operation;
            && d == x.(heap := d.heap, confirmations := x.confirmations[i := x.confirmations[i].(status := Expired)])
            && d.heap.Keys == x.heap.Keys
            && forall k | k in x.heap ::
                 d.heap[k] == if id in x.table && x.table[id] == k then FailLapsed(x.heap[k], now) else x.heap[k]
  {
  }

  /** One more lapsed confirmation fails its awaiting operation, unless another one already did. */
  lemma ExpireMoreRecord(c: Core, done: set<string>, i: string, now: int, k: nat)
    requires TableGood(c) && i in c.confirmations && i !in done && Lapsed(c.confirmations[i], now) && k in c.heap
    ensures ExpiredIn(c, done + {i}, now).heap[k] == ExpireConfirmation(ExpiredIn(c, done, now), i, now).heap[k]
  {
    hide LapsedIn, ExpireConfirmation, Lapsed;
    LapsedOneMore(c, done, i, c.heap[k].id, now);
    ExpireOne(ExpiredIn(c, done, now), i, now);
  }

  lemma ExpireMore(c: Core, done: set<string>, i: string, now: int)
    requires TableGood(c) && i in c.confirmations && i !in done
    ensures var x := ExpiredIn(c, done, now);
            ExpiredIn(c, done + {i}, now) ==
                if Lapsed(x.confirmations[i], now) then ExpireConfirmation(x, i, now) else x
  {
    hide LapsedIn, ExpireConfirmation, Listed, FailLapsed, TableGood, Lapsed;
    var x, y := ExpiredIn(c, done, now), ExpiredIn(c, done + {i}, now);
    if Lapsed(c.confirmations[i], now) {
      ExpireOne(x, i, now);
      forall k | k in c.heap ensures y.heap[k] == ExpireConfirmation(x, i, now).heap[k] {
        ExpireMoreRecord(c, done, i, now, k);
      }
      assert y.heap == ExpireConfirmation(x, i, now).heap;
      assert y.confirmations == ExpireConfirmation(x, i, now).confirmations;
    } else {
      forall k | k in c.heap ensures y.heap[k] == x.heap[k] {
        LapsedOneMore(c, done, i, c.heap[k].id, now);
      }
      assert y.heap == x.heap && y.confirmations == x.confirmations;
    }
  }

  lemma ExpiredInAll(c: Core, now: int)
    ensures ExpiredIn(c, c.confirmations.Keys, now) == ExpireLapsed(c, now)
  {
  }
}
