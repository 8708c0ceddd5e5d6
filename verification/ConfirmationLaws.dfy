/**
 What confirmations promise whoever asks, decides and acts (internal/core/manager.go), one call after
 another.
 */
module ConfirmationLaws {
  import opened Options
  import opened Protocol
  import opened ManagerState

  /** A new session is open with every capability the daemon knows, and no other session changes. */
  lemma OpenedSessionIsOpen(c: Core, id: string)
    ensures var d := OpenSession(c, id);
            && d == c.(sessions := d.sessions) && id in d.sessions && d.sessions[id].open
            && d.sessions[id].capabilities == {
                 "history.read", "clipboard.read", "clipboard.write", "files.upload", "files.download",
                 "secureInput", "artifact.localPath", "unsafe.evaluate", "unsafe.cdp" }
            && forall s | s in c.sessions && s != id :: s in d.sessions && d.sessions[s] == c.sessions[s]
  {
  }

  /** The same request: all that a confirmation is bound to. */
  predicate SameAsk(a: Confirmation, b: Confirmation) {
    && a.kind == b.kind && a.operation == b.operation && a.session == b.session && a.tab == b.tab
    && a.browser == b.browser && a.hash == b.hash
  }

  /** Asking adds one pending confirmation that lasts as long as was asked for, up to ten minutes, and two
      minutes otherwise; unless an equal request is pending already, in which case nothing is added. */
  lemma AskingAddsOne(c: Core, ask: Confirmation, ttl: int, now: int)
    requires ask.session in c.sessions && c.sessions[ask.session].open
    requires ask.kind == Capability ==>
               ask.capabilities != {} && ask.capabilities <= {
                 "history.read", "clipboard.read", "clipboard.write", "files.upload", "files.download",
                 "secureInput", "artifact.localPath", "unsafe.evaluate", "unsafe.cdp" }
    ensures var d := CreateConfirmation(c, ask, ttl, now);
            if exists i :: i in c.confirmations && c.confirmations[i].status == Pending &&
                SameAsk(c.confirmations[i], ask)
            then d == c
            else
              && ask.id in d.confirmations &&
                 d == c.(confirmations := c.confirmations[ask.id := d.confirmations[ask.id]])
              && var f := d.confirmations[ask.id];
                 && f == ask.(status := Pending, expiresAt := f.expiresAt)
                 && (0 < ttl <= 600_000_000_000 ==> f.expiresAt == now + ttl)
                 && (ttl <= 0 || ttl > 600_000_000_000 ==> f.expiresAt == now + 120_000_000_000)
  {
    assert forall i | i in c.confirmations ::
        SameRequest(c.confirmations[i], ask) <==> SameAsk(c.confirmations[i], ask);
  }

  /** No confirmation comes from a session that is closed or unknown, or for capabilities that are none or that
      the daemon does not know. */
  lemma AskingIsRefused(c: Core, ask: Confirmation, ttl: int, now: int)
    requires ask.session !in c.sessions || !c.sessions[ask.session].open ||
             (ask.kind == Capability && ask.capabilities == {}) ||
             (ask.kind == Capability && exists x :: x in ask.capabilities && x !in {
                 "history.read", "clipboard.read", "clipboard.write", "files.upload", "files.download",
                 "secureInput", "artifact.localPath", "unsafe.evaluate", "unsafe.cdp" })
    ensures CreateConfirmation(c, ask, ttl, now) == c
  {
  }

  /** The confirmation is bound to exactly this action, approved or used already, and not expired. */
  predicate Covers(f: Confirmation, s: string, tab: string, browser: string, hash: string, now: int) {
    && f.session == s && f.tab == tab && f.browser == browser && f.hash == hash && f.expiresAt > now
    && (f.status == Approved || f.status == Consumed)
  }

  /** An action is authorized exactly by its own confirmation: of an action, bound to the same session, tab,
      browser and request, approved or used already, and not expired; every refusal says why. */
  lemma AuthorizationIsExact(c: Core, id: string, s: string, tab: string, browser: string, hash: string, now: int)
    ensures var (d, err) := Authorize(c, id, s, tab, browser, hash, now);
            var known := id in c.confirmations && c.confirmations[id].kind == Action;
            && (err == None <==> known && Covers(c.confirmations[id], s, tab, browser, hash, now))
            && (!known ==> err == Some(RpcError(CONFIRMATION_REQUIRED, NoEffect)) && d == c)
            && (known ==>
                  var f := c.confirmations[id];
                  var bound := f.session == s && f.tab == tab && f.browser == browser && f.hash == hash;
                  && (!bound ==> err == Some(RpcError(PERMISSION_DENIED, NoEffect)) && d == c)
                  && (bound && f.expiresAt > now ==> d == c)
                  && (bound && f.expiresAt > now && f.status == Denied ==> err == Some(RpcError(USER_DENIED, NoEffect)))
                  && (bound && f.expiresAt > now && f.status in {Pending, Expired, Withdrawn} ==>
                        err == Some(RpcError(CONFIRMATION_REQUIRED, NoEffect)))
                  && (bound && f.expiresAt <= now ==>
                        err == Some(RpcError(CONFIRMATION_REQUIRED, NoEffect)) &&
                        d.confirmations == c.confirmations[id := f.(status := Expired)]))
  {
  }

  /** Approving a pending action in time lets exactly that action through until the confirmation expires, and
      lets it be used; before, neither was possible. */
  lemma ApproveThenAct(c: Core, id: string, now: int, later: int)
    requires id in c.confirmations && c.confirmations[id].kind == Action && c.confirmations[id].status == Pending
    requires now <= c.confirmations[id].expiresAt
    ensures var f := c.confirmations[id];
            var (d, err) := Resolve(c, id, Approve, now);
            && err == None && d == c.(confirmations := c.confirmations[id := f.(status := Approved)])
            && (Authorize(d, id, f.session, f.tab, f.browser, f.hash, later).1 == None <==> later < f.expiresAt)
            && Authorize(c, id, f.session, f.tab, f.browser, f.hash, later).1 ==
                 Some(RpcError(CONFIRMATION_REQUIRED, NoEffect))
            && Consume(c, id) == (c, Some(RpcError(CONFIRMATION_REQUIRED, NoEffect)))
            && Consume(d, id) == (c.(confirmations := c.confirmations[id := f.(status := Consumed)]), None)
            && Consume(Consume(d, id).0, id) == (Consume(d, id).0, None)
            && (Authorize(Consume(d, id).0, id, f.session, f.tab, f.browser, f.hash, later).1 == None <==>
                  later < f.expiresAt)
  {
    var d := Resolve(c, id, Approve, now).0;
    var f := c.confirmations[id];
    assert d.confirmations == c.confirmations[id := f.(status := Approved)];
    assert d.confirmations[id := f.(status := Consumed)] == c.confirmations[id := f.(status := Consumed)];
  }

  /** A listed record that waited is failed with this error; everything else stays. */
  ghost predicate FailsTheWaiting(c: Core, d: Core, operation: string, kind: Kind, now: int) {
    && d.heap.Keys == c.heap.Keys
    && forall k | k in c.heap ::
         d.heap[k] == if operation in c.table && c.table[operation] == k && c.heap[k].status == Awaiting
                      then c.heap[k].(status := Failed, err := Some(RpcError(kind, NoEffect)), completedAt := now)
                      else c.heap[k]
  }

  /** Denying fails the operation that waits, and the action is refused as denied from then on. */
  lemma DenyThenAct(c: Core, id: string, now: int, later: int)
    requires id in c.confirmations && c.confirmations[id].kind == Action && c.confirmations[id].status == Pending
    requires now <= c.confirmations[id].expiresAt
    ensures var f := c.confirmations[id];
            var (d, err) := Resolve(c, id, Deny, now);
            && err == None && d.confirmations == c.confirmations[id := f.(status := Denied)]
            && d.sessions == c.sessions && d.leases == c.leases && d.table == c.table
            && FailsTheWaiting(c, d, f.operation, USER_DENIED, now)
            && (later < f.expiresAt ==>
                  Authorize(d, id, f.session, f.tab, f.browser, f.hash, later).1 == Some(RpcError(USER_DENIED,
                      NoEffect)))
  {
  }

  /** A decision that comes too late, and an action that does, expire the confirmation and fail the operation
      that waits for it. */
  lemma TooLateExpires(c: Core, id: string, decision: Verdict, now: int)
    requires id in c.confirmations
    ensures var f := c.confirmations[id];
            && (f.status == Pending && now > f.expiresAt ==>
                  var (d, err) := Resolve(c, id, decision, now);
                  && err == Some(RpcError(CONFIRMATION_REQUIRED, NoEffect))
                  && d.confirmations == c.confirmations[id := f.(status := Expired)] && d.sessions == c.sessions
                  && FailsTheWaiting(c, d, f.operation, CONFIRMATION_EXPIRED, now))
            && (f.kind == Action && now >= f.expiresAt ==>
                  var d := Authorize(c, id, f.session, f.tab, f.browser, f.hash, now).0;
                  && d.confirmations == c.confirmations[id := f.(status := Expired)]
                  && FailsTheWaiting(c, d, f.operation, CONFIRMATION_EXPIRED, now))
  {
  }

  /** Approving capabilities in time adds exactly them to the session; a decision that is none, or on a settled
      or unknown confirmation, changes nothing. */
  lemma ApprovalGrants(c: Core, id: string, decision: Verdict, now: int)
    ensures id !in c.confirmations ==> Resolve(c, id, decision, now) == (c, Some(RpcError(INVALID_REQUEST, NoEffect)))
    ensures id in c.confirmations && c.confirmations[id].status != Pending ==>
            Resolve(c, id, decision, now) == (c, None)
    ensures id in c.confirmations && c.confirmations[id].status == Pending && now <= c.confirmations[id].expiresAt &&
            decision == Unrecognised ==>
              Resolve(c, id, decision, now) == (c, Some(RpcError(INVALID_REQUEST, NoEffect)))
    ensures id in c.confirmations && c.confirmations[id].status == Pending && now <= c.confirmations[id].expiresAt &&
            c.confirmations[id].kind == Capability && c.confirmations[id].session in c.sessions &&
            c.sessions[c.confirmations[id].session].open ==>
              var f := c.confirmations[id];
              var session := c.sessions[f.session];
              Resolve(c, id, Approve, now) ==
                (c.(confirmations := c.confirmations[id := f.(status := Approved)],
                    sessions := c.sessions[f.session := session.(
                      capabilities := session.capabilities + f.capabilities)]), None)
  {
  }
}
