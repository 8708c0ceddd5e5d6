/**
 What the manager's other methods promise (internal/core/manager.go), in terms of the state and of one
 call after another.
 */
module ManagerLaws {
  import opened Options
  import opened Protocol
  import opened ManagerState

  // ---------------------------------------------------------------- work that is told to stop

  /** A listed record after its work was told to stop: a running one has a cancelled context, one that waited for
      a confirmation is cancelled and says so, and a finished one is as it was. */
  predicate ToldToStop(a: Operation, now: int, b: Operation) {
    && (a.status == Running ==> b == a.(cancelRequested := true))
    && (a.status == Awaiting ==>
          b == a.(status := Cancelled, err := Some(RpcError(CANCELLED, NoEffect)), completedAt := now))
    && (a.status != Running && a.status != Awaiting ==> b == a)
  }

  ghost predicate InTable(c: Core, k: nat) {
    k in c.heap && c.heap[k].id in c.table && c.table[c.heap[k].id] == k
  }

  /** The picked confirmations are withdrawn if they were pending; all others stay. */
  ghost predicate Withdraws(c: Core, d: Core, picked: set<string>) {
    && d.confirmations.Keys == c.confirmations.Keys
    && forall i | i in c.confirmations ::
         d.confirmations[i] == if i in picked && c.confirmations[i].status == Pending
                               then c.confirmations[i].(status := Withdrawn) else c.confirmations[i]
  }

  /** The leases of the picked tabs are gone, the others are as they were. */
  ghost predicate Takes(c: Core, d: Core, picked: set<string>) {
    && (forall t :: t in d.leases <==> t in c.leases && t !in picked)
    && (forall t | t in d.leases :: d.leases[t] == c.leases[t])
  }

  lemma StopTwice(op: Operation, now: int)
    ensures Cancel(Cancel(op, now), now) == Cancel(op, now) && ToldToStop(op, now, Cancel(op, now))
  {
  }

  /** Closing an open session closes it and no other, takes its leases and no others, tells its listed work to
      stop and no other's, and withdraws its pending confirmations and no others. */
  lemma CloseEndsTheSession(c: Core, s: string, now: int)
    requires s != "" && s in c.sessions && c.sessions[s].open
    ensures var d := CloseSession(c, s, now);
            && d.sessions == c.sessions[s := c.sessions[s].(open := false)] && d.table == c.table
            && Takes(c, d, (set t | t in c.leases && c.leases[t].session == s))
            && Withdraws(c, d, (set i | i in c.confirmations && c.confirmations[i].session == s))
  {
    hide Listed, LosesLease, Matches, Cancel;
  }

  lemma CloseStopsTheWork(c: Core, s: string, now: int, k: nat)
    requires s != "" && s in c.sessions && c.sessions[s].open && k in c.heap
    ensures var d := CloseSession(c, s, now);
            && k in d.heap
            && (InTable(c, k) && c.heap[k].session == s ==> ToldToStop(c.heap[k], now, d.heap[k]))
            && (c.heap[k].session != s ==> d.heap[k] == c.heap[k])
  {
    hide Cancel, Settle;
    StopTwice(c.heap[k], now);
    var closed := c.(sessions := c.sessions[s := c.sessions[s].(open := false)]);
    var x := DropLeases(closed, TabsOf(c, s), now);
    CancelKeepsIdentity(c.heap[k], now);
    assert x.heap[k] in {c.heap[k], Cancel(c.heap[k], now)};
    assert c.heap[k].session != s ==> !LosesLease(closed, TabsOf(c, s), c.heap[k]);
  }

  lemma CancelKeepsIdentity(op: Operation, now: int)
    ensures var b := Cancel(op, now); b.id == op.id && b.session == op.session && b.tab == op.tab
  {
  }

  /** A second close, or the close of an unknown session, changes nothing. */
  lemma CloseAgainIsNothing(c: Core, s: string, now: int)
    requires s in c.sessions ==> !c.sessions[s].open
    ensures CloseSession(c, s, now) == c
  {
  }

  /** The emergency stop closes every session, takes every lease, tells all listed work to stop and leaves no
      confirmation pending. */
  lemma StopEndsEverything(c: Core, now: int)
    ensures var d := StopAll(c, now);
            && d.sessions.Keys == c.sessions.Keys && (forall s | s in d.sessions :: !d.sessions[s].open)
            && d.leases == map[] && d.table == c.table
            && Withdraws(c, d, c.confirmations.Keys)
            && (forall k | InTable(c, k) :: k in d.heap && ToldToStop(c.heap[k], now, d.heap[k]))
  {
    hide Cancel;
    forall op ensures ToldToStop(op, now, Cancel(op, now)) {
      StopTwice(op, now);
    }
  }

  /** Revoking a browser takes exactly the leases bound to it and withdraws exactly its pending confirmations. */
  lemma RevokeEndsTheBrowser(c: Core, browser: string, now: int)
    ensures var d := RevokeBrowser(c, browser, now);
            && d.sessions == c.sessions && d.table == c.table
            && Takes(c, d, (set t | t in c.leases && c.leases[t].browser == browser))
            && Withdraws(c, d, (set i | i in c.confirmations && c.confirmations[i].browser == browser))
  {
    hide Listed, LosesLease, Cancel;
  }

  /** Cancelling an operation by its own session: a running one is named, so that its context is cancelled; one
      that waits for a confirmation is cancelled at once and its pending confirmations are withdrawn; a finished
      one stays. Anybody else is told that there is no such operation. */
  lemma CancelEndsTheOperation(c: Core, s: string, id: string, now: int)
    requires forall i | i in c.table :: c.table[i] in c.heap && c.heap[c.table[i]].id == i
    ensures var (d, r) := CancelOperation(c, s, id, now);
            if id in c.table && c.heap[c.table[id]].session == s then
              var k := c.table[id];
              && (c.heap[k].status == Running ==>
                 d == c && r == Ok(Some(k)) && CancelContext(d, k).heap[k].cancelRequested)
              && (c.heap[k].status == Awaiting ==>
                    && r == Ok(None) && k in d.heap && ToldToStop(c.heap[k], now, d.heap[k])
                    && (forall j | j in c.heap && j != k :: j in d.heap && d.heap[j] == c.heap[j])
                    && Withdraws(c, d, (set i | i in c.confirmations && c.confirmations[i].operation == id &&
                                                c.confirmations[i].session == s)))
              && (c.heap[k].status != Running && c.heap[k].status != Awaiting ==> d == c && r == Ok(None))
            else d == c && r == Refused(RpcError(INVALID_REQUEST, NoEffect))
  {
  }

  // ---------------------------------------------------------------- one tick

  /** An expired lease was this record's. */
  ghost predicate LostItsLease(c: Core, op: Operation, now: int) {
    exists t | t in c.leases :: now > c.leases[t].expiresAt && c.leases[t].session == op.session && t == op.tab
  }

  ghost predicate AskedTooLong(c: Core, id: string, now: int) {
    exists i | i in c.confirmations ::
      c.confirmations[i].status == Pending && now > c.confirmations[i].expiresAt && c.confirmations[i].operation == id
  }

  /** A tick of the janitor takes exactly the leases whose time is over and expires exactly the pending
      confirmations whose time is over. */
  lemma TickTakesWhatIsOver(c: Core, now: int)
    ensures var d := Tick(c, now);
            && d.sessions == c.sessions
            && Takes(c, d, (set t | t in c.leases && now > c.leases[t].expiresAt))
            && d.confirmations.Keys == c.confirmations.Keys
            && forall i | i in c.confirmations ::
                 d.confirmations[i] == if c.confirmations[i].status == Pending && now > c.confirmations[i].expiresAt
                                       then c.confirmations[i].(status := Expired) else c.confirmations[i]
  {
    hide Listed, LosesLease, Cancel, LapsedFor;
  }

  lemma DropIsLoss(c: Core, op: Operation, now: int)
    requires forall t | t in c.leases :: t != "" && c.leases[t].session != ""
    ensures LosesLease(c, ExpiredTabs(c, now), op) <==> LostItsLease(c, op, now)
  {
    if LosesLease(c, ExpiredTabs(c, now), op) {
      var t :| t in ExpiredTabs(c, now) && t in c.leases && Matches(op, c.leases[t].session, t);
      assert t == op.tab;
    }
    if t :| t in c.leases && now > c.leases[t].expiresAt && c.leases[t].session == op.session && t == op.tab {
      assert t in ExpiredTabs(c, now) && Matches(op, c.leases[t].session, t);
    }
  }

  /** And to a listed record: a running one is told to stop if it lost its lease and stays listed; one that waits
      for a confirmation is cancelled if it lost its lease, otherwise dropped after an hour, otherwise failed if
      the confirmation came too late; a finished one is dropped after an hour. */
  lemma TickAndRecords(c: Core, now: int, k: nat)
    requires forall t | t in c.leases :: t != "" && c.leases[t].session != ""
    requires forall i | i in c.table :: c.table[i] in c.heap && c.heap[c.table[i]].id == i
    requires InTable(c, k)
    ensures var d, op := Tick(c, now), c.heap[k];
            var stale := now - op.completedAt > 3_600_000_000_000;
            && k in d.heap
            && (LostItsLease(c, op, now) && (op.status == Running || op.status == Awaiting) ==>
                  InTable(d, k) && ToldToStop(op, now, d.heap[k]))
            && (op.status == Running && !LostItsLease(c, op, now) ==> InTable(d, k) && d.heap[k] == op)
            && (op.status != Running && (op.status == Awaiting ==> !LostItsLease(c, op, now)) && stale ==>
                  op.id !in d.table && d.heap[k] == op)
            && (op.status == Awaiting && !LostItsLease(c, op, now) && !stale ==>
                  && InTable(d, k)
                  && d.heap[k] == if AskedTooLong(c, op.id, now)
                                  then op.(status := Failed, err := Some(RpcError(CONFIRMATION_EXPIRED, NoEffect)),
                                      completedAt := now)
                                  else op)
            && (op.status != Running && op.status != Awaiting && !stale ==> InTable(d, k) && d.heap[k] == op)
  {
    hide LostItsLease, LosesLease;
    var op := c.heap[k];
    DropIsLoss(c, op, now);
    var x := DropLeases(c, ExpiredTabs(c, now), now);
    assert x.heap[k] == if LosesLease(c, ExpiredTabs(c, now), op) then Cancel(op, now) else op;
    var y := Collect(x, now);
    assert op.id in y.table <==> !Collectable(x.heap[k], now);
    assert LapsedFor(y, op.id, now) <==> AskedTooLong(c, op.id, now);
  }
}
