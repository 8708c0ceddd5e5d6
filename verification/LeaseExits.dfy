/** What every way of losing a lease does to the work under it (internal/core/manager.go). */
module LeaseExits {
  import opened Options
  import opened Protocol
  import opened ManagerState
  import opened ManagerRuns
  import opened LeaseRuns

  ghost predicate Exits(c: Core, d: Core, tab: string) {
    tab in c.leases && (tab !in d.leases || d.leases[tab].id != c.leases[tab].id)
  }

  /** Everything done under the tab's lease in c has been told to stop in d. */
  ghost predicate WorkCancelled(c: Core, d: Core, tab: string)
    requires tab in c.leases
  {
    && (forall k | Listed(c, k) && c.heap[k].session == c.leases[tab].session && c.heap[k].tab == tab ::
          && k in d.heap
          && (c.heap[k].status == Running ==> d.heap[k].cancelRequested)
          && (c.heap[k].status == Awaiting ==> d.heap[k].status == Cancelled))
    && (tab in c.queues ==> tab in d.queues && d.queues[tab] == c.queues[tab] + 1)
  }

  /** The leases of the tabs in `gone`, and only those, leave between c and d. */
  ghost predicate DroppedExactly(c: Core, d: Core, gone: set<string>, ids: set<string>) {
    && (forall t | t in c.leases && t !in gone :: t in d.leases && d.leases[t].id == c.leases[t].id)
    && (forall t | t in gone :: t in c.leases && WorkCancelled(c, d, t))
    && (forall t | t in gone && t in d.leases :: d.leases[t].id in ids)
    && (forall t | t in c.queues && t !in gone :: t in d.queues && d.queues[t] == c.queues[t])
  }

  /** What the rest of a critical section may do once the leases are dropped. */
  ghost predicate LeavesCancelled(x: Core, d: Core) {
    && d.queues == x.queues
    && (forall k | k in x.heap ::
          && k in d.heap
          && (x.heap[k].cancelRequested ==> d.heap[k].cancelRequested)
          && (x.heap[k].status == Cancelled ==> d.heap[k].status == Cancelled))
  }

  lemma DropThen(c: Core, gone: set<string>, now: int, d: Core, ids: set<string>)
    requires gone <= c.leases.Keys && LeavesCancelled(DropLeases(c, gone, now), d)
    requires forall t | t in c.leases && t !in gone :: t in d.leases && d.leases[t].id == c.leases[t].id
    requires forall t | t in gone && t in d.leases :: d.leases[t].id in ids
    ensures DroppedExactly(c, d, gone, ids)
  {
  }

  lemma CloseDrops(c: Core, s: string, now: int) returns (gone: set<string>)
    ensures DroppedExactly(c, CloseSession(c, s, now), gone, {})
  {
    gone := {};
    if s in c.sessions && c.sessions[s].open {
      gone := TabsOf(c, s);
      hide DroppedExactly, CloseSession;
      var closed := c.(sessions := c.sessions[s := c.sessions[s].(open := false)]);
      var d := CloseSession(c, s, now);
      CloseLeavesCancelled(c, s, now);
      DropThen(closed, gone, now, d, {});
      SameWork(c, closed, d, gone, {});
    }
  }

  lemma CloseLeavesCancelled(c: Core, s: string, now: int)
    requires s in c.sessions && c.sessions[s].open
    ensures var closed := c.(sessions := c.sessions[s := c.sessions[s].(open := false)]);
            && LeavesCancelled(DropLeases(closed, TabsOf(c, s), now), CloseSession(c, s, now))
            && CloseSession(c, s, now).leases == c.leases - TabsOf(c, s)
  {
    hide LosesLease, Listed, Matches, Settle;
  }

  lemma SameWork(c: Core, b: Core, d: Core, gone: set<string>, ids: set<string>)
    requires b.leases == c.leases && b.heap == c.heap && b.table == c.table && b.queues == c.queues
    requires DroppedExactly(b, d, gone, ids)
    ensures DroppedExactly(c, d, gone, ids)
  {
  }

  lemma StopDrops(c: Core, now: int)
    ensures DroppedExactly(c, StopAll(c, now), c.leases.Keys, {})
  {
  }

  lemma ClaimDrops(c: Core, s: string, tab: string, ttl: int, force: bool, id: string, leaseTtl: int, now: int)
    returns (gone: set<string>)
    ensures DroppedExactly(c, ClaimTab(c, s, tab, ttl, force, id, leaseTtl, now).0, gone, {id})
  {
    gone := {};
    var (d, r) := ClaimTab(c, s, tab, ttl, force, id, leaseTtl, now);
    if r.Ok? && tab in c.leases {
      var live := c.leases[tab].expiresAt > now && !c.leases[tab].revoked;
      if !(live && c.leases[tab].session == s) {
        gone := {tab};
        assert d == PutLease(DropLeases(c, {tab}, now), r.value);
        assert r.value.tab == tab && r.value.id == id;
        DropThen(c, gone, now, d, {id});
      }
    }
  }

  lemma ValidDrops(c: Core, s: string, tab: string, lease: string, open: bool, now: int) returns (gone: set<string>)
    ensures var (d, r) := ValidLease(c, s, tab, lease, open, now);
            && DroppedExactly(c, d, gone, {})
            && (r.Ok? ==> d == c && tab in c.leases && r.value == c.leases[tab])
  {
    gone := {};
    if !(open && SessionError(c, s).Some?) && tab in c.leases && c.leases[tab].expiresAt <= now {
      gone := {tab};
      DropThen(c, gone, now, DropLeases(c, gone, now), {});
    }
  }

  lemma RenewDrops(c: Core, s: string, tab: string, lease: string, ttl: int, leaseTtl: int, now: int)
    returns (gone: set<string>)
    ensures DroppedExactly(c, RenewLease(c, s, tab, lease, ttl, leaseTtl, now).0, gone, {})
  {
    gone := ValidDrops(c, s, tab, lease, true, now);
    if ValidLease(c, s, tab, lease, true, now).1.Ok? {
      gone := {};
    }
  }

  lemma BindDrops(c: Core, s: string, tab: string, lease: string, browser: string, now: int) returns (gone: set<string>)
    ensures DroppedExactly(c, BindBrowser(c, s, tab, lease, browser, now).0, gone, {})
  {
    gone := {};
    if browser != "" {
      gone := ValidDrops(c, s, tab, lease, true, now);
      if ValidLease(c, s, tab, lease, true, now).1.Ok? {
        gone := {};
      }
    }
  }

  lemma ReleaseDrops(c: Core, s: string, tab: string, lease: string, now: int) returns (gone: set<string>)
    ensures DroppedExactly(c, ReleaseTab(c, s, tab, lease, now).0, gone, {})
  {
    gone := ValidDrops(c, s, tab, lease, false, now);
    if ValidLease(c, s, tab, lease, false, now).1.Ok? {
      gone := {tab};
      DropThen(c, gone, now, DropLeases(c, gone, now), {});
    }
  }

  lemma RevokeDrops(c: Core, tab: string, now: int) returns (gone: set<string>)
    ensures DroppedExactly(c, RevokeTab(c, tab, now).0, gone, {})
  {
    gone := {};
    if tab in c.leases {
      gone := {tab};
      DropThen(c, gone, now, DropLeases(c, gone, now), {});
    }
  }

  lemma BrowserDrops(c: Core, browser: string, now: int)
    ensures DroppedExactly(c, RevokeBrowser(c, browser, now), TabsIn(c, browser), {})
  {
  }

  lemma TickDrops(c: Core, now: int)
    ensures DroppedExactly(c, Tick(c, now), ExpiredTabs(c, now), {})
  {
    hide WorkCancelled;
    TickLeavesCancelled(c, now);
    DropThen(c, ExpiredTabs(c, now), now, Tick(c, now), {});
  }

  lemma TickLeavesCancelled(c: Core, now: int)
    ensures LeavesCancelled(DropLeases(c, ExpiredTabs(c, now), now), Tick(c, now))
    ensures Tick(c, now).leases == DropLeases(c, ExpiredTabs(c, now), now).leases
  {
    hide DropLeases, LapsedFor;
  }

  lemma OtherStepLeavesQueues(c: Core, serial: nat, st: Step)
    requires st.UseQueue? || st.Enter? || st.Return? || st.Observe? || st.Abandon? || st.CancelOne? || st.CancelLate? ||
             st.Ask? || st.Check? || st.Use?
    ensures forall t | t in c.queues ::
            t in After(c, serial, st).queues && After(c, serial, st).queues[t] == c.queues[t]
  {
    hide ClaimTab, RenewLease, BindBrowser, ValidLease, ReleaseTab, RevokeTab, RevokeBrowser, CloseSession, StopAll,
         EnterOperation, FinishOperation, CancelOperation, CancelContext, CreateConfirmation, Authorize, Consume,
         Resolve, Tick;
  }

  lemma OtherDropsNothing(c: Core, serial: nat, st: Step)
    requires st.Open? || st.UseQueue? || st.Enter? || st.Return? || st.Observe? || st.Abandon? || st.CancelOne? ||
             st.CancelLate? || st.Ask? || st.Check? || st.Use? || st.Decide?
    ensures DroppedExactly(c, After(c, serial, st), {}, NewIds(st))
  {
    match st
    case Open(_) =>
    case Decide(_, _, _) =>
    case _ =>
      OtherStepLeavesLeases(c, serial, st);
      OtherStepLeavesQueues(c, serial, st);
  }

  lemma StepDrops(c: Core, serial: nat, st: Step) returns (gone: set<string>)
    ensures DroppedExactly(c, After(c, serial, st), gone, NewIds(st))
  {
    hide DroppedExactly, CloseSession, StopAll, ClaimTab, ReleaseTab, RevokeTab, RevokeBrowser, Tick,
         RenewLease, BindBrowser, ValidLease, TabsIn, ExpiredTabs;
    match st
    case Close(s, now) => gone := CloseDrops(c, s, now);
    case Stop(now) => gone := c.leases.Keys; StopDrops(c, now);
    case Claim(s, tab, ttl, force, id, leaseTtl, now) => gone := ClaimDrops(c, s, tab, ttl, force, id, leaseTtl, now);
    case Release(s, tab, lease, now) => gone := ReleaseDrops(c, s, tab, lease, now);
    case RevokeOne(tab, now) => gone := RevokeDrops(c, tab, now);
    case RevokeAllIn(browser, now) => gone := TabsIn(c, browser); BrowserDrops(c, browser, now);
    case Janitor(now) => gone := ExpiredTabs(c, now); TickDrops(c, now);
    case Renew(s, tab, lease, ttl, leaseTtl, now) => gone := RenewDrops(c, s, tab, lease, ttl, leaseTtl, now);
    case Bind(s, tab, lease, browser, now) => gone := BindDrops(c, s, tab, lease, browser, now);
    case Validate(s, tab, lease, now) => gone := ValidDrops(c, s, tab, lease, true, now);
    case _ =>
      gone := {};
      OtherDropsNothing(c, serial, st);
  }

  lemma ApplyMovesCore(s: System, st: Step)
    requires Enabled(s, st)
    ensures Apply(s, st).core == After(s.core, s.nextSerial, st)
  {
    hide After, EnterOperation;
  }

  lemma NewIdsAreNew(s: System, st: Step)
    requires Enabled(s, st)
    ensures NewIds(st) !! s.issued
  {
  }

  /** Every way a lease leaves the table, in one statement: takeover, replacement, lazy and periodic
      expiry, release, the two revocations, session close and emergency stop all cancel, in the same
      critical section, the operations run under that lease and advance the tab's queue; and a queue
      is advanced by nothing else. */
  lemma LeaseExitCancelsWork(s: System, st: Step)
    requires LeasesGood(s.core, s.issued) && Enabled(s, st)
    ensures forall tab | Exits(s.core, Apply(s, st).core, tab) :: WorkCancelled(s.core, Apply(s, st).core, tab)
    ensures forall tab | tab in s.core.queues && !Exits(s.core, Apply(s, st).core, tab) ::
              tab in Apply(s, st).core.queues && Apply(s, st).core.queues[tab] == s.core.queues[tab]
  {
    ApplyMovesCore(s, st);
    NewIdsAreNew(s, st);
    hide After, Apply, Enabled, NewIds, WorkCancelled;
    var gone := StepDrops(s.core, s.nextSerial, st);
    var d := After(s.core, s.nextSerial, st);
    assert forall tab :: Exits(s.core, d, tab) <==> tab in gone;
  }
}
