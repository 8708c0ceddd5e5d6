/**
 What leases promise their holders (internal/core/manager.go), in terms of the state and of one call
 after another.
 */
module LeaseLaws {
  import opened Options
  import opened Protocol
  import opened ManagerState

  ghost predicate OpenNow(c: Core, s: string) {
    s in c.sessions && c.sessions[s].open
  }

  /** The tab's lease is live, and is this session's under this id. */
  ghost predicate HoldsLease(c: Core, s: string, tab: string, lease: string, now: int) {
    && tab in c.leases && c.leases[tab].expiresAt > now && !c.leases[tab].revoked
    && c.leases[tab].session == s && c.leases[tab].id == lease
  }

  /** How long a lease lasts: the manager's own time unless a positive one was asked for, of that at least a
      second, and no more than the manager's own beyond a second. */
  predicate LastsUntil(ttl: int, leaseTtl: int, now: int, until: int) {
    && (ttl <= 0 ==> until == now + leaseTtl)
    && (0 < ttl < 1_000_000_000 ==> until == now + 1_000_000_000)
    && (1_000_000_000 <= ttl <= leaseTtl ==> until == now + ttl)
    && (1_000_000_000 <= ttl && leaseTtl < ttl ==> until == now + leaseTtl)
  }

  /** Validation accepts exactly the holder of a live lease, from an open session where one is needed, and
      hands out the stored lease; it changes the state only by taking out an expired one. */
  lemma ValidationIsExact(c: Core, s: string, tab: string, lease: string, requireOpen: bool, now: int)
    ensures var (d, r) := ValidLease(c, s, tab, lease, requireOpen, now);
            && (r.Ok? <==> (requireOpen ==> OpenNow(c, s)) && HoldsLease(c, s, tab, lease, now))
            && (r.Ok? ==> d == c && r.value == c.leases[tab])
            && (requireOpen && s !in c.sessions ==> r == Refused(RpcError(SESSION_NOT_FOUND, NoEffect)) && d == c)
            && (requireOpen && s in c.sessions && !c.sessions[s].open ==>
                  r == Refused(RpcError(SESSION_CLOSED, NoEffect)) && d == c)
            && ((requireOpen ==> OpenNow(c, s)) ==>
                  && (tab !in c.leases ==> r == Refused(RpcError(LEASE_REQUIRED, NoEffect)) && d == c)
                  && (tab in c.leases && c.leases[tab].expiresAt <= now ==>
                        r == Refused(RpcError(LEASE_EXPIRED, NoEffect)) && d.leases == c.leases - {tab})
                  && (tab in c.leases && c.leases[tab].expiresAt > now && !c.leases[tab].revoked && r.Refused? ==>
                        r == Refused(RpcError(LEASE_CONFLICT, NoEffect)) && d == c))
  {
  }

  /** A lease put into the table for an open session validates exactly until it expires. */
  lemma StoredLeaseValidates(d: Core, l: Lease, later: int)
    requires OpenNow(d, l.session) && l.tab in d.leases && d.leases[l.tab] == l && !l.revoked
    ensures ValidLease(d, l.session, l.tab, l.id, true, later).1 == Ok(l) <==> later < l.expiresAt
  {
    ValidationIsExact(d, l.session, l.tab, l.id, true, later);
  }

  /** A granted claim is the session's lease on the tab, lasts as long as it should, keeps its id, browser and
      creation time when it renews the session's own live lease and is new otherwise, and touches no other
      tab; a refusal says why. */
  lemma ClaimGivesALease(c: Core, s: string, tab: string, ttl: int, force: bool, id: string, leaseTtl: int, now: int)
    requires forall t | t in c.leases :: c.leases[t].tab == t
    ensures var (d, r) := ClaimTab(c, s, tab, ttl, force, id, leaseTtl, now);
            var own := tab in c.leases && c.leases[tab].expiresAt > now && !c.leases[tab].revoked &&
                c.leases[tab].session == s;
            && (r.Ok? ==>
                  && r.value.session == s && r.value.tab == tab && !r.value.revoked && r.value.renewedAt == now
                  && LastsUntil(ttl, leaseTtl, now, r.value.expiresAt)
                  && d.leases == c.leases[tab := r.value] && d.sessions == c.sessions
                  && (own ==> r.value.id == c.leases[tab].id && r.value.browser == c.leases[tab].browser &&
                              r.value.createdAt == c.leases[tab].createdAt)
                  && (!own ==> r.value.id == id && r.value.browser == "" && r.value.createdAt == now))
            && (tab == "" ==> r == Refused(RpcError(INVALID_REQUEST, NoEffect)))
            && (tab != "" && s !in c.sessions ==> r == Refused(RpcError(SESSION_NOT_FOUND, NoEffect)))
            && (tab != "" && s in c.sessions && !c.sessions[s].open ==>
               r == Refused(RpcError(SESSION_CLOSED, NoEffect)))
            && (tab != "" && OpenNow(c, s) && r.Refused? ==> r == Refused(RpcError(LEASE_CONFLICT, NoEffect)))
  {
    if tab in c.leases {
      assert (c.leases - {tab})[tab := c.leases[tab]] == c.leases;
    }
  }

  /** Renewing succeeds exactly when validation does; the lease keeps everything but its times, lasts as long
      as it should from now, and then validates exactly until that time. */
  lemma RenewThenValidate(c: Core, s: string, tab: string, lease: string, ttl: int, leaseTtl: int, now: int, later: int)
    requires forall t | t in c.leases :: c.leases[t].tab == t
    ensures var (d, r) := RenewLease(c, s, tab, lease, ttl, leaseTtl, now);
            && (r.Ok? <==> OpenNow(c, s) && HoldsLease(c, s, tab, lease, now))
            && (r.Refused? ==> (d, r) == ValidLease(c, s, tab, lease, true, now))
            && (r.Ok? ==>
                  && r.value == c.leases[tab].(renewedAt := now, expiresAt := r.value.expiresAt)
                  && LastsUntil(ttl, leaseTtl, now, r.value.expiresAt)
                  && d == c.(leases := c.leases[tab := r.value])
                  && (ValidLease(d, s, tab, lease, true, later).1 == Ok(r.value) <==> later < r.value.expiresAt))
  {
    ValidationIsExact(c, s, tab, lease, true, now);
    var (d, r) := RenewLease(c, s, tab, lease, ttl, leaseTtl, now);
    if r.Ok? {
      hide ValidLease;
      StoredLeaseValidates(d, r.value, later);
    }
  }

  /** Binding succeeds exactly when validation does, a browser is named and the lease is not bound to another
      one. Then the lease keeps everything else, still validates, and another browser is turned away. */
  lemma BindThenBindOther(c: Core, s: string, tab: string, lease: string, browser: string, now: int, later: int,
      other: string)
    requires forall t | t in c.leases :: c.leases[t].tab == t
    ensures var (d, r) := BindBrowser(c, s, tab, lease, browser, now);
            && (r.Ok? <==> browser != "" && OpenNow(c, s) && HoldsLease(c, s, tab, lease, now) &&
                           (c.leases[tab].browser == "" || c.leases[tab].browser == browser))
            && (browser == "" ==> r == Refused(RpcError(INVALID_REQUEST, NoEffect)) && d == c)
            && (browser != "" && OpenNow(c, s) && HoldsLease(c, s, tab, lease, now) && r.Refused? ==>
                  r == Refused(RpcError(LEASE_CONFLICT, NoEffect)) && d == c)
            && (r.Ok? ==>
                  && r.value == c.leases[tab].(browser := browser) && d == c.(leases := c.leases[tab := r.value])
                  && (ValidLease(d, s, tab, lease, true, later).1 == Ok(r.value) <==> later < r.value.expiresAt)
                  && (later < r.value.expiresAt && other != "" && other != browser ==>
                        BindBrowser(d, s, tab, lease, other, later).1 == Refused(RpcError(LEASE_CONFLICT, NoEffect))))
  {
    ValidationIsExact(c, s, tab, lease, true, now);
    var (d, r) := BindBrowser(c, s, tab, lease, browser, now);
    if r.Ok? {
      StoredLeaseValidates(d, r.value, later);
      hide ValidLease;
    }
  }

  /** Releasing needs the lease but not an open session; afterwards nobody holds the tab, and whoever has an
      open session may claim it. */
  lemma ReleaseThenClaim(c: Core, s: string, tab: string, lease: string, now: int, other: string, ttl: int, id: string,
                         leaseTtl: int, later: int)
    ensures var (d, r) := ReleaseTab(c, s, tab, lease, now);
            && (r.Ok? <==> HoldsLease(c, s, tab, lease, now))
            && (r.Ok? ==> r.value == c.leases[tab] && d.leases == c.leases - {tab} && d.sessions == c.sessions)
            && (r.Refused? ==> (d, r) == ValidLease(c, s, tab, lease, false, now))
            && (r.Ok? && tab != "" && OpenNow(c, other) ==>
               ClaimTab(d, other, tab, ttl, false, id, leaseTtl, later).1.Ok?)
  {
    ValidationIsExact(c, s, tab, lease, false, now);
  }

  /** Revoking takes any lease the tab has, and says so. */
  lemma RevokeTakesTheLease(c: Core, tab: string, now: int)
    ensures var (d, r) := RevokeTab(c, tab, now);
            && (tab in c.leases ==> r == Ok(c.leases[tab].(revoked := true)))
            && (tab !in c.leases ==> r == Refused(RpcError(LEASE_REQUIRED, NoEffect)))
            && d.leases == c.leases - {tab} && d.sessions == c.sessions && d.confirmations == c.confirmations
  {
  }
}
