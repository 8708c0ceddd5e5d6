/** What holds of leases and sessions in every run of the manager (internal/core/manager.go). */
module LeaseRuns {
  import opened Options
  import opened Protocol
  import opened ManagerState
  import opened ManagerRuns

  /** Every stored lease is unrevoked, keyed by its own tab, owned by an open session and the
      only one with its id. */
  ghost predicate LeasesGood(c: Core, issued: set<string>) {
    && (forall t | t in c.leases ::
          var l := c.leases[t];
          !l.revoked && l.tab == t && t != "" && l.id in issued && l.session in c.sessions &&
              c.sessions[l.session].open)
    && (forall t, u | t in c.leases && u in c.leases && c.leases[t].id == c.leases[u].id :: t == u)
    && (forall i | i in c.sessions :: i in issued)
  }

  ghost predicate SameHold(a: Lease, b: Lease) {
    a.id == b.id && a.session == b.session && a.tab == b.tab && a.revoked == b.revoked
  }

  ghost predicate NewHold(d: Core, t: string, ids: set<string>)
    requires t in d.leases
  {
    var l := d.leases[t];
    l.id in ids && !l.revoked && l.tab == t && t != "" && l.session in d.sessions && d.sessions[l.session].open
  }

  /** How a step may move leases and sessions: a lease of d was there before or carries a new id,
      no session reopens or disappears, and no kept lease has its session closed. */
  ghost predicate Evolves(c: Core, d: Core, ids: set<string>) {
    && (forall t | t in d.leases :: NewHold(d, t, ids) ||
          (t in c.leases && SameHold(c.leases[t], d.leases[t]) &&
           d.leases[t].session in d.sessions && d.sessions[d.leases[t].session].open))
    && (forall t, u | t in d.leases && u in d.leases && NewHold(d, t, ids) && NewHold(d, u, ids) :: t == u)
    && (forall i | i in c.sessions :: i in d.sessions && (d.sessions[i].open ==> c.sessions[i].open))
    && (forall i | i in d.sessions :: i in c.sessions || i in ids)
  }

  lemma EvolutionKeepsLeases(c: Core, d: Core, issued: set<string>, ids: set<string>)
    requires LeasesGood(c, issued) && ids !! issued && Evolves(c, d, ids)
    ensures LeasesGood(d, issued + ids)
  {
  }

  lemma UnchangedEvolves(c: Core, d: Core, issued: set<string>, ids: set<string>)
    requires LeasesGood(c, issued) && ids !! issued
    requires OnlyShrinks(c, d)
    ensures Evolves(c, d, ids)
  {
  }

  lemma CloseShape(c: Core, s: string, now: int)
    ensures var d := CloseSession(c, s, now);
            if s !in c.sessions || !c.sessions[s].open then d == c
            else
              && d.sessions == c.sessions[s := c.sessions[s].(open := false)]
              && d.leases == c.leases - TabsOf(c, s)
  {
  }

  lemma ClosingEvolves(c: Core, issued: set<string>, s: string, now: int)
    requires LeasesGood(c, issued)
    ensures Evolves(c, CloseSession(c, s, now), {})
  {
    CloseShape(c, s, now);
    UnchangedEvolves(c, c, issued, {});
  }

  lemma StoppingEvolves(c: Core, now: int)
    ensures Evolves(c, StopAll(c, now), {})
  {
  }

  lemma OpeningEvolves(c: Core, issued: set<string>, id: string)
    requires LeasesGood(c, issued) && id !in issued
    ensures Evolves(c, OpenSession(c, id), {id})
  {
  }

  /** One lease is written: the old one with other times or browser, or one with a new id. */
  lemma PutEvolves(c: Core, d: Core, issued: set<string>, ids: set<string>, tab: string, l: Lease)
    requires LeasesGood(c, issued) && ids !! issued
    requires d.sessions == c.sessions && d.leases == c.leases[tab := l]
    requires (tab in c.leases && SameHold(c.leases[tab], l)) || NewHold(d, tab, ids)
    ensures Evolves(c, d, ids)
  {
  }

  lemma ClaimShape(c: Core, s: string, tab: string, ttl: int, force: bool, id: string, leaseTtl: int, now: int)
    ensures var (d, r) := ClaimTab(c, s, tab, ttl, force, id, leaseTtl, now);
            && d.sessions == c.sessions
            && (r.Refused? ==> d == c)
            && (r.Ok? ==>
                  && d.leases == c.leases[tab := r.value] && tab != "" && s in c.sessions && c.sessions[s].open
                  && ((tab in c.leases && SameHold(c.leases[tab], r.value)) ||
                      (r.value.id == id && r.value.session == s && r.value.tab == tab && !r.value.revoked)))
  {
  }

  lemma ClaimEvolves(c: Core, issued: set<string>, s: string, tab: string, ttl: int, force: bool, id: string,
      leaseTtl: int, now: int)
    requires LeasesGood(c, issued) && id !in issued
    ensures Evolves(c, ClaimTab(c, s, tab, ttl, force, id, leaseTtl, now).0, {id})
  {
    ClaimShape(c, s, tab, ttl, force, id, leaseTtl, now);
    var (d, r) := ClaimTab(c, s, tab, ttl, force, id, leaseTtl, now);
    if r.Ok? {
      PutEvolves(c, d, issued, {id}, tab, r.value);
    } else {
      UnchangedEvolves(c, c, issued, {id});
    }
  }

  lemma DecideEvolves(c: Core, issued: set<string>, id: string, decision: Verdict, now: int)
    requires LeasesGood(c, issued)
    ensures Evolves(c, Resolve(c, id, decision, now).0, {})
  {
  }

  /** Leases go, or one is rewritten in place. */
  ghost predicate OnlyShrinks(c: Core, d: Core) {
    && d.sessions == c.sessions && d.leases.Keys <= c.leases.Keys
    && (forall t | t in d.leases :: SameHold(c.leases[t], d.leases[t]))
  }

  lemma RenewShrinks(c: Core, s: string, tab: string, lease: string, ttl: int, leaseTtl: int, now: int)
    ensures OnlyShrinks(c, RenewLease(c, s, tab, lease, ttl, leaseTtl, now).0)
  {
  }

  lemma BindShrinks(c: Core, s: string, tab: string, lease: string, browser: string, now: int)
    ensures OnlyShrinks(c, BindBrowser(c, s, tab, lease, browser, now).0)
  {
  }

  lemma ReleaseShrinks(c: Core, s: string, tab: string, lease: string, now: int)
    ensures OnlyShrinks(c, ValidLease(c, s, tab, lease, true, now).0)
    ensures OnlyShrinks(c, ReleaseTab(c, s, tab, lease, now).0)
  {
  }

  lemma RevokeTabShrinks(c: Core, tab: string, now: int)
    ensures OnlyShrinks(c, RevokeTab(c, tab, now).0)
  {
    hide LosesLease;
  }

  lemma RevokeBrowserShrinks(c: Core, browser: string, now: int)
    ensures OnlyShrinks(c, RevokeBrowser(c, browser, now))
  {
    hide LosesLease;
  }

  lemma TickShrinks(c: Core, now: int)
    ensures OnlyShrinks(c, Tick(c, now))
  {
    hide LosesLease, Listed;
  }

  lemma LeaseStepShrinks(c: Core, serial: nat, st: Step)
    requires st.Renew? || st.Bind? || st.Validate? || st.Release? || st.RevokeOne? || st.RevokeAllIn? || st.Janitor?
    ensures OnlyShrinks(c, After(c, serial, st))
  {
    hide RenewLease, BindBrowser, ValidLease, ReleaseTab, RevokeTab, RevokeBrowser, Tick, OnlyShrinks;
    match st
    case Renew(s, tab, lease, ttl, leaseTtl, now) => RenewShrinks(c, s, tab, lease, ttl, leaseTtl, now);
    case Bind(s, tab, lease, browser, now) => BindShrinks(c, s, tab, lease, browser, now);
    case Validate(s, tab, lease, now) => ReleaseShrinks(c, s, tab, lease, now);
    case Release(s, tab, lease, now) => ReleaseShrinks(c, s, tab, lease, now);
    case RevokeOne(tab, now) => RevokeTabShrinks(c, tab, now);
    case RevokeAllIn(browser, now) => RevokeBrowserShrinks(c, browser, now);
    case Janitor(now) => TickShrinks(c, now);
  }

  lemma OtherStepLeavesLeases(c: Core, serial: nat, st: Step)
    requires st.UseQueue? || st.Enter? || st.Return? || st.Observe? || st.Abandon? || st.CancelOne? || st.CancelLate? ||
             st.Ask? || st.Check? || st.Use?
    ensures After(c, serial, st).leases == c.leases && After(c, serial, st).sessions == c.sessions
  {
    hide ClaimTab, RenewLease, BindBrowser, ValidLease, ReleaseTab, RevokeTab, RevokeBrowser, CloseSession, StopAll,
         EnterOperation, FinishOperation, CancelOperation, CancelContext, CreateConfirmation, Authorize, Consume,
         Resolve, Tick;
  }

  lemma OrdinaryStepEvolves(c: Core, issued: set<string>, serial: nat, st: Step)
    requires LeasesGood(c, issued) && NewIds(st) !! issued
    requires !st.Open? && !st.Close? && !st.Stop? && !st.Claim? && !st.Decide?
    ensures Evolves(c, After(c, serial, st), NewIds(st))
  {
    if st.Renew? || st.Bind? || st.Validate? || st.Release? || st.RevokeOne? || st.RevokeAllIn? || st.Janitor? {
      LeaseStepShrinks(c, serial, st);
    } else {
      OtherStepLeavesLeases(c, serial, st);
    }
    UnchangedEvolves(c, After(c, serial, st), issued, NewIds(st));
  }

  lemma CoreEvolves(c: Core, issued: set<string>, serial: nat, st: Step)
    requires LeasesGood(c, issued) && NewIds(st) !! issued
    ensures Evolves(c, After(c, serial, st), NewIds(st))
  {
    if st.Open? {
      OpeningEvolves(c, issued, st.session);
    } else if st.Close? {
      ClosingEvolves(c, issued, st.session, st.now);
    } else if st.Stop? {
      StoppingEvolves(c, st.now);
    } else if st.Claim? {
      ClaimEvolves(c, issued, st.session, st.tab, st.ttl, st.force, st.id, st.leaseTtl, st.now);
    } else if st.Decide? {
      DecideEvolves(c, issued, st.id, st.decision, st.now);
    } else {
      OrdinaryStepEvolves(c, issued, serial, st);
    }
  }

  lemma StepEvolves(s: System, st: Step)
    requires LeasesGood(s.core, s.issued) && Enabled(s, st)
    ensures Evolves(s.core, Apply(s, st).core, NewIds(st)) && NewIds(st) !! s.issued
    ensures LeasesGood(Apply(s, st).core, Apply(s, st).issued)
  {
    hide After, Evolves, LeasesGood, EnterOperation;
    CoreEvolves(s.core, s.issued, s.nextSerial, st);
    EvolutionKeepsLeases(s.core, After(s.core, s.nextSerial, st), s.issued, NewIds(st));
  }

  ghost predicate Holds(c: Core, lease: string) {
    exists t :: t in c.leases && c.leases[t].id == lease
  }

  /** Over any continuation: the invariant, no session comes back to life, and a lease id that was
      handed out and is not in the table now never is again. */
  lemma {:induction false} RunKeepsLeases(s: System, steps: seq<Step>, t: System)
    requires LeasesGood(s.core, s.issued) && IsRun(s, steps, t)
    ensures LeasesGood(t.core, t.issued) && s.issued <= t.issued
    ensures forall i | i in s.core.sessions && !s.core.sessions[i].open ::
            i in t.core.sessions && !t.core.sessions[i].open
    ensures forall id | id in s.issued && !Holds(s.core, id) :: !Holds(t.core, id)
    decreases |steps|
  {
    if steps != [] {
      var u := Apply(s, steps[0]);
      StepEvolves(s, steps[0]);
      forall id | id in s.issued && !Holds(s.core, id) ensures id in u.issued && !Holds(u.core, id) {
        forall tab | tab in u.core.leases ensures u.core.leases[tab].id != id {
        }
      }
      RunKeepsLeases(u, steps[1..], t);
    }
  }

  /** A lease that left the table never passes validation again, whoever presents it. */
  lemma RemovedLeaseStaysInvalid(s: System, steps: seq<Step>, t: System, lease: string)
    requires Reachable(s) && IsRun(s, steps, t)
    requires lease in s.issued && !Holds(s.core, lease)
    ensures forall session, tab, open, now :: ValidLease(t.core, session, tab, lease, open, now).1.Refused?
  {
    var prefix :| IsRun(INITIAL, prefix, s);
    RunKeepsLeases(INITIAL, prefix, s);
    RunKeepsLeases(s, steps, t);
  }

  /** validLeaseLocked never answers LEASE_REVOKED. */
  lemma RevokedBranchIsDead(s: System, session: string, tab: string, lease: string, open: bool, now: int)
    requires Reachable(s)
    ensures ValidLease(s.core, session, tab, lease, open, now).1 != Refuse(LEASE_REVOKED)
  {
    var prefix :| IsRun(INITIAL, prefix, s);
    RunKeepsLeases(INITIAL, prefix, s);
  }

  // ---------------------------------------------------------------- what a claim gives

  /** A lease is meant to last no longer than the manager's own time to live. The floor of one second
      breaks that exactly for a sub-second request on a manager with a shorter time to live. */
  lemma LifetimeIsCapped(ttl: int, leaseTtl: int)
    requires leaseTtl > 0
    ensures EffectiveTtl(ttl, leaseTtl) > 0
    ensures EffectiveTtl(ttl, leaseTtl) <= leaseTtl <==> !(0 < ttl < SECOND && leaseTtl < SECOND)
  {
  }

  /** 500 ms asked of a manager with 200 ms leases gives a full second. */
  lemma FloorExceedsTheCap()
    ensures EffectiveTtl(SECOND / 2, SECOND / 5) == SECOND > SECOND / 5
  {
  }

  /** Somebody else's live lease on the tab. */
  predicate HeldByOther(c: Core, s: string, tab: string, now: int) {
    tab in c.leases && c.leases[tab].expiresAt > now && !c.leases[tab].revoked && c.leases[tab].session != s
  }

  /** A claim is granted exactly to an open session for a named tab that nobody else holds, or by
      force; and a granted lease passes validation from then on, up to its expiry and not beyond, and
      no other id passes for that tab. */
  lemma ClaimThenValidate(c: Core, s: string, tab: string, ttl: int, force: bool, id: string, leaseTtl: int, now: int,
                          later: int, other: string)
    requires leaseTtl > 0
    ensures var (d, r) := ClaimTab(c, s, tab, ttl, force, id, leaseTtl, now);
            && (r.Ok? <==> tab != "" && SessionError(c, s) == None && (force || !HeldByOther(c, s, tab, now)))
            && (r.Refused? ==> d == c)
            && (r.Ok? ==>
                  && now < r.value.expiresAt && tab in d.leases && d.leases[tab] == r.value
                  && (ValidLease(d, s, tab, r.value.id, true, later).1 == Ok(r.value) <==> later < r.value.expiresAt)
                  && (other != r.value.id ==> ValidLease(d, s, tab, other, true, later).1.Refused?))
  {
  }
}
