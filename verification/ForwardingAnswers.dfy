/**
 What a forwarded call answers, over whole runs (internal/server/server.go): the bridge's own reply, the
 preflight's own error or the queue's refusal, with the effect marked where it has to be.
 */
module ForwardingAnswers {
  import opened Options
  import opened Protocol
  import opened ManagerState
  import M = ManagerRuns
  import Q = TabQueueRuns
  import Outcomes = OutcomeRuns
  import opened Forwarding
  import opened ForwardingRuns

  // ---------------------------------------------------------------- the request is kept

  /** A call keeps the method, operation, session and tab it came with. */
  lemma RequestStays(s: System, st: Step, c: nat)
    requires Enabled(s, st) && c in s.jobs
    ensures c in Apply(s, st).jobs
    ensures var j, i := s.jobs[c], Apply(s, st).jobs[c];
            i.name == j.name && i.operation == j.operation && i.session == j.session && i.tab == j.tab
  {
    hide M.Apply, Q.Apply, M.Enabled, Q.Enabled, Mutating, NeedsPreflight, AcceptedId, Account, RevokeAdvanced;
  }

  lemma {:induction false} RequestRemains(s: System, steps: seq<Step>, t: System, c: nat)
    requires IsRun(s, steps, t) && c in s.jobs
    ensures c in t.jobs
    ensures var j, i := s.jobs[c], t.jobs[c];
            i.name == j.name && i.operation == j.operation && i.session == j.session && i.tab == j.tab
    decreases |steps|
  {
    hide Apply, Enabled;
    if steps != [] {
      RequestStays(s, steps[0], c);
      RequestRemains(Apply(s, steps[0]), steps[1..], t, c);
    }
  }

  lemma RequestIsTaken(s: System, st: Step)
    requires Enabled(s, st) && (st.Enter? || st.Plain?) && st.c in Apply(s, st).jobs
    ensures var j := Apply(s, st).jobs[st.c];
            && j.name == st.name && j.tab == st.tab
            && j.operation == (if st.Enter? then st.id else "") && (st.Enter? ==> j.session == st.session)
  {
    hide M.Apply, M.Enabled, Mutating, AcceptedId;
  }

  /** Over any continuation a call that was let in carries the method, operation, session and tab of its request. */
  lemma RequestIsKept(s: System, st: Step, steps: seq<Step>, t: System)
    requires Enabled(s, st) && (st.Enter? || st.Plain?) && st.c in Apply(s, st).jobs && IsRun(Apply(s, st), steps, t)
    ensures st.c in t.jobs
    ensures var j := t.jobs[st.c];
            && j.name == st.name && j.tab == st.tab
            && j.operation == (if st.Enter? then st.id else "") && (st.Enter? ==> j.session == st.session)
  {
    hide Apply, Enabled;
    RequestIsTaken(s, st);
    RequestRemains(Apply(s, st), steps, t, st.c);
  }

  /** A method that changes the page runs only under an operation id that begins with op_. */
  lemma MutatingCallsCarryIds(s: System, c: nat)
    requires Reachable(s) && c in s.jobs
    requires s.jobs[c].name in {
      "tab.open", "tab.activate", "tab.close", "tab.navigate", "tab.back", "tab.forward", "tab.reload",
      "action.perform", "dialog.respond", "clipboard.write", "fileChooser.setFiles", "content.export",
      "pageAssets.export", "secureInput.request", "unsafe.evaluate", "unsafe.cdp.send" }
    ensures "op_" <= s.jobs[c].operation && |s.jobs[c].operation| <= 160
  {
    hide Enabled, Apply, GoodPlace, Bound, Elsewhere, Flags, Account, NeedsPreflight;
    ReachableInv(s);
    assert JobGood(s, c);
  }

  /** A new request whose operation the manager lets enter is let in exactly if it has an operation id and, where
      the method changes the page, one that begins with op_ and is not too long. */
  lemma RequestIsLetIn(s: System, c: nat, session: string, tab: string, id: string, fingerprint: string, name: string)
    requires c !in s.jobs && M.Enabled(s.manager, M.Enter(c, session, tab, id, fingerprint))
    ensures Enabled(s, Enter(c, session, tab, id, fingerprint, name)) <==>
              id != "" &&
              (name in {
                 "tab.open", "tab.activate", "tab.close", "tab.navigate", "tab.back", "tab.forward", "tab.reload",
                 "action.perform", "dialog.respond", "clipboard.write", "fileChooser.setFiles", "content.export",
                 "pageAssets.export", "secureInput.request", "unsafe.evaluate", "unsafe.cdp.send" } ==>
                 |id| <= 160 && |id| >= 3 && id[0] == 'o' && id[1] == 'p' && id[2] == '_')
  {
    hide M.Enabled;
  }

  // ---------------------------------------------------------------- the outcome is kept

  ghost predicate EndsAs(s: System, c: nat, stop: Stop, raw: Outcome) {
    && c in s.jobs && (s.jobs[c].phase.Left? || s.jobs[c].phase.Told?)
    && s.jobs[c].phase.stop == stop && s.jobs[c].phase.raw == raw
  }

  /** Once RunTab's result is known no step changes it. */
  lemma EndStays(s: System, st: Step, c: nat, stop: Stop, raw: Outcome)
    requires Enabled(s, st) && JobGood(s, c) && EndsAs(s, c, stop, raw)
    ensures EndsAs(Apply(s, st), c, stop, raw)
  {
    hide M.Apply, Q.Apply, M.Enabled, Q.Enabled, Mutating, NeedsPreflight, AcceptedId, Account, RevokeAdvanced, Bound,
         Flags, Reasons, Elsewhere;
    if st.Line? && Mover(st.move) == Some(c) {
      OwnPlace(s.queues[st.tab], st.move, c);
    }
  }

  lemma {:induction false} EndRemains(s: System, steps: seq<Step>, t: System, c: nat, stop: Stop, raw: Outcome)
    requires Inv(s) && IsRun(s, steps, t) && EndsAs(s, c, stop, raw)
    ensures EndsAs(t, c, stop, raw)
    decreases |steps|
  {
    hide Apply, Enabled, EndsAs, JobGood, Layers, Counted;
    if steps != [] {
      EndStays(s, steps[0], c, stop, raw);
      StepKeepsInv(s, steps[0]);
      EndRemains(Apply(s, steps[0]), steps[1..], t, c, stop, raw);
    }
  }

  /** What the bridge's reply and a failed preflight leave behind. */
  lemma ReplyEnds(s: System, c: nat, raw: Outcome)
    requires Enabled(s, Reply(c, raw))
    ensures EndsAs(Apply(s, Reply(c, raw)), c, ByBridge, raw)
  {
    hide Q.Apply, Q.Enabled, M.Enabled;
  }

  lemma GateEnds(s: System, c: nat, e: RpcError)
    requires Enabled(s, Gate(c, Some(e)))
    ensures EndsAs(Apply(s, Gate(c, Some(e))), c, ByGate, Outcome("", Some(e)))
  {
    hide Q.Apply, Q.Enabled, M.Enabled, NeedsPreflight;
  }

  /** The final answer of a call with a known result. */
  lemma ToldAnswer(s: System, c: nat, stop: Stop, raw: Outcome)
    requires Inv(s) && EndsAs(s, c, stop, raw) && s.jobs[c].phase.Told?
    ensures var answer := s.jobs[c].phase.answer;
            && answer.result == raw.result && (answer.err.Some? <==> raw.err.Some?)
            && (raw.err.Some? ==>
                  answer.err.value == raw.err.value.(
                    effect := if stop == ByBridge && Mutating(s.jobs[c].name) &&
                                 raw.err.value.kind in {TIMEOUT, CANCELLED, EXTENSION_DISCONNECTED, CHROME_DISCONNECTED}
                              then Possible else raw.err.value.effect))
  {
    hide Enabled, Apply, GoodPlace, Bound, Elsewhere, Mutating, NeedsPreflight, Layers, Counted;
    assert JobGood(s, c);
    assert Mutating(s.jobs[c].name) ==> s.jobs[c].operation != "";
  }

  /** What a call has to answer to a bridge's reply: the reply, with the effect of its error set to possible
      when the method changes the page and the error does not tell whether it did. */
  predicate Reported(name: string, raw: Outcome, answer: Outcome) {
    && answer.result == raw.result && (answer.err.Some? <==> raw.err.Some?)
    && (raw.err.Some? ==>
          answer.err.value == raw.err.value.(
            effect := if name in {
                           "tab.open", "tab.activate", "tab.close", "tab.navigate", "tab.back", "tab.forward",
                           "tab.reload", "action.perform", "dialog.respond", "clipboard.write",
                           "fileChooser.setFiles", "content.export", "pageAssets.export",
                           "secureInput.request", "unsafe.evaluate", "unsafe.cdp.send" } &&
                         raw.err.value.kind in {TIMEOUT, CANCELLED, EXTENSION_DISCONNECTED, CHROME_DISCONNECTED}
                      then Possible else raw.err.value.effect))
  }

  lemma {:induction false} ReplyLasts(s: System, steps: seq<Step>, t: System, i: nat)
    requires Inv(s) && IsRun(s, steps, t) && i < |steps| && steps[i].Reply?
    ensures var c := steps[i].c;
            c in t.jobs && (t.jobs[c].phase.Told? ==> Reported(t.jobs[c].name, steps[i].raw, t.jobs[c].phase.answer))
    decreases |steps|
  {
    hide Apply, Enabled, Inv, EndsAs;
    var u, c := Apply(s, steps[0]), steps[i].c;
    StepKeepsInv(s, steps[0]);
    if i > 0 {
      ReplyLasts(u, steps[1..], t, i - 1);
    } else {
      ReplyEnds(s, c, steps[0].raw);
      EndRemains(u, steps[1..], t, c, ByBridge, steps[0].raw);
      RunKeepsInv(u, steps[1..], t);
      EndedIsThere(t, c, ByBridge, steps[0].raw);
      if t.jobs[c].phase.Told? {
        ToldAnswer(t, c, ByBridge, steps[0].raw);
      }
    }
  }

  lemma EndedIsThere(s: System, c: nat, stop: Stop, raw: Outcome)
    requires EndsAs(s, c, stop, raw)
    ensures c in s.jobs && s.jobs[c].phase != Outside
  {
  }

  /** Over any run from the beginning: a call answers exactly what the bridge replied to it, with the effect
      marked where it has to be. */
  lemma BridgeReplyIsAnswered(steps: seq<Step>, t: System, i: nat)
    requires IsRun(INITIAL, steps, t) && i < |steps| && steps[i].Reply?
    ensures var c := steps[i].c;
            c in t.jobs && (t.jobs[c].phase.Told? ==> Reported(t.jobs[c].name, steps[i].raw, t.jobs[c].phase.answer))
  {
    hide Inv, IsRun, Reported;
    StartsGood();
    ReplyLasts(INITIAL, steps, t, i);
  }

  lemma {:induction false} GateErrorLasts(s: System, steps: seq<Step>, t: System, i: nat)
    requires Inv(s) && IsRun(s, steps, t) && i < |steps| && steps[i].Gate? && steps[i].error.Some?
    ensures steps[i].c in t.jobs && !t.jobs[steps[i].c].handed
    ensures t.jobs[steps[i].c].phase.Told? ==> t.jobs[steps[i].c].phase.answer == Outcome("", steps[i].error)
    decreases |steps|
  {
    hide Apply, Enabled, Inv, EndsAs;
    var u, c := Apply(s, steps[0]), steps[i].c;
    StepKeepsInv(s, steps[0]);
    if i > 0 {
      GateErrorLasts(u, steps[1..], t, i - 1);
    } else {
      var raw := Outcome("", steps[0].error);
      GateEnds(s, c, steps[0].error.value);
      EndRemains(u, steps[1..], t, c, ByGate, raw);
      RunKeepsInv(u, steps[1..], t);
      NotHanded(t, c, raw);
      if t.jobs[c].phase.Told? {
        ToldAnswer(t, c, ByGate, raw);
      }
    }
  }

  lemma NotHanded(s: System, c: nat, raw: Outcome)
    requires Inv(s) && EndsAs(s, c, ByGate, raw)
    ensures c in s.jobs && !s.jobs[c].handed
  {
    assert JobGood(s, c);
  }

  /** Over any run from the beginning: a call whose preflight failed never reaches the bridge and answers with
      that error and no result, as it was given. */
  lemma GateErrorIsAnswered(steps: seq<Step>, t: System, i: nat)
    requires IsRun(INITIAL, steps, t) && i < |steps| && steps[i].Gate? && steps[i].error.Some?
    ensures steps[i].c in t.jobs && !t.jobs[steps[i].c].handed
    ensures t.jobs[steps[i].c].phase.Told? ==> t.jobs[steps[i].c].phase.answer == Outcome("", steps[i].error)
  {
    hide Inv, IsRun;
    StartsGood();
    GateErrorLasts(INITIAL, steps, t, i);
  }

  lemma StartsGood()
    ensures Inv(INITIAL)
  {
    hide Apply, Enabled;
    assert IsRun(INITIAL, [], INITIAL);
    ReachableInv(INITIAL);
  }

  // ---------------------------------------------------------------- the record holds the answer

  /** What the executing caller was told is what its operation's record follows from. */
  lemma RecordHoldsTheAnswer(s: System, c: nat)
    requires Reachable(s) && c in s.jobs && s.jobs[c].finished
    ensures s.jobs[c].phase.Told? && c in s.manager.callers && s.manager.callers[c].Answered?
    ensures var k, answer := s.manager.callers[c].serial, s.jobs[c].phase.answer;
            && s.manager.callers[c] == M.Answered(k, answer.result, answer.err)
            && k in s.manager.core.heap && Outcomes.Follows(s.manager.core.heap[k], answer.result, answer.err)
  {
    hide Mutating, NeedsPreflight, AcceptedId, Account, Enabled, Apply, Elsewhere, GoodPlace, Outcomes.Follows;
    ReachableInv(s);
    assert JobGood(s, c);
    Outcomes.ReachableRecords(s.manager);
    Outcomes.RecordFollows(s.manager, s.manager.callers[c].serial);
  }

  // ---------------------------------------------------------------- the preflight

  /** Beyond the preflight. */
  predicate PastGate(j: Job) {
    j.phase.Cleared? || j.phase.Marked? || j.phase.AtBridge? || EndedBy(j.phase, ByBridge)
  }

  ghost predicate Cleared(s: System, c: nat) {
    c in s.jobs && PastGate(s.jobs[c])
  }

  lemma GateIsTheWay(s: System, st: Step, c: nat)
    requires Enabled(s, st) && !Cleared(s, c) && Cleared(Apply(s, st), c)
    requires Apply(s, st).jobs[c].name == "action.perform"
    ensures st == Gate(c, None)
  {
    hide M.Apply, Q.Apply, M.Enabled, Q.Enabled, Mutating, AcceptedId, Account, RevokeAdvanced, Bound, Flags, Reasons,
         Elsewhere;
  }

  lemma {:induction false} ClearedByAGate(s: System, steps: seq<Step>, t: System, c: nat)
    requires Inv(s) && IsRun(s, steps, t) && !Cleared(s, c)
    requires c in t.jobs && t.jobs[c].name == "action.perform" && t.jobs[c].handed
    ensures Gate(c, None) in steps
    decreases |steps|
  {
    hide Apply, Enabled, Inv, Cleared;
    if steps == [] {
      HandedIsCleared(t, c);
    } else {
      var u := Apply(s, steps[0]);
      StepKeepsInv(s, steps[0]);
      if Cleared(u, c) {
        ClearedIsThere(u, c);
        RequestRemains(u, steps[1..], t, c);
        GateIsTheWay(s, steps[0], c);
      } else {
        ClearedByAGate(u, steps[1..], t, c);
      }
    }
  }

  lemma ClearedIsThere(s: System, c: nat)
    requires Cleared(s, c)
    ensures c in s.jobs
  {
  }

  lemma HandedIsCleared(s: System, c: nat)
    requires Inv(s) && c in s.jobs && s.jobs[c].handed
    ensures Cleared(s, c)
  {
    hide Layers, Counted, Reasons, Bound, GoodPlace, Elsewhere;
    assert JobGood(s, c);
  }

  /** Over any run from the beginning: an action reaches the bridge only after its preflight has passed. */
  lemma ActionsPassThePreflight(steps: seq<Step>, t: System, c: nat)
    requires IsRun(INITIAL, steps, t) && c in t.jobs && t.jobs[c].name == "action.perform" && t.jobs[c].handed
    ensures Gate(c, None) in steps
  {
    hide Inv, IsRun;
    StartsGood();
    ClearedByAGate(INITIAL, steps, t, c);
  }
}
