/** Every interleaving of Call, response dispatch, context expiry and Close (internal/rpc/peer.go). */
module RpcPeerRuns {
  import opened Options
  import opened RpcPeers

  datatype Pc =
    | Registering   // has its number, is not in the table yet
    | Writing       // about to look at the closed channel
    | Encoding      // found it open
    | Closing       // the write failed, inside Close
    | Waiting       // in the select
    | Withdrawing   // about to delete its own entry
    | Returned(answer: Option<Response>)

  /** inHand is what readers took from the table and have not sent yet; sends counts the sends to each
      waiter and is history. */
  datatype System = System(
    table: Table, next: nat, pc: map<nat, Pc>, inHand: map<nat, Response>,
    closed: bool, drained: bool, sends: map<nat, nat>)

  datatype Step =
    | Start
    | Enlist(n: nat)
    | CheckClosed(n: nat)
    | Written(n: nat)
    | WriteFails(n: nat)
    | CloseReturns(n: nat)
    | Expire(n: nat)
    | SeeClosed(n: nat)
    | Receive(n: nat)
    | Withdraw(n: nat)
    | Dispatch(response: Response)
    | Deliver(n: nat)
    | CloseChannel
    | DrainTable

  const INITIAL := System(Table(map[], map[]), 0, map[], map[], false, false, map[])

  predicate At(s: System, n: nat, p: Pc) {
    n in s.pc && s.pc[n] == p
  }

  /** A step that sends is enabled only if the channels have room. */
  ghost predicate Enabled(s: System, st: Step) {
    match st
    case Start => true
    case Enlist(n) => At(s, n, Registering)
    case CheckClosed(n) => At(s, n, Writing)
    case Written(n) => At(s, n, Encoding)
    case WriteFails(n) => At(s, n, Encoding)
    case CloseReturns(n) => At(s, n, Closing) && s.drained
    case Expire(n) => At(s, n, Waiting)
    case SeeClosed(n) => At(s, n, Waiting) && s.closed
    case Receive(n) => At(s, n, Waiting) && n in s.table.box && s.table.box[n].Some?
    case Withdraw(n) => At(s, n, Withdrawing)
    case Dispatch(_) => true
    case Deliver(n) => n in s.inHand && n in s.sends && Ready(s.table, n)
    case CloseChannel => !s.closed
    case DrainTable => s.closed && !s.drained && DrainCanFinish(s.table)
  }

  function Goto(s: System, n: nat, p: Pc): System {
    s.(pc := s.pc[n := p])
  }

  function Started(s: System): System {
    s.(next := s.next + 1, pc := s.pc[s.next + 1 := Registering], sends := s.sends[s.next + 1 := 0])
  }

  function Enlisted(s: System, n: nat): System {
    Goto(s, n, Writing).(table := Register(s.table, n))
  }

  function Received(s: System, n: nat): System
    requires n in s.table.box && s.table.box[n].Some?
  {
    var item := s.table.box[n].value;
    Goto(s, n, Returned(if item.Reply? then Some(item.response) else None))
    .(table := s.table.(box := s.table.box[n := None]))
  }

  function Withdrawn(s: System, n: nat): System {
    Goto(s, n, Returned(None)).(table := Remove(s.table, KeyOf(n)))
  }

  function Dispatched(s: System, r: Response): System {
    if r.key in s.table.pending then
      s.(table := Remove(s.table, r.key), inHand := s.inHand[s.table.pending[r.key] := r])
    else s
  }

  function Delivered(s: System, n: nat): System
    requires n in s.inHand && n in s.sends
  {
    s.(table := Send(s.table, n, Reply(s.inHand[n])), inHand := s.inHand - {n}, sends := s.sends[n := s.sends[n] + 1])
  }

  function DrainAll(s: System): System {
    s.(table := Drain(s.table), drained := true,
       sends := map n | n in s.sends :: s.sends[n] + if n in s.table.pending.Values then 1 else 0)
  }

  ghost function Apply(s: System, st: Step): System
    requires Enabled(s, st)
  {
    match st
    case Start => Started(s)
    case Enlist(n) => Enlisted(s, n)
    case CheckClosed(n) => Goto(s, n, if s.closed then Withdrawing else Encoding)
    case Written(n) => Goto(s, n, Waiting)
    case WriteFails(n) => Goto(s, n, Closing)
    case CloseReturns(n) => Goto(s, n, Withdrawing)
    case Expire(n) => Goto(s, n, Withdrawing)
    case SeeClosed(n) => Goto(s, n, Returned(None))
    case Receive(n) => Received(s, n)
    case Withdraw(n) => Withdrawn(s, n)
    case Dispatch(response) => Dispatched(s, response)
    case Deliver(n) => Delivered(s, n)
    case CloseChannel => s.(closed := true)
    case DrainTable => DrainAll(s)
  }

  ghost predicate IsRun(s: System, steps: seq<Step>, t: System)
    decreases |steps|
  {
    if steps == [] then s == t
    else Enabled(s, steps[0]) && IsRun(Apply(s, steps[0]), steps[1..], t)
  }

  ghost predicate Reachable(s: System) {
    exists steps: seq<Step> :: IsRun(INITIAL, steps, s)
  }

  // ---------------------------------------------------------------- the invariant

  /** Everything the state says about one call. */
  datatype View = View(pc: Option<Pc>, sends: Option<nat>, box: Option<Option<Item>>, hand: Option<Response>,
      listed: bool)

  function Lookup<T>(m: map<nat, T>, n: nat): Option<T> {
    if n in m then Some(m[n]) else None
  }

  function ViewOf(s: System, n: nat): View {
    View(Lookup(s.pc, n), Lookup(s.sends, n), Lookup(s.table.box, n), Lookup(s.inHand, n), KeyOf(n) in s.table.pending)
  }

  /** Nothing has been sent, and a send has room. */
  predicate Unsent(v: View) {
    v.sends == Some(0) && v.box == Some(None)
  }

  /** A listed waiter has been sent nothing; after the drain only a call that will withdraw it lists one. */
  predicate GoodEntry(v: View, closed: bool, drained: bool) {
    v.listed ==>
      && v.pc.Some? && Unsent(v) && v.hand.None?
      && (v.pc.value.Returned? ==> closed && !drained)
      && (drained ==> v.pc.value == Writing || v.pc.value == Withdrawing)
  }

  predicate GoodHand(v: View, key: string) {
    v.hand.Some? ==> v.pc.Some? && Unsent(v) && v.hand.value.key == key
  }

  predicate GoodBox(v: View, key: string) {
    && (v.sends.Some? ==> v.sends.value <= 1)
    && (v.box.Some? && v.box.value.Some? ==>
          v.sends == Some(1) && (v.box.value.value.Reply? ==> v.box.value.value.response.key == key))
  }

  predicate GoodAnswer(v: View, key: string) {
    v.pc.Some? && v.pc.value.Returned? && v.pc.value.answer.Some? ==> v.pc.value.answer.value.key == key
  }

  /** A call that has not returned is listed, or its result is on the way or sent. */
  predicate Covered(v: View) {
    v.pc.Some? && !v.pc.value.Returned? && v.pc.value != Registering ==> v.listed || v.hand.Some? || v.sends == Some(1)
  }

  predicate Domains(v: View) {
    && (v.pc.Some? <==> v.sends.Some?)
    && (v.box.Some? <==> v.pc.Some? && v.pc.value != Registering)
    && (v.pc == Some(Registering) ==> v.sends == Some(0))
  }

  predicate Good(v: View, key: string, closed: bool, drained: bool) {
    Domains(v) && GoodEntry(v, closed, drained) && GoodHand(v, key) && GoodBox(v, key) && GoodAnswer(v, key) &&
        Covered(v)
  }

  ghost predicate GoodCall(s: System, n: nat) {
    Good(ViewOf(s, n), KeyOf(n), s.closed, s.drained) && (n in s.pc ==> n <= s.next)
  }

  /** Every waiter is listed under its own id. */
  ghost predicate OwnKeys(s: System) {
    forall k | k in s.table.pending :: KeyOf(s.table.pending[k]) == k
  }

  ghost predicate Inv(s: System) {
    (s.drained ==> s.closed) && OwnKeys(s) && forall n: nat :: GoodCall(s, n)
  }

  lemma EntryIsOwn(s: System, n: nat)
    requires OwnKeys(s) && KeyOf(n) in s.table.pending
    ensures s.table.pending[KeyOf(n)] == n
  {
    KeysDiffer(s.table.pending[KeyOf(n)], n);
  }

  /** The call a step is about. */
  function Subject(s: System, st: Step): nat {
    match st
    case Start => s.next + 1
    case Dispatch(r) => if r.key in s.table.pending then s.table.pending[r.key] else 0
    case CloseChannel => 0
    case DrainTable => 0
    case _ => st.n
  }

  /** A step changes what the state says about its own call only; closing and draining touch them all. */
  lemma OthersUnchanged(s: System, st: Step, m: nat)
    requires Enabled(s, st) && OwnKeys(s) && m != Subject(s, st) && !st.DrainTable?
    ensures ViewOf(Apply(s, st), m) == ViewOf(s, m)
  {
    hide KeyOf, DrainAll, DrainCanFinish;
    if KeyOf(m) == KeyOf(Subject(s, st)) {
      KeysDiffer(m, Subject(s, st));
    }
  }

  predicate IsMove(st: Step) {
    st.CheckClosed? || st.Written? || st.WriteFails? || st.CloseReturns? || st.Expire? || st.SeeClosed? ||
        st.CloseChannel?
  }

  lemma MoveStaysGood(s: System, st: Step, n: nat)
    requires Enabled(s, st) && GoodCall(s, n) && IsMove(st)
    requires n == Subject(s, st) || st.CloseChannel?
    requires s.drained ==> s.closed
    ensures GoodCall(Apply(s, st), n)
  {
  }

  lemma OwnCallStaysGood(s: System, st: Step, n: nat)
    requires Enabled(s, st) && OwnKeys(s) && GoodCall(s, n) && n == Subject(s, st) && !st.DrainTable? && !IsMove(st)
    ensures GoodCall(Apply(s, st), n)
  {
  }

  lemma DrainStaysGood(s: System, n: nat)
    requires Enabled(s, DrainTable) && OwnKeys(s) && GoodCall(s, n)
    ensures GoodCall(Apply(s, DrainTable), n)
  {
    hide KeyOf, DrainCanFinish;
    if KeyOf(n) in s.table.pending {
      EntryIsOwn(s, n);
      assert n in s.table.pending.Values;
    }
  }

  lemma KeysStayOwn(s: System, st: Step)
    requires Enabled(s, st) && OwnKeys(s)
    ensures OwnKeys(Apply(s, st))
  {
  }

  lemma StepKeepsInv(s: System, st: Step)
    requires Inv(s) && Enabled(s, st)
    ensures Inv(Apply(s, st))
  {
    hide OwnKeys, KeyOf, DrainCanFinish, ViewOf, Good;
    KeysStayOwn(s, st);
    forall n: nat ensures GoodCall(Apply(s, st), n) {
      assert GoodCall(s, n);
      if st.DrainTable? {
        DrainStaysGood(s, n);
      } else if IsMove(st) && (n == Subject(s, st) || st.CloseChannel?) {
        MoveStaysGood(s, st, n);
      } else if n == Subject(s, st) {
        OwnCallStaysGood(s, st, n);
      } else {
        OthersUnchanged(s, st, n);
      }
    }
  }

  lemma {:induction false} RunKeepsInv(s: System, steps: seq<Step>, t: System)
    requires Inv(s) && IsRun(s, steps, t)
    ensures Inv(t)
    decreases |steps|
  {
    hide Inv, Apply, Enabled;
    if steps != [] {
      StepKeepsInv(s, steps[0]);
      RunKeepsInv(Apply(s, steps[0]), steps[1..], t);
    }
  }

  lemma ReachableInv(s: System)
    requires Reachable(s)
    ensures Inv(s)
  {
    hide Apply, Enabled, KeyOf;
    var steps: seq<Step> :| IsRun(INITIAL, steps, s);
    RunKeepsInv(INITIAL, steps, s);
  }

  // ---------------------------------------------------------------- the theorems

  /** In every reachable state each waiter has been sent at most one result, and nobody about to send
      finds the channel full: a reader with a waiter in hand can send, and Close can finish its drain. */
  lemma OneResultEach(s: System)
    requires Reachable(s)
    ensures forall n | n in s.sends :: s.sends[n] <= 1
    ensures forall n | n in s.inHand :: Enabled(s, Deliver(n)) && n in s.table.box && s.table.box[n] == None
    ensures s.closed && !s.drained ==> Enabled(s, DrainTable)
    ensures forall k | k in s.table.pending ::
              s.table.pending[k] in s.table.box && s.table.box[s.table.pending[k]] == None
  {
    hide KeyOf;
    ReachableInv(s);
    forall n | n in s.sends ensures s.sends[n] <= 1 {
      assert GoodCall(s, n);
    }
    forall n | n in s.inHand ensures Enabled(s, Deliver(n)) && n in s.table.box && s.table.box[n] == None {
      assert GoodCall(s, n);
    }
    forall k | k in s.table.pending ensures Ready(s.table, s.table.pending[k]) {
      assert GoodCall(s, s.table.pending[k]);
    }
  }

  /** The answer a call returns carries that call's own id, and no other call's. */
  lemma AnswersMatch(s: System, n: nat, m: nat)
    requires Reachable(s) && n in s.pc && s.pc[n].Returned? && s.pc[n].answer.Some?
    ensures s.pc[n].answer.value.key == KeyOf(m) <==> m == n
  {
    ReachableInv(s);
    assert GoodCall(s, n);
    if s.pc[n].answer.value.key == KeyOf(m) {
      KeysDiffer(m, n);
    }
  }

  /** Once every call has returned and Close, if it was begun, has finished, the table is empty. */
  lemma NothingLeftPending(s: System)
    requires Reachable(s) && (s.closed ==> s.drained)
    requires forall n | n in s.pc :: s.pc[n].Returned?
    ensures s.table.pending == map[]
  {
    hide KeyOf;
    ReachableInv(s);
    assert forall k | k in s.table.pending :: ViewOf(s, s.table.pending[k]).listed;
    forall n: nat ensures !ViewOf(s, n).listed {
      assert GoodCall(s, n);
    }
  }

  /** No waiter is lost: as long as nothing was sent to a waiting call, a response with its id finds it
      and reaches its channel. */
  lemma ResponseFindsItsCall(s: System, n: nat, r: Response)
    requires Reachable(s) && At(s, n, Waiting) && r.key == KeyOf(n)
    requires n !in s.inHand && n in s.sends && s.sends[n] == 0
    ensures var t := Apply(s, Dispatch(r));
            && Enabled(t, Deliver(n))
            && Apply(t, Deliver(n)).table.box[n] == Some(Reply(r))
            && Enabled(Apply(t, Deliver(n)), Receive(n))
            && Apply(Apply(t, Deliver(n)), Receive(n)).pc[n] == Returned(Some(r))
  {
    hide KeyOf, DrainAll, Drain, DrainCanFinish;
    ReachableInv(s);
    assert GoodCall(s, n);
    EntryIsOwn(s, n);
  }

  lemma FlagStep(s: System, st: Step)
    requires Enabled(s, st)
    ensures Apply(s, st).closed <==> s.closed || st == CloseChannel
    ensures Apply(s, st).drained <==> s.drained || st == DrainTable
  {
    hide KeyOf, Drain, DrainCanFinish, Remove, Send, Register;
  }

  lemma {:induction false} ClosedByAStep(s: System, steps: seq<Step>, t: System)
    requires IsRun(s, steps, t)
    ensures t.closed <==> s.closed || CloseChannel in steps
    ensures t.drained <==> s.drained || DrainTable in steps
    decreases |steps|
  {
    hide Apply, Enabled;
    if steps != [] {
      FlagStep(s, steps[0]);
      ClosedByAStep(Apply(s, steps[0]), steps[1..], t);
      assert steps == [steps[0]] + steps[1..];
    }
  }

  lemma NumberStep(s: System, st: Step)
    requires Enabled(s, st) && forall n: nat :: n in s.pc <==> 1 <= n <= s.next
    ensures forall n: nat :: n in Apply(s, st).pc <==> 1 <= n <= Apply(s, st).next
  {
    hide KeyOf, Drain, DrainCanFinish, Remove, Send, Register;
  }

  lemma {:induction false} NumbersStay(s: System, steps: seq<Step>, t: System)
    requires IsRun(s, steps, t) && forall n: nat :: n in s.pc <==> 1 <= n <= s.next
    ensures forall n: nat :: n in t.pc <==> 1 <= n <= t.next
    decreases |steps|
  {
    hide Apply, Enabled;
    if steps != [] {
      NumberStep(s, steps[0]);
      NumbersStay(Apply(s, steps[0]), steps[1..], t);
    }
  }

  /** Calls are numbered from 1 without a gap. */
  lemma CallsAreNumbered(s: System, n: nat)
    requires Reachable(s)
    ensures n in s.pc <==> 1 <= n <= s.next
  {
    hide Apply, Enabled;
    var steps :| IsRun(INITIAL, steps, s);
    NumbersStay(INITIAL, steps, s);
  }

  /** A peer is closed, and drained, exactly when something closed it and drained it. */
  lemma OnlyCloseCloses(steps: seq<Step>, t: System)
    requires IsRun(INITIAL, steps, t)
    ensures t.closed <==> CloseChannel in steps
    ensures t.drained <==> DrainTable in steps
  {
    ClosedByAStep(INITIAL, steps, t);
  }

  /** A new call gets through to its wait, with nothing sent to it, on a peer that is not closed, and returns
      without an answer on one that is. */
  lemma CallComesThrough(s: System)
    requires Reachable(s)
    ensures var n := s.next + 1;
            && Enabled(s, Start) && Enabled(Apply(s, Start), Enlist(n))
            && var listed := Apply(Apply(s, Start), Enlist(n));
               && Enabled(listed, CheckClosed(n))
               && var checked := Apply(listed, CheckClosed(n));
                  if s.closed then Enabled(checked, Withdraw(n)) && Apply(checked, Withdraw(n)).pc[n] == Returned(None)
                  else && Enabled(checked, Written(n))
                       && var t := Apply(checked, Written(n));
                          At(t, n, Waiting) && n !in t.inHand && n in t.sends && t.sends[n] == 0
  {
    hide KeyOf, DrainAll, Drain, DrainCanFinish, Remove, Send, Register;
    ReachableInv(s);
    assert GoodCall(s, s.next + 1);
  }

  /** After the drain no call waits for ever: each one has a step of its own. */
  lemma CallsCanReturn(s: System, n: nat)
    requires Reachable(s) && s.drained && n in s.pc && !s.pc[n].Returned?
    ensures match s.pc[n]
            case Registering => Enabled(s, Enlist(n))
            case Writing => Enabled(s, CheckClosed(n)) && Apply(s, CheckClosed(n)).pc[n] == Withdrawing
            case Encoding => Enabled(s, Written(n)) && Enabled(s, WriteFails(n))
            case Closing => Enabled(s, CloseReturns(n))
            case Waiting => Enabled(s, SeeClosed(n)) && Apply(s, SeeClosed(n)).pc[n].Returned?
            case Withdrawing => Enabled(s, Withdraw(n)) && Apply(s, Withdraw(n)).pc[n].Returned?
  {
    hide KeyOf, DrainAll, Drain, DrainCanFinish;
    ReachableInv(s);
  }

  // ---------------------------------------------------------------- answers were received

  /** Every response a call has on the way, in its channel or as its answer is one of these. */
  predicate FromThese(v: View, rs: set<Response>) {
    && (v.hand.Some? ==> v.hand.value in rs)
    && (v.box.Some? && v.box.value.Some? && v.box.value.value.Reply? ==> v.box.value.value.response in rs)
    && (v.pc.Some? && v.pc.value.Returned? && v.pc.value.answer.Some? ==> v.pc.value.answer.value in rs)
  }

  ghost predicate AllFromThese(s: System, rs: set<Response>) {
    forall n: nat :: FromThese(ViewOf(s, n), rs)
  }

  function Arriving(st: Step): set<Response> {
    if st.Dispatch? then {st.response} else {}
  }

  lemma OwnCallFromThese(s: System, st: Step, n: nat, rs: set<Response>)
    requires Enabled(s, st) && OwnKeys(s) && FromThese(ViewOf(s, n), rs) && !st.DrainTable?
    requires n == Subject(s, st)
    ensures FromThese(ViewOf(Apply(s, st), n), rs + Arriving(st))
  {
    hide KeyOf, DrainAll, DrainCanFinish;
  }

  lemma DrainFromThese(s: System, n: nat, rs: set<Response>)
    requires FromThese(ViewOf(s, n), rs)
    ensures FromThese(ViewOf(DrainAll(s), n), rs)
  {
    hide KeyOf;
  }

  lemma StepFromThese(s: System, st: Step, rs: set<Response>)
    requires Inv(s) && Enabled(s, st) && AllFromThese(s, rs)
    ensures AllFromThese(Apply(s, st), rs + Arriving(st))
  {
    hide OwnKeys, KeyOf, DrainCanFinish, ViewOf, Good, FromThese;
    forall n: nat ensures FromThese(ViewOf(Apply(s, st), n), rs + Arriving(st)) {
      assert FromThese(ViewOf(s, n), rs);
      if st.DrainTable? {
        DrainFromThese(s, n, rs);
        assert rs + {} == rs;
      } else if n == Subject(s, st) {
        OwnCallFromThese(s, st, n, rs);
      } else {
        OthersUnchanged(s, st, n);
        MoreResponses(ViewOf(s, n), rs, Arriving(st));
      }
    }
  }

  lemma MoreResponses(v: View, rs: set<Response>, more: set<Response>)
    requires FromThese(v, rs)
    ensures FromThese(v, rs + more)
  {
  }

  lemma {:induction false} AnswersComeFrom(s: System, steps: seq<Step>, t: System, rs: set<Response>, n: nat)
    requires Inv(s) && AllFromThese(s, rs) && IsRun(s, steps, t)
    requires n in t.pc && t.pc[n].Returned? && t.pc[n].answer.Some?
    ensures t.pc[n].answer.value in rs || Dispatch(t.pc[n].answer.value) in steps
    decreases |steps|
  {
    if steps == [] {
      assert FromThese(ViewOf(s, n), rs);
    } else {
      hide Apply, Enabled, Inv, AllFromThese;
      StepFromThese(s, steps[0], rs);
      StepKeepsInv(s, steps[0]);
      AnswersComeFrom(Apply(s, steps[0]), steps[1..], t, rs + Arriving(steps[0]), n);
    }
  }

  /** Over any run: the answer a call returns is, id and body, a response that came in. */
  lemma AnswersWereReceived(steps: seq<Step>, t: System, n: nat)
    requires IsRun(INITIAL, steps, t) && n in t.pc && t.pc[n].Returned? && t.pc[n].answer.Some?
    ensures Dispatch(t.pc[n].answer.value) in steps && t.pc[n].answer.value.key == KeyOf(n)
  {
    hide KeyOf, Apply, Enabled;
    assert IsRun(INITIAL, [], INITIAL);
    ReachableInv(INITIAL);
    AnswersComeFrom(INITIAL, steps, t, {}, n);
    AnswersMatch(t, n, n);
  }
}
