/**
 The bounded event log of internal/core/manager.go: emitLocked, matchEventsLocked,
 ReplayEvents and the wait loop of NextEvent.

 `full` stands for every event ever emitted; the source keeps only its tail.
 */
module EventLogs {
  import opened Options

  /** `time` 0 is Go's zero time. */
  datatype Event = Event(seqNo: nat, time: int, kind: string, session: string, tab: string, payload: string)

  datatype Filter = Filter(afterSeq: nat, kinds: set<string>, session: string, tab: string)

  datatype Log = Log(events: seq<Event>, nextSeq: nat)

  function Tail(xs: seq<Event>, limit: nat): seq<Event> {
    if |xs| > limit then xs[|xs| - limit..] else xs
  }

  function Head(xs: seq<Event>, n: nat): seq<Event> {
    if |xs| > n then xs[..n] else xs
  }

  function Stamp(e: Event, seqNo: nat, now: int): Event {
    e.(seqNo := seqNo, time := if e.time == 0 then now else e.time)
  }

  function Emit(log: Log, limit: nat, e: Event, now: int): Log {
    Log(Tail(log.events + [Stamp(e, log.nextSeq + 1, now)], limit), log.nextSeq + 1)
  }

  predicate Wanted(e: Event, f: Filter) {
    && e.seqNo > f.afterSeq
    && (f.kinds == {} || e.kind in f.kinds)
    && (f.session == "" || e.session == f.session)
    && (f.tab == "" || e.tab == f.tab)
  }

  function Select(xs: seq<Event>, f: Filter): seq<Event> {
    if xs == [] then [] else (if Wanted(xs[0], f) then [xs[0]] else []) + Select(xs[1..], f)
  }

  function PageSize(requested: int, limit: nat): nat {
    if requested <= 0 || requested > limit then limit else requested
  }

  function Match(log: Log, limit: nat, f: Filter, requested: int): seq<Event> {
    Head(Select(log.events, f), PageSize(requested, limit))
  }

  // ---------------------------------------------------------------- what is retained

  ghost predicate Numbered(full: seq<Event>) {
    forall i | 0 <= i < |full| :: full[i].seqNo == i + 1
  }

  /** The buffer is exactly the last min(limit, n) of the n events emitted so far. */
  ghost predicate Retains(log: Log, limit: nat, full: seq<Event>) {
    log.events == Tail(full, limit) && log.nextSeq == |full| && Numbered(full)
  }

  lemma EmitRetains(log: Log, limit: nat, full: seq<Event>, e: Event, now: int)
    requires limit > 0 && Retains(log, limit, full)
    ensures Retains(Emit(log, limit, e, now), limit, full + [Stamp(e, |full| + 1, now)])
  {
  }

  // ---------------------------------------------------------------- paging

  lemma {:induction false} SelectSplit(xs: seq<Event>, i: nat, f: Filter)
    requires i <= |xs|
    ensures Select(xs, f) == Select(xs[..i], f) + Select(xs[i..], f)
  {
    if i == 0 {
      assert xs[0..] == xs && xs[..0] == [];
    } else {
      SelectSplit(xs[1..], i - 1, f);
      assert xs[..i][1..] == xs[1..][..i - 1] && xs[1..][i - 1..] == xs[i..];
    }
  }

  /** Events a later cursor hides can be dropped before selecting. */
  lemma {:induction false} SelectIgnoresSeen(xs: seq<Event>, f: Filter)
    requires forall e | e in xs :: e.seqNo <= f.afterSeq
    ensures Select(xs, f) == []
  {
    if xs != [] {
      assert xs[0] in xs;
      SelectIgnoresSeen(xs[1..], f);
    }
  }

  lemma {:induction false} SelectMembers(xs: seq<Event>, f: Filter)
    ensures forall e | e in Select(xs, f) :: e in xs && Wanted(e, f)
  {
    if xs != [] {
      SelectMembers(xs[1..], f);
    }
  }

  lemma SelectNext(xs: seq<Event>, i: nat, f: Filter)
    requires i < |xs|
    ensures Select(xs[..i + 1], f) == Select(xs[..i], f) + if Wanted(xs[i], f) then [xs[i]] else []
    ensures Select(xs, f) == Select(xs[..i + 1], f) + Select(xs[i + 1..], f)
  {
    SelectSplit(xs[..i + 1], i, f);
    assert xs[..i + 1][..i] == xs[..i] && xs[..i + 1][i..] == [xs[i]];
    assert Select([xs[i]], f) == if Wanted(xs[i], f) then [xs[i]] else [];
    SelectSplit(xs, i + 1, f);
  }

  function Min(a: nat, b: nat): nat {
    if a < b then a else b
  }

  /** The events the cursor has not seen, out of everything emitted. */
  function Unseen(full: seq<Event>, f: Filter): seq<Event> {
    Select(full[Min(f.afterSeq, |full|)..], f)
  }

  lemma UnseenIsSelect(full: seq<Event>, f: Filter)
    requires Numbered(full)
    ensures Unseen(full, f) == Select(full, f)
  {
    var k := Min(f.afterSeq, |full|);
    SelectSplit(full, k, f);
    SelectIgnoresSeen(full[..k], f);
  }

  /** Events that were trimmed before the cursor reached them. */
  function Missed(full: seq<Event>, limit: nat, f: Filter): seq<Event> {
    Select(full[..|full| - |Tail(full, limit)|], f)
  }

  /** A page is the next stretch of the whole filtered log exactly when no wanted event was
      trimmed under the cursor. */
  lemma PageIsExact(log: Log, limit: nat, full: seq<Event>, f: Filter, requested: int)
    requires limit > 0 && Retains(log, limit, full)
    ensures Match(log, limit, f, requested) == Head(Unseen(full, f), PageSize(requested, limit))
            <==> Missed(full, limit, f) == []
  {
    hide Select, Numbered;
    var cut := |full| - |log.events|;
    UnseenIsSelect(full, f);
    SelectSplit(full, cut, f);
    assert full[cut..] == log.events;
    if Missed(full, limit, f) != [] {
      TrimmedIsOlder(full, cut, f);
      var page, n := Match(log, limit, f, requested), PageSize(requested, limit);
      assert page != [] ==> page[0] == Select(log.events, f)[0] && page[0] in Select(log.events, f);
      assert |Head(Unseen(full, f), n)| > 0 && Head(Unseen(full, f), n)[0] == Select(full[..cut], f)[0];
    }
  }

  lemma TrimmedIsOlder(full: seq<Event>, cut: nat, f: Filter)
    requires Numbered(full) && cut <= |full| && Select(full[..cut], f) != []
    ensures forall e | e in Select(full[cut..], f) :: e != Select(full[..cut], f)[0]
  {
    SelectMembers(full[..cut], f);
    SelectMembers(full[cut..], f);
    assert Select(full[..cut], f)[0] in Select(full[..cut], f);
  }

  /** A cursor not older than the buffer misses nothing. */
  lemma RecentCursorMissesNothing(full: seq<Event>, limit: nat, f: Filter)
    requires Numbered(full) && f.afterSeq >= |full| - |Tail(full, limit)|
    ensures Missed(full, limit, f) == []
  {
    SelectIgnoresSeen(full[..|full| - |Tail(full, limit)|], f);
  }

  function NextCursor(page: seq<Event>, cursor: nat): nat {
    if page == [] then cursor else page[|page| - 1].seqNo
  }

  ghost predicate Rising(xs: seq<Event>) {
    forall a, b | 0 <= a < b < |xs| :: xs[a].seqNo < xs[b].seqNo
  }

  /** Moving the cursor to the first wanted event drops just that one. */
  lemma SelectDropsOne(xs: seq<Event>, f: Filter)
    requires xs != [] && Rising(xs) && Wanted(xs[0], f)
    ensures Select(xs, f.(afterSeq := xs[0].seqNo)) == Select(xs[1..], f)
  {
    SelectSame(xs[1..], f, f.(afterSeq := xs[0].seqNo));
  }

  lemma {:induction false} SelectFirst(xs: seq<Event>, f: Filter)
    requires Select(xs, f) != []
    ensures exists k :: 0 <= k < |xs| && Wanted(xs[k], f) && Select(xs, f) == [xs[k]] + Select(xs[k + 1..], f) &&
                        Select(xs[..k], f) == []
  {
    if Wanted(xs[0], f) {
      assert xs[..0] == [];
    } else {
      SelectFirst(xs[1..], f);
      var k :| 0 <= k < |xs[1..]| && Wanted(xs[1..][k], f) &&
          Select(xs[1..], f) == [xs[1..][k]] + Select(xs[1..][k + 1..], f)
               && Select(xs[1..][..k], f) == [];
      assert xs[1..][k + 1..] == xs[k + 2..] && xs[..k + 1][1..] == xs[1..][..k];
      assert xs[k + 1] == xs[1..][k];
    }
  }

  /** Moving the cursor to the first wanted event, wherever it is, drops just that one. */
  lemma SelectPastFirst(xs: seq<Event>, f: Filter)
    requires Rising(xs) && Select(xs, f) != []
    ensures Select(xs, f.(afterSeq := Select(xs, f)[0].seqNo)) == Select(xs, f)[1..]
  {
    SelectFirst(xs, f);
    var k :| 0 <= k < |xs| && Wanted(xs[k], f) && Select(xs, f) == [xs[k]] + Select(xs[k + 1..], f);
    var g := f.(afterSeq := xs[k].seqNo);
    SelectSplit(xs, k, g);
    SelectIgnoresSeen(xs[..k], g);
    SelectDropsOne(xs[k..], f);
    assert xs[k..][1..] == xs[k + 1..];
  }

  /** A filter and the same filter moved past n wanted events differ by those n. */
  lemma {:induction false} SelectAfter(xs: seq<Event>, f: Filter, n: nat)
    requires Rising(xs) && n <= |Select(xs, f)|
    ensures Select(xs, f.(afterSeq := NextCursor(Select(xs, f)[..n], f.afterSeq))) == Select(xs, f)[n..]
    decreases n
  {
    var all := Select(xs, f);
    if n == 0 {
      assert f.(afterSeq := f.afterSeq) == f;
    } else {
      var g := f.(afterSeq := all[0].seqNo);
      SelectPastFirst(xs, f);
      SelectAfter(xs, g, n - 1);
      assert all[1..][..n - 1] == all[1..n] && all[1..][n - 1..] == all[n..];
      assert NextCursor(all[1..n], g.afterSeq) == NextCursor(all[..n], f.afterSeq);
    }
  }

  lemma {:induction false} SelectSame(xs: seq<Event>, f: Filter, g: Filter)
    requires forall e | e in xs :: Wanted(e, f) == Wanted(e, g)
    ensures Select(xs, f) == Select(xs, g)
  {
    if xs != [] {
      assert xs[0] in xs;
      SelectSame(xs[1..], f, g);
    }
  }

  // One reader pages through a log that keeps growing between its reads.

  /** What was emitted by the time of each read, and the size asked for. */
  datatype Read = Read(full: seq<Event>, requested: int)

  ghost predicate Growing(polls: seq<Read>) {
    && (forall i | 0 <= i < |polls| :: Numbered(polls[i].full))
    && (forall i, j | 0 <= i < j < |polls| :: polls[i].full <= polls[j].full)
  }

  ghost function PageOf(r: Read, limit: nat, f: Filter): seq<Event> {
    Match(Log(Tail(r.full, limit), |r.full|), limit, f, r.requested)
  }

  ghost function Pages(polls: seq<Read>, limit: nat, f: Filter): seq<Event>
    decreases |polls|
  {
    if polls == [] then []
    else
      var page := PageOf(polls[0], limit, f);
      page + Pages(polls[1..], limit, f.(afterSeq := NextCursor(page, f.afterSeq)))
  }

  ghost function LastCursor(polls: seq<Read>, limit: nat, f: Filter): nat
    decreases |polls|
  {
    if polls == [] then f.afterSeq
    else LastCursor(polls[1..], limit, f.(afterSeq := NextCursor(PageOf(polls[0], limit, f), f.afterSeq)))
  }

  /** No read found its cursor older than the buffer. */
  ghost predicate KeptUp(polls: seq<Read>, limit: nat, f: Filter)
    decreases |polls|
  {
    polls != [] ==>
      && f.afterSeq >= |polls[0].full| - |Tail(polls[0].full, limit)|
      && KeptUp(polls[1..], limit, f.(afterSeq := NextCursor(PageOf(polls[0], limit, f), f.afterSeq)))
  }

  lemma PageIsHead(r: Read, limit: nat, f: Filter)
    requires limit > 0 && Numbered(r.full) && f.afterSeq >= |r.full| - |Tail(r.full, limit)|
    ensures PageOf(r, limit, f) == Head(Select(r.full, f), PageSize(r.requested, limit))
  {
    PageIsExact(Log(Tail(r.full, limit), |r.full|), limit, r.full, f, r.requested);
    RecentCursorMissesNothing(r.full, limit, f);
    UnseenIsSelect(r.full, f);
  }

  lemma PrefixIsNumbered(full: seq<Event>, final: seq<Event>)
    requires Numbered(final) && full <= final
    ensures Numbered(full)
  {
  }

  /** One read against the final log: the page, then what remains for the moved cursor. */
  lemma PageThenRest(r: Read, limit: nat, f: Filter, final: seq<Event>)
    requires limit > 0 && Numbered(final) && r.full <= final
    requires f.afterSeq >= |r.full| - |Tail(r.full, limit)|
    ensures var page := PageOf(r, limit, f);
            Select(final, f) == page + Select(final, f.(afterSeq := NextCursor(page, f.afterSeq)))
  {
    PrefixIsNumbered(r.full, final);
    PageIsHead(r, limit, f);
    var page, all := PageOf(r, limit, f), Select(final, f);
    SelectSplit(final, |r.full|, f);
    assert final[..|r.full|] == r.full;
    assert page == all[..|page|];
    assert Rising(final);
    SelectAfter(final, f, |page|);
    assert all == all[..|page|] + all[|page|..];
  }

  /** Paging reads every wanted event once: the pages followed by what the last cursor has not
      reached are the whole filtered log, in order, with no gap and no repeat. */
  lemma {:induction false} PagingIsComplete(polls: seq<Read>, limit: nat, f: Filter, final: seq<Event>)
    requires limit > 0 && Growing(polls) && KeptUp(polls, limit, f) && Numbered(final)
    requires forall i | 0 <= i < |polls| :: polls[i].full <= final
    ensures Pages(polls, limit, f) + Select(final, f.(afterSeq := LastCursor(polls, limit, f))) == Select(final, f)
    decreases |polls|
  {
    if polls == [] {
      assert f.(afterSeq := f.afterSeq) == f;
    } else {
      var page := PageOf(polls[0], limit, f);
      var g := f.(afterSeq := NextCursor(page, f.afterSeq));
      PageThenRest(polls[0], limit, f, final);
      PagingIsComplete(polls[1..], limit, g, final);
      var z := Select(final, f.(afterSeq := LastCursor(polls, limit, f)));
      assert g.(afterSeq := LastCursor(polls[1..], limit, g)) == f.(afterSeq := LastCursor(polls, limit, f));
      assert page + (Pages(polls[1..], limit, g) + z) == page + Pages(polls[1..], limit, g) + z;
    }
  }

  // ---------------------------------------------------------------- NextEvent

  /** A caller of NextEvent: parked on the signal channel it read under the lock, or returned.
      Each emit closes the current channel and makes a new one, so the channels are numbered by
      the events emitted before them. */
  datatype Listener = Parked(filter: Filter, signal: nat) | Returned(filter: Filter, event: Option<Event>)

  datatype Board = Board(log: Log, listeners: map<nat, Listener>)

  datatype Move =
    | EmitEvent(e: Event, now: int)
    | Look(id: nat, filter: Filter)   // first pass of the loop, or a pass after the signal closed
    | GiveUp(id: nat)                 // ctx.Done()

  function LookUp(log: Log, limit: nat, f: Filter): Listener {
    var found := Match(log, limit, f, 1);
    if found == [] then Parked(f, log.nextSeq) else Returned(f, Some(found[0]))
  }

  predicate CanMove(b: Board, m: Move) {
    match m
    case EmitEvent(_, _) => true
    case Look(id, f) =>
      id in b.listeners ==>
          b.listeners[id].Parked? && b.listeners[id].filter == f && b.listeners[id].signal != b.log.nextSeq
    case GiveUp(id) => id in b.listeners && b.listeners[id].Parked?
  }

  function MoveOn(b: Board, limit: nat, m: Move): Board
    requires CanMove(b, m)
  {
    match m
    case EmitEvent(e, now) => b.(log := Emit(b.log, limit, e, now))
    case Look(id, f) => b.(listeners := b.listeners[id := LookUp(b.log, limit, f)])
    case GiveUp(id) => b.(listeners := b.listeners[id := Returned(b.listeners[id].filter, None)])
  }

  ghost predicate IsHistory(b: Board, limit: nat, moves: seq<Move>, c: Board)
    decreases |moves|
  {
    if moves == [] then b == c
    else CanMove(b, moves[0]) && IsHistory(MoveOn(b, limit, moves[0]), limit, moves[1..], c)
  }

  /** Parked on the channel that is still open implies nothing retained is wanted, and a returned
      event was wanted. */
  ghost predicate NoLostWakeUp(b: Board, limit: nat) {
    forall id | id in b.listeners ::
      var l := b.listeners[id];
      && (l.Parked? ==> l.signal <= b.log.nextSeq)
      && (l.Parked? && l.signal == b.log.nextSeq ==> Match(b.log, limit, l.filter, 1) == [])
      && (l.Returned? && l.event.Some? ==> Wanted(l.event.value, l.filter))
  }

  lemma MoveKeepsWakeUps(b: Board, limit: nat, m: Move)
    requires NoLostWakeUp(b, limit) && CanMove(b, m)
    ensures NoLostWakeUp(MoveOn(b, limit, m), limit)
  {
    if m.Look? {
      SelectMembers(b.log.events, m.filter);
      var found := Match(b.log, limit, m.filter, 1);
      assert found != [] ==> found[0] in Select(b.log.events, m.filter);
    }
  }

  /** In every history of emits, waits and timeouts: no lost wake-up. */
  lemma {:induction false} WaitersAreWoken(b: Board, limit: nat, moves: seq<Move>, c: Board)
    requires NoLostWakeUp(b, limit) && IsHistory(b, limit, moves, c)
    ensures NoLostWakeUp(c, limit)
    ensures forall id | id in c.listeners && c.listeners[id].Parked? &&
                        Match(c.log, limit, c.listeners[id].filter, 1) != [] ::
              CanMove(c, Look(id, c.listeners[id].filter))
    decreases |moves|
  {
    if moves != [] {
      MoveKeepsWakeUps(b, limit, moves[0]);
      WaitersAreWoken(MoveOn(b, limit, moves[0]), limit, moves[1..], c);
    }
  }

  // ---------------------------------------------------------------- the log in place

  class EventLog {
    var events: seq<Event>
    var nextSeq: nat
    const limit: nat
    var signal: nat       // the open channel, numbered by the events emitted before it
    var closed: set<nat>  // the channels closed so far
    ghost var full: seq<Event>

    ghost function Model(): Log
      reads this
    {
      Log(events, nextSeq)
    }

    ghost predicate Valid()
      reads this
    {
      limit > 0 && Retains(Model(), limit, full) && signal == nextSeq && forall i: nat :: i in closed <==> i < signal
    }

    constructor (eventLimit: int)
      ensures Valid() && full == []
      ensures limit == if eventLimit <= 0 then 1024 else eventLimit
    {
      limit := if eventLimit <= 0 then 1024 else eventLimit;
      events, nextSeq, signal, closed, full := [], 0, 0, {}, [];
    }

    method Append(e: Event, now: int) returns (stamped: Event)
      requires Valid()
      modifies this
      ensures Valid()
      ensures Model() == Emit(old(Model()), limit, e, now)
      ensures stamped == Stamp(e, nextSeq, now) && full == old(full) + [stamped]
      ensures closed == old(closed) + {old(signal)} && signal !in closed
    {
      EmitRetains(Model(), limit, full, e, now);
      hide Numbered;
      nextSeq := nextSeq + 1;
      stamped := e.(seqNo := nextSeq);
      if stamped.time == 0 {
        stamped := stamped.(time := now);
      }
      events := events + [stamped];
      if |events| > limit {
        events := events[|events| - limit..];
      }
      closed, signal := closed + {signal}, signal + 1;
      full := full + [stamped];
    }

    /** One pass of NextEvent's loop under the lock: the first event that matches, or the channel that is
        open now. */
    method Look(f: Filter) returns (l: Listener)
      requires Valid()
      ensures l == LookUp(Model(), limit, f)
      ensures l.Parked? ==> l.signal == signal && l.signal !in closed
    {
      var found := MatchEvents(f, 1);
      if |found| > 0 {
        return Returned(f, Some(found[0]));
      }
      return Parked(f, signal);
    }

    method MatchEvents(f: Filter, requested: int) returns (page: seq<Event>)
      requires Valid()
      ensures page == Match(Model(), limit, f, requested)
    {
      hide Wanted;
      var size := PageSize(requested, limit);
      page := [];
      assert Select(events[..0], f) == [];
      hide Select;
      for i := 0 to |events|
        invariant page == Select(events[..i], f)
        invariant |page| < size
      {
        SelectNext(events, i, f);
        if Wanted(events[i], f) {
          page := page + [events[i]];
          if |page| == size {
            return;
          }
        }
      }
      assert events[..|events|] == events;
    }
  }
}
