/** What the event log promises its readers (internal/core/manager.go), event by event. */
module EventLaws {
  import opened Options
  import opened EventLogs

  /** Later than the cursor, of one of the kinds if any are named, and of the session and tab if they are. */
  predicate Asked(e: Event, f: Filter) {
    && e.seqNo > f.afterSeq
    && (f.kinds != {} ==> e.kind in f.kinds)
    && (f.session != "" ==> e.session == f.session)
    && (f.tab != "" ==> e.tab == f.tab)
  }

  lemma {:induction false} SelectedAreAsked(xs: seq<Event>, f: Filter)
    ensures forall e :: e in Select(xs, f) <==> e in xs && Asked(e, f)
  {
    if xs != [] {
      SelectedAreAsked(xs[1..], f);
      assert xs == [xs[0]] + xs[1..];
      assert Wanted(xs[0], f) <==> Asked(xs[0], f);
    }
  }

  lemma {:induction false} SelectedRise(xs: seq<Event>, f: Filter)
    requires Rising(xs)
    ensures Rising(Select(xs, f))
  {
    if xs != [] {
      SelectedRise(xs[1..], f);
      SelectedAreAsked(xs[1..], f);
      hide Asked;
      forall e | e in Select(xs[1..], f) ensures xs[0].seqNo < e.seqNo {
        var i :| 0 <= i < |xs[1..]| && xs[1..][i] == e;
        assert xs[i + 1] == e;
      }
    }
  }

  lemma RetainedRise(log: Log, limit: nat, full: seq<Event>)
    requires Retains(log, limit, full)
    ensures Rising(log.events)
  {
    var cut := |full| - |log.events|;
    forall a, b | 0 <= a < b < |log.events| ensures log.events[a].seqNo < log.events[b].seqNo {
      assert log.events[a] == full[cut + a] && log.events[b] == full[cut + b];
    }
  }

  lemma HeadSplits(all: seq<Event>, n: nat)
    requires Rising(all)
    ensures var page := Head(all, n);
            && |page| <= n && Rising(page) && (forall e | e in page :: e in all)
            && (forall e | e in all && e !in page :: |page| == n && forall p | p in page :: p.seqNo < e.seqNo)
  {
    var page := Head(all, n);
    forall e, p | e in all && e !in page && p in page ensures p.seqNo < e.seqNo {
      var i :| 0 <= i < |all| && all[i] == e;
      var j :| 0 <= j < |page| && page[j] == p;
      assert i >= n ==> j < i;
      assert i < n ==> page[i] == e;
    }
  }

  /** A page holds only retained events that were asked for, in the order of emission and at most as many as
      requested, or as the log keeps where the request is not between one and that; and leaves one out only
      if it is full and all its events are older. */
  lemma PageIsWhatWasAsked(log: Log, limit: nat, full: seq<Event>, f: Filter, requested: int)
    requires limit > 0 && Retains(log, limit, full)
    ensures var page := Match(log, limit, f, requested);
            var most := if 1 <= requested <= limit then requested else limit;
            && (forall e | e in page :: e in log.events && Asked(e, f))
            && Rising(page) && |page| <= most
            && (forall e | e in log.events && Asked(e, f) && e !in page ::
                  |page| == most && forall p | p in page :: p.seqNo < e.seqNo)
  {
    hide Asked, Rising, Head;
    RetainedRise(log, limit, full);
    SelectedRise(log.events, f);
    SelectedAreAsked(log.events, f);
    HeadSplits(Select(log.events, f), PageSize(requested, limit));
  }

  /** An emitted event is kept as it was given, with the next number and, if it had none, the time; and a reader
      who had seen everything before reads exactly it. */
  lemma EmittedEventIsRead(log: Log, limit: nat, full: seq<Event>, e: Event, now: int, requested: int)
    requires limit > 0 && Retains(log, limit, full)
    ensures var d := Emit(log, limit, e, now);
            && d.events != []
            && var last := d.events[|d.events| - 1];
               && last == Event(|full| + 1, if e.time == 0 then now else e.time, e.kind, e.session, e.tab, e.payload)
               && Match(d, limit, Filter(|full|, {}, "", ""), requested) == [last]
  {
    var d, f := Emit(log, limit, e, now), Filter(|full|, {}, "", "");
    var n := |d.events| - 1;
    EmitRetains(log, limit, full, e, now);
    RetainedRise(d, limit, full + [Stamp(e, |full| + 1, now)]);
    OnlyTheLast(d.events, f);
  }

  lemma OnlyTheLast(xs: seq<Event>, f: Filter)
    requires xs != [] && Rising(xs) && f == Filter(f.afterSeq, {}, "", "") && xs[|xs| - 1].seqNo == f.afterSeq + 1
    ensures Select(xs, f) == [xs[|xs| - 1]]
  {
    var n := |xs| - 1;
    SelectNext(xs, n, f);
    assert xs[..n + 1] == xs;
    SelectIgnoresSeen(xs[..n], f);
  }
}
