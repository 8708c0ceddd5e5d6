/**
 What both reassemblers refuse, forget and let out (internal/nativemsg/native.go and
 apps/extension/src/chunk-codec.ts), whatever comes in. Times are in milliseconds.
 */
module CodecLaws {
  import opened Options
  import opened Numbers
  import opened Base64
  import opened Chunks
  import Go = GoAssembler
  import Ts = TsAssembler

  // ---------------------------------------------------------------- Go

  predicate GoAdmits(c: Chunk) {
    c.version == 1 && c.id != "" && 1 <= c.total <= 4096 && 0 <= c.index < c.total && c.sha256 != ""
  }

  /** Anything but valid JSON, and a chunk with impossible metadata or undecodable data, is refused and changes
      nothing; an ordinary message passes through. */
  lemma GoRefuses(w: World, items: Go.Items, frame: Bytes, now: int)
    ensures var r := Go.AcceptFrame(w, items, frame, now);
            && (!w.valid(frame) || w.parse(frame).Malformed? ==> r == (items, Broken))
            && (w.valid(frame) && w.parse(frame).Plain? ==> r == (items, Complete(frame)))
            && (w.valid(frame) && w.parse(frame).Envelope? ==>
                  var c := w.parse(frame).chunk;
                  !GoAdmits(c) || GoDecode(c.data).None? ==> r == (items, Broken))
  {
    hide GoDecode, Go.Store;
  }

  lemma GoKeepsTheRest(w: World, kept: Go.Items, c: Chunk, part: Bytes, now: int)
    requires c.total >= 0
    ensures var next := Go.Insert(w, kept, c, part, now).0;
            && next - {c.id} == kept - {c.id} && (c.id in next ==> next[c.id].updatedAt == now)
  {
    hide Go.Finish, Go.HasAll;
  }

  lemma GoPrunes(items: Go.Items, now: int)
    ensures var kept := Go.Prune(items, now);
            && (forall id :: id in kept <==> id in items && now - items[id].updatedAt <= 60_000)
            && (forall id | id in kept :: kept[id] == items[id])
  {
  }

  /** An admitted chunk forgets exactly the streams idle for more than a minute, its own apart, and leaves all
      others as they were; what it keeps of its own is stamped with its time. */
  lemma GoForgetsIdleStreams(w: World, items: Go.Items, c: Chunk, now: int)
    requires GoAdmits(c) && GoDecode(c.data).Some?
    ensures var next := Go.AcceptChunk(w, items, c, now).0;
            && (forall id | id != c.id :: id in next <==> id in items && now - items[id].updatedAt <= 60_000)
            && (forall id | id != c.id && id in next :: next[id] == items[id])
            && (c.id in next ==> next[c.id].updatedAt == now)
            && (forall id | id in next :: now - next[id].updatedAt <= 60_000)
  {
    hide GoDecode, Go.Insert, Go.Prune;
    var kept := Go.Prune(items, now);
    var next := Go.AcceptChunk(w, items, c, now).0;
    GoPrunes(items, now);
    GoKeepsTheRest(w, kept, c, GoDecode(c.data).value, now);
    forall id | id != c.id
      ensures id in next <==> id in kept
      ensures id in next ==> next[id] == kept[id]
    {
      assert id in next - {c.id} <==> id in kept - {c.id};
      assert id in next ==> (next - {c.id})[id] == (kept - {c.id})[id];
    }
  }

  /** A live stream is dropped and the chunk refused when its total or digest changes, or when a new part takes
      the parts beyond 128 MiB. */
  lemma GoDropsBadStreams(w: World, items: Go.Items, c: Chunk, now: int)
    requires GoAdmits(c) && GoDecode(c.data).Some? && c.id in items && now - items[c.id].updatedAt <= 60_000
    requires var a := items[c.id];
             || a.total != c.total || a.sha256 != c.sha256
             || (c.index !in a.parts && a.size + |GoDecode(c.data).value| > 134_217_728)
    ensures var r := Go.AcceptChunk(w, items, c, now); r.1 == Broken && c.id !in r.0
  {
    hide GoDecode, Go.Finish, Go.HasAll;
  }

  lemma {:induction false} JoinLength(parts: map<int, Bytes>, n: nat)
    requires forall i | 0 <= i < n :: i in parts
    ensures |Join(parts, n)| == Sizes(parts, n)
  {
    if n > 0 {
      JoinLength(parts, n - 1);
    }
  }

  /** A message that was put together has the digest its chunks announced, is valid JSON and at most 128 MiB. */
  lemma GoChecksMessages(w: World, items: Go.Items, c: Chunk, now: int)
    requires Go.GoodItems(items) && Go.AcceptChunk(w, items, c, now).1.Complete?
    ensures var m := Go.AcceptChunk(w, items, c, now).1.message;
            w.digest(m) == c.sha256 && w.valid(m) && |m| <= 134_217_728
  {
    hide GoDecode, Go.GoodItems, Join, Sizes, Go.Prune;
    var part := GoDecode(c.data).value;
    var a := Go.Lookup(Go.Prune(items, now), c, now);
    Go.LookupIsGood(items, c, now);
    Go.AddKeepsSize(a, c.index, part, now);
    var b := Go.Add(a, c.index, part, now);
    JoinLength(b.parts, b.total);
  }

  // ---------------------------------------------------------------- TypeScript

  predicate TsChunk(c: Chunk) {
    c.version == 1 && |c.sha256| == 64 && forall x | x in c.sha256 :: '0' <= x <= '9' || 'a' <= x <= 'f'
  }

  predicate TsAdmits(c: Chunk) {
    1 <= c.total <= 4096 && 0 <= c.index < c.total
  }

  lemma TsPrunes(open: Ts.Open, now: int)
    ensures var kept := Ts.Prune(open, now);
            && (forall id :: id in kept <==> id in open && open[id].createdAt >= now - 30_000)
            && (forall id | id in kept :: kept[id] == open[id])
  {
  }

  /** Every value lets the streams go that began more than 30 seconds ago. What is no envelope of the right shape
      passes through as it is, and an envelope with an impossible index is refused; neither touches the rest. */
  lemma TsRefuses(w: World, open: Ts.Open, frame: Bytes, now: int)
    requires Ts.Shaped(open)
    ensures var r := Ts.Accept(w, open, frame, now);
            && (!w.parse(frame).Envelope? || !TsChunk(w.parse(frame).chunk) ==>
                  r == (Ts.Prune(open, now), Complete(frame)))
            && (w.parse(frame).Envelope? && TsChunk(w.parse(frame).chunk) && !TsAdmits(w.parse(frame).chunk) ==>
                  r == (Ts.Prune(open, now), Broken))
  {
    hide Ts.Insert, Ts.Prune;
  }

  /** One stream at most is touched: taken out, or set to an assembly of the given age. */
  ghost predicate TouchesOnly(kept: Ts.Open, next: Ts.Open, id: string, createdAt: int) {
    next == kept || next == kept - {id} ||
    exists b: Ts.Assembly :: next == kept[id := b] && b.createdAt == createdAt
  }

  lemma TsPartTouches(w: World, kept: Ts.Open, id: string, a: Ts.Assembly, i: nat, part: Bytes)
    requires i < |a.chunks|
    ensures TouchesOnly(kept, Ts.InsertPart(w, kept, id, a, i, part).0, id, a.createdAt)
  {
    hide Ts.Finish, Ts.Complete?;
    var b := Ts.Add(a, i, part);
    assert b.createdAt == a.createdAt;
  }

  lemma TsInsertTouches(w: World, kept: Ts.Open, c: Chunk, now: int)
    requires Ts.Shaped(kept) && 0 <= c.index < c.total
    ensures TouchesOnly(kept, Ts.Insert(w, kept, c, now).0, c.id, Ts.Lookup(kept, c, now).createdAt)
    ensures c.id !in kept && |kept| >= 32 ==> Ts.Insert(w, kept, c, now).0 == kept
  {
    hide AtobDecode, Ts.InsertPart, TouchesOnly;
    var a := Ts.Lookup(kept, c, now);
    Touching(kept, c.id, a);
    if a.total == c.total && AtobDecode(c.data).Some? {
      TsPartTouches(w, kept, c.id, a, c.index, AtobDecode(c.data).value);
    }
  }

  lemma Touching(kept: Ts.Open, id: string, a: Ts.Assembly)
    ensures TouchesOnly(kept, kept, id, a.createdAt) && TouchesOnly(kept, kept - {id}, id, a.createdAt)
    ensures TouchesOnly(kept, kept[id := a], id, a.createdAt)
  {
  }

  lemma TsKeepsTheRest(w: World, kept: Ts.Open, c: Chunk, now: int)
    requires Ts.Shaped(kept) && 0 <= c.index < c.total
    ensures var next := Ts.Insert(w, kept, c, now).0;
            && next - {c.id} == kept - {c.id}
            && (c.id in next ==> next[c.id].createdAt == if c.id in kept then kept[c.id].createdAt else now)
            && (c.id !in kept && |kept| >= 32 ==> next == kept)
  {
    hide Ts.Insert;
    TsInsertTouches(w, kept, c, now);
  }

  lemma OneMore(kept: Ts.Open, next: Ts.Open, id: string)
    requires next - {id} == kept - {id} && |kept| <= 32 && (id !in kept && |kept| >= 32 ==> next == kept)
    ensures |next| <= 32
  {
    var rest := kept.Keys - {id};
    assert next.Keys - {id} == (next - {id}).Keys == (kept - {id}).Keys == rest;
    assert |next| == |next.Keys| && |kept| == |kept.Keys|;
    if id in next {
      assert next.Keys == rest + {id};
    } else {
      assert next.Keys == rest;
    }
    if id in kept {
      assert kept.Keys == rest + {id};
    } else {
      assert kept.Keys == rest;
    }
  }

  /** After every value no stream is older than 30 seconds and, from a table that holds at most 32 streams, at
      most 32 are open; the streams of others that are young enough stay as they were. */
  lemma TsStaysBounded(w: World, open: Ts.Open, frame: Bytes, now: int)
    requires Ts.Shaped(open)
    ensures var next := Ts.Accept(w, open, frame, now).0;
            && (forall id | id in next :: next[id].createdAt >= now - 30_000)
            && (|open| <= 32 ==> |next| <= 32)
            && (forall id | id in open && open[id].createdAt >= now - 30_000 &&
                            !(w.parse(frame).Envelope? && w.parse(frame).chunk.id == id) ::
                  id in next && next[id] == open[id])
  {
    hide Ts.Insert, Ts.Prune;
    var kept, next := Ts.Prune(open, now), Ts.Accept(w, open, frame, now).0;
    TsPrunes(open, now);
    SubsetCount(kept.Keys, open.Keys);
    assert |kept| == |kept.Keys| && |open| == |open.Keys|;
    if next != kept {
      var c := w.parse(frame).chunk;
      TsKeepsTheRest(w, kept, c, now);
      if |open| <= 32 {
        OneMore(kept, next, c.id);
      }
      forall id | id != c.id
        ensures id in next <==> id in kept
        ensures id in next ==> next[id] == kept[id]
      {
        assert id in next - {c.id} <==> id in kept - {c.id};
        assert id in next ==> (next - {c.id})[id] == (kept - {c.id})[id];
      }
    }
  }

  /** A stream that is young enough is dropped and the chunk refused when its total or digest changes, when
      other bytes come for an index it holds, or when a new part takes the parts beyond 128 MiB. A new stream
      is refused when 32 are open, and data that does not decode always. */
  lemma TsDropsBadStreams(w: World, open: Ts.Open, frame: Bytes, now: int)
    requires Ts.Shaped(open) && w.parse(frame).Envelope?
    requires var c := w.parse(frame).chunk; TsChunk(c) && TsAdmits(c)
    ensures var c, r := w.parse(frame).chunk, Ts.Accept(w, open, frame, now);
            && (c.id !in Ts.Prune(open, now) && |Ts.Prune(open, now)| >= 32 ==>
                  r.1 == Broken && r.0 == Ts.Prune(open, now))
            && (c.id in Ts.Prune(open, now) && BadFor(open[c.id], c) ==> r.1 == Broken && c.id !in r.0)
            && (AtobDecode(c.data).None? ==> r.1 == Broken && forall id | id in r.0 && id != c.id :: id in open)
  {
    hide AtobDecode, Ts.Finish, Ts.Complete?, Ts.Prune;
    TsPrunes(open, now);
  }

  /** The chunk contradicts what is held, or takes it over the limit. */
  predicate BadFor(a: Ts.Assembly, c: Chunk) {
    || a.total != c.total || a.sha256 != c.sha256
    || (AtobDecode(c.data).Some? && 0 <= c.index < |a.chunks| &&
        if a.chunks[c.index].Some? then a.chunks[c.index].value != AtobDecode(c.data).value
        else a.size + |AtobDecode(c.data).value| > 134_217_728)
  }

  /** A message that was put together has the digest its chunks announced and is valid JSON. */
  lemma TsChecksMessages(w: World, open: Ts.Open, frame: Bytes, now: int)
    requires Ts.Shaped(open) && w.parse(frame).Envelope?
    requires var c := w.parse(frame).chunk; TsChunk(c) && TsAdmits(c)
    requires Ts.Accept(w, open, frame, now).1.Complete?
    ensures var m := Ts.Accept(w, open, frame, now).1.message;
            w.digest(m) == w.parse(frame).chunk.sha256 && w.valid(m)
  {
    hide AtobDecode, Ts.Flatten, Ts.Prune;
  }
}
