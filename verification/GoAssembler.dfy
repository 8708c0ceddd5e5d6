/** The reassembler of internal/nativemsg/native.go, and what it returns for chunks that arrive in
    any order, repeated and mixed with other traffic. */
module GoAssembler {
  import opened Options
  import opened Numbers
  import opened Base64
  import opened Chunks

  const MINUTE := 60_000

  datatype Assembly = Assembly(total: int, sha256: string, parts: map<int, Bytes>, size: int, updatedAt: int)

  type Items = map<string, Assembly>

  predicate GoodMetadata(c: Chunk) {
    c.version == 1 && c.id != "" && 1 <= c.total <= MAX_CHUNKS && 0 <= c.index < c.total && c.sha256 != ""
  }

  function Prune(items: Items, now: int): Items {
    map id | id in items && now - items[id].updatedAt <= MINUTE :: items[id]
  }

  /** The assembly a chunk joins: the one under its id or a new one. */
  function Lookup(items: Items, c: Chunk, now: int): Assembly {
    if c.id in items then items[c.id] else Assembly(c.total, c.sha256, map[], 0, now)
  }

  function Add(a: Assembly, i: int, part: Bytes, now: int): Assembly {
    if i in a.parts then a.(updatedAt := now)
    else a.(parts := a.parts[i := part], size := a.size + |part|, updatedAt := now)
  }

  predicate HasAll(a: Assembly) {
    forall i | 0 <= i < a.total :: i in a.parts
  }

  function Finish(w: World, a: Assembly): (r: Outcome)
    requires a.total >= 0 && HasAll(a)
    ensures !r.Incomplete? && (r.Complete? ==> w.valid(r.message))
  {
    var message := Join(a.parts, a.total);
    if w.digest(message) != a.sha256 || !w.valid(message) then Broken else Complete(message)
  }

  /** What happens to a chunk with good metadata and decoded data once idle streams are gone. */
  function Insert(w: World, kept: Items, c: Chunk, part: Bytes, now: int): (Items, Outcome)
    requires c.total >= 0
  {
    var a := Lookup(kept, c, now);
    if a.total != c.total || a.sha256 != c.sha256 then (kept - {c.id}, Broken)
    else
      var b := Add(a, c.index, part, now);
      if b.size > MAX_ASSEMBLED then (kept - {c.id}, Broken)
      else if |b.parts| != b.total || !HasAll(b) then (kept[c.id := b], Incomplete)
      else (kept - {c.id}, Finish(w, b))
  }

  function Store(w: World, items: Items, c: Chunk, part: Bytes, now: int): (Items, Outcome)
    requires c.total >= 0
  {
    Insert(w, Prune(items, now), c, part, now)
  }

  function AcceptChunk(w: World, items: Items, c: Chunk, now: int): (Items, Outcome) {
    if !GoodMetadata(c) || GoDecode(c.data).None? then (items, Broken)
    else Store(w, items, c, GoDecode(c.data).value, now)
  }

  function AcceptFrame(w: World, items: Items, frame: Bytes, now: int): (Items, Outcome) {
    if !w.valid(frame) then (items, Broken)
    else match w.parse(frame)
      case Malformed => (items, Broken)
      case Plain => (items, Complete(frame))
      case Envelope(c) => AcceptChunk(w, items, c, now)
  }

  // ---------------------------------------------------------------- what is retained

  ghost predicate GoodAssembly(a: Assembly) {
    && 1 <= a.total <= MAX_CHUNKS && a.parts.Keys <= Indices(a.total)
    && a.size == Sizes(a.parts, a.total) && a.size <= MAX_ASSEMBLED
  }

  /** Retained assemblies are sized by their parts, within the cap and never full. */
  ghost predicate GoodItems(items: Items) {
    forall id | id in items :: GoodAssembly(items[id]) && |items[id].parts| < items[id].total
  }

  lemma AddKeepsSize(a: Assembly, i: int, part: Bytes, now: int)
    requires 0 <= i < a.total <= MAX_CHUNKS && a.parts.Keys <= Indices(a.total) && a.size == Sizes(a.parts, a.total)
    ensures var b := Add(a, i, part, now); b.parts.Keys <= Indices(b.total) && b.size == Sizes(b.parts, b.total)
  {
    if i !in a.parts {
      SizesFrame(a.parts, i, part, a.total);
    }
  }

  lemma {:induction false} NoParts(n: nat)
    ensures Sizes(map[], n) == 0
  {
    if n > 0 {
      NoParts(n - 1);
    }
  }

  /** When the count of parts equals the total, none is missing: the loop that joins them never
      takes its early return. */
  lemma FullMeansAll(a: Assembly)
    requires GoodAssembly(a)
    ensures |a.parts| == a.total <==> HasAll(a)
  {
    Pigeonhole(a.parts, a.total);
  }

  lemma LookupIsGood(items: Items, c: Chunk, now: int)
    requires GoodItems(items) && GoodMetadata(c)
    ensures GoodAssembly(Lookup(Prune(items, now), c, now))
  {
    hide Sizes, Indices;
    NoParts(c.total);
  }

  /** Either the stream's entry goes, or the assembly grows by the chunk and stays below its total. */
  lemma StoreShape(w: World, items: Items, c: Chunk, part: Bytes, now: int)
    requires c.total >= 0
    ensures var next := Store(w, items, c, part, now).0;
            var kept := Prune(items, now);
            var a := Lookup(kept, c, now);
            var b := Add(a, c.index, part, now);
            || next == kept - {c.id}
            || (next == kept[c.id := b] && a.total == c.total && b.size <= MAX_ASSEMBLED &&
                (|b.parts| != b.total || !HasAll(b)))
  {
  }

  lemma StoreKeepsItems(w: World, items: Items, c: Chunk, part: Bytes, now: int)
    requires GoodItems(items) && GoodMetadata(c)
    ensures GoodItems(Store(w, items, c, part, now).0)
  {
    hide Sizes, Indices, Store, Lookup, Add, HasAll;
    var a := Lookup(Prune(items, now), c, now);
    StoreShape(w, items, c, part, now);
    LookupIsGood(items, c, now);
    if a.total == c.total {
      var b := Add(a, c.index, part, now);
      AddKeepsSize(a, c.index, part, now);
      AddKeepsTotal(a, c.index, part, now);
      if b.size <= MAX_ASSEMBLED {
        FullMeansAll(b);
        Pigeonhole(b.parts, b.total);
      }
    }
  }

  lemma AddKeepsTotal(a: Assembly, i: int, part: Bytes, now: int)
    ensures var b := Add(a, i, part, now);
            b.total == a.total && b.sha256 == a.sha256 && b.updatedAt == now && b.parts.Keys == a.parts.Keys + {i}
  {
  }

  lemma AcceptKeepsItems(w: World, items: Items, frame: Bytes, now: int)
    requires GoodItems(items)
    ensures GoodItems(AcceptFrame(w, items, frame, now).0)
  {
    hide Store, GoDecode, GoodItems;
    if w.valid(frame) && w.parse(frame).Envelope? {
      var c := w.parse(frame).chunk;
      if GoodMetadata(c) && GoDecode(c.data).Some? {
        StoreKeepsItems(w, items, c, GoDecode(c.data).value, now);
      }
    }
  }

  // ---------------------------------------------------------------- one stream among others

  /** A message, cut every k bytes under a stream id, that the receiver's limits admit. */
  datatype Stream = Stream(raw: Bytes, k: nat, id: string)

  ghost predicate Admissible(w: World, x: Stream) {
    && x.k > 0 && x.id != "" && w.digest(x.raw) != "" && w.valid(x.raw)
    && 1 <= CeilDiv(|x.raw|, x.k) <= MAX_CHUNKS && |x.raw| <= MAX_ASSEMBLED
  }

  function Total(x: Stream): nat
    requires x.k > 0
  {
    CeilDiv(|x.raw|, x.k)
  }

  /** What the assembler holds for x after the indices in `seen`, the last of them at `last`. */
  ghost predicate Holds(w: World, items: Items, x: Stream, seen: set<int>, last: int)
    requires x.k > 0
  {
    if seen == {} then x.id !in items
    else
      && x.id in items
      && var a := items[x.id];
         && a.total == Total(x) && a.sha256 == w.digest(x.raw) && a.updatedAt == last
         && a.parts.Keys == seen && (forall i | i in seen :: 0 <= i < Total(x) && a.parts[i] == Part(x.raw, x.k, i))
  }

  /** A frame belongs to x when it unmarshals to an envelope with its id. */
  predicate ForStream(w: World, x: Stream, frame: Bytes) {
    w.valid(frame) && w.parse(frame).Envelope? && w.parse(frame).chunk.id == x.id
  }

  /** ... and it is genuine when the envelope is one of the chunks the encoder made. */
  ghost predicate Genuine(w: World, x: Stream, frame: Bytes)
    requires x.k > 0
  {
    ForStream(w, x, frame) ==>
      var c := w.parse(frame).chunk;
      0 <= c.index < Total(x) && c == ChunkAt(w, x.raw, x.k, x.id, c.index)
  }

  function Index(w: World, frame: Bytes): int {
    match w.parse(frame) case Envelope(c) => c.index case _ => -1
  }

  lemma StreamPart(w: World, x: Stream, i: int)
    requires Admissible(w, x) && 0 <= i < Total(x)
    ensures var c := ChunkAt(w, x.raw, x.k, x.id, i);
            GoodMetadata(c) && GoDecode(c.data) == Some(Part(x.raw, x.k, i)) && c.total == Total(x) && c.index == i
  {
    hide GoDecode, Encode, Part;
    GoRoundTrip(Part(x.raw, x.k, i));
  }

  /** Adding a genuine part keeps the size within the message, so the cap is never the reason. */
  lemma StreamFits(w: World, x: Stream, a: Assembly, i: int, now: int)
    requires Admissible(w, x) && GoodAssembly(a) && a.total == Total(x) && 0 <= i < Total(x)
    requires forall j | j in a.parts :: 0 <= j < Total(x) && a.parts[j] == Part(x.raw, x.k, j)
    ensures GoodAssembly(Add(a, i, Part(x.raw, x.k, i), now))
  {
    hide Part;
    var b := Add(a, i, Part(x.raw, x.k, i), now);
    AddKeepsSize(a, i, Part(x.raw, x.k, i), now);
    SizesBound(x.raw, x.k, Total(x), b.parts);
  }

  /** A genuine chunk of x: the message comes out exactly when it was the last one missing. */
  lemma StreamFrameStep(w: World, items: Items, x: Stream, seen: set<int>, last: int, frame: Bytes, now: int)
    requires Admissible(w, x) && GoodItems(items) && Holds(w, items, x, seen, last)
    requires seen < Indices(Total(x)) && ForStream(w, x, frame) && Genuine(w, x, frame)
    requires seen != {} ==> now - last <= MINUTE
    ensures var (next, out) := AcceptFrame(w, items, frame, now);
            var more := seen + {Index(w, frame)};
            if more == Indices(Total(x)) then out == Complete(x.raw) && x.id !in next
            else out == Incomplete && Holds(w, next, x, more, now) && more < Indices(Total(x))
  {
    hide GoDecode, Encode, Part, CeilDiv, Join, Sizes;
    var c := w.parse(frame).chunk;
    StreamPart(w, x, c.index);
    StreamStoreStep(w, items, x, seen, last, c, now);
  }

  lemma StreamLookup(w: World, items: Items, x: Stream, seen: set<int>, last: int, c: Chunk, now: int)
    requires Admissible(w, x) && GoodItems(items) && Holds(w, items, x, seen, last)
    requires c.id == x.id && c.total == Total(x) && c.sha256 == w.digest(x.raw) && GoodMetadata(c)
    requires seen != {} ==> now - last <= MINUTE
    ensures var a := Lookup(Prune(items, now), c, now);
            && GoodAssembly(a) && a.total == Total(x) && a.sha256 == w.digest(x.raw) && a.parts.Keys == seen
            && forall i | i in seen :: 0 <= i < Total(x) && a.parts[i] == Part(x.raw, x.k, i)
  {
    hide Part, CeilDiv, Sizes, Indices;
    LookupIsGood(items, c, now);
  }

  /** The assembly after a genuine chunk. */
  lemma StreamAdd(w: World, x: Stream, a: Assembly, seen: set<int>, i: int, now: int)
    requires Admissible(w, x) && GoodAssembly(a) && a.total == Total(x) && a.sha256 == w.digest(x.raw)
    requires a.parts.Keys == seen && 0 <= i < Total(x)
    requires forall j | j in seen :: 0 <= j < Total(x) && a.parts[j] == Part(x.raw, x.k, j)
    ensures var b := Add(a, i, Part(x.raw, x.k, i), now);
            && GoodAssembly(b) && b.total == Total(x) && b.sha256 == w.digest(x.raw) && b.updatedAt == now
            && b.parts.Keys == seen + {i}
            && (forall j | j in seen + {i} :: 0 <= j < Total(x) && b.parts[j] == Part(x.raw, x.k, j))
            && (HasAll(b) <==> seen + {i} == Indices(Total(x)))
            && (HasAll(b) <==> |b.parts| == b.total)
  {
    hide Part, CeilDiv, Sizes, Indices;
    var b := Add(a, i, Part(x.raw, x.k, i), now);
    StreamFits(w, x, a, i, now);
    FullMeansAll(b);
    assert HasAll(b) <==> b.parts.Keys == Indices(Total(x));
  }

  lemma StreamStoreStep(w: World, items: Items, x: Stream, seen: set<int>, last: int, c: Chunk, now: int)
    requires Admissible(w, x) && GoodItems(items) && Holds(w, items, x, seen, last) && GoodMetadata(c)
    requires seen < Indices(Total(x)) && 0 <= c.index < Total(x) && c == ChunkAt(w, x.raw, x.k, x.id, c.index)
    requires seen != {} ==> now - last <= MINUTE
    ensures var (next, out) := Store(w, items, c, Part(x.raw, x.k, c.index), now);
            var more := seen + {c.index};
            if more == Indices(Total(x)) then out == Complete(x.raw) && x.id !in next
            else out == Incomplete && Holds(w, next, x, more, now) && more < Indices(Total(x))
  {
    hide Encode, Part, CeilDiv, Join, Sizes, GoDecode, Lookup, GoodItems, Indices, Prune, Add, HasAll, GoodAssembly;
    var a := Lookup(Prune(items, now), c, now);
    StreamLookup(w, items, x, seen, last, c, now);
    StreamAdd(w, x, a, seen, c.index, now);
    var b := Add(a, c.index, Part(x.raw, x.k, c.index), now);
    SizeCap(b);
    if seen + {c.index} == Indices(Total(x)) {
      AllParts(x.raw, x.k, b.parts);
    }
  }

  lemma SizeCap(a: Assembly)
    requires GoodAssembly(a)
    ensures a.size <= MAX_ASSEMBLED && a.total >= 1
  {
  }

  // ---------------------------------------------------------------- whole deliveries

  datatype Delivery = Delivery(frame: Bytes, now: int)

  /** The assembler's table after some deliveries. */
  function RunItems(w: World, items: Items, ds: seq<Delivery>): Items {
    if ds == [] then items
    else
      var d := ds[|ds| - 1];
      AcceptFrame(w, RunItems(w, items, ds[..|ds| - 1]), d.frame, d.now).0
  }

  /** What Accept returns for delivery p. */
  function OutcomeAt(w: World, items: Items, ds: seq<Delivery>, p: nat): Outcome
    requires p < |ds|
  {
    AcceptFrame(w, RunItems(w, items, ds[..p]), ds[p].frame, ds[p].now).1
  }

  /** The indices of x delivered so far, and when the last one came. */
  function Seen(w: World, x: Stream, ds: seq<Delivery>): set<int> {
    if ds == [] then {}
    else
      var d := ds[|ds| - 1];
      Seen(w, x, ds[..|ds| - 1]) + if ForStream(w, x, d.frame) then {Index(w, d.frame)} else {}
  }

  function LastAt(w: World, x: Stream, ds: seq<Delivery>): int {
    if ds == [] then 0
    else
      var d := ds[|ds| - 1];
      if ForStream(w, x, d.frame) then d.now else LastAt(w, x, ds[..|ds| - 1])
  }

  /** Every frame under x's id is genuine and, once begun, x is never idle for more than a minute. */
  ghost predicate Healthy(w: World, x: Stream, ds: seq<Delivery>)
    requires x.k > 0
  {
    forall p | 0 <= p < |ds| ::
      Genuine(w, x, ds[p].frame) && (Seen(w, x, ds[..p]) != {} ==> ds[p].now - LastAt(w, x, ds[..p]) <= MINUTE)
  }

  lemma {:induction false} StreamIsHeld(w: World, items: Items, x: Stream, ds: seq<Delivery>)
    requires Admissible(w, x) && GoodItems(items) && x.id !in items && Healthy(w, x, ds)
    requires Seen(w, x, ds) < Indices(Total(x))
    ensures GoodItems(RunItems(w, items, ds))
    ensures Holds(w, RunItems(w, items, ds), x, Seen(w, x, ds), LastAt(w, x, ds))
    decreases |ds|
  {
    hide AcceptFrame, Holds, GoodItems, Genuine, ForStream, Index, Indices, Total;
    if ds == [] {
      EmptyHolds(w, items, x);
    } else {
      var n := |ds| - 1;
      HealthyPrefix(w, x, ds, n);
      assert ds[..n] == ds[..n];
      var before := RunItems(w, items, ds[..n]);
      StreamIsHeld(w, items, x, ds[..n]);
      AcceptKeepsItems(w, before, ds[n].frame, ds[n].now);
      StepIsHeld(w, before, x, Seen(w, x, ds[..n]), LastAt(w, x, ds[..n]), ds[n]);
    }
  }

  lemma EmptyHolds(w: World, items: Items, x: Stream)
    requires x.k > 0 && x.id !in items
    ensures Holds(w, items, x, {}, 0)
  {
  }

  lemma HealthyPrefix(w: World, x: Stream, ds: seq<Delivery>, n: nat)
    requires x.k > 0 && Healthy(w, x, ds) && n <= |ds|
    ensures Healthy(w, x, ds[..n])
  {
    hide Genuine, Seen, LastAt;
    forall p | 0 <= p < n
      ensures Genuine(w, x, ds[..n][p].frame)
      ensures Seen(w, x, ds[..n][..p]) != {} ==> ds[..n][p].now - LastAt(w, x, ds[..n][..p]) <= MINUTE
    {
      assert ds[..n][..p] == ds[..p];
    }
  }

  lemma StepIsHeld(w: World, items: Items, x: Stream, seen: set<int>, last: int, d: Delivery)
    requires Admissible(w, x) && GoodItems(items) && Holds(w, items, x, seen, last) && Genuine(w, x, d.frame)
    requires seen != {} ==> d.now - last <= MINUTE
    requires seen + (if ForStream(w, x, d.frame) then {Index(w, d.frame)} else {}) < Indices(Total(x))
    ensures Holds(w, AcceptFrame(w, items, d.frame, d.now).0, x,
                  seen + (if ForStream(w, x, d.frame) then {Index(w, d.frame)} else {}),
                  if ForStream(w, x, d.frame) then d.now else last)
  {
    hide AcceptFrame, GoodItems, Genuine, ForStream, Index, Indices;
    if ForStream(w, x, d.frame) {
      StreamFrameStep(w, items, x, seen, last, d.frame, d.now);
    } else {
      assert seen + {} == seen;
      OtherFrameKeepsAny(w, items, x, seen, last, d.frame, d.now);
    }
  }

  lemma OtherFrameKeepsAny(w: World, items: Items, x: Stream, seen: set<int>, last: int, frame: Bytes, now: int)
    requires x.k > 0 && Holds(w, items, x, seen, last) && !ForStream(w, x, frame)
    requires seen != {} ==> now - last <= MINUTE
    ensures Holds(w, AcceptFrame(w, items, frame, now).0, x, seen, last)
  {
  }

  /** Chunks of a message in any order, repeated, mixed with any other traffic: as long as an index is
      still missing before delivery p, the delivery of one of its chunks returns exactly the message
      if it was the last one missing, and nothing otherwise. */
  lemma MessageComesOutOnce(w: World, items: Items, x: Stream, ds: seq<Delivery>, p: nat)
    requires Admissible(w, x) && GoodItems(items) && x.id !in items && Healthy(w, x, ds)
    requires p < |ds| && ForStream(w, x, ds[p].frame) && Seen(w, x, ds[..p]) < Indices(Total(x))
    ensures OutcomeAt(w, items, ds, p) ==
            if Seen(w, x, ds[..p + 1]) == Indices(Total(x)) then Complete(x.raw) else Incomplete
    ensures Seen(w, x, ds[..p + 1]) == Seen(w, x, ds[..p]) + {Index(w, ds[p].frame)}
  {
    hide AcceptFrame, Holds, GoodItems, Genuine, ForStream, Index, Indices, Total, RunItems, LastAt;
    HealthyPrefix(w, x, ds, p);
    StreamIsHeld(w, items, x, ds[..p]);
    assert ds[..p + 1][..p] == ds[..p] && ds[..p + 1][p] == ds[p];
    StreamFrameStep(w, RunItems(w, items, ds[..p]), x, Seen(w, x, ds[..p]), LastAt(w, x, ds[..p]), ds[p].frame,
        ds[p].now);
  }

  // ---------------------------------------------------------------- the assembler in place

  class Assembler {
    var items: Items

    constructor ()
      ensures items == map[] && GoodItems(items)
    {
      items := map[];
    }

    method DropIdle(now: int)
      modifies this
      ensures items == Prune(old(items), now)
    {
      var rest := items.Keys;
      ghost var done: set<string> := {};
      while rest != {}
        invariant done !! rest && done + rest == old(items).Keys
        invariant items ==
                  map id | id in old(items) && !(id in done && now - old(items)[id].updatedAt > MINUTE) ::
                    old(items)[id]
      {
        var id :| id in rest;
        if now - items[id].updatedAt > MINUTE {
          items := items - {id};
        }
        rest, done := rest - {id}, done + {id};
      }
    }

    method Accept(w: World, frame: Bytes, now: int) returns (out: Outcome)
      requires GoodItems(items)
      modifies this
      ensures GoodItems(items) && (items, out) == AcceptFrame(w, old(items), frame, now)
    {
      AcceptKeepsItems(w, items, frame, now);
      if !w.valid(frame) {
        return Broken;
      }
      match w.parse(frame) {
        case Malformed => return Broken;
        case Plain => return Complete(frame);
        case Envelope(c) => out := AcceptEnvelope(w, c, now);
      }
    }

    method AcceptEnvelope(w: World, c: Chunk, now: int) returns (out: Outcome)
      modifies this
      ensures (items, out) == AcceptChunk(w, old(items), c, now)
    {
      if c.version != 1 || c.id == "" || c.total < 1 || c.total > MAX_CHUNKS || c.index < 0 || c.index >= c.total ||
          c.sha256 == "" {
        return Broken;
      }
      var decoded := GoDecode(c.data);
      if decoded.None? {
        return Broken;
      }
      DropIdle(now);
      out := AddPart(w, c, decoded.value, now);
    }

    method AddPart(w: World, c: Chunk, part: Bytes, now: int) returns (out: Outcome)
      requires GoodMetadata(c)
      modifies this
      ensures (items, out) == Insert(w, old(items), c, part, now)
    {
      hide Finish, HasAll, Join;
      var item := Assembly(c.total, c.sha256, map[], 0, now);
      if c.id in items {
        item := items[c.id];
      }
      items := items[c.id := item];
      assert items - {c.id} == old(items) - {c.id};
      if item.total != c.total || item.sha256 != c.sha256 {
        items := items - {c.id};
        return Broken;
      }
      if c.index !in item.parts {
        item := item.(parts := item.parts[c.index := part], size := item.size + |part|);
      }
      item := item.(updatedAt := now);
      assert item == Add(Lookup(old(items), c, now), c.index, part, now);
      items := items[c.id := item];
      assert items == old(items)[c.id := item] && items - {c.id} == old(items) - {c.id};
      if item.size > MAX_ASSEMBLED {
        items := items - {c.id};
        return Broken;
      }
      if |item.parts| != item.total {
        return Incomplete;
      }
      out := JoinParts(w, c, item);
      if out != Incomplete {
        items := items - {c.id};
      }
    }

    /** The loop over the parts, with its early return, and the two checks after it. */
    method JoinParts(w: World, c: Chunk, item: Assembly) returns (out: Outcome)
      requires item.total >= 0 && item.sha256 == c.sha256
      ensures out == if HasAll(item) then Finish(w, item) else Incomplete
    {
      var result := [];
      for index := 0 to item.total
        invariant forall i | 0 <= i < index :: i in item.parts
        invariant result == Join(item.parts, index)
      {
        if index !in item.parts {
          return Incomplete;
        }
        result := result + item.parts[index];
      }
      if w.digest(result) != c.sha256 || !w.valid(result) {
        return Broken;
      }
      return Complete(result);
    }
  }
}
