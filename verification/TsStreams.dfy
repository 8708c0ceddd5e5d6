/**
 Go's encoder into the TypeScript assembler of apps/extension/src/chunk-codec.ts: one stream among
 arbitrary other traffic, with expiry and the bound on open streams at work.
 */
module TsStreams {
  import opened Options
  import opened Numbers
  import opened Base64
  import opened Chunks
  import opened TsAssembler
  import Go = GoAssembler

  /** A posted value belongs to x when it is an envelope with its id. */
  predicate ForStream(w: World, x: Go.Stream, frame: Bytes) {
    w.parse(frame).Envelope? && w.parse(frame).chunk.id == x.id
  }

  /** ... and it is genuine when the envelope is one of the chunks the encoder made. */
  ghost predicate Genuine(w: World, x: Go.Stream, frame: Bytes)
    requires x.k > 0
  {
    ForStream(w, x, frame) ==>
      var c := w.parse(frame).chunk;
      0 <= c.index < Go.Total(x) && c == ChunkAt(w, x.raw, x.k, x.id, c.index)
  }

  // ---------------------------------------------------------------- what is held for one stream

  ghost function PartsOf(x: Go.Stream, seen: set<int>): map<int, Bytes>
    requires x.k > 0 && forall i | i in seen :: 0 <= i
  {
    map i | i in seen :: Part(x.raw, x.k, i)
  }

  /** What Go would hold after the same indices. */
  ghost function GoView(w: World, x: Go.Stream, seen: set<int>): Go.Assembly
    requires x.k > 0 && forall i | i in seen :: 0 <= i
  {
    Go.Assembly(Go.Total(x), w.digest(x.raw), PartsOf(x, seen), Sizes(PartsOf(x, seen), Go.Total(x)), 0)
  }

  /** What the assembler holds for x after the indices in `seen`, the first of them at `first`. */
  ghost predicate Holds(w: World, open: Open, x: Go.Stream, seen: set<int>, first: int)
    requires x.k > 0
  {
    && seen <= Indices(Go.Total(x))
    && if seen == {} then x.id !in open
       else x.id in open && open[x.id].createdAt == first && SameAssembly(GoView(w, x, seen), open[x.id])
  }

  lemma ViewIsGood(w: World, x: Go.Stream, seen: set<int>)
    requires Go.Admissible(w, x) && seen <= Indices(Go.Total(x))
    ensures Go.GoodAssembly(GoView(w, x, seen))
  {
    hide Part, CeilDiv;
    SizesBound(x.raw, x.k, Go.Total(x), PartsOf(x, seen));
  }

  /** One more genuine part: the view grows by it, and is complete exactly when none is missing. */
  lemma ViewGrows(w: World, x: Go.Stream, seen: set<int>, i: int)
    requires Go.Admissible(w, x) && seen <= Indices(Go.Total(x)) && i in Indices(Go.Total(x))
    ensures var b := Go.Add(GoView(w, x, seen), i, Part(x.raw, x.k, i), 0);
            && b == GoView(w, x, seen + {i}) && b.size <= MAX_ASSEMBLED
            && (Go.HasAll(b) <==> seen + {i} == Indices(Go.Total(x)))
            && (Go.HasAll(b) ==> Go.Finish(w, b) == Complete(x.raw))
  {
    hide Part, CeilDiv, Sizes, Indices, Join;
    ViewIsGood(w, x, seen);
    var b := Go.Add(GoView(w, x, seen), i, Part(x.raw, x.k, i), 0);
    Go.StreamAdd(w, x, GoView(w, x, seen), seen, i, 0);
    assert b.parts == PartsOf(x, seen + {i});
    if Go.HasAll(b) {
      AllParts(x.raw, x.k, b.parts);
    }
  }

  lemma EmptyView(w: World, x: Go.Stream, now: int)
    requires x.k > 0
    ensures SameAssembly(GoView(w, x, {}), Assembly(now, Go.Total(x), w.digest(x.raw), 0, Blank(Go.Total(x))))
  {
    hide CeilDiv, Part;
    assert PartsOf(x, {}) == map[];
    Go.NoParts(Go.Total(x));
  }

  // ---------------------------------------------------------------- one frame

  lemma PartStep(w: World, kept: Open, x: Go.Stream, seen: set<int>, a: Assembly, i: nat)
    requires Go.Admissible(w, x) && seen <= Indices(Go.Total(x)) && i in Indices(Go.Total(x))
    requires SameAssembly(GoView(w, x, seen), a)
    ensures var more := seen + {i};
            var (next, out) := InsertPart(w, kept, x.id, a, i, Part(x.raw, x.k, i));
            if more == Indices(Go.Total(x)) then out == Complete(x.raw)
            else out == Incomplete && Holds(w, next, x, more, a.createdAt)
  {
    hide Part, CeilDiv, Sizes, Go.Finish, Finish, Go.HasAll, Complete?, Flatten;
    var g := GoView(w, x, seen);
    var b := Add(a, i, Part(x.raw, x.k, i));
    ViewGrows(w, x, seen, i);
    AddAgrees(g, a, i, Part(x.raw, x.k, i), 0);
    CompletionAgrees(GoView(w, x, seen + {i}), b);
    if Complete?(b.chunks) {
      FinishAgrees(w, GoView(w, x, seen + {i}), b);
    }
  }

  lemma ChunkIsAccepted(w: World, x: Go.Stream, i: int)
    requires Go.Admissible(w, x) && Digests(w) && 0 <= i < Go.Total(x)
    ensures var c := ChunkAt(w, x.raw, x.k, x.id, i);
            && IsChunkEnvelope(c) && c.total == Go.Total(x) <= MAX_CHUNKS && c.index == i && c.sha256 == w.digest(x.raw)
            && AtobDecode(c.data) == Some(Part(x.raw, x.k, i))
  {
    hide AtobDecode, Encode, Part;
    assert |w.digest(x.raw)| == 64 && LowerHex(w.digest(x.raw));
    AtobRoundTrip(Part(x.raw, x.k, i));
  }

  /** A genuine chunk of x: the message comes out exactly when it was the last one missing. */
  lemma FrameStep(w: World, open: Open, x: Go.Stream, seen: set<int>, first: int, frame: Bytes, now: int)
    requires Go.Admissible(w, x) && Digests(w) && Shaped(open) && Holds(w, open, x, seen, first)
    requires seen < Indices(Go.Total(x)) && ForStream(w, x, frame) && Genuine(w, x, frame)
    requires if seen == {} then |Prune(open, now)| < MAX_ASSEMBLIES else now - first <= ASSEMBLY_TTL
    ensures var (next, out) := Accept(w, open, frame, now);
            var more := seen + {w.parse(frame).chunk.index};
            if more == Indices(Go.Total(x)) then out == Complete(x.raw)
            else out == Incomplete && Holds(w, next, x, more, if seen == {} then now else first)
  {
    hide AtobDecode, Encode, Part, CeilDiv, InsertPart, SameAssembly, GoView;
    var c := w.parse(frame).chunk;
    ChunkIsAccepted(w, x, c.index);
    var kept := Prune(open, now);
    var a := Lookup(kept, c, now);
    if seen == {} {
      EmptyView(w, x, now);
    }
    SameTotals(w, x, seen, a);
    PartStep(w, kept, x, seen, a, c.index);
  }

  lemma SameTotals(w: World, x: Go.Stream, seen: set<int>, a: Assembly)
    requires x.k > 0 && (forall i | i in seen :: 0 <= i) && SameAssembly(GoView(w, x, seen), a)
    ensures a.total == |a.chunks| == Go.Total(x) && a.sha256 == w.digest(x.raw)
  {
  }

  /** Any other value, well formed or not, leaves the stream alone while it is younger than 30 seconds. */
  lemma OtherFrameKeeps(w: World, open: Open, x: Go.Stream, seen: set<int>, first: int, frame: Bytes, now: int)
    requires x.k > 0 && Shaped(open) && Holds(w, open, x, seen, first) && !ForStream(w, x, frame)
    requires seen != {} ==> now - first <= ASSEMBLY_TTL
    ensures Holds(w, Accept(w, open, frame, now).0, x, seen, first)
  {
    hide AtobDecode, SameAssembly, GoView, Finish, Complete?, CeilDiv;
  }

  // ---------------------------------------------------------------- whole deliveries

  /** The indices of x delivered so far, and when the first one came. */
  function Seen(w: World, x: Go.Stream, ds: seq<Go.Delivery>): set<int> {
    if ds == [] then {}
    else
      var d := ds[|ds| - 1];
      Seen(w, x, ds[..|ds| - 1]) + if ForStream(w, x, d.frame) then {w.parse(d.frame).chunk.index} else {}
  }

  function FirstAt(w: World, x: Go.Stream, ds: seq<Go.Delivery>): int {
    if ds == [] then 0
    else
      var d, before := ds[|ds| - 1], ds[..|ds| - 1];
      if Seen(w, x, before) == {} && ForStream(w, x, d.frame) then d.now else FirstAt(w, x, before)
  }

  /** What one delivery has to meet: a chunk under x's id is genuine, the first one finds fewer than 32
      streams left after pruning, and everything later comes within 30 seconds of it. */
  ghost predicate Fair(w: World, x: Go.Stream, open: Open, before: seq<Go.Delivery>, d: Go.Delivery)
    requires x.k > 0 && Shaped(open)
  {
    && Genuine(w, x, d.frame)
    && if Seen(w, x, before) == {}
       then ForStream(w, x, d.frame) ==> |Prune(RunOpen(w, open, before), d.now)| < MAX_ASSEMBLIES
       else d.now - FirstAt(w, x, before) <= ASSEMBLY_TTL
  }

  ghost predicate Healthy(w: World, x: Go.Stream, open: Open, ds: seq<Go.Delivery>)
    requires x.k > 0 && Shaped(open)
  {
    ds != [] ==>
      Healthy(w, x, open, ds[..|ds| - 1]) && Fair(w, x, open, ds[..|ds| - 1], ds[|ds| - 1])
  }

  /** What is held after one more fair delivery. */
  lemma HeldAfter(w: World, x: Go.Stream, open: Open, before: seq<Go.Delivery>, d: Go.Delivery)
    requires Go.Admissible(w, x) && Digests(w) && Shaped(open) && Fair(w, x, open, before, d)
    requires Holds(w, RunOpen(w, open, before), x, Seen(w, x, before), FirstAt(w, x, before))
    requires Seen(w, x, before + [d]) < Indices(Go.Total(x))
    ensures Holds(w, RunOpen(w, open, before + [d]), x, Seen(w, x, before + [d]), FirstAt(w, x, before + [d]))
  {
    hide Holds, Accept, Genuine, Indices, CeilDiv, Shaped;
    assert (before + [d])[..|before|] == before;
    var table, seen, first := RunOpen(w, open, before), Seen(w, x, before), FirstAt(w, x, before);
    if ForStream(w, x, d.frame) {
      FrameStep(w, table, x, seen, first, d.frame, d.now);
    } else {
      OtherFrameKeeps(w, table, x, seen, first, d.frame, d.now);
      assert Seen(w, x, before + [d]) == seen;
    }
  }

  lemma SeenGrows(w: World, x: Go.Stream, before: seq<Go.Delivery>, d: Go.Delivery)
    ensures Seen(w, x, before) <= Seen(w, x, before + [d])
  {
    assert (before + [d])[..|before|] == before;
  }

  lemma {:induction false} StreamIsHeld(w: World, x: Go.Stream, open: Open, ds: seq<Go.Delivery>)
    requires Go.Admissible(w, x) && Digests(w) && Shaped(open) && x.id !in open
    requires Healthy(w, x, open, ds) && Seen(w, x, ds) < Indices(Go.Total(x))
    ensures Holds(w, RunOpen(w, open, ds), x, Seen(w, x, ds), FirstAt(w, x, ds))
  {
    if ds == [] {
      NothingHeld(w, open, x);
    } else {
      hide Holds, Fair, Indices, CeilDiv, Shaped, Seen, FirstAt, RunOpen;
      var before, d := ds[..|ds| - 1], ds[|ds| - 1];
      assert ds == before + [d];
      SeenGrows(w, x, before, d);
      StreamIsHeld(w, x, open, before);
      HeldAfter(w, x, open, before, d);
    }
  }

  lemma NothingHeld(w: World, open: Open, x: Go.Stream)
    requires x.k > 0 && x.id !in open
    ensures Holds(w, open, x, {}, 0)
  {
  }

  /** Go's chunks in any order, repeated, mixed with anything else the host may post, on a table that
      may be anything but already hold the stream: as long as an index is missing before delivery p,
      the delivery of a chunk returns exactly the message if it was the last one missing, and nothing
      otherwise. */
  lemma GoMessageReachesTs(w: World, x: Go.Stream, open: Open, ds: seq<Go.Delivery>, p: nat)
    requires Go.Admissible(w, x) && Digests(w) && Shaped(open) && x.id !in open
    requires p < |ds| && Healthy(w, x, open, ds[..p + 1]) && ForStream(w, x, ds[p].frame)
    requires Seen(w, x, ds[..p]) < Indices(Go.Total(x))
    ensures OutcomeAt(w, open, ds, p) ==
            if Seen(w, x, ds[..p + 1]) == Indices(Go.Total(x)) then Complete(x.raw) else Incomplete
  {
    hide Holds, Accept, Genuine, Indices, CeilDiv, Shaped;
    assert ds[..p + 1][..p] == ds[..p] && ds[..p + 1][p] == ds[p];
    StreamIsHeld(w, x, open, ds[..p]);
    FrameStep(w, RunOpen(w, open, ds[..p]), x, Seen(w, x, ds[..p]), FirstAt(w, x, ds[..p]), ds[p].frame, ds[p].now);
  }
}
