/**
 The reassembler of apps/extension/src/chunk-codec.ts, and its agreement with the one of
 internal/nativemsg/native.go.
 */
module TsAssembler {
  import opened Options
  import opened Numbers
  import opened Base64
  import opened Chunks
  import Go = GoAssembler

  const MAX_ASSEMBLIES := 32
  const ASSEMBLY_TTL := 30_000

  datatype Assembly = Assembly(createdAt: int, total: int, sha256: string, size: int, chunks: seq<Option<Bytes>>)

  type Open = map<string, Assembly>

  /** isChunkEnvelope, on a member whose fields have the right JavaScript types. */
  predicate IsChunkEnvelope(c: Chunk) {
    c.version == 1 && |c.sha256| == 64 && LowerHex(c.sha256)
  }

  function Prune(open: Open, now: int): Open {
    map id | id in open && !(open[id].createdAt < now - ASSEMBLY_TTL) :: open[id]
  }

  function Blank(n: nat): seq<Option<Bytes>> {
    seq(n, _ => None)
  }

  function Lookup(open: Open, c: Chunk, now: int): Assembly
    requires c.total >= 0
  {
    if c.id in open then open[c.id] else Assembly(now, c.total, c.sha256, 0, Blank(c.total))
  }

  predicate Complete?(chunks: seq<Option<Bytes>>) {
    forall i | 0 <= i < |chunks| :: chunks[i].Some?
  }

  function Flatten(chunks: seq<Option<Bytes>>): Bytes {
    if chunks == [] then []
    else Flatten(chunks[..|chunks| - 1]) + (if chunks[|chunks| - 1].Some? then chunks[|chunks| - 1].value else [])
  }

  function Add(a: Assembly, i: nat, part: Bytes): Assembly
    requires i < |a.chunks|
  {
    if a.chunks[i].Some? then a else a.(chunks := a.chunks[i := Some(part)], size := a.size + |part|)
  }

  function Finish(w: World, a: Assembly): (r: Outcome)
    ensures !r.Incomplete?
  {
    var joined := Flatten(a.chunks);
    if w.digest(joined) != a.sha256 || !w.valid(joined) then Broken else Complete(joined)
  }

  /** An array as long as the total is what every assembly is made with. */
  ghost predicate Shaped(open: Open) {
    forall id | id in open :: open[id].total == |open[id].chunks|
  }

  /** A decoded part joins an assembly with matching metadata. */
  function InsertPart(w: World, open: Open, id: string, a: Assembly, i: nat, part: Bytes): (Open, Outcome)
    requires i < |a.chunks|
  {
    if a.chunks[i].Some? && a.chunks[i].value != part then (open - {id}, Broken)
    else
      var b := Add(a, i, part);
      if b.size > MAX_ASSEMBLED then (open - {id}, Broken)
      else if !Complete?(b.chunks) then (open[id := b], Incomplete)
      else (open - {id}, Finish(w, b))
  }

  function Insert(w: World, open: Open, c: Chunk, now: int): (Open, Outcome)
    requires 0 <= c.index < c.total
    requires Shaped(open)
  {
    if c.id !in open && |open| >= MAX_ASSEMBLIES then (open, Broken)
    else
      var a := Lookup(open, c, now);
      if a.total != c.total || a.sha256 != c.sha256 then (open - {c.id}, Broken)
      else if AtobDecode(c.data).None? then (open[c.id := a], Broken)
      else InsertPart(w, open, c.id, a, c.index, AtobDecode(c.data).value)
  }

  /** A value posted by the native host: its JSON text and, for an envelope, its member. */
  function Accept(w: World, open: Open, frame: Bytes, now: int): (Open, Outcome)
    requires Shaped(open)
  {
    var kept := Prune(open, now);
    match w.parse(frame)
    case Envelope(c) =>
      if !IsChunkEnvelope(c) then (kept, Complete(frame))
      else if c.total < 1 || c.total > MAX_CHUNKS || c.index < 0 || c.index >= c.total then (kept, Broken)
      else Insert(w, kept, c, now)
    case _ => (kept, Complete(frame))
  }

  lemma AcceptKeepsShape(w: World, open: Open, frame: Bytes, now: int)
    requires Shaped(open)
    ensures Shaped(Accept(w, open, frame, now).0)
  {
  }

  // ---------------------------------------------------------------- side by side with Go

  ghost predicate SameAssembly(g: Go.Assembly, t: Assembly) {
    && g.total == t.total == |t.chunks| && g.sha256 == t.sha256 && g.size == t.size
    && g.parts.Keys <= Indices(g.total)
    && (forall i | 0 <= i < g.total :: t.chunks[i] == if i in g.parts then Some(g.parts[i]) else None)
  }

  /** The two tables hold the same streams with the same parts. */
  ghost predicate Related(items: Go.Items, open: Open) {
    items.Keys == open.Keys && forall id | id in items :: SameAssembly(items[id], open[id])
  }

  lemma LookupAgrees(items: Go.Items, open: Open, c: Chunk, now: int)
    requires Related(items, open) && c.total >= 0
    ensures SameAssembly(Go.Lookup(items, c, now), Lookup(open, c, now))
  {
  }

  lemma AddAgrees(g: Go.Assembly, t: Assembly, i: nat, part: Bytes, now: int)
    requires SameAssembly(g, t) && i < |t.chunks|
    ensures SameAssembly(Go.Add(g, i, part, now), Add(t, i, part))
  {
  }

  lemma CompletionAgrees(g: Go.Assembly, t: Assembly)
    requires SameAssembly(g, t) && g.total >= 0
    ensures Go.HasAll(g) <==> Complete?(t.chunks)
    ensures |g.parts| == g.total <==> Complete?(t.chunks)
  {
    Pigeonhole(g.parts, g.total);
    assert Complete?(t.chunks) ==> Go.HasAll(g) by {
      if Complete?(t.chunks) {
        forall i | 0 <= i < g.total ensures i in g.parts {
          assert t.chunks[i].Some?;
        }
      }
    }
  }

  lemma {:induction false} FlattenAgrees(g: Go.Assembly, t: Assembly, n: nat)
    requires SameAssembly(g, t) && n <= |t.chunks| && Complete?(t.chunks) && Go.HasAll(g)
    ensures Flatten(t.chunks[..n]) == Join(g.parts, n)
  {
    if n > 0 {
      FlattenAgrees(g, t, n - 1);
      assert t.chunks[..n][..n - 1] == t.chunks[..n - 1];
    }
  }

  lemma FinishAgrees(w: World, g: Go.Assembly, t: Assembly)
    requires SameAssembly(g, t) && g.total >= 0 && Complete?(t.chunks) && Go.HasAll(g)
    ensures Go.Finish(w, g) == Finish(w, t)
  {
    FlattenAgrees(g, t, |t.chunks|);
    assert t.chunks[..|t.chunks|] == t.chunks;
  }

  lemma PutAgrees(items: Go.Items, open: Open, id: string, g: Go.Assembly, t: Assembly)
    requires Related(items, open) && SameAssembly(g, t)
    ensures Related(items[id := g], open[id := t]) && Related(items - {id}, open - {id})
  {
  }

  /** One chunk with the same bytes as any earlier copy: both assemblers answer alike. */
  lemma InsertAgrees(w: World, items: Go.Items, open: Open, c: Chunk, part: Bytes, now: int)
    requires Related(items, open) && Shaped(open) && 0 <= c.index < c.total && AtobDecode(c.data) == Some(part)
    requires c.id in open || |open| < MAX_ASSEMBLIES
    requires c.id in items && c.index in items[c.id].parts ==> items[c.id].parts[c.index] == part
    ensures var g, t := Go.Insert(w, items, c, part, now), Insert(w, open, c, now);
            g.1 == t.1 && Related(g.0, t.0)
  {
    hide AtobDecode, Go.Lookup, Lookup, Go.Add, Add, Go.Finish, Finish, Go.HasAll, Complete?, Related;
    var g, t := Go.Lookup(items, c, now), Lookup(open, c, now);
    LookupAgrees(items, open, c, now);
    LookupParts(items, c, now);
    PutAgrees(items, open, c.id, g, t);
    if g.total == c.total && g.sha256 == c.sha256 {
      var g', t' := Go.Add(g, c.index, part, now), Add(t, c.index, part);
      AddAgrees(g, t, c.index, part, now);
      CompletionAgrees(g', t');
      PutAgrees(items, open, c.id, g', t');
      if Complete?(t'.chunks) {
        FinishAgrees(w, g', t');
      }
    }
  }

  lemma LookupParts(items: Go.Items, c: Chunk, now: int)
    ensures var g := Go.Lookup(items, c, now);
            g.parts == if c.id in items then items[c.id].parts else map[]
  {
  }

  /** The bytes every copy of a chunk carries, by stream and index. */
  type Book = (string, int) -> Bytes

  ghost predicate ByBook(items: Go.Items, book: Book) {
    forall id, i | id in items && i in items[id].parts :: items[id].parts[i] == book(id, i)
  }

  /** An ordinary message, or a chunk both sides accept, with the bytes its other copies have. */
  ghost predicate WellFormed(w: World, book: Book, frame: Bytes) {
    w.valid(frame) && match w.parse(frame)
    case Malformed => false
    case Plain => true
    case Envelope(c) => Go.GoodMetadata(c) && IsChunkEnvelope(c) && c.data == Encode(book(c.id, c.index))
  }

  /** Nothing is due for expiry on either side, and a new stream still finds room. */
  ghost predicate Calm(w: World, items: Go.Items, open: Open, d: Go.Delivery) {
    && (forall id | id in items :: d.now - items[id].updatedAt <= Go.MINUTE)
    && (forall id | id in open :: !(open[id].createdAt < d.now - ASSEMBLY_TTL))
    && (w.parse(d.frame).Envelope? ==> w.parse(d.frame).chunk.id in open || |open| < MAX_ASSEMBLIES)
  }

  lemma CalmPrunesNothing(w: World, items: Go.Items, open: Open, d: Go.Delivery)
    requires Calm(w, items, open, d)
    ensures Go.Prune(items, d.now) == items && Prune(open, d.now) == open
  {
  }

  lemma InsertByBook(w: World, items: Go.Items, c: Chunk, now: int, book: Book)
    requires ByBook(items, book) && c.total >= 0
    ensures ByBook(Go.Insert(w, items, c, book(c.id, c.index), now).0, book)
  {
  }

  lemma StepAgrees(w: World, book: Book, items: Go.Items, open: Open, d: Go.Delivery)
    requires Related(items, open) && Shaped(open) && ByBook(items, book)
    requires WellFormed(w, book, d.frame) && Calm(w, items, open, d)
    ensures var g, t := Go.AcceptFrame(w, items, d.frame, d.now), Accept(w, open, d.frame, d.now);
            g.1 == t.1 && Related(g.0, t.0) && ByBook(g.0, book)
  {
    hide AtobDecode, GoDecode, Encode, Go.Insert, Insert, Go.Prune, Prune, Related;
    CalmPrunesNothing(w, items, open, d);
    if w.parse(d.frame).Envelope? {
      var c := w.parse(d.frame).chunk;
      var part := book(c.id, c.index);
      GoRoundTrip(part);
      AtobRoundTrip(part);
      InsertAgrees(w, items, open, c, part, d.now);
      InsertByBook(w, items, c, d.now, book);
    }
  }

  function RunOpen(w: World, open: Open, ds: seq<Go.Delivery>): (r: Open)
    requires Shaped(open)
    ensures Shaped(r)
  {
    if ds == [] then open
    else
      var d, before := ds[|ds| - 1], RunOpen(w, open, ds[..|ds| - 1]);
      AcceptKeepsShape(w, before, d.frame, d.now);
      Accept(w, before, d.frame, d.now).0
  }

  function OutcomeAt(w: World, open: Open, ds: seq<Go.Delivery>, p: nat): Outcome
    requires Shaped(open) && p < |ds|
  {
    Accept(w, RunOpen(w, open, ds[..p]), ds[p].frame, ds[p].now).1
  }

  /** Both assemblers start empty and see the same frames at the same times; every frame is well
      formed and arrives within both expiry rules and with room for its stream. */
  ghost predicate Tame(w: World, book: Book, ds: seq<Go.Delivery>) {
    forall p | 0 <= p < |ds| ::
      WellFormed(w, book, ds[p].frame) && Calm(w, Go.RunItems(w, map[], ds[..p]), RunOpen(w, map[], ds[..p]), ds[p])
  }

  lemma {:induction false} RunsAgree(w: World, book: Book, ds: seq<Go.Delivery>, n: nat)
    requires Tame(w, book, ds) && n <= |ds|
    ensures Related(Go.RunItems(w, map[], ds[..n]), RunOpen(w, map[], ds[..n]))
    ensures ByBook(Go.RunItems(w, map[], ds[..n]), book)
  {
    hide Go.AcceptFrame, Accept, WellFormed, Calm, Related, ByBook;
    if n == 0 {
      EmptyAgrees(book);
    } else {
      RunsAgree(w, book, ds, n - 1);
      assert ds[..n][..n - 1] == ds[..n - 1] && ds[..n][n - 1] == ds[n - 1];
      StepAgrees(w, book, Go.RunItems(w, map[], ds[..n - 1]), RunOpen(w, map[], ds[..n - 1]), ds[n - 1]);
    }
  }

  lemma EmptyAgrees(book: Book)
    ensures Related(map[], map[]) && ByBook(map[], book)
  {
  }

  /** The two implementations agree: they complete at the same frames with the same bytes. */
  lemma AssemblersAgree(w: World, book: Book, ds: seq<Go.Delivery>, p: nat)
    requires Tame(w, book, ds) && p < |ds|
    ensures OutcomeAt(w, map[], ds, p) == Go.OutcomeAt(w, map[], ds, p)
  {
    hide Go.AcceptFrame, Accept, WellFormed, Calm, Related, ByBook, Go.RunItems, RunOpen;
    RunsAgree(w, book, ds, p);
    StepAgrees(w, book, Go.RunItems(w, map[], ds[..p]), RunOpen(w, map[], ds[..p]), ds[p]);
  }

  // ---------------------------------------------------------------- the plain case

  /** The chunks of one message, in order, within 30 seconds of each other. */
  ghost predicate Prompt(w: World, x: Go.Stream, ds: seq<Go.Delivery>, t0: int)
    requires x.k > 0
  {
    && |ds| <= Go.Total(x)
    && (forall i | 0 <= i < |ds| ::
          && w.valid(ds[i].frame) && w.parse(ds[i].frame) == Envelope(ChunkAt(w, x.raw, x.k, x.id, i))
          && t0 <= ds[i].now <= t0 + ASSEMBLY_TTL)
  }

  ghost predicate RecentItems(items: Go.Items, id: string, t0: int) {
    items.Keys <= {id} && (id in items ==> t0 <= items[id].updatedAt)
  }

  ghost predicate RecentOpen(open: Open, id: string, t0: int) {
    open.Keys <= {id} && (id in open ==> t0 <= open[id].createdAt)
  }

  ghost predicate Recent(items: Go.Items, open: Open, id: string, t0: int) {
    RecentItems(items, id, t0) && RecentOpen(open, id, t0)
  }

  lemma GoStaysRecent(w: World, items: Go.Items, c: Chunk, now: int, t0: int)
    requires RecentItems(items, c.id, t0) && t0 <= now
    ensures RecentItems(Go.AcceptChunk(w, items, c, now).0, c.id, t0)
  {
  }

  lemma TsStaysRecent(w: World, open: Open, c: Chunk, now: int, t0: int)
    requires RecentOpen(open, c.id, t0) && Shaped(open) && t0 <= now && 0 <= c.index < c.total
    ensures RecentOpen(Insert(w, open, c, now).0, c.id, t0)
  {
  }

  lemma StepStaysRecent(w: World, items: Go.Items, open: Open, d: Go.Delivery, id: string, t0: int)
    requires Recent(items, open, id, t0) && Shaped(open) && t0 <= d.now
    requires w.parse(d.frame).Envelope? && w.parse(d.frame).chunk.id == id
    ensures Recent(Go.AcceptFrame(w, items, d.frame, d.now).0, Accept(w, open, d.frame, d.now).0, id, t0)
  {
    hide Insert, Go.AcceptChunk;
    var c := w.parse(d.frame).chunk;
    GoStaysRecent(w, items, c, d.now, t0);
    if 0 <= c.index < c.total {
      TsStaysRecent(w, Prune(open, d.now), c, d.now, t0);
    }
  }

  lemma {:induction false} RunStaysRecent(w: World, x: Go.Stream, ds: seq<Go.Delivery>, t0: int, n: nat)
    requires x.k > 0 && Prompt(w, x, ds, t0) && n <= |ds|
    ensures Recent(Go.RunItems(w, map[], ds[..n]), RunOpen(w, map[], ds[..n]), x.id, t0)
  {
    hide Recent, Go.AcceptFrame, Accept;
    if n == 0 {
      EmptyIsRecent(x.id, t0);
    } else {
      RunStaysRecent(w, x, ds, t0, n - 1);
      assert ds[..n][..n - 1] == ds[..n - 1] && ds[..n][n - 1] == ds[n - 1];
      StepStaysRecent(w, Go.RunItems(w, map[], ds[..n - 1]), RunOpen(w, map[], ds[..n - 1]), ds[n - 1], x.id, t0);
    }
  }

  lemma EmptyIsRecent(id: string, t0: int)
    ensures Recent(map[], map[], id, t0)
  {
  }

  lemma RecentIsCalm(w: World, items: Go.Items, open: Open, d: Go.Delivery, id: string, t0: int)
    requires Recent(items, open, id, t0) && t0 <= d.now <= t0 + ASSEMBLY_TTL
    ensures Calm(w, items, open, d)
  {
    SubsetCount(open.Keys, {id});
    assert |open| == |open.Keys|;
  }

  function BookOf(x: Go.Stream): Book
    requires x.k > 0
  {
    (_, i) => if i >= 0 then Part(x.raw, x.k, i) else []
  }

  lemma PromptIsTame(w: World, x: Go.Stream, ds: seq<Go.Delivery>, t0: int)
    requires Go.Admissible(w, x) && Digests(w) && Prompt(w, x, ds, t0)
    ensures Tame(w, BookOf(x), ds)
  {
    hide Recent, Calm, Go.RunItems, RunOpen, CeilDiv, Part, Encode;
    forall p | 0 <= p < |ds|
      ensures WellFormed(w, BookOf(x), ds[p].frame)
      ensures Calm(w, Go.RunItems(w, map[], ds[..p]), RunOpen(w, map[], ds[..p]), ds[p])
    {
      assert |w.digest(x.raw)| == 64 && LowerHex(w.digest(x.raw));
      RunStaysRecent(w, x, ds, t0, p);
      RecentIsCalm(w, Go.RunItems(w, map[], ds[..p]), RunOpen(w, map[], ds[..p]), ds[p], x.id, t0);
    }
  }

  lemma {:induction false} PromptSeen(w: World, x: Go.Stream, ds: seq<Go.Delivery>, t0: int, n: nat)
    requires x.k > 0 && Prompt(w, x, ds, t0) && n <= |ds|
    ensures Go.Seen(w, x, ds[..n]) == Indices(n)
    ensures n > 0 ==> Go.LastAt(w, x, ds[..n]) == ds[n - 1].now
  {
    hide CeilDiv, Part, Encode;
    if n > 0 {
      PromptSeen(w, x, ds, t0, n - 1);
      assert ds[..n][..n - 1] == ds[..n - 1] && ds[..n][n - 1] == ds[n - 1];
    }
  }

  lemma PromptIsHealthy(w: World, x: Go.Stream, ds: seq<Go.Delivery>, t0: int)
    requires x.k > 0 && Prompt(w, x, ds, t0)
    ensures Go.Healthy(w, x, ds)
  {
  }

  /** Sent in order and within 30 seconds, Go's chunks complete on the TypeScript side at the last one. */
  lemma PromptMessageReachesTs(w: World, x: Go.Stream, ds: seq<Go.Delivery>, t0: int, p: nat)
    requires Go.Admissible(w, x) && Digests(w) && Prompt(w, x, ds, t0) && p < |ds|
    ensures OutcomeAt(w, map[], ds, p) == if p + 1 == Go.Total(x) then Complete(x.raw) else Incomplete
  {
    hide Tame, Go.Healthy, Go.Seen, OutcomeAt, Go.OutcomeAt, CeilDiv;
    PromptIsTame(w, x, ds, t0);
    PromptIsHealthy(w, x, ds, t0);
    PromptSeen(w, x, ds, t0, p);
    PromptSeen(w, x, ds, t0, p + 1);
    assert p in Indices(Go.Total(x)) && p !in Indices(p);
    assert p + 1 < Go.Total(x) ==> p + 1 in Indices(Go.Total(x)) && p + 1 !in Indices(p + 1);
    AssemblersAgree(w, BookOf(x), ds, p);
    Go.MessageComesOutOnce(w, map[], x, ds, p);
  }

  // ---------------------------------------------------------------- encodeMessage

  datatype Encoded = AsItIs | TooLong | Cut(chunks: seq<Chunk>)

  /** Short messages go as they are, messages over 128 MiB are refused, the rest are cut up. */
  method EncodeMessage(w: World, raw: Bytes, id: string) returns (r: Encoded)
    ensures r.AsItIs? <==> |raw| <= MAX_DIRECT
    ensures r.TooLong? <==> |raw| > MAX_ASSEMBLED
    ensures r.Cut? ==> r.chunks == ChunksOf(w, raw, DEFAULT_CHUNK, id) && 3 <= |r.chunks| <= 256
  {
    if |raw| <= MAX_DIRECT {
      return AsItIs;
    }
    if |raw| > MAX_ASSEMBLED {
      return TooLong;
    }
    var total := CeilDiv(|raw|, DEFAULT_CHUNK);
    var chunks := [];
    for index := 0 to total
      invariant |chunks| == index && chunks == ChunksOf(w, raw, DEFAULT_CHUNK, id)[..index]
    {
      var from := index * DEFAULT_CHUNK;
      var to := (index + 1) * DEFAULT_CHUNK;
      LastPart(raw, DEFAULT_CHUNK, index + 1);
      var slice := raw[from..if to < |raw| then to else |raw|];
      assert slice == Part(raw, DEFAULT_CHUNK, index);
      chunks := chunks + [Chunk(1, id, index, total, w.digest(raw), Encode(slice))];
    }
    r := Cut(chunks);
  }

  /** The TypeScript encoder into Go's assembler: every message it cuts up is within Go's limits, so
      GoAssembler.MessageComesOutOnce gives it back from these chunks. */
  lemma TsMessageIsAdmissible(w: World, raw: Bytes, id: string)
    requires MAX_DIRECT < |raw| <= MAX_ASSEMBLED && w.valid(raw) && id != "" && Digests(w)
    ensures Go.Admissible(w, Go.Stream(raw, DEFAULT_CHUNK, id))
    ensures forall i | 0 <= i < CeilDiv(|raw|, DEFAULT_CHUNK) ::
              ChunksOf(w, raw, DEFAULT_CHUNK, id)[i] == ChunkAt(w, raw, DEFAULT_CHUNK, id, i)
  {
  }

  /** ... and so it does: the chunks encodeMessage makes, in any order, repeated, mixed with other
      traffic, give Go back exactly the message at the arrival of the last missing one. */
  lemma TsMessageReachesGo(w: World, items: Go.Items, raw: Bytes, id: string, ds: seq<Go.Delivery>, p: nat)
    requires MAX_DIRECT < |raw| <= MAX_ASSEMBLED && w.valid(raw) && id != "" && Digests(w)
    requires Go.GoodItems(items) && id !in items && Go.Healthy(w, Go.Stream(raw, DEFAULT_CHUNK, id), ds)
    requires p < |ds| && Go.ForStream(w, Go.Stream(raw, DEFAULT_CHUNK, id), ds[p].frame)
    requires Go.Seen(w, Go.Stream(raw, DEFAULT_CHUNK, id), ds[..p]) < Indices(|ChunksOf(w, raw, DEFAULT_CHUNK, id)|)
    ensures Go.OutcomeAt(w, items, ds, p) ==
            if Go.Seen(w, Go.Stream(raw, DEFAULT_CHUNK, id), ds[..p + 1]) ==
               Indices(|ChunksOf(w, raw, DEFAULT_CHUNK, id)|)
            then Complete(raw) else Incomplete
  {
    hide Go.Healthy, Go.Seen, Go.OutcomeAt, Go.GoodItems, Indices;
    TsMessageIsAdmissible(w, raw, id);
    Go.MessageComesOutOnce(w, items, Go.Stream(raw, DEFAULT_CHUNK, id), ds, p);
  }

  // ---------------------------------------------------------------- the assembler in place

  /** The bytes of the parts present. */
  function Held(chunks: seq<Option<Bytes>>): nat {
    if chunks == [] then 0
    else Held(chunks[..|chunks| - 1]) + (if chunks[|chunks| - 1].Some? then |chunks[|chunks| - 1].value| else 0)
  }

  lemma {:induction false} FlattenLength(chunks: seq<Option<Bytes>>)
    ensures |Flatten(chunks)| == Held(chunks)
  {
    if chunks != [] {
      FlattenLength(chunks[..|chunks| - 1]);
    }
  }

  lemma {:induction false} HeldUpdate(chunks: seq<Option<Bytes>>, i: nat, part: Bytes)
    requires i < |chunks| && chunks[i].None?
    ensures Held(chunks[i := Some(part)]) == Held(chunks) + |part|
  {
    var n := |chunks| - 1;
    if i == n {
      assert chunks[i := Some(part)][..n] == chunks[..n];
    } else {
      assert chunks[i := Some(part)][..n] == chunks[..n][i := Some(part)];
      HeldUpdate(chunks[..n], i, part);
    }
  }

  lemma {:induction false} HeldBlank(n: nat)
    ensures Held(Blank(n)) == 0
  {
    if n > 0 {
      assert Blank(n)[..n - 1] == Blank(n - 1);
      HeldBlank(n - 1);
    }
  }

  lemma {:induction false} FlattenPrefix(chunks: seq<Option<Bytes>>, n: nat)
    requires n <= |chunks|
    ensures |Flatten(chunks[..n])| <= |Flatten(chunks)|
    decreases |chunks| - n
  {
    if n < |chunks| {
      FlattenPrefix(chunks, n + 1);
      assert chunks[..n + 1][..n] == chunks[..n];
    } else {
      assert chunks[..n] == chunks;
    }
  }

  /** Storing the assembly before its part is added makes no difference. */
  lemma InsertOver(w: World, open: Open, id: string, a: Assembly, i: nat, part: Bytes)
    requires i < |a.chunks|
    ensures InsertPart(w, open[id := a], id, a, i, part) == InsertPart(w, open, id, a, i, part)
  {
    hide Finish, Complete?;
    assert open[id := a] - {id} == open - {id};
    assert open[id := a][id := Add(a, i, part)] == open[id := Add(a, i, part)];
  }

  class ChunkAssembler {
    var assemblies: Open

    /** Every assembly's size is what its parts hold, so the joined array is filled exactly. */
    ghost predicate Valid()
      reads this
    {
      Shaped(assemblies) && forall id | id in assemblies :: assemblies[id].size == Held(assemblies[id].chunks)
    }

    constructor ()
      ensures Valid() && assemblies == map[]
    {
      assemblies := map[];
    }

    method DropOld(now: int)
      requires Valid()
      modifies this
      ensures Valid() && assemblies == Prune(old(assemblies), now)
    {
      var cutoff := now - ASSEMBLY_TTL;
      var rest := assemblies.Keys;
      ghost var done: set<string> := {};
      while rest != {}
        invariant done !! rest && done + rest == old(assemblies).Keys
        invariant assemblies ==
                  map id | id in old(assemblies) && !(id in done && old(assemblies)[id].createdAt < cutoff) ::
                    old(assemblies)[id]
      {
        var id :| id in rest;
        if assemblies[id].createdAt < cutoff {
          assemblies := assemblies - {id};
        }
        rest, done := rest - {id}, done + {id};
      }
    }

    method AcceptValue(w: World, frame: Bytes, now: int) returns (out: Outcome)
      requires Valid()
      modifies this
      ensures Valid() && (assemblies, out) == Accept(w, old(assemblies), frame, now)
    {
      DropOld(now);
      match w.parse(frame) {
        case Envelope(c) =>
          if !IsChunkEnvelope(c) {
            return Complete(frame);
          }
          if c.total < 1 || c.total > MAX_CHUNKS || c.index < 0 || c.index >= c.total {
            return Broken;
          }
          out := AcceptEnvelope(w, c, now);
        case _ => out := Complete(frame);
      }
    }

    method AcceptEnvelope(w: World, c: Chunk, now: int) returns (out: Outcome)
      requires Valid() && 0 <= c.index < c.total
      modifies this
      ensures Valid() && (assemblies, out) == Insert(w, old(assemblies), c, now)
    {
      hide AtobDecode, Held, InsertPart;
      if c.id !in assemblies {
        if |assemblies| >= MAX_ASSEMBLIES {
          return Broken;
        }
        HeldBlank(c.total);
        assemblies := assemblies[c.id := Assembly(now, c.total, c.sha256, 0, Blank(c.total))];
      }
      var assembly := assemblies[c.id];
      assert assembly == Lookup(old(assemblies), c, now);
      assert assemblies == old(assemblies)[c.id := assembly];
      if assembly.total != c.total || assembly.sha256 != c.sha256 {
        assemblies := assemblies - {c.id};
        return Broken;
      }
      var decoded := AtobDecode(c.data);
      if decoded.None? {
        return Broken;
      }
      InsertOver(w, old(assemblies), c.id, assembly, c.index, decoded.value);
      out := AcceptPart(w, c.id, c.index, decoded.value);
    }

    method AcceptPart(w: World, id: string, i: nat, part: Bytes) returns (out: Outcome)
      requires Valid() && id in assemblies && i < |assemblies[id].chunks|
      modifies this
      ensures Valid() && (assemblies, out) == InsertPart(w, old(assemblies), id, old(assemblies)[id], i, part)
    {
      hide Held, Finish, Complete?;
      var assembly := assemblies[id];
      var previous := assembly.chunks[i];
      if previous.Some? && previous.value != part {
        assemblies := assemblies - {id};
        return Broken;
      }
      if previous.None? {
        HeldUpdate(assembly.chunks, i, part);
        assembly := assembly.(chunks := assembly.chunks[i := Some(part)], size := assembly.size + |part|);
      }
      assemblies := assemblies[id := assembly];
      assert assemblies - {id} == old(assemblies) - {id};
      if assembly.size > MAX_ASSEMBLED {
        assemblies := assemblies - {id};
        return Broken;
      }
      out := Conclude(w, assembly);
      if out != Incomplete {
        assemblies := assemblies - {id};
      }
    }

    /** The scan for a missing part, the join and the checks on the result. */
    method Conclude(w: World, assembly: Assembly) returns (out: Outcome)
      requires assembly.total == |assembly.chunks| && assembly.size == Held(assembly.chunks)
      ensures out == if Complete?(assembly.chunks) then Finish(w, assembly) else Incomplete
    {
      for index := 0 to assembly.total
        invariant forall i | 0 <= i < index :: assembly.chunks[i].Some?
      {
        if assembly.chunks[index].None? {
          return Incomplete;
        }
      }
      var joined := JoinChunks(assembly);
      if w.digest(joined[..]) != assembly.sha256 || !w.valid(joined[..]) {
        return Broken;
      }
      return Complete(joined[..]);
    }

    /** The typed array filled part by part at increasing offsets. */
    method JoinChunks(a: Assembly) returns (joined: array<Byte>)
      requires Complete?(a.chunks) && a.size == Held(a.chunks)
      ensures joined[..] == Flatten(a.chunks)
    {
      FlattenLength(a.chunks);
      joined := new Byte[a.size](_ => 0);
      var offset := 0;
      for n := 0 to |a.chunks|
        invariant offset == |Flatten(a.chunks[..n])| <= joined.Length
        invariant joined[..offset] == Flatten(a.chunks[..n])
      {
        var part := a.chunks[n].value;
        assert a.chunks[..n + 1][..n] == a.chunks[..n];
        FlattenPrefix(a.chunks, n + 1);
        SetAt(joined, part, offset);
        offset := offset + |part|;
      }
      assert a.chunks[..|a.chunks|] == a.chunks;
      assert joined[..] == joined[..offset];
    }
  }

  /** TypedArray.prototype.set at an offset. */
  method SetAt(target: array<Byte>, part: Bytes, offset: nat)
    requires offset + |part| <= target.Length
    modifies target
    ensures target[..offset] == old(target[..offset])
    ensures target[..offset + |part|] == old(target[..offset]) + part
  {
    for i := 0 to |part|
      invariant target[..offset] == old(target[..offset])
      invariant target[offset..offset + i] == part[..i]
    {
      target[offset + i] := part[i];
    }
    assert target[..offset + |part|] == target[..offset] + target[offset..offset + |part|];
  }
}
