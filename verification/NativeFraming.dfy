/**
 The encoder, the length-prefixed frames and the two relay loops of
 internal/nativemsg/native.go, end to end: what one side encodes and writes, the other side
 reads and reassembles.
 */
module NativeFraming {
  import opened Options
  import opened Numbers
  import opened Base64
  import opened Chunks
  import opened GoAssembler

  // ---------------------------------------------------------------- the text of an envelope

  /** json.Marshal of a chunk envelope whose strings need no escaping. */
  function Text(c: Chunk): string
    requires c.index >= 0 && c.total >= 0
  {
    "{\"__bc_chunk\":{\"version\":1,\"id\":\"" + c.id + "\",\"index\":" + Decimal(c.index) +
    ",\"total\":" + Decimal(c.total) + ",\"sha256\":\"" + c.sha256 + "\",\"data\":\"" + c.data + "\"}}"
  }

  function Ascii(s: string): Bytes {
    seq(|s|, i requires 0 <= i < |s| => s[i] as int % 256)
  }

  function Marshal(c: Chunk): Bytes
    requires c.index >= 0 && c.total >= 0
  {
    Ascii(Text(c))
  }

  /** A chunk whose text the encoder writes as it stands. */
  predicate Printable(c: Chunk) {
    c.version == 1 && 0 <= c.index < c.total && LowerHex(c.id) && LowerHex(c.sha256) && Clean(c.data)
  }

  /** encoding/json reads back the envelopes it wrote, and no empty text is valid. */
  ghost predicate FaithfulJson(w: World) {
    && !w.valid([])
    && (forall c: Chunk | Printable(c) :: w.valid(Marshal(c)) && w.parse(Marshal(c)) == Envelope(c))
  }

  // ---------------------------------------------------------------- Encode

  function ChunkSize(requested: int): (k: nat)
    ensures 0 < k <= DEFAULT_CHUNK
  {
    if requested <= 0 || requested > DEFAULT_CHUNK then DEFAULT_CHUNK else requested
  }

  predicate Sendable(frame: Bytes) {
    1 <= |frame| <= MAX_DIRECT
  }

  function Frames(w: World, raw: Bytes, requested: int, id: string): seq<Bytes> {
    if |raw| <= MAX_DIRECT then [raw]
    else
      var k := ChunkSize(requested);
      seq(CeilDiv(|raw|, k), i requires 0 <= i => Marshal(ChunkAt(w, raw, k, id, i)))
  }

  /** A slice length is a 64-bit int, and a stream id is 24 hexadecimal digits. */
  ghost predicate Encodable(w: World, raw: Bytes, id: string) {
    |raw| < Ten(19) && |id| == 24 && LowerHex(id) && Digests(w)
  }

  lemma PartLength(raw: Bytes, k: nat, i: nat)
    requires k > 0
    ensures |Part(raw, k, i)| <= k
  {
  }

  lemma MulMonotone(a: nat, b: nat, k: nat)
    requires a <= b
    ensures a * k <= b * k
  {
  }

  lemma QuotientBound(n: nat, k: nat)
    requires k > 0
    ensures CeilDiv(n, k) <= n
  {
    var q := CeilDiv(n, k);
    assert q * k <= n + k - 1;
    if q > n {
      assert n * k == k * n && (n + 1) * k == n * k + k;
      MulMonotone(1, k, n);
      MulMonotone(n + 1, q, k);
    }
  }

  /** 4 * ceil(n / 3) characters of data and a little over 200 characters around them. */
  lemma ChunkFrameFits(w: World, raw: Bytes, k: nat, id: string, i: nat)
    requires Encodable(w, raw, id) && 0 < k <= DEFAULT_CHUNK && i < CeilDiv(|raw|, k)
    ensures Sendable(Marshal(ChunkAt(w, raw, k, id, i)))
  {
    hide Encode, Part, CeilDiv, Decimal, Ten;
    var c := ChunkAt(w, raw, k, id, i);
    PartLength(raw, k, i);
    EncodedLength(Part(raw, k, i));
    QuotientBound(|raw|, k);
    DecimalLength(c.index, 19);
    DecimalLength(c.total, 19);
    assert |w.digest(raw)| == 64;
    assert |c.data| <= 4 * ((DEFAULT_CHUNK + 2) / 3);
    assert |Text(c)| <= 200 + |c.id| + |Decimal(c.index)| + |Decimal(c.total)| + |c.sha256| + |c.data|;
  }

  lemma ChunkIsPrintable(w: World, raw: Bytes, k: nat, id: string, i: nat)
    requires Encodable(w, raw, id) && k > 0 && i < CeilDiv(|raw|, k)
    ensures Printable(ChunkAt(w, raw, k, id, i))
  {
  }

  /** Encode never hits its over-limit error: whatever the chunk size asked for, a valid message is
      encoded, and every frame has between 1 byte and 1 MiB. */
  method EncodeMessage(w: World, raw: Bytes, requested: int, id: string) returns (frames: Option<seq<Bytes>>)
    requires Encodable(w, raw, id) && !w.valid([])
    ensures frames.Some? <==> w.valid(raw)
    ensures frames.Some? ==>
              frames.value == Frames(w, raw, requested, id) && forall f | f in frames.value :: Sendable(f)
  {
    hide Marshal, Part, Encode, CeilDiv;
    if !w.valid(raw) {
      return None;
    }
    if |raw| <= MAX_DIRECT {
      return Some([raw]);
    }
    var k := requested;
    if k <= 0 || k > DEFAULT_CHUNK {
      k := DEFAULT_CHUNK;
    }
    var total := CeilDiv(|raw|, k);
    var out: seq<Bytes> := [];
    for index := 0 to total
      invariant |out| == index && out == Frames(w, raw, requested, id)[..index]
      invariant forall f | f in out :: Sendable(f)
    {
      var frame := Marshal(ChunkAt(w, raw, k, id, index));
      ChunkFrameFits(w, raw, k, id, index);
      if |frame| > MAX_DIRECT {
        return None;
      }
      out := out + [frame];
    }
    return Some(out);
  }

  // ---------------------------------------------------------------- frames on a byte stream

  function Le32(n: nat): Bytes {
    [n % 256, n / 256 % 256, n / 65536 % 256, n / 16777216 % 256]
  }

  function FromLe32(b: Bytes): nat
    requires |b| >= 4
  {
    var d0: nat, d1: nat, d2: nat, d3: nat := b[0], b[1], b[2], b[3];
    d0 + 256 * d1 + 65536 * d2 + 16777216 * d3
  }

  lemma Le32RoundTrip(n: nat)
    requires n < 0x1_0000_0000
    ensures FromLe32(Le32(n)) == n
  {
    BytePeels(n);
    BytePeels(n / 256);
    BytePeels(n / 65536);
  }

  lemma BytePeels(n: nat)
    ensures n == 256 * (n / 256) + n % 256
    ensures n / 256 / 256 == n / 65536 && n / 65536 / 256 == n / 16777216
  {
  }

  function WriteFrame(frame: Bytes): Option<Bytes> {
    if |frame| == 0 || |frame| > MAX_DIRECT then None else Some(Le32(|frame|) + frame)
  }

  datatype Read = Got(frame: Bytes, rest: Bytes) | Failed

  function ReadFrame(stream: Bytes, max: nat): Read {
    if |stream| < 4 then Failed
    else
      var n := FromLe32(stream);
      if n == 0 || n > max || |stream| < 4 + n then Failed
      else Got(stream[4..4 + n], stream[4 + n..])
  }

  lemma FrameRoundTrip(frame: Bytes, rest: Bytes, max: nat)
    requires Sendable(frame) && max >= MAX_DIRECT
    ensures WriteFrame(frame).Some?
    ensures ReadFrame(WriteFrame(frame).value + rest, max) == Got(frame, rest)
  {
    hide Le32, FromLe32;
    var head := Le32(|frame|);
    var s := head + frame + rest;
    Le32RoundTrip(|frame|);
    Le32Size(|frame|);
    HeadOnly(head, frame + rest);
    assert s == head + (frame + rest);
    assert s[4..4 + |frame|] == frame && s[4 + |frame|..] == rest;
  }

  lemma Le32Size(n: nat)
    ensures |Le32(n)| == 4
  {
  }

  lemma HeadOnly(a: Bytes, b: Bytes)
    requires |a| >= 4
    ensures FromLe32(a + b) == FromLe32(a)
  {
  }

  /** What the writing loop puts on the stream; frames that WriteFrame rejects end it. */
  function WriteAll(frames: seq<Bytes>): Bytes {
    if frames == [] || WriteFrame(frames[0]).None? then [] else WriteFrame(frames[0]).value + WriteAll(frames[1..])
  }

  /** What the reading loop takes off the stream until it fails. */
  function ReadAll(stream: Bytes, max: nat): seq<Bytes>
    decreases |stream|
  {
    match ReadFrame(stream, max)
    case Failed => []
    case Got(frame, rest) => [frame] + ReadAll(rest, max)
  }

  lemma {:induction false} StreamRoundTrip(frames: seq<Bytes>, max: nat)
    requires max >= MAX_DIRECT && forall f | f in frames :: Sendable(f)
    ensures ReadAll(WriteAll(frames), max) == frames
  {
    hide ReadFrame, WriteFrame, Sendable;
    if frames == [] {
      assert ReadFrame([], max) == Failed by { NothingToRead(max); }
    } else {
      assert frames[0] in frames && forall f | f in frames[1..] :: f in frames;
      StreamRoundTrip(frames[1..], max);
      FrameRoundTrip(frames[0], WriteAll(frames[1..]), max);
    }
  }

  lemma NothingToRead(max: nat)
    ensures ReadFrame([], max) == Failed
  {
  }

  // ---------------------------------------------------------------- the receiving relay loop

  /** What the loop has done: the assembler's table, the messages passed on, and whether it stopped. */
  datatype Relay = Relay(items: Items, passed: seq<Bytes>, stopped: bool)

  function Turn(w: World, r: Relay, d: Delivery): Relay {
    if r.stopped then r
    else
      var (items, out) := AcceptFrame(w, r.items, d.frame, d.now);
      match out
      case Broken => Relay(items, r.passed, true)
      case Incomplete => Relay(items, r.passed, false)
      case Complete(message) => Relay(items, r.passed + [message], false)
  }

  function Feed(w: World, r: Relay, ds: seq<Delivery>): Relay
    decreases |ds|
  {
    if ds == [] then r else Feed(w, Turn(w, r, ds[0]), ds[1..])
  }

  lemma {:induction false} FeedConcat(w: World, r: Relay, a: seq<Delivery>, b: seq<Delivery>)
    ensures Feed(w, r, a + b) == Feed(w, Feed(w, r, a), b)
    decreases |a|
  {
    hide Turn;
    if a == [] {
      assert a + b == b;
    } else {
      assert (a + b)[1..] == a[1..] + b;
      FeedConcat(w, Turn(w, r, a[0]), a[1..], b);
    }
  }

  /** A message as the sender has it: its bytes, the chunk size asked for and a stream id. */
  datatype Message = Message(raw: Bytes, requested: int, id: string)

  /** Within the receiver's limits, and not itself shaped like a chunk envelope. */
  ghost predicate Deliverable(w: World, m: Message) {
    && Encodable(w, m.raw, m.id) && w.valid(m.raw)
    && if |m.raw| <= MAX_DIRECT then w.parse(m.raw) == Plain
       else |m.raw| <= MAX_ASSEMBLED && CeilDiv(|m.raw|, ChunkSize(m.requested)) <= MAX_CHUNKS
  }

  function FramesOf(w: World, m: Message): seq<Bytes> {
    Frames(w, m.raw, m.requested, m.id)
  }

  ghost predicate Carries(ds: seq<Delivery>, frames: seq<Bytes>) {
    |ds| == |frames| && forall i | 0 <= i < |ds| :: ds[i].frame == frames[i]
  }

  ghost predicate NoLongGaps(ds: seq<Delivery>) {
    forall i | 0 <= i < |ds| - 1 :: ds[i + 1].now - ds[i].now <= GoAssembler.MINUTE
  }

  function StreamOf(m: Message): Stream {
    Stream(m.raw, ChunkSize(m.requested), m.id)
  }

  lemma StreamAdmissible(w: World, m: Message)
    requires Deliverable(w, m) && |m.raw| > MAX_DIRECT
    ensures Admissible(w, StreamOf(m))
  {
    LastPartExists(|m.raw|, ChunkSize(m.requested));
    assert |w.digest(m.raw)| == 64;
  }

  lemma LastPartExists(n: nat, k: nat)
    requires n > 0 && k > 0
    ensures CeilDiv(n, k) >= 1
  {
  }

  lemma KeysGrow(w: World, items: Items, frame: Bytes, now: int)
    ensures AcceptFrame(w, items, frame, now).0.Keys <=
            items.Keys + (if w.parse(frame).Envelope? then {w.parse(frame).chunk.id} else {})
  {
  }

  /** The frame with the i-th chunk of a long message. */
  lemma ChunkFrame(w: World, m: Message, i: nat)
    requires FaithfulJson(w) && Deliverable(w, m) && |m.raw| > MAX_DIRECT && i < Total(StreamOf(m))
    ensures var frame := FramesOf(w, m)[i];
            ForStream(w, StreamOf(m), frame) && Genuine(w, StreamOf(m), frame) && Index(w, frame) == i
  {
    hide Marshal, Part, Encode;
    ChunkIsPrintable(w, m.raw, ChunkSize(m.requested), m.id, i);
  }

  /** From the i-th chunk on, the loop passes nothing on until the last one, then the message. */
  lemma {:induction false} ChunksPass(w: World, m: Message, ds: seq<Delivery>, i: nat, items: Items, last: int,
      passed: seq<Bytes>)
    requires FaithfulJson(w) && Deliverable(w, m) && |m.raw| > MAX_DIRECT
    requires Carries(ds, FramesOf(w, m)) && NoLongGaps(ds) && i < |ds|
    requires GoodItems(items) && items.Keys <= {m.id} && Holds(w, items, StreamOf(m), Indices(i), last)
    requires i > 0 ==> last == ds[i - 1].now
    ensures Feed(w, Relay(items, passed, false), ds[i..]) == Relay(map[], passed + [m.raw], false)
    decreases |ds| - i
  {
    hide AcceptFrame, Holds, GoodItems, ForStream, Genuine, Index, FaithfulJson, Deliverable, Frames, Admissible,
         CeilDiv;
    var x := StreamOf(m);
    ChunkStep(w, m, ds, i, items, last);
    var (next, out) := AcceptFrame(w, items, ds[i].frame, ds[i].now);
    var t := Turn(w, Relay(items, passed, false), ds[i]);
    assert ds[i..][0] == ds[i] && ds[i..][1..] == ds[i + 1..];
    if i + 1 == |ds| {
      assert t == Relay(map[], passed + [m.raw], false);
      assert ds[i + 1..] == [];
    } else {
      assert t == Relay(next, passed, false);
      ChunksPass(w, m, ds, i + 1, next, ds[i].now, passed);
    }
  }

  lemma ChunkStep(w: World, m: Message, ds: seq<Delivery>, i: nat, items: Items, last: int)
    requires FaithfulJson(w) && Deliverable(w, m) && |m.raw| > MAX_DIRECT
    requires Carries(ds, FramesOf(w, m)) && NoLongGaps(ds) && i < |ds|
    requires GoodItems(items) && items.Keys <= {m.id} && Holds(w, items, StreamOf(m), Indices(i), last)
    requires i > 0 ==> last == ds[i - 1].now
    ensures |ds| == Total(StreamOf(m))
    ensures var (next, out) := AcceptFrame(w, items, ds[i].frame, ds[i].now);
            if i + 1 == |ds| then out == Complete(m.raw) && next == map[]
            else out == Incomplete && GoodItems(next) && next.Keys <= {m.id} &&
                 Holds(w, next, StreamOf(m), Indices(i + 1), ds[i].now)
  {
    hide AcceptFrame, Holds, GoodItems, Genuine, Marshal, Part, CeilDiv, Admissible;
    var x := StreamOf(m);
    StreamAdmissible(w, m);
    ChunkFrame(w, m, i);
    IndicesGrow(i, Total(x));
    AcceptKeepsItems(w, items, ds[i].frame, ds[i].now);
    KeysGrow(w, items, ds[i].frame, ds[i].now);
    StreamFrameStep(w, items, x, Indices(i), last, ds[i].frame, ds[i].now);
  }

  lemma IndicesGrow(i: nat, n: nat)
    requires i < n
    ensures Indices(i) + {i as int} == Indices(i + 1) && Indices(i) < Indices(n)
    ensures Indices(i + 1) == Indices(n) <==> i + 1 == n
    ensures Indices(i) != {} ==> i > 0
  {
  }

  /** One message on an idle relay: passed on whole, and the relay is idle again. */
  lemma MessagePasses(w: World, m: Message, ds: seq<Delivery>, passed: seq<Bytes>)
    requires FaithfulJson(w) && Deliverable(w, m) && Carries(ds, FramesOf(w, m)) && NoLongGaps(ds)
    ensures Feed(w, Relay(map[], passed, false), ds) == Relay(map[], passed + [m.raw], false)
  {
    if |m.raw| <= MAX_DIRECT {
      assert ds[0].frame == m.raw && ds[1..] == [];
    } else {
      hide AcceptFrame, Marshal, Part, Encode;
      StreamAdmissible(w, m);
      assert ds[0..] == ds;
      ChunksPass(w, m, ds, 0, map[], 0, passed);
    }
  }

  function AllFrames(w: World, ms: seq<Message>): seq<Bytes> {
    if ms == [] then [] else FramesOf(w, ms[0]) + AllFrames(w, ms[1..])
  }

  function Raws(ms: seq<Message>): seq<Bytes> {
    if ms == [] then [] else [ms[0].raw] + Raws(ms[1..])
  }

  /** Within each message no two frames are more than a minute apart; between messages there may be
      any pause. */
  ghost predicate NoGapInside(w: World, ms: seq<Message>, ds: seq<Delivery>) {
    ms != [] ==>
      var n := |FramesOf(w, ms[0])|;
      n <= |ds| && NoLongGaps(ds[..n]) && NoGapInside(w, ms[1..], ds[n..])
  }

  lemma DeliveriesSplit(ds: seq<Delivery>, first: seq<Bytes>, rest: seq<Bytes>)
    requires Carries(ds, first + rest)
    ensures |first| <= |ds| && Carries(ds[..|first|], first) && Carries(ds[|first|..], rest)
  {
  }

  lemma NothingPasses(w: World, r: Relay, ds: seq<Delivery>)
    requires Carries(ds, [])
    ensures Feed(w, r, ds) == r
  {
  }

  lemma {:induction false} MessagesPass(w: World, ms: seq<Message>, ds: seq<Delivery>, passed: seq<Bytes>)
    requires FaithfulJson(w) && (forall m | m in ms :: Deliverable(w, m))
    requires Carries(ds, AllFrames(w, ms)) && NoGapInside(w, ms, ds)
    ensures Feed(w, Relay(map[], passed, false), ds) == Relay(map[], passed + Raws(ms), false)
  {
    hide FramesOf, Deliverable, FaithfulJson, Carries, NoLongGaps, Feed;
    var start := Relay(map[], passed, false);
    if ms == [] {
      NothingPasses(w, start, ds);
      assert passed + Raws(ms) == passed;
    } else {
      assert ms[0] in ms;
      DeliveriesSplit(ds, FramesOf(w, ms[0]), AllFrames(w, ms[1..]));
      var n := |FramesOf(w, ms[0])|;
      MessagePasses(w, ms[0], ds[..n], passed);
      MessagesPass(w, ms[1..], ds[n..], passed + [ms[0].raw]);
      FeedConcat(w, start, ds[..n], ds[n..]);
      assert ds[..n] + ds[n..] == ds;
      assert passed + [ms[0].raw] + Raws(ms[1..]) == passed + Raws(ms);
    }
  }

  lemma {:induction false} AllFramesSendable(w: World, ms: seq<Message>)
    requires FaithfulJson(w) && (forall m | m in ms :: Deliverable(w, m))
    ensures forall f | f in AllFrames(w, ms) :: Sendable(f)
  {
    if ms != [] {
      assert ms[0] in ms;
      FramesSendable(w, ms[0]);
      AllFramesSendable(w, ms[1..]);
    }
  }

  lemma FramesSendable(w: World, m: Message)
    requires FaithfulJson(w) && Deliverable(w, m)
    ensures forall f | f in FramesOf(w, m) :: Sendable(f)
  {
    hide Marshal, Part, Encode;
    if |m.raw| > MAX_DIRECT {
      var k := ChunkSize(m.requested);
      forall i | 0 <= i < CeilDiv(|m.raw|, k) ensures Sendable(FramesOf(w, m)[i]) {
        ChunkFrameFits(w, m.raw, k, m.id, i);
      }
    }
  }

  /** Encode, write, read, reassemble: any sequence of deliverable messages, written frame by frame
      onto a byte stream and read from it again, is passed on message by message, byte for byte, in
      order, and nothing is left behind; `max` is the reader's frame limit. */
  lemma EndToEnd(w: World, ms: seq<Message>, max: nat, ds: seq<Delivery>)
    requires FaithfulJson(w) && (forall m | m in ms :: Deliverable(w, m))
    requires max >= MAX_DIRECT
    requires Carries(ds, ReadAll(WriteAll(AllFrames(w, ms)), max)) && NoGapInside(w, ms, ds)
    ensures Feed(w, Relay(map[], [], false), ds) == Relay(map[], Raws(ms), false)
  {
    hide Deliverable, FaithfulJson, ReadAll, WriteAll, Feed;
    AllFramesSendable(w, ms);
    StreamRoundTrip(AllFrames(w, ms), max);
    MessagesPass(w, ms, ds, []);
    assert [] + Raws(ms) == Raws(ms);
  }
}
