/**
 Chunks of a native message: what both encoders produce and what both sides agree on
 (internal/nativemsg/native.go and apps/extension/src/chunk-codec.ts).
 */
module Chunks {
  import opened Options
  import opened Numbers
  import opened Base64

  datatype Chunk = Chunk(version: int, id: string, index: int, total: int, sha256: string, data: string)

  const MEBIBYTE := 1024 * 1024
  const MAX_DIRECT := MEBIBYTE
  const DEFAULT_CHUNK := 512 * 1024
  const MAX_ASSEMBLED := 128 * MEBIBYTE
  const MAX_CHUNKS := 4096

  /** The functions of the environment that the codec calls and this model does not define: the
      hexadecimal SHA-256 digest, JSON validity, and the envelope a frame unmarshals into. */
  datatype World = World(digest: Bytes -> string, valid: Bytes -> bool, parse: Bytes -> Parsed)

  datatype Parsed = Malformed | Plain | Envelope(chunk: Chunk)

  /** What an assembler answers: nothing yet, a whole message, or an error. */
  datatype Outcome = Incomplete | Complete(message: Bytes) | Broken

  predicate LowerHex(s: string) {
    forall c | c in s :: '0' <= c <= '9' || 'a' <= c <= 'f'
  }

  /** A digest is 64 lower-case hexadecimal digits. */
  ghost predicate Digests(w: World) {
    forall b: Bytes {:trigger w.digest(b)} :: |w.digest(b)| == 64 && LowerHex(w.digest(b))
  }

  // ---------------------------------------------------------------- cutting a message up

  function CeilDiv(n: nat, k: nat): nat
    requires k > 0
  {
    (n + k - 1) / k
  }

  /** The bytes of part i of n bytes cut every k. */
  function Part(raw: Bytes, k: nat, i: nat): Bytes
    requires k > 0
  {
    var from := if i * k < |raw| then i * k else |raw|;
    var to := if i * k + k < |raw| then i * k + k else |raw|;
    raw[from..to]
  }

  // ---------------------------------------------------------------- the chunks of a message

  function ChunkAt(w: World, raw: Bytes, k: nat, id: string, i: nat): Chunk
    requires k > 0
  {
    Chunk(1, id, i, CeilDiv(|raw|, k), w.digest(raw), Encode(Part(raw, k, i)))
  }

  function ChunksOf(w: World, raw: Bytes, k: nat, id: string): seq<Chunk>
    requires k > 0
  {
    seq(CeilDiv(|raw|, k), i requires 0 <= i => ChunkAt(w, raw, k, id, i))
  }

  /** Concatenating consecutive parts of a table. */
  function Join(parts: map<int, Bytes>, n: nat): Bytes
    requires forall i | 0 <= i < n :: i in parts
  {
    if n == 0 then [] else Join(parts, n - 1) + parts[n - 1]
  }

  function Sizes(parts: map<int, Bytes>, n: nat): nat {
    if n == 0 then 0 else Sizes(parts, n - 1) + (if n - 1 in parts then |parts[n - 1]| else 0)
  }

  function Upto(raw: Bytes, k: nat, n: nat): nat {
    if n * k < |raw| then n * k else |raw|
  }

  lemma PartExtends(raw: Bytes, k: nat, n: nat)
    requires k > 0 && 0 < n <= CeilDiv(|raw|, k)
    ensures Upto(raw, k, n - 1) <= Upto(raw, k, n)
    ensures raw[..Upto(raw, k, n - 1)] + Part(raw, k, n - 1) == raw[..Upto(raw, k, n)]
  {
  }

  lemma {:induction false} PrefixParts(raw: Bytes, k: nat, n: nat, parts: map<int, Bytes>)
    requires k > 0 && n <= CeilDiv(|raw|, k)
    requires forall i | 0 <= i < n :: i in parts && parts[i] == Part(raw, k, i)
    ensures Join(parts, n) == raw[..Upto(raw, k, n)]
  {
    hide CeilDiv, Part, Upto;
    if n == 0 {
      assert Upto(raw, k, 0) == 0 by { UptoZero(raw, k); }
    } else {
      PrefixParts(raw, k, n - 1, parts);
      PartExtends(raw, k, n);
    }
  }

  lemma UptoZero(raw: Bytes, k: nat)
    ensures Upto(raw, k, 0) == 0
  {
  }

  /** All the parts together are the message. */
  lemma AllParts(raw: Bytes, k: nat, parts: map<int, Bytes>)
    requires k > 0
    requires forall i | 0 <= i < CeilDiv(|raw|, k) :: i in parts && parts[i] == Part(raw, k, i)
    ensures Join(parts, CeilDiv(|raw|, k)) == raw
  {
    var n := CeilDiv(|raw|, k);
    PrefixParts(raw, k, n, parts);
    if n == 0 {
      assert |raw| + k - 1 == (|raw| + k - 1) % k;
    } else {
      LastPart(raw, k, n);
    }
    assert raw[..|raw|] == raw;
  }

  /** Every part but the last is full, and the last one is not empty. */
  lemma LastPart(raw: Bytes, k: nat, n: nat)
    requires k > 0 && 0 < n <= CeilDiv(|raw|, k)
    ensures (n - 1) * k < |raw|
    ensures n == CeilDiv(|raw|, k) <==> |raw| <= n * k
  {
    var m := CeilDiv(|raw|, k);
    var r := (|raw| + k - 1) % k;
    assert |raw| + k - 1 == m * k + r;
    assert (m - n) * k >= 0;
    assert (m - 1) * k == m * k - k;
    if n < m {
      assert (m - n) * k >= k;
    }
    assert (n - 1) * k == n * k - k && n * k + (m - n) * k == m * k;
  }

  lemma {:induction false} SizesBound(raw: Bytes, k: nat, n: nat, parts: map<int, Bytes>)
    requires k > 0 && n <= CeilDiv(|raw|, k)
    requires forall i | 0 <= i < n && i in parts :: parts[i] == Part(raw, k, i)
    ensures Sizes(parts, n) <= Upto(raw, k, n)
  {
    if n > 0 {
      SizesBound(raw, k, n - 1, parts);
      LastPart(raw, k, n);
      assert n * k == (n - 1) * k + k;
    }
  }

  lemma {:induction false} SizesFrame(parts: map<int, Bytes>, i: int, b: Bytes, n: nat)
    requires i !in parts
    ensures Sizes(parts[i := b], n) == Sizes(parts, n) + if 0 <= i < n then |b| else 0
  {
    if n > 0 {
      SizesFrame(parts, i, b, n - 1);
    }
  }

  lemma {:induction false} IndicesCount(n: nat)
    ensures |Indices(n)| == n
  {
    if n > 0 {
      IndicesCount(n - 1);
    }
  }

  lemma SubsetCount<T>(a: set<T>, b: set<T>)
    requires a <= b
    ensures |a| <= |b| && (|a| == |b| <==> a == b)
  {
    var rest := b - a;
    assert b == a + rest && a !! rest;
    assert |b| == |a| + |rest|;
  }

  /** n parts with indices below n are all the parts: no index is missing. */
  lemma Pigeonhole(parts: map<int, Bytes>, n: nat)
    requires parts.Keys <= Indices(n)
    ensures |parts| <= n && (|parts| == n <==> forall i | 0 <= i < n :: i in parts)
  {
    IndicesCount(n);
    SubsetCount(parts.Keys, Indices(n));
    assert |parts| == |parts.Keys|;
  }
}
