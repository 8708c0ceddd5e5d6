/**
 The formats on the wire (internal/nativemsg/native.go and apps/extension/src/chunk-codec.ts): base64 as
 section 4 of RFC 4648 writes it, the frame header, and what a chunk carries.
 */
module FormatLaws {
  import opened Options
  import opened Numbers
  import opened Base64
  import opened Chunks
  import opened NativeFraming

  const UPPER := "ABCDEFGHIJKLMNOPQRSTUVWXYZ"
  const LOWER := "abcdefghijklmnopqrstuvwxyz"
  const DIGITS := "0123456789"

  /** The letter for six bits. */
  function Letter(v: nat): char
    requires v < 64
  {
    if v < 26 then UPPER[v] else if v < 52 then LOWER[v - 26] else if v < 62 then DIGITS[v - 52]
    else if v == 62 then '+' else '/'
  }

  lemma UpperLetters(i: nat)
    requires i < 26
    ensures UPPER[i] as int == 'A' as int + i
  {
  }

  lemma LowerLetters(i: nat)
    requires i < 26
    ensures LOWER[i] as int == 'a' as int + i
  {
  }

  lemma DigitLetters(i: nat)
    requires i < 10
    ensures DIGITS[i] as int == '0' as int + i
  {
  }

  /** Each six bits are written as the letter at that place of the alphabet. */
  lemma SymbolsAreTheAlphabet(v: Sextet)
    ensures Symbol(v) == Letter(v)
  {
    if v < 26 {
      UpperLetters(v);
    } else if v < 52 {
      LowerLetters(v - 26);
    } else if v < 62 {
      DigitLetters(v - 52);
    }
  }

  /** Three bytes are written as the 24 bits they make, six at a time, most significant first. */
  lemma QuantumIsBigEndian(x: Byte, y: Byte, z: Byte, rest: Bytes)
    ensures var n, s := 65536 * x + 256 * y + z, Encode([x, y, z] + rest);
            && |s| >= 4
            && s[0] == Letter(n / 262144) && s[1] == Letter(n / 4096 % 64)
            && s[2] == Letter(n / 64 % 64) && s[3] == Letter(n % 64)
            && s[4..] == Encode(rest)
  {
    var b := [x, y, z] + rest;
    assert b[3..] == rest;
    EncodeQuantum(b);
    SextetBits(x, y, z);
    var q := [HighSix(x), TwoFour(x, y), FourTwo(y, z), LowSix(z)];
    assert Symbols(q) == [Symbol(q[0]), Symbol(q[1]), Symbol(q[2]), Symbol(q[3])];
    hide Encode, Symbol, HighSix, TwoFour, FourTwo, LowSix;
    SymbolsAreTheAlphabet(q[0]);
    SymbolsAreTheAlphabet(q[1]);
    SymbolsAreTheAlphabet(q[2]);
    SymbolsAreTheAlphabet(q[3]);
  }

  lemma NoGreater(d: nat, q: nat, r: nat, k: nat, m: nat)
    requires d * q + r == d * k + m && r < d
    ensures k <= q
  {
    if k > q {
      Apart(d, q, k);
    }
  }

  lemma Apart(d: nat, q: nat, k: nat)
    requires q < k
    ensures d * k >= d * q + d
  {
    assert d * k == d * q + d * (k - q);
    assert d * (k - q) == d + d * (k - q - 1);
  }

  lemma Splits(d: nat, q: nat, r: nat)
    requires r < d
    ensures (d * q + r) / d == q && (d * q + r) % d == r
  {
    var n: nat := d * q + r;
    var k: nat, m: nat := n / d, n % d;
    assert n == d * k + m && m < d;
    NoGreater(d, q, r, k, m);
    NoGreater(d, k, m, q, r);
  }

  /** The 24 bits, cut after the first, second and third six. */
  lemma SextetBits(x: Byte, y: Byte, z: Byte)
    ensures var n := 65536 * x + 256 * y + z;
            && HighSix(x) == n / 262144 && TwoFour(x, y) == n / 4096 % 64
            && FourTwo(y, z) == n / 64 % 64 && LowSix(z) == n % 64
  {
    var n: nat := 65536 * x + 256 * y + z;
    var x1: nat, x0: nat, y1: nat, y0: nat, z1: nat, z0: nat := x / 4, x % 4, y / 16, y % 16, z / 64, z % 64;
    assert x == 4 * x1 + x0 && y == 16 * y1 + y0 && z == 64 * z1 + z0;
    assert n == 262144 * x1 + (65536 * x0 + 256 * y + z);
    assert n == 4096 * (64 * x1 + 16 * x0 + y1) + (256 * y0 + z);
    assert n == 64 * (4096 * x1 + 1024 * x0 + 64 * y1 + 4 * y0 + z1) + z0;
    Splits(262144, x1, 65536 * x0 + 256 * y + z);
    Splits(4096, 64 * x1 + 16 * x0 + y1, 256 * y0 + z);
    Splits(64, 4096 * x1 + 1024 * x0 + 64 * y1 + 4 * y0 + z1, z0);
    Splits(64, x1, 16 * x0 + y1);
    Splits(64, 64 * x1 + 16 * x0 + y1, 4 * y0 + z1);
  }

  /** One or two bytes at the end are filled up with zero bits, and the text with padding. */
  lemma LastByteIsPadded(x: Byte)
    ensures Encode([x]) == [Letter(x / 4), Letter(x % 4 * 16), '=', '='] && Encode([]) == ""
  {
    SymbolsAreTheAlphabet(HighSix(x));
    SymbolsAreTheAlphabet(TwoFour(x, 0));
    hide Symbol, Letter;
    assert Symbols([HighSix(x), TwoFour(x, 0)]) == [Symbol(HighSix(x)), Symbol(TwoFour(x, 0))];
    assert Symbols([]) == "";
  }

  lemma LastTwoBytesArePadded(x: Byte, y: Byte)
    ensures Encode([x, y]) == [Letter(x / 4), Letter(x % 4 * 16 + y / 16), Letter(y % 16 * 4), '=']
  {
    SymbolsAreTheAlphabet(HighSix(x));
    SymbolsAreTheAlphabet(TwoFour(x, y));
    SymbolsAreTheAlphabet(FourTwo(y, 0));
    hide Symbol, Letter;
    var q := [HighSix(x), TwoFour(x, y), FourTwo(y, 0)];
    assert Sextets([x, y]) == q;
    assert Symbols(q) == [Symbol(q[0]), Symbol(q[1]), Symbol(q[2])];
  }

  // ---------------------------------------------------------------- frames

  /** A frame of 1 byte to 1 MiB is written behind its length, four bytes with the least significant first; any
      other is refused. */
  lemma FrameHeader(frame: Bytes)
    ensures WriteFrame(frame).Some? <==> 1 <= |frame| <= 1_048_576
    ensures WriteFrame(frame).Some? ==>
              var s := WriteFrame(frame).value;
              && |s| == 4 + |frame| && s[4..] == frame
              && s[0] == |frame| % 256 && s[1] == |frame| / 256 % 256
              && s[2] == |frame| / 65536 % 256 && s[3] == |frame| / 16777216
  {
  }

  /** What four bytes announce, the least significant first. */
  function Announced(stream: Bytes): nat
    requires |stream| >= 4
  {
    stream[0] as int + 256 * (stream[1] as int) + 65536 * (stream[2] as int) + 16777216 * (stream[3] as int)
  }

  /** A reader takes a frame only behind a header that announces 1 byte to its limit, and only whole. */
  lemma ReadIsExact(stream: Bytes, max: nat)
    ensures ReadFrame(stream, max).Got? <==>
              |stream| >= 4 && 1 <= Announced(stream) <= max && 4 + Announced(stream) <= |stream|
    ensures ReadFrame(stream, max).Got? ==>
              var r := ReadFrame(stream, max);
              |r.frame| == Announced(stream) && stream == stream[..4] + r.frame + r.rest
  {
  }

  // ---------------------------------------------------------------- chunks

  /** Chunk i of a message carries its i-th piece of k bytes, the last one what is left, under the message's
      digest and the number of pieces. */
  lemma ChunkCarriesItsPiece(w: World, raw: Bytes, k: nat, id: string, i: nat)
    requires k > 0 && i * k < |raw|
    ensures var c := ChunkAt(w, raw, k, id, i);
            && c.version == 1 && c.id == id && c.index == i && c.sha256 == w.digest(raw)
            && c.total == (|raw| + k - 1) / k
            && GoDecode(c.data) == Some(raw[i * k..if (i + 1) * k < |raw| then (i + 1) * k else |raw|])
  {
    hide Encode, GoDecode;
    assert (i + 1) * k == i * k + k;
    GoRoundTrip(Part(raw, k, i));
  }

  /** Encode cuts a message of more than 1 MiB into pieces of the size asked for, if that is between 1 byte and
      512 KiB, and of 512 KiB otherwise; a shorter one it sends as it is. */
  lemma EncodeCuts(w: World, raw: Bytes, requested: int, id: string)
    ensures |raw| <= 1_048_576 ==> Frames(w, raw, requested, id) == [raw]
    ensures |raw| > 1_048_576 ==>
              var k := if 1 <= requested <= 524_288 then requested else 524_288;
              var frames := Frames(w, raw, requested, id);
              && |frames| == (|raw| + k - 1) / k
              && forall i | 0 <= i < |frames| :: frames[i] == Marshal(ChunkAt(w, raw, k, id, i))
  {
    hide Marshal, ChunkAt;
  }
}
