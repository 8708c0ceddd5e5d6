/**
 Base64 as section 4 of RFC 4648 defines it, with the two decoders that read it: Go's
 base64.StdEncoding (internal/nativemsg/native.go) and the browser's atob
 (apps/extension/src/chunk-codec.ts).
 */
module Base64 {
  import opened Options

  type Byte = b: nat | b < 256
  type Bytes = seq<Byte>
  type Sextet = v: nat | v < 64

  function Symbol(v: Sextet): char {
    if v < 26 then ('A' as int + v) as char
    else if v < 52 then ('a' as int + (v - 26)) as char
    else if v < 62 then ('0' as int + (v - 52)) as char
    else if v == 62 then '+'
    else '/'
  }

  function Value(c: char): Option<Sextet> {
    if 'A' <= c <= 'Z' then Some(c as int - 'A' as int)
    else if 'a' <= c <= 'z' then Some(c as int - 'a' as int + 26)
    else if '0' <= c <= '9' then Some(c as int - '0' as int + 52)
    else if c == '+' then Some(62)
    else if c == '/' then Some(63)
    else None
  }

  lemma SymbolValue(v: Sextet)
    ensures Value(Symbol(v)) == Some(v) && Symbol(v) != '='
  {
  }

  function HighSix(x: Byte): Sextet { x / 4 }

  function TwoFour(x: Byte, y: Byte): Sextet { x % 4 * 16 + y / 16 }

  function FourTwo(y: Byte, z: Byte): Sextet { y % 16 * 4 + z / 64 }

  function LowSix(z: Byte): Sextet { z % 64 }

  /** Three bytes become four sextets; one or two left over become two or three, filled with zeros. */
  function Sextets(b: Bytes): seq<Sextet> {
    if |b| == 0 then []
    else if |b| == 1 then [HighSix(b[0]), TwoFour(b[0], 0)]
    else if |b| == 2 then [HighSix(b[0]), TwoFour(b[0], b[1]), FourTwo(b[1], 0)]
    else [HighSix(b[0]), TwoFour(b[0], b[1]), FourTwo(b[1], b[2]), LowSix(b[2])] + Sextets(b[3..])
  }

  function Symbols(vs: seq<Sextet>): string {
    seq(|vs|, i requires 0 <= i < |vs| => Symbol(vs[i]))
  }

  function Padding(n: nat): string {
    if n % 3 == 0 then "" else if n % 3 == 1 then "==" else "="
  }

  function Encode(b: Bytes): string {
    Symbols(Sextets(b)) + Padding(|b|)
  }

  lemma {:induction false} SextetCount(b: Bytes)
    ensures |Sextets(b)| == |b| / 3 * 4 + (if |b| % 3 == 0 then 0 else |b| % 3 + 1)
  {
    if |b| > 2 {
      SextetCount(b[3..]);
    }
  }

  lemma Thirds(n: nat, q: nat, r: nat)
    requires n == 3 * q + r && r < 3
    ensures n / 3 == q && n % 3 == r && (n + 2) / 3 == if r == 0 then q else q + 1
  {
  }

  lemma EncodedLength(b: Bytes)
    ensures |Encode(b)| == 4 * ((|b| + 2) / 3)
  {
    hide Sextets;
    SextetCount(b);
    Thirds(|b|, |b| / 3, |b| % 3);
  }

  function First(v: Sextet, w: Sextet): Byte {
    v * 4 + w / 16
  }

  function Second(v: Sextet, w: Sextet): Byte {
    v % 16 * 16 + w / 4
  }

  function Third(v: Sextet, w: Sextet): Byte {
    v % 4 * 64 + w
  }

  /** Regrouping the bits loses nothing. */
  lemma Regroup(x: Byte, y: Byte, z: Byte)
    ensures First(HighSix(x), TwoFour(x, y)) == x
    ensures Second(TwoFour(x, y), FourTwo(y, z)) == y
    ensures Third(FourTwo(y, z), LowSix(z)) == z
  {
  }

  /** The bytes of n symbols that are all in the alphabet; unused trailing bits are dropped. */
  function Unpack(vs: seq<Sextet>): Bytes {
    if |vs| < 2 then []
    else if |vs| == 2 then [First(vs[0], vs[1])]
    else if |vs| == 3 then [First(vs[0], vs[1]), Second(vs[1], vs[2])]
    else [First(vs[0], vs[1]), Second(vs[1], vs[2]), Third(vs[2], vs[3])] + Unpack(vs[4..])
  }

  function Values(s: string): Option<seq<Sextet>> {
    if s == "" then Some([])
    else
      var rest := Values(s[1..]);
      if Value(s[0]).Some? && rest.Some? then Some([Value(s[0]).value] + rest.value) else None
  }

  function Strip(s: string, skip: set<char>): string {
    if s == "" then "" else (if s[0] in skip then "" else [s[0]]) + Strip(s[1..], skip)
  }

  // ---------------------------------------------------------------- Go

  /** Whole quanta, with padding only in the last one. */
  function DecodeQuanta(s: string): Option<Bytes> {
    if s == "" then Some([])
    else if |s| < 4 then None
    else
      var a, b, c, d := Value(s[0]), Value(s[1]), Value(s[2]), Value(s[3]);
      if a.None? || b.None? then None
      else if c.Some? && d.Some? then
        var rest := DecodeQuanta(s[4..]);
        if rest.None? then None
        else Some([First(a.value, b.value), Second(b.value, c.value), Third(c.value, d.value)] + rest.value)
      else if |s| != 4 || s[3] != '=' then None
      else if c.Some? then Some([First(a.value, b.value), Second(b.value, c.value)])
      else if s[2] == '=' then Some([First(a.value, b.value)])
      else None
  }

  /** base64.StdEncoding.DecodeString, which ignores line ends. */
  function GoDecode(s: string): Option<Bytes> {
    DecodeQuanta(Strip(s, {'\r', '\n'}))
  }

  // ---------------------------------------------------------------- atob

  function DropPadding(s: string): string {
    if |s| % 4 != 0 || s == "" || s[|s| - 1] != '=' then s
    else if s[|s| - 2] == '=' then s[..|s| - 2]
    else s[..|s| - 1]
  }

  function JsSpace(): (r: set<char>)
    ensures forall c | c in r :: Value(c) == None && c != '='
  {
    {' ', '\t', '\n', '\r', 12 as char}
  }

  /** atob, which ignores ASCII white space and accepts missing padding. */
  function AtobDecode(s: string): Option<Bytes> {
    var t := DropPadding(Strip(s, JsSpace()));
    if |t| % 4 == 1 || Values(t).None? then None else Some(Unpack(Values(t).value))
  }

  // ---------------------------------------------------------------- round trips

  predicate Clean(s: string) {
    forall c | c in s :: Value(c).Some? || c == '='
  }

  lemma EncodeIsClean(b: Bytes)
    ensures Clean(Encode(b))
  {
  }

  lemma {:induction false} StripClean(s: string, skip: set<char>)
    requires Clean(s) && forall c | c in skip :: Value(c).None? && c != '='
    ensures Strip(s, skip) == s
  {
    if s != "" {
      assert s[0] in s;
      assert forall c | c in s[1..] :: c in s;
      StripClean(s[1..], skip);
    }
  }

  lemma SymbolsConcat(xs: seq<Sextet>, ys: seq<Sextet>)
    ensures Symbols(xs + ys) == Symbols(xs) + Symbols(ys)
  {
  }

  /** A full quantum decodes by itself and leaves the rest alone. */
  lemma DecodeQuantum(vs: seq<Sextet>, rest: string)
    requires |vs| == 4 && DecodeQuanta(rest).Some?
    ensures DecodeQuanta(Symbols(vs) + rest) ==
            Some([First(vs[0], vs[1]), Second(vs[1], vs[2]), Third(vs[2], vs[3])] + DecodeQuanta(rest).value)
  {
    var s := Symbols(vs) + rest;
    assert s[4..] == rest && s[0] == Symbol(vs[0]) && s[1] == Symbol(vs[1]) && s[2] == Symbol(vs[2]) &&
        s[3] == Symbol(vs[3]);
    SymbolValue(vs[0]);
    SymbolValue(vs[1]);
    SymbolValue(vs[2]);
    SymbolValue(vs[3]);
  }

  lemma DecodeOne(b: Bytes)
    requires |b| == 1
    ensures DecodeQuanta(Encode(b)) == Some(b)
  {
    hide First, Second, Third, HighSix, TwoFour, FourTwo, LowSix, Symbol;
    var v, w := HighSix(b[0]), TwoFour(b[0], 0);
    assert Symbols(Sextets(b)) == [Symbol(v), Symbol(w)];
    assert Encode(b) == [Symbol(v), Symbol(w), '=', '='];
    SymbolValue(v);
    SymbolValue(w);
    assert Value('=') == None;
    Regroup(b[0], 0, 0);
    assert b == [b[0]];
  }

  lemma DecodeTwo(b: Bytes)
    requires |b| == 2
    ensures DecodeQuanta(Encode(b)) == Some(b)
  {
    hide First, Second, Third, HighSix, TwoFour, FourTwo, LowSix, Symbol;
    var v, w, x := HighSix(b[0]), TwoFour(b[0], b[1]), FourTwo(b[1], 0);
    assert Symbols(Sextets(b)) == [Symbol(v), Symbol(w), Symbol(x)];
    assert Encode(b) == [Symbol(v), Symbol(w), Symbol(x), '='];
    SymbolValue(v);
    SymbolValue(w);
    SymbolValue(x);
    assert Value('=') == None;
    Regroup(b[0], b[1], 0);
    assert b == [b[0], b[1]];
  }

  /** The first three bytes make the first quantum. */
  lemma EncodeQuantum(b: Bytes)
    requires |b| >= 3
    ensures var q := [HighSix(b[0]), TwoFour(b[0], b[1]), FourTwo(b[1], b[2]), LowSix(b[2])];
            Encode(b) == Symbols(q) + Encode(b[3..])
  {
    hide Symbols, HighSix, TwoFour, FourTwo, LowSix;
    var q := [HighSix(b[0]), TwoFour(b[0], b[1]), FourTwo(b[1], b[2]), LowSix(b[2])];
    SymbolsConcat(q, Sextets(b[3..]));
  }

  lemma {:induction false} QuantaRoundTrip(b: Bytes)
    ensures DecodeQuanta(Encode(b)) == Some(b)
  {
    hide First, Second, Third, HighSix, TwoFour, FourTwo, LowSix;
    if |b| == 0 {
      assert Encode(b) == "";
    } else if |b| == 1 {
      DecodeOne(b);
    } else if |b| == 2 {
      DecodeTwo(b);
    } else {
      hide Encode, DecodeQuanta, Symbols;
      QuantaRoundTrip(b[3..]);
      EncodeQuantum(b);
      DecodeQuantum([HighSix(b[0]), TwoFour(b[0], b[1]), FourTwo(b[1], b[2]), LowSix(b[2])], Encode(b[3..]));
      Regroup(b[0], b[1], b[2]);
      assert b == [b[0], b[1], b[2]] + b[3..];
    }
  }

  lemma GoRoundTrip(b: Bytes)
    ensures GoDecode(Encode(b)) == Some(b)
  {
    EncodeIsClean(b);
    StripClean(Encode(b), {'\r', '\n'});
    QuantaRoundTrip(b);
  }

  lemma UnpackQuantum(x: Byte, y: Byte, z: Byte, rest: seq<Sextet>)
    ensures Unpack([HighSix(x), TwoFour(x, y), FourTwo(y, z), LowSix(z)] + rest) == [x, y, z] + Unpack(rest)
  {
    hide First, Second, Third, HighSix, TwoFour, FourTwo, LowSix;
    Regroup(x, y, z);
    var vs := [HighSix(x), TwoFour(x, y), FourTwo(y, z), LowSix(z)] + rest;
    assert vs[4..] == rest;
  }

  lemma {:induction false} UnpackSextets(b: Bytes)
    ensures Unpack(Sextets(b)) == b
  {
    hide First, Second, Third, HighSix, TwoFour, FourTwo, LowSix;
    if |b| == 0 {
    } else if |b| == 1 {
      Regroup(b[0], 0, 0);
    } else if |b| == 2 {
      Regroup(b[0], b[1], 0);
    } else {
      UnpackSextets(b[3..]);
      UnpackQuantum(b[0], b[1], b[2], Sextets(b[3..]));
      hide Unpack;
      assert b == [b[0], b[1], b[2]] + b[3..];
    }
  }

  lemma {:induction false} ValuesOfSymbols(vs: seq<Sextet>)
    ensures Values(Symbols(vs)) == Some(vs)
  {
    if vs != [] {
      SymbolValue(vs[0]);
      ValuesOfSymbols(vs[1..]);
      assert Symbols(vs)[1..] == Symbols(vs[1..]);
      assert vs == [vs[0]] + vs[1..];
    }
  }

  lemma PaddingDrops(b: Bytes)
    ensures DropPadding(Encode(b)) == Symbols(Sextets(b))
  {
    hide Sextets;
    SextetCount(b);
    EncodedLength(b);
    var s, n := Symbols(Sextets(b)), |Sextets(b)|;
    if n > 0 {
      SymbolValue(Sextets(b)[n - 1]);
      assert s[n - 1] != '=';
    }
  }

  lemma AtobRoundTrip(b: Bytes)
    ensures AtobDecode(Encode(b)) == Some(b)
  {
    EncodeIsClean(b);
    StripClean(Encode(b), JsSpace());
    AtobUnpadded(b);
  }

  lemma AtobUnpadded(b: Bytes)
    ensures var t := DropPadding(Encode(b)); |t| % 4 != 1 && Values(t).Some? && Unpack(Values(t).value) == b
  {
    hide Sextets, Encode, DropPadding, Values, Unpack;
    PaddingDrops(b);
    ValuesOfSymbols(Sextets(b));
    UnpackSextets(b);
    SextetCount(b);
  }
}
