/**
 What the two base64 decoders accept, and what they make of it (internal/nativemsg/native.go and
 apps/extension/src/chunk-codec.ts; sections 3.3 and 4 of RFC 4648).
 */
module DecoderLaws {
  import opened Options
  import opened Base64
  import opened FormatLaws

  predicate IsLetter(c: char) {
    'A' <= c <= 'Z' || 'a' <= c <= 'z' || '0' <= c <= '9' || c == '+' || c == '/'
  }

  ghost predicate AllLetters(s: string) {
    forall c | c in s :: IsLetter(c)
  }

  /** Groups of four letters, the last of which may end in one or two padding characters. */
  ghost predicate Padded(s: string) {
    && |s| % 4 == 0
    && (forall i | 0 <= i < |s| - 2 :: IsLetter(s[i]))
    && (s != "" ==> IsLetter(s[|s| - 1]) || s[|s| - 1] == '=')
    && (s != "" ==> IsLetter(s[|s| - 2]) || (s[|s| - 2] == '=' && s[|s| - 1] == '='))
  }

  /** The padding that n letters still need. */
  function Missing(n: nat): string {
    if n % 4 == 2 then "==" else if n % 4 == 3 then "=" else ""
  }

  lemma LettersHaveValues(c: char)
    ensures Value(c).Some? <==> IsLetter(c)
    ensures IsLetter(c) ==> Letter(Value(c).value) == c
  {
    if IsLetter(c) {
      SymbolsAreTheAlphabet(Value(c).value);
    }
  }

  lemma ValueOfLetter(v: Sextet)
    ensures Value(Letter(v)) == Some(v) && Letter(v) != '='
  {
    SymbolsAreTheAlphabet(v);
    SymbolValue(v);
  }

  lemma PaddedTail(s: string)
    requires |s| > 4
    ensures Padded(s) <==> Padded(s[4..]) && forall i | 0 <= i < 4 :: IsLetter(s[i])
  {
    var t := s[4..];
    assert forall i | 0 <= i < |t| :: t[i] == s[i + 4];
    if Padded(s[4..]) && forall i | 0 <= i < 4 :: IsLetter(s[i]) {
      forall i | 0 <= i < |s| - 2 ensures IsLetter(s[i]) {
        if i >= 4 {
          assert t[i - 4] == s[i];
        }
      }
    }
    if Padded(s) {
      forall i | 0 <= i < |t| - 2 ensures IsLetter(t[i]) {
        assert t[i] == s[i + 4];
      }
    }
  }

  lemma PadIsNoLetter()
    ensures Value('=') == None && !IsLetter('=')
  {
  }

  lemma {:induction false} QuantaAreExact(s: string)
    ensures DecodeQuanta(s).Some? <==> Padded(s)
  {
    hide First, Second, Third, Value, IsLetter;
    PadIsNoLetter();
    if |s| >= 4 {
      LettersHaveValues(s[0]);
      LettersHaveValues(s[1]);
      LettersHaveValues(s[2]);
      LettersHaveValues(s[3]);
      QuantaAreExact(s[4..]);
      if |s| > 4 {
        PaddedTail(s);
        hide Padded;
      }
    }
  }

  // ---------------------------------------------------------------- what is skipped

  lemma {:induction false} StripSplits(x: string, y: string, skip: set<char>)
    ensures Strip(x + y, skip) == Strip(x, skip) + Strip(y, skip)
  {
    if x == "" {
      assert x + y == y;
    } else {
      assert (x + y)[1..] == x[1..] + y;
      StripSplits(x[1..], y, skip);
    }
  }

  lemma StripSkips(x: string, c: char, y: string, skip: set<char>)
    requires c in skip
    ensures Strip(x + [c] + y, skip) == Strip(x + y, skip)
  {
    StripSplits(x, y, skip);
    StripSplits(x + [c], y, skip);
    StripSplits(x, [c], skip);
    assert Strip([c], skip) == "";
  }

  lemma {:induction false} StripKeeps(s: string, skip: set<char>)
    requires forall c | c in s :: c !in skip
    ensures Strip(s, skip) == s
  {
    if s != "" {
      assert s[0] in s;
      assert forall c | c in s[1..] :: c in s;
      StripKeeps(s[1..], skip);
    }
  }

  // ---------------------------------------------------------------- Go

  /** Go's decoder skips line ends wherever they stand, and accepts nothing else but padded groups. */
  lemma GoIsExact(s: string, x: string, c: char, y: string)
    ensures '\r' !in s && '\n' !in s ==> (GoDecode(s).Some? <==> Padded(s))
    ensures c == '\r' || c == '\n' ==> GoDecode(x + [c] + y) == GoDecode(x + y)
  {
    hide DecodeQuanta, Padded, Strip;
    if '\r' !in s && '\n' !in s {
      StripKeeps(s, {'\r', '\n'});
      QuantaAreExact(s);
    }
    if c == '\r' || c == '\n' {
      StripSkips(x, c, y, {'\r', '\n'});
    }
  }

  /** Four letters are the 24 bits of three bytes; at the end two or three are the bits of one or two bytes,
      whatever the bits left over. */
  lemma GroupsAreBits(a: Sextet, b: Sextet, c: Sextet, d: Sextet, rest: string)
    ensures var n := 262144 * a + 4096 * b + 64 * c + d;
            && (DecodeQuanta(rest).Some? ==>
                  DecodeQuanta([Letter(a), Letter(b), Letter(c), Letter(d)] + rest) ==
                  Some([n / 65536, n / 256 % 256, n % 256] + DecodeQuanta(rest).value))
            && DecodeQuanta([Letter(a), Letter(b), Letter(c), '=']) == Some([n / 65536, n / 256 % 256])
            && DecodeQuanta([Letter(a), Letter(b), '=', '=']) == Some([n / 65536])
  {
    hide Letter, Value, First, Second, Third;
    ValueOfLetter(a);
    ValueOfLetter(b);
    ValueOfLetter(c);
    ValueOfLetter(d);
    PadIsNoLetter();
    ByteBits(a, b, c, d);
    assert ([Letter(a), Letter(b), Letter(c), Letter(d)] + rest)[4..] == rest;
  }

  /** The 24 bits, cut after the first and second eight. */
  lemma ByteBits(a: Sextet, b: Sextet, c: Sextet, d: Sextet)
    ensures var n := 262144 * a + 4096 * b + 64 * c + d;
            First(a, b) == n / 65536 && Second(b, c) == n / 256 % 256 && Third(c, d) == n % 256
  {
    var n: nat := 262144 * a + 4096 * b + 64 * c + d;
    var b1: nat, b0: nat, c1: nat, c0: nat := b / 16, b % 16, c / 4, c % 4;
    assert b == 16 * b1 + b0 && c == 4 * c1 + c0;
    assert n == 65536 * (4 * a + b1) + (4096 * b0 + 64 * c + d);
    assert n == 256 * (1024 * a + 256 * b1 + 16 * b0 + c1) + (64 * c0 + d);
    Splits(65536, 4 * a + b1, 4096 * b0 + 64 * c + d);
    Splits(256, 1024 * a + 256 * b1 + 16 * b0 + c1, 64 * c0 + d);
    Splits(256, 4 * a + b1, 16 * b0 + c1);
  }

  // ---------------------------------------------------------------- atob

  lemma {:induction false} LettersHaveAll(s: string)
    ensures Values(s).Some? <==> AllLetters(s)
    ensures Values(s).Some? ==> |Values(s).value| == |s|
  {
    hide Value, IsLetter;
    if s != "" {
      LettersHaveValues(s[0]);
      LettersHaveAll(s[1..]);
      assert s == [s[0]] + s[1..];
    }
  }

  lemma NextValue(s: string, k: nat)
    requires k < |s| && Values(s[k..]).Some?
    ensures Value(s[k]).Some? && Values(s[k + 1..]).Some?
    ensures Values(s[k..]).value == [Value(s[k]).value] + Values(s[k + 1..]).value
  {
    hide Value;
    assert s[k..][1..] == s[k + 1..];
  }

  lemma FourValues(s: string)
    requires |s| >= 4 && Values(s).Some?
    ensures Values(s[4..]).Some?
    ensures Value(s[0]).Some? && Value(s[1]).Some? && Value(s[2]).Some? && Value(s[3]).Some?
    ensures Values(s).value ==
            [Value(s[0]).value, Value(s[1]).value, Value(s[2]).value, Value(s[3]).value] + Values(s[4..]).value
  {
    hide Value, Values;
    assert s[0..] == s;
    NextValue(s, 0);
    NextValue(s, 1);
    NextValue(s, 2);
    NextValue(s, 3);
  }

  /** Letters decode to what Go makes of them with the padding that is missing. */
  lemma {:induction false} UnpackIsQuanta(s: string)
    requires Values(s).Some? && |s| % 4 != 1
    ensures DecodeQuanta(s + Missing(|s|)) == Some(Unpack(Values(s).value))
  {
    hide Value, First, Second, Third;
    PadIsNoLetter();
    LettersHaveAll(s);
    if |s| >= 4 {
      FourValues(s);
      UnpackIsQuanta(s[4..]);
      assert (s + Missing(|s|))[4..] == s[4..] + Missing(|s[4..]|);
      assert Values(s).value[4..] == Values(s[4..]).value;
      hide Values, Missing;
    } else if |s| > 1 {
      FewValues(s);
      hide Values;
    }
  }

  lemma NoValues()
    ensures Values("") == Some([])
  {
  }

  lemma FewValues(s: string)
    requires 2 <= |s| <= 3 && Values(s).Some?
    ensures forall i | 0 <= i < |s| :: Value(s[i]).Some?
    ensures Values(s).value == [Value(s[0]).value, Value(s[1]).value] + if |s| == 2 then [] else [Value(s[2]).value]
  {
    hide Value, Values;
    NoValues();
    assert s[0..] == s;
    NextValue(s, 0);
    NextValue(s, 1);
    if |s| == 3 {
      NextValue(s, 2);
    }
    assert s[|s|..] == "";
  }

  /** What atob takes: letters with the padding complete, or with all of it left out. */
  ghost predicate Forgiven(s: string) {
    if |s| % 4 == 0 then Padded(s) else |s| % 4 != 1 && AllLetters(s)
  }

  lemma DroppedPadding(s: string)
    ensures var t := DropPadding(s);
            && (Forgiven(s) <==> |t| % 4 != 1 && AllLetters(t))
            && (Forgiven(s) ==> s == t + if |s| % 4 == 0 then Missing(|t|) else "")
  {
    hide IsLetter;
    PadIsNoLetter();
    var t := DropPadding(s);
    assert forall i | 0 <= i < |t| :: s[i] == t[i];
    if Forgiven(s) {
      forall c | c in t ensures IsLetter(c) {
        var i :| 0 <= i < |t| && t[i] == c;
        assert s[i] == c;
      }
      assert |t| == |s| || s[|s| - 1] == '=';
    }
    if |t| % 4 != 1 && AllLetters(t) {
      assert forall i | 0 <= i < |t| :: t[i] in t && IsLetter(s[i]);
      assert |s| % 4 != 0 ==> t == s;
    }
  }

  /** atob skips ASCII white space wherever it stands; accepts exactly letters whose padding is complete or left
      out; and makes of them what Go makes of the padded text. */
  lemma AtobIsExact(s: string, x: string, c: char, y: string)
    ensures (forall e | e in s :: e !in {' ', '\t', '\n', '\r', 12 as char}) ==>
              && (AtobDecode(s).Some? <==> Forgiven(s))
              && (Forgiven(s) ==>
                    AtobDecode(s) == GoDecode(if |s| % 4 == 0 then s else s + Missing(|s|)))
    ensures c in {' ', '\t', '\n', '\r', 12 as char} ==> AtobDecode(x + [c] + y) == AtobDecode(x + y)
  {
    hide Values, Unpack, DropPadding, Strip, DecodeQuanta, Forgiven, AllLetters;
    if forall e | e in s :: e !in {' ', '\t', '\n', '\r', 12 as char} {
      StripKeeps(s, JsSpace());
      AtobOfUnspaced(s);
    }
    if c in JsSpace() {
      StripSkips(x, c, y, JsSpace());
    }
  }

  lemma AtobOfUnspaced(s: string)
    requires Strip(s, JsSpace()) == s
    requires '\r' !in s && '\n' !in s
    ensures AtobDecode(s).Some? <==> Forgiven(s)
    ensures Forgiven(s) ==> AtobDecode(s) == GoDecode(if |s| % 4 == 0 then s else s + Missing(|s|))
  {
    hide Values, Unpack, DropPadding, Strip, DecodeQuanta, Forgiven, AllLetters;
    var t := DropPadding(s);
    DroppedPadding(s);
    LettersHaveAll(t);
    if Forgiven(s) {
      UnpackIsQuanta(t);
      var u := if |s| % 4 == 0 then s else s + Missing(|s|);
      assert u == t + Missing(|t|);
      StripKeeps(u, {'\r', '\n'});
    }
  }
}
