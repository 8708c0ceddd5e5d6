/** Index sets and decimal numerals, shared by several models. */
module Numbers {
  function Indices(n: nat): (r: set<int>)
    ensures forall i :: i in r <==> 0 <= i < n
  {
    if n == 0 then {} else Indices(n - 1) + {n - 1}
  }

  function Digit(d: nat): char
    requires d < 10
  {
    ('0' as int + d) as char
  }

  function Decimal(n: nat): string {
    if n < 10 then [Digit(n)] else Decimal(n / 10) + [Digit(n % 10)]
  }

  function Numeral(s: string): int {
    if s == "" then 0 else 10 * Numeral(s[..|s| - 1]) + s[|s| - 1] as int - '0' as int
  }

  lemma {:induction false} DecimalReadsBack(n: nat)
    ensures Numeral(Decimal(n)) == n
  {
    var s := Decimal(n);
    if n >= 10 {
      DecimalReadsBack(n / 10);
      assert s[..|s| - 1] == Decimal(n / 10);
    } else {
      assert s[..|s| - 1] == "";
    }
  }

  function Ten(k: nat): nat {
    if k == 0 then 1 else 10 * Ten(k - 1)
  }

  lemma {:induction false} DecimalLength(n: nat, k: nat)
    requires k > 0 && n < Ten(k)
    ensures 1 <= |Decimal(n)| <= k
  {
    if n >= 10 {
      assert Ten(k) == 10 * Ten(k - 1) && k > 1;
      DecimalLength(n / 10, k - 1);
    }
  }
}
