/** The smaller and the larger of two numbers, and decimal notation: `%d` and back. */
module Numbers {

  function Min(a: nat, b: nat): nat { if a < b then a else b }

  function Max(a: nat, b: nat): nat { if a < b then b else a }

  predicate IsDigit(c: char) { '0' <= c <= '9' }

  function Digit(d: nat): (c: char)
    requires d < 10
    ensures IsDigit(c)
  {
    ('0' as int + d) as char
  }

  function Decimal(n: nat): string {
    if n < 10 then [Digit(n)] else Decimal(n / 10) + [Digit(n % 10)]
  }

  function Value(s: string): int {
    if s == [] then 0 else 10 * Value(s[..|s| - 1]) + (s[|s| - 1] as int - '0' as int)
  }

  lemma {:induction false} DecimalReads(n: nat)
    ensures Value(Decimal(n)) == n && Decimal(n) != "" && forall c :: c in Decimal(n) ==> IsDigit(c)
  {
    if n >= 10 {
      DecimalReads(n / 10);
      assert Decimal(n)[..|Decimal(n)| - 1] == Decimal(n / 10);
    }
  }

  /** `%d` of an int. */
  function Int(n: int): string { if n < 0 then "-" + Decimal(-n) else Decimal(n) }

  /** Digits are ten to a place, the first counting most. */
  lemma NumbersAre(n: nat, d: nat)
    requires d < 10
    ensures Decimal(d) == ["0123456789"[d]] && Value(["0123456789"[d]]) == d
    ensures n > 0 ==> Decimal(10 * n + d) == Decimal(n) + ["0123456789"[d]]
    ensures Value(Decimal(n) + ["0123456789"[d]]) == 10 * Value(Decimal(n)) + d
  {
    var s := Decimal(n) + ["0123456789"[d]];
    assert s[..|s| - 1] == Decimal(n);
    assert ["0123456789"[d]][..0] == "" && Value("") == 0;
    assert "0123456789"[d] == Digit(d);
    assert (10 * n + d) / 10 == n && (10 * n + d) % 10 == d;
  }
}
