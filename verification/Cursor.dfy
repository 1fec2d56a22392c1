/** The resume cursor of internal/sse/sse.go:163-184: how far each output stream has been read. */
module Cursor {
  import opened Numbers
  import opened Options
  import opened TextLines

  const MAX_INT64: int := 0x7fff_ffff_ffff_ffff

  datatype Offsets = Offsets(out: nat, err: nat)

  predicate AllDigits(s: string) { forall i :: 0 <= i < |s| ==> IsDigit(s[i]) }

  function Digits(s: string): string { if s != "" && (s[0] == '+' || s[0] == '-') then s[1..] else s }

  /** `strconv.ParseInt(s, 10, 64)`: an optional sign and at least one digit, within range. */
  function ParseInt64(s: string): Option<int> {
    if Digits(s) == "" || !AllDigits(Digits(s)) then None
    else
      var n := if s[0] == '-' then -Value(Digits(s)) else Value(Digits(s));
      if -MAX_INT64 - 1 <= n <= MAX_INT64 then Some(n) else None
  }

  /** `ParseCursor`; `None` for a malformed one. */
  function ParseCursor(s: string): Option<Offsets> {
    if s == "" then Some(Offsets(0, 0))
    else
      var i := IndexOf(s, ',');
      if i == |s| then None
      else
        var out, err := ParseInt64(s[..i]), ParseInt64(s[i + 1..]);
        if out.None? || out.value < 0 || err.None? || err.value < 0 then None
        else Some(Offsets(out.value, err.value))
  }

  /** How a server writes a cursor. */
  function CursorText(o: Offsets): string { Decimal(o.out) + "," + Decimal(o.err) }

  lemma DecimalParses(n: nat)
    requires n <= MAX_INT64
    ensures ParseInt64(Decimal(n)) == Some(n)
  {
    DecimalReads(n);
    hide Decimal, Value;
    assert Decimal(n)[0] in Decimal(n);
    assert AllDigits(Decimal(n));
  }

  /** A cursor a server wrote names the place it was written at. */
  lemma CursorRoundTrip(o: Offsets)
    requires o.out <= MAX_INT64 && o.err <= MAX_INT64
    ensures ParseCursor(CursorText(o)) == Some(o)
  {
    var a, b := Decimal(o.out), Decimal(o.err);
    DecimalParses(o.out);
    DecimalParses(o.err);
    DecimalReads(o.out);
    assert ',' !in a;
    hide Decimal, ParseInt64, IndexOf;
    IndexAfter(a, ',', b);
    var s := a + [','] + b;
    assert CursorText(o) == s && s[..|a|] == a && s[|a| + 1..] == b;
  }

  /** A cursor is one short word. */
  lemma CursorIsPlain(o: Offsets)
    ensures CursorText(o) != "" && forall c :: c in CursorText(o) ==> IsDigit(c) || c == ','
  {
    DecimalReads(o.out);
    DecimalReads(o.err);
  }

  /** t writes the offset n: digits, after a '+' or nothing, or a zero after a '-'. */
  ghost predicate Writes(t: string, n: nat) {
    exists sign, digits ::
      && t == sign + digits && sign in {"", "+", "-"} && (sign == "-" ==> n == 0)
      && digits != "" && (forall i :: 0 <= i < |digits| ==> '0' <= digits[i] <= '9') && Value(digits) == n <= MAX_INT64
  }

  lemma {:induction false} ValueIsNat(s: string)
    requires forall i :: 0 <= i < |s| ==> '0' <= s[i] <= '9'
    ensures Value(s) >= 0
  {
    if s != "" { ValueIsNat(s[..|s| - 1]); }
  }

  lemma DigitsOf(sign: string, digits: string)
    requires (sign == "" || sign == "+" || sign == "-") && digits != "" && AllDigits(digits)
    ensures Digits(sign + digits) == digits && ((sign + digits)[0] == '-' <==> sign == "-")
  {
    if sign == "" { assert sign + digits == digits; } else { assert (sign + digits)[1..] == digits; }
  }

  lemma ParsesWritten(t: string, n: nat)
    requires Writes(t, n)
    ensures ParseInt64(t) == Some(n)
  {
    var sign, digits :| t == sign + digits && sign in {"", "+", "-"} && (sign == "-" ==> n == 0)
      && digits != "" && (forall i :: 0 <= i < |digits| ==> '0' <= digits[i] <= '9') && Value(digits) == n <= MAX_INT64;
    assert AllDigits(digits);
    hide Value, AllDigits, Digits;
    DigitsOf(sign, digits);
  }

  lemma SignOf(t: string) returns (sign: string)
    requires Digits(t) != "" && AllDigits(Digits(t))
    ensures t == sign + Digits(t) && sign == if t[0] == '+' then "+" else if t[0] == '-' then "-" else ""
  {
    sign := if t[0] == '+' then "+" else if t[0] == '-' then "-" else "";
  }

  lemma WrittenAs(t: string, sign: string, digits: string, n: nat)
    requires t == sign + digits && (sign == "" || sign == "+" || (sign == "-" && n == 0))
    requires digits != "" && AllDigits(digits) && Value(digits) == n <= MAX_INT64
    ensures Writes(t, n)
  {
    hide Value;
  }

  lemma ParsedIsWritten(t: string)
    requires ParseInt64(t).Some? && ParseInt64(t).value >= 0
    ensures Writes(t, ParseInt64(t).value)
  {
    var sign := SignOf(t);
    ValueIsNat(Digits(t));
    hide Value, Digits, AllDigits, Writes;
    WrittenAs(t, sign, Digits(t), ParseInt64(t).value);
  }

  /** Which cursors can be read, and as what: two offsets around a ',', or nothing at all for the
      beginning. */
  lemma CursorIs(s: string, o: Offsets)
    ensures ParseCursor(s) == Some(o) <==>
      || (s == "" && o == Offsets(0, 0))
      || exists a, b :: s == a + "," + b && ',' !in a && Writes(a, o.out) && Writes(b, o.err)
  {
    hide ParseInt64, IndexOf, Writes;
    if ParseCursor(s) == Some(o) && s != "" {
      var i := IndexOf(s, ',');
      ParsedIsWritten(s[..i]);
      ParsedIsWritten(s[i + 1..]);
      assert s == s[..i] + "," + s[i + 1..];
    }
    forall a, b | s == a + "," + b && ',' !in a && Writes(a, o.out) && Writes(b, o.err)
      ensures ParseCursor(s) == Some(o)
    {
      IndexAfter(a, ',', b);
      assert s == a + [','] + b && s[..|a|] == a && s[|a| + 1..] == b;
      ParsesWritten(a, o.out);
      ParsesWritten(b, o.err);
    }
  }
}
