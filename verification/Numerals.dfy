/**
 Decimal numerals: how value strings are read, and the numerals of a number.
 */
module Numerals {
  import opened Words

  predicate IsDigit(c: char) {
    '0' <= c <= '9'
  }

  function Digits(s: string): Option<nat> {
    if s == [] then None
    else
      var n := |s| - 1;
      if !IsDigit(s[n]) then None
      else
        var d: nat := (s[n] - '0') as int;
        if n == 0 then Some(d)
        else
          var r := Digits(s[..n]);
          match r case None => None case Some(v) => Some(10 * v + d)
  }

  /** An optional sign, then digits; the sign is kept apart from the magnitude. */
  function Signed(s: string): Option<int> {
    if s != [] && s[0] == '-' then
      var r := Digits(s[1..]);
      if r.None? then None else var v: int := -(r.value as int); Some(v)
    else if s != [] && s[0] == '+' then
      var r := Digits(s[1..]);
      if r.None? then None else Some(r.value)
    else
      var r := Digits(s);
      if r.None? then None else Some(r.value)
  }

  // ----- the numerals of a number -----

  function Symbol(d: nat): char
    requires d < 10
  {
    "0123456789"[d]
  }

  function Decimal(n: nat): (s: string)
    ensures s != []
  {
    if n < 10 then [Symbol(n)] else Decimal(n / 10) + [Symbol(n % 10)]
  }

  function Zeros(z: nat): string {
    seq(z, _ => '0')
  }

  /** Its decimal form, after any number of zeros. */
  ghost predicate Numeral(s: string, n: nat) {
    exists z: nat :: s == Zeros(z) + Decimal(n)
  }

  /** With a sign or without; zero has a numeral with a minus too. */
  ghost predicate Whole(s: string, n: nat) {
    || Numeral(s, n)
    || (s != [] && s[0] == '+' && Numeral(s[1..], n))
    || (s != [] && s[0] == '-' && n == 0 && Numeral(s[1..], n))
  }

  lemma LastDigit(s: string, c: char)
    ensures Digits(s + [c]) ==
              if !IsDigit(c) then None
              else if s == [] then Some((c - '0') as int)
              else if Digits(s).None? then None else Some(10 * Digits(s).value + (c - '0') as int)
  {
    assert (s + [c])[..|s|] == s;
  }

  lemma Figure(d: nat)
    requires d < 10
    ensures var c := Symbol(d); IsDigit(c) && (c - '0') as int == d
  {
  }

  lemma FigureOf(c: char)
    requires IsDigit(c)
    ensures (c - '0') as int < 10 && Symbol((c - '0') as int) == c
  {
  }

  lemma {:induction false} DigitsDecimal(n: nat)
    ensures Digits(Decimal(n)) == Some(n)
  {
    hide Digits, Symbol;
    Figure(n % 10);
    if n < 10 {
      LastDigit([], Symbol(n));
      assert [] + [Symbol(n)] == Decimal(n);
    } else {
      DigitsDecimal(n / 10);
      LastDigit(Decimal(n / 10), Symbol(n % 10));
    }
  }

  lemma {:induction false} DigitsZeros(z: nat)
    requires z > 0
    ensures Digits(Zeros(z)) == Some(0)
  {
    hide Digits;
    LastDigit(Zeros(z - 1), '0');
    assert Zeros(z) == Zeros(z - 1) + ['0'];
    if z > 1 { DigitsZeros(z - 1); }
  }

  /** Leading zeros change nothing. */
  lemma {:induction false} LeadingZeros(z: nat, s: string)
    requires s != []
    ensures Digits(Zeros(z) + s) == Digits(s)
  {
    hide Digits;
    var n := |s| - 1;
    assert s == s[..n] + [s[n]] && Zeros(z) + s == (Zeros(z) + s[..n]) + [s[n]];
    LastDigit(s[..n], s[n]);
    LastDigit(Zeros(z) + s[..n], s[n]);
    if n > 0 {
      LeadingZeros(z, s[..n]);
    } else {
      assert Zeros(z) + s[..n] == Zeros(z);
      if z > 0 { DigitsZeros(z); }
    }
  }

  /** A string is refused exactly when it is empty or has a character that is no digit. */
  lemma {:induction false} RefusedIff(s: string)
    ensures Digits(s).None? <==> s == [] || exists i :: 0 <= i < |s| && !IsDigit(s[i])
  {
    hide Digits, IsDigit;
    if s != [] {
      var n := |s| - 1;
      assert s == s[..n] + [s[n]];
      LastDigit(s[..n], s[n]);
      if n > 0 {
        RefusedIff(s[..n]);
        if Digits(s[..n]).None? {
          var i :| 0 <= i < n && !IsDigit(s[..n][i]);
          assert !IsDigit(s[i]);
        }
      } else {
        NoDigits();
      }
    } else {
      NoDigits();
    }
  }

  lemma NoDigits()
    ensures Digits([]) == None
  {
  }

  /** Reading is the inverse of writing: a string is read as a number exactly when it is a
      numeral of it. */
  lemma DigitsIff(s: string, n: nat)
    ensures Digits(s) == Some(n) <==> Numeral(s, n)
  {
    hide Digits, Decimal;
    if Digits(s) == Some(n) { ReadNumeral(s); }
    if Numeral(s, n) {
      var z: nat :| s == Zeros(z) + Decimal(n);
      LeadingZeros(z, Decimal(n));
      DigitsDecimal(n);
    }
  }

  lemma {:induction false} ReadNumeral(s: string)
    requires Digits(s).Some?
    ensures Numeral(s, Digits(s).value)
  {
    hide Digits, Decimal, Numeral, IsDigit;
    if s == [] {
      NoDigits();
      assert false;
    }
    var n := |s| - 1;
    assert s == s[..n] + [s[n]];
    LastDigit(s[..n], s[n]);
    if n == 0 {
      assert s == [s[n]];
      OneFigure(s[n]);
    } else {
      ReadNumeral(s[..n]);
      OneMore(s[..n], Digits(s[..n]).value, s[n]);
    }
  }

  lemma OneFigure(c: char)
    requires IsDigit(c)
    ensures Numeral([c], (c - '0') as int)
  {
    FigureOf(c);
    assert [c] == Zeros(0) + Decimal((c - '0') as int);
  }

  lemma OneMore(s: string, v: nat, c: char)
    requires Numeral(s, v) && IsDigit(c)
    ensures Numeral(s + [c], 10 * v + (c - '0') as int)
  {
    hide Decimal, Zeros, Symbol;
    FigureOf(c);
    var d := (c - '0') as int;
    var z: nat :| s == Zeros(z) + Decimal(v);
    DecimalStep(10 * v + d);
    if v == 0 {
      DecimalStep(v);
      ZerosStep(z);
      FigureOf('0');
      assert s + [c] == Zeros(z + 1) + Decimal(d);
    } else {
      assert s + [c] == Zeros(z) + (Decimal(v) + [c]);
    }
  }

  lemma ZerosStep(z: nat)
    ensures Zeros(z + 1) == Zeros(z) + ['0']
  {
  }

  lemma DecimalStep(n: nat)
    ensures Decimal(n) == if n < 10 then [Symbol(n)] else Decimal(n / 10) + [Symbol(n % 10)]
  {
  }

  /** The same with signs. */
  lemma SignedIff(s: string, n: nat)
    ensures Signed(s) == Some(n) <==> Whole(s, n)
  {
    hide Digits, Numeral;
    DigitsIff(s, n);
    if s != [] {
      DigitsIff(s[1..], n);
      if s[0] == '-' || s[0] == '+' { RefusedIff(s); }
    } else {
      NoDigits();
    }
  }
}
