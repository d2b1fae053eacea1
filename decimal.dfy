/**
 * Decimal text of unsigned 64-bit integers: the parser that `str::parse::<u64>`
 * runs (radix 10, unsigned) and the `Display` encoding that writes an integer
 * back as text. Identifier columns of the relational store and identifier
 * parts of key-value keys use this text form.
 */
module Decimal {
  import opened Wrappers

  const U64_MAX: nat := 0xFFFF_FFFF_FFFF_FFFF

  type U64 = n: int | 0 <= n <= U64_MAX

  /** The failure kinds of Rust's integer parser (`IntErrorKind`) that an unsigned parse can report. */
  datatype IntErrorKind = Empty | InvalidDigit | PosOverflow

  predicate IsDigit(c: char) {
    '0' <= c <= '9'
  }

  function DigitValue(c: char): (d: nat)
    requires IsDigit(c)
    ensures d < 10
  {
    (c as int) - ('0' as int)
  }

  function DigitChar(d: nat): (c: char)
    requires d < 10
    ensures IsDigit(c) && DigitValue(c) == d
  {
    (('0' as int) + d) as char
  }

  predicate AllDigits(s: string) {
    forall i :: 0 <= i < |s| ==> IsDigit(s[i])
  }

  /** The number a digit string denotes, most significant digit first. */
  function Value(s: string): nat
    requires AllDigits(s)
  {
    if s == [] then 0 else Value(s[..|s| - 1]) * 10 + DigitValue(s[|s| - 1])
  }

  /** A digit string with no redundant leading zero. */
  predicate Canonical(s: string) {
    |s| > 0 && AllDigits(s) && (s[0] == '0' ==> |s| == 1)
  }

  /** The decimal text of `n`, as Rust's `to_string` / `format!("{}")` writes it. */
  function Encode(n: nat): (s: string)
    ensures Canonical(s) && Value(s) == n
  {
    if n < 10 then [DigitChar(n)]
    else
      var s := Encode(n / 10) + [DigitChar(n % 10)];
      assert s[..|s| - 1] == Encode(n / 10);
      s
  }

  /**
   * The digit loop of the parser: for each character the running value is
   * multiplied by ten (checked), the character is turned into a digit, and the
   * digit is added (checked). A failed multiplication is reported only after
   * the character is known to be a digit.
   */
  function Accumulate(digits: string, acc: U64): (r: Result<U64, IntErrorKind>)
    ensures r.Failure? ==> r.error != Empty
    decreases |digits|
  {
    if digits == [] then Success(acc)
    else
      var mul := acc * 10;
      if !IsDigit(digits[0]) then Failure(InvalidDigit)
      else if mul > U64_MAX then Failure(PosOverflow)
      else if mul + DigitValue(digits[0]) > U64_MAX then Failure(PosOverflow)
      else Accumulate(digits[1..], mul + DigitValue(digits[0]))
  }

  /**
   * `s.parse::<u64>()`: an optional leading `+`, then at least one digit.
   * Only the empty text is `Empty`, and an accepted text is a digit string,
   * after the sign, whose value is the result.
   */
  function ParseU64(s: string): (r: Result<U64, IntErrorKind>)
    ensures r == Failure(Empty) <==> s == []
    ensures r.Success? ==> |Body(s)| > 0 && AllDigits(Body(s)) && r.value == Value(Body(s))
  {
    if s == [] then Failure(Empty)
    else if (s[0] == '+' || s[0] == '-') && |s| == 1 then Failure(InvalidDigit)
    else
      AccumulateSpec([], Body(s));
      assert [] + Body(s) == Body(s);
      if s[0] == '+' then Accumulate(s[1..], 0)
      else Accumulate(s, 0)
  }

  /** The text after the sign the parser accepts. */
  function Body(s: string): string {
    if |s| > 0 && s[0] == '+' then s[1..] else s
  }

  /** The digits of `s` with redundant leading zeros removed. */
  function StripLeadingZeros(s: string): string {
    if |s| > 1 && s[0] == '0' then StripLeadingZeros(s[1..]) else s
  }

  lemma {:induction false} ValueMonotone(s: string, t: string)
    requires AllDigits(s) && AllDigits(t)
    ensures AllDigits(s + t) && Value(s + t) >= Value(s)
    decreases |t|
  {
    if t != [] {
      var t' := t[..|t| - 1];
      assert (s + t)[..|s + t| - 1] == s + t';
      ValueMonotone(s, t');
    } else {
      assert s + t == s;
    }
  }

  lemma {:induction false} AccumulateSpec(prefix: string, rest: string)
    requires AllDigits(prefix) && Value(prefix) <= U64_MAX
    ensures AllDigits(rest) ==> AllDigits(prefix + rest)
    ensures Accumulate(rest, Value(prefix)).Success? <==> AllDigits(rest) && Value(prefix + rest) <= U64_MAX
    ensures Accumulate(rest, Value(prefix)).Success? ==> Accumulate(rest, Value(prefix)).value == Value(prefix + rest)
    ensures AllDigits(rest) && Value(prefix + rest) > U64_MAX ==> Accumulate(rest, Value(prefix)) == Failure(PosOverflow)
    decreases |rest|
  {
    if rest == [] {
      assert prefix + rest == prefix;
    } else {
      var c := rest[0];
      if IsDigit(c) {
        var p := prefix + [c];
        assert AllDigits(p);
        assert p[..|p| - 1] == prefix;
        assert Value(p) == Value(prefix) * 10 + DigitValue(c);
        assert prefix + rest == p + rest[1..];
        if Value(p) > U64_MAX {
          if AllDigits(rest) {
            assert AllDigits(rest[1..]);
            ValueMonotone(p, rest[1..]);
          }
        } else {
          AccumulateSpec(p, rest[1..]);
        }
      }
    }
  }

  /** What the parser accepts, and the value it produces. */
  lemma ParseU64Spec(s: string)
    ensures ParseU64(s).Success? <==> |Body(s)| > 0 && AllDigits(Body(s)) && Value(Body(s)) <= U64_MAX
    ensures ParseU64(s).Success? ==> ParseU64(s).value == Value(Body(s))
    ensures ParseU64(s) == Failure(Empty) <==> s == []
    ensures |Body(s)| > 0 && AllDigits(Body(s)) && Value(Body(s)) > U64_MAX ==> ParseU64(s) == Failure(PosOverflow)
  {
    if s != [] && !((s[0] == '+' || s[0] == '-') && |s| == 1) {
      AccumulateSpec([], Body(s));
      assert [] + Body(s) == Body(s);
    }
  }

  /** Round trip: decimal text written by `Encode` parses back to the same integer. */
  lemma ParseEncode(n: nat)
    requires n <= U64_MAX
    ensures ParseU64(Encode(n)) == Success(n)
  {
    ParseU64Spec(Encode(n));
  }

  /** Decimal text of an integer above 2^64 - 1 is rejected as an overflow, never truncated. */
  lemma ParseEncodeOverflow(n: nat)
    requires n > U64_MAX
    ensures ParseU64(Encode(n)) == Failure(PosOverflow)
  {
    ParseU64Spec(Encode(n));
  }

  lemma {:induction false} ValueLeadingZero(t: string)
    requires AllDigits(t)
    ensures AllDigits(['0'] + t) && Value(['0'] + t) == Value(t)
    decreases |t|
  {
    if t != [] {
      var t' := t[..|t| - 1];
      assert (['0'] + t)[..|t|] == ['0'] + t';
      ValueLeadingZero(t');
    } else {
      assert ['0'] + t == ['0'];
      assert (['0'])[..0] == [];
    }
  }

  lemma {:induction false} StripLeadingZerosSpec(s: string)
    requires |s| > 0 && AllDigits(s)
    ensures Canonical(StripLeadingZeros(s)) && Value(StripLeadingZeros(s)) == Value(s)
    decreases |s|
  {
    if |s| > 1 && s[0] == '0' {
      StripLeadingZerosSpec(s[1..]);
      assert s == ['0'] + s[1..];
      ValueLeadingZero(s[1..]);
    }
  }

  lemma {:induction false} EncodeValue(t: string)
    requires Canonical(t)
    ensures Encode(Value(t)) == t
    decreases |t|
  {
    var c := t[|t| - 1];
    if |t| == 1 {
      assert t == [c];
      assert Value(t) == DigitValue(c);
      assert DigitChar(DigitValue(c)) == c;
    } else {
      var t' := t[..|t| - 1];
      assert t'[0] == t[0];
      assert Canonical(t');
      ValueMonotone([t[0]], t'[1..]);
      assert [t[0]] + t'[1..] == t';
      assert Value([t[0]]) == DigitValue(t[0]) by { assert [t[0]][..0] == []; }
      assert Value(t') >= 1;
      var n := Value(t);
      assert n == Value(t') * 10 + DigitValue(c);
      DivModTen(Value(t'), DigitValue(c));
      EncodeValue(t');
      assert DigitChar(DigitValue(c)) == c;
      assert t == t' + [c];
    }
  }

  lemma DivModTen(q: nat, d: nat)
    requires d < 10
    ensures (q * 10 + d) / 10 == q && (q * 10 + d) % 10 == d
  {
  }

  /**
   * The converse of the round trip: whatever text parses to `n` is, after
   * dropping the sign and redundant leading zeros, exactly the text `Encode(n)`.
   */
  lemma ParseCanonical(s: string, n: U64)
    requires ParseU64(s) == Success(n)
    ensures Encode(n) == StripLeadingZeros(Body(s))
  {
    ParseU64Spec(s);
    StripLeadingZerosSpec(Body(s));
    EncodeValue(StripLeadingZeros(Body(s)));
  }

  /** Decimal text never contains the `:` that separates key-value key segments. */
  lemma EncodeHasNoColon(n: nat)
    ensures ':' !in Encode(n)
  {
  }
}
