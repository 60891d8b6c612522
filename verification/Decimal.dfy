/** Decimal integers: `format!("{}", t)` on the way out (encode.rs) and `str::parse` on the way in
    (decode.rs), for the two widths the metainfo uses. */
module Decimal {
  import opened ByteStrings

  const MINUS: byte := '-' as int
  const ZERO: byte := '0' as int
  const TWO_63: int := 0x8000_0000_0000_0000

  /** The integer types read from a stream: `i64`, and the 64-bit `u64` and `usize`. */
  datatype Width = I64 | U64

  predicate InRange(n: int, width: Width) {
    match width
    case I64 => -TWO_63 <= n < TWO_63
    case U64 => 0 <= n < TWO_64
  }

  predicate IsDigit(b: byte) {
    ZERO <= b <= ZERO + 9
  }

  /** Whether a byte may appear in a number. */
  predicate IsNumber(b: byte) {
    b == MINUS || IsDigit(b)
  }

  function Digits(n: nat): Bytes {
    if n < 10 then [ZERO + n] else Digits(n / 10) + [ZERO + n % 10]
  }

  function Format(n: int): Bytes {
    if n < 0 then [MINUS] + Digits(-n) else Digits(n)
  }

  predicate AllDigits(s: Bytes) {
    forall i :: 0 <= i < |s| ==> IsDigit(s[i])
  }

  function DigitsValue(s: Bytes): nat
    requires AllDigits(s)
  {
    if s == [] then 0 else 10 * DigitsValue(s[..|s| - 1]) + (s[|s| - 1] - ZERO)
  }

  /** `str::parse`: only a signed type takes a minus sign, and overflow is an error. */
  function Parse(s: Bytes, width: Width): (r: Option<int>)
    ensures r.Some? ==> InRange(r.value, width)
  {
    var negative := width.I64? && s != [] && s[0] == MINUS;
    var body := if negative then s[1..] else s;
    if body == [] || !AllDigits(body) then None
    else
      var magnitude: int := DigitsValue(body);
      var n := if negative then -magnitude else magnitude;
      if InRange(n, width) then Some(n) else None
  }

  lemma {:induction false} DigitsAreDigits(n: nat)
    ensures Digits(n) != [] && AllDigits(Digits(n))
    ensures DigitsValue(Digits(n)) == n
    ensures Digits(n)[0] == ZERO <==> n == 0
    ensures |Digits(n)| > 1 ==> Digits(n)[0] != ZERO
  {
    if n >= 10 {
      DigitsAreDigits(n / 10);
      var s := Digits(n);
      assert s[..|s| - 1] == Digits(n / 10);
    }
  }

  /** The leading-zero rule of `read_number`: what it refuses before it parses. */
  predicate Refused(s: Bytes) {
    s == [] || (|s| > 1 && s[0] == ZERO) || s == [MINUS, ZERO]
  }

  lemma FormatParses(n: int, width: Width)
    requires InRange(n, width)
    ensures Parse(Format(n), width) == Some(n) && !Refused(Format(n))
    ensures forall i :: 0 <= i < |Format(n)| ==> IsNumber(Format(n)[i])
    ensures n >= 0 ==> IsDigit(Format(n)[0])
  {
    DigitsAreDigits(if n < 0 then -n else n);
    if n < 0 { assert Format(n)[1..] == Digits(-n); }
  }

  /** A negative `i64` as text is never a 64-bit unsigned number. */
  lemma NegativeIsNotUnsigned(n: int)
    requires n < 0
    ensures Parse(Format(n), U64) == None
  {
    assert Format(n)[0] == MINUS;
  }

  /** Digits without a leading zero are the digits of their value. */
  lemma {:induction false} DigitsOfValue(s: Bytes)
    requires s != [] && AllDigits(s)
    ensures Digits(DigitsValue(s)) == s <==> (s[0] == ZERO ==> |s| == 1)
    ensures s[0] != ZERO ==> DigitsValue(s) > 0
  {
    var n, front := DigitsValue(s), s[..|s| - 1];
    if |s| == 1 {
      assert DigitsValue(front) == 0;
    } else {
      DigitsOfValue(front);
      assert n / 10 == DigitsValue(front) && s == front + [s[|s| - 1]];
      DigitsAreDigits(n);
    }
  }

  lemma NegativeSpelling(body: Bytes)
    requires body != [] && AllDigits(body) && body != [ZERO]
    ensures var n: int := DigitsValue(body); Format(-n) == [MINUS] + body <==> body[0] != ZERO
  {
    var n: int := DigitsValue(body);
    var s := [MINUS] + body;
    DigitsOfValue(body);
    DigitsAreDigits(n);
    assert s[1..] == body;
    if n == 0 {
      assert Format(0)[0] != s[0];
    } else {
      assert Format(-n) == [MINUS] + Digits(n) && ([MINUS] + Digits(n))[1..] == Digits(n);
    }
  }

  /** A number that is read is in canonical form unless it is a minus sign and a padding zero;
      those are the only other spellings that get through. */
  lemma AcceptedSpelling(s: Bytes, width: Width)
    requires !Refused(s) && Parse(s, width).Some?
    ensures Format(Parse(s, width).value) == s <==> !(|s| > 1 && s[0] == MINUS && s[1] == ZERO)
  {
    if s[0] == MINUS {
      assert s == [MINUS] + s[1..];
      NegativeSpelling(s[1..]);
    } else {
      DigitsOfValue(s);
    }
  }

  /** For one, `-01` is read as -1, which is written `-1`. */
  lemma PaddedNegativeIsRead()
    ensures var s := [MINUS, ZERO, ZERO + 1];
            !Refused(s) && Parse(s, I64) == Some(-1) && Format(-1) != s
  {
    var s, body := [MINUS, ZERO, ZERO + 1], [ZERO, ZERO + 1];
    assert s[1..] == body && body[..1] == [ZERO] && [ZERO][..0] == [];
    assert DigitsValue([ZERO]) == 10 * DigitsValue([ZERO][..0]) == 0;
    assert DigitsValue(body) == 10 * DigitsValue(body[..1]) + 1;
    assert |Format(-1)| == 2;
  }
}
