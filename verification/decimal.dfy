/** Decimal conversion of vsprintf.c: digits least significant first, by multiplication and shifts. */
module Decimal {
  function DigitChar(d: nat): char
    requires d < 10
  {
    '0' + d as char
  }

  /** The digits of n, least significant first. */
  function Digits(n: nat): seq<char> {
    if n < 10 then [DigitChar(n)] else [DigitChar(n % 10)] + Digits(n / 10)
  }

  /** Exactly k digits. */
  function Padded(k: nat, n: nat): seq<char>
    decreases k
  {
    if k == 0 then [] else [DigitChar(n % 10)] + Padded(k - 1, n / 10)
  }

  /** What a string of digits stands for. */
  function Value(s: seq<char>): nat
    requires forall c :: c in s ==> '0' <= c <= '9'
  {
    if s == [] then 0
    else
      assert s[0] in s && forall c :: c in s[1..] ==> c in s;
      (s[0] as nat - '0' as nat) + 10 * Value(s[1..])
  }

  /** The digits evaluate to the number, and the last is not a zero unless it is alone. */
  lemma {:induction false} DigitsValue(n: nat)
    ensures forall c :: c in Digits(n) ==> '0' <= c <= '9'
    ensures Value(Digits(n)) == n
    ensures |Digits(n)| > 0 && (|Digits(n)| > 1 ==> Digits(n)[|Digits(n)| - 1] != '0')
    ensures n > 0 ==> Digits(n)[|Digits(n)| - 1] != '0'
    decreases n
  {
    if n >= 10 {
      DigitsValue(n / 10);
      assert Digits(n)[1..] == Digits(n / 10);
    }
  }

  /** The digits of a number of more than k digits begin with its k lowest. */
  lemma {:induction false} Pow10Step(k: nat)
    ensures Pow10(0) == 1 && (k > 0 ==> Pow10(k) == 10 * Pow10(k - 1))
  {
  }

  lemma {:induction false} DigitsPadded(k: nat, n: nat, low: nat, high: nat)
    requires k > 0 && n >= 10 && n % 10 == low % 10 && Digits(n / 10) == Padded(k - 1, low / 10) + Digits(high)
    ensures Digits(n) == Padded(k, low) + Digits(high)
  {
    hide DigitChar;
    assert Digits(n) == [DigitChar(n % 10)] + Digits(n / 10);
    assert Padded(k, low) == [DigitChar(low % 10)] + Padded(k - 1, low / 10);
  }

  lemma {:induction false} DigitsSplit(k: nat, n: nat, p: nat, low: nat, high: nat)
    requires p == Pow10(k) && n == high * p + low && low < p && high > 0
    ensures Digits(n) == Padded(k, low) + Digits(high)
    decreases k
  {
    hide Pow10, Digits;
    Pow10Step(k);
    if k > 0 {
      var q := Pow10(k - 1);
      SplitStep(n, high, q, low);
      HighProduct(high, q);
      DigitsSplit(k - 1, n / 10, q, low / 10, high);
      DigitsPadded(k, n, low, high);
    } else {
      assert high * p == high;
    }
  }

  lemma SplitStep(n: nat, high: nat, q: nat, low: nat)
    requires n == high * (10 * q) + low
    ensures n / 10 == high * q + low / 10 && n % 10 == low % 10
  {
    assert high * (10 * q) == 10 * (high * q);
  }

  lemma HighProduct(high: nat, q: nat)
    requires high > 0 && q > 0
    ensures high * (10 * q) >= 10
  {
    assert high * (10 * q) == 10 * (high * q) && high * q >= 1;
  }

  function Pow10(k: nat): (p: nat)
    ensures p > 0
  {
    if k == 0 then 1 else 10 * Pow10(k - 1)
  }

  // ---------- five digits by multiplication and shifts ----------

  /** x / 10 as (x * 0xcd) >> 11, on the range that occurs. */
  lemma Tenth(x: nat)
    requires x <= 339
    ensures x * 0xcd / 2048 == x / 10
  {
    var k, r := x / 10, x % 10;
    assert x * 0xcd == 2048 * k + (2 * k + 205 * r);
  }

  /** x / 10 as (x * 0xd) >> 7, on the range that occurs. */
  lemma SmallTenth(x: nat)
    requires x <= 63
    ensures x * 0xd / 128 == x / 10
  {
    var k, r := x / 10, x % 10;
    assert x * 0xd == 128 * k + (2 * k + 13 * r);
  }

  lemma Carry(q: nat, column: nat, rest: nat)
    requires q == column + 10 * rest
    ensures q % 10 == column % 10 && q / 10 == column / 10 + rest
  {
  }

  /** The hexadecimal digits of a number below 100000. */
  lemma HexDigits(q: nat)
    requires q < 100000
    ensures q / 4096 <= 24 && q == 4096 * (q / 4096) + 256 * (q / 256 % 16) + 16 * (q / 16 % 16) + q % 16
  {
    assert q / 256 == q / 16 / 16 && q / 4096 == q / 16 / 16 / 16;
  }

  /** The decimal columns of 4096 = 4|0|9|6, 256 = 2|5|6 and 16 = 1|6, with the carries between them. */
  lemma Columns(q: nat, d0: nat, d1: nat, d2: nat, d3: nat, e0: nat, e1: nat, e2: nat, e3: nat)
    requires q == 4096 * d3 + 256 * d2 + 16 * d1 + d0 && d0 < 16 && d1 < 16 && d2 < 16 && d3 <= 24
    requires e0 == 6 * (d3 + d2 + d1) + d0 && e1 == e0 / 10 + 9 * d3 + 5 * d2 + d1
    requires e2 == e1 / 10 + 2 * d2 && e3 == e2 / 10 + 4 * d3
    ensures e0 <= 339 && e1 <= 339 && e2 <= 63 && e3 <= 102
    ensures q % 10 == e0 % 10 && q / 10 == e1 + 10 * (40 * d3 + 2 * d2)
    ensures q / 10 % 10 == e1 % 10 && q / 10 / 10 == e2 + 10 * (4 * d3)
    ensures q / 10 / 10 % 10 == e2 % 10 && q / 10 / 10 / 10 == e3
  {
    Carry(q, e0, 409 * d3 + 25 * d2 + d1);
    Carry(q / 10, e1, 40 * d3 + 2 * d2);
    Carry(q / 10 / 10, e2, 4 * d3);
  }

  /** One digit goes to a position; the rest of the number follows it. */
  lemma Stored(before: seq<char>, mid: seq<char>, after: seq<char>, at: nat, n: nat)
    requires at < |before| && mid == before[at := DigitChar(n % 10)]
    requires n < 10 ==> after == mid
    requires n >= 10 ==> (at + 1 + |Digits(n / 10)| <= |before| &&
      after == mid[..at + 1] + Digits(n / 10) + mid[at + 1 + |Digits(n / 10)|..])
    ensures at + |Digits(n)| <= |before|
    ensures after == before[..at] + Digits(n) + before[at + |Digits(n)|..]
  {
    var rest, c := if n < 10 then [] else Digits(n / 10), DigitChar(n % 10);
    assert Digits(n) == [c] + rest;
    hide Digits, DigitChar;
    if n < 10 {
      assert mid == mid[..at + 1] + rest + mid[at + 1..];
    }
    StoredMore(before, mid, after, c, at, rest, [c] + rest);
  }

  lemma StoredMore(before: seq<char>, mid: seq<char>, after: seq<char>, c: char, at: nat, rest: seq<char>,
                   ds: seq<char>)
    requires at + 1 + |rest| <= |before| && mid == before[at := c] && ds == [c] + rest
    requires after == mid[..at + 1] + rest + mid[at + 1 + |rest|..]
    ensures after == before[..at] + ds + before[at + |ds|..]
  {
  }

  /** put_dec_trunc(), from the thousands on. */
  method TruncThousands(buf: array<char>, at: nat, q0: nat, d3: nat) returns (end: nat)
    requires 0 < q0 + 4 * d3 < 100 && at + 2 <= buf.Length
    modifies buf
    ensures at + |Digits(q0 + 4 * d3)| == end <= at + 2
    ensures buf[..] == old(buf[..])[..at] + Digits(q0 + 4 * d3) + old(buf[..])[end..]
  {
    ghost var before := buf[..];
    var e3 := q0 + 4 * d3;
    Tenth(e3);
    var q := e3 * 0xcd / 2048;
    buf[at] := DigitChar(e3 - 10 * q);
    end := at + 1;
    ghost var mid := buf[..];
    if q != 0 {
      buf[end] := DigitChar(q);
      end := end + 1;
      assert buf[..] == mid[..at + 1] + Digits(e3 / 10) + mid[at + 2..];
    }
    Stored(before, mid, buf[..], at, e3);
  }

  /** From the hundreds on. */
  method TruncHundreds(buf: array<char>, at: nat, q0: nat, d2: nat, d3: nat) returns (end: nat)
    requires q0 + 2 * d2 <= 63 && 0 < q0 + 2 * d2 + 40 * d3 < 1000 && at + 3 <= buf.Length
    modifies buf
    ensures at + |Digits(q0 + 2 * d2 + 40 * d3)| == end <= at + 3
    ensures buf[..] == old(buf[..])[..at] + Digits(q0 + 2 * d2 + 40 * d3) + old(buf[..])[end..]
  {
    ghost var before := buf[..];
    var e2 := q0 + 2 * d2;
    SmallTenth(e2);
    Carry(e2 + 40 * d3, e2, 4 * d3);
    var q := e2 * 0xd / 128;
    buf[at] := DigitChar(e2 - 10 * q);
    end := at + 1;
    ghost var mid := buf[..];
    if q + 4 * d3 != 0 {
      end := TruncThousands(buf, end, q, d3);
    }
    Stored(before, mid, buf[..], at, e2 + 40 * d3);
  }

  /** From the tens on. */
  method TruncTens(buf: array<char>, at: nat, e1: nat, d2: nat, d3: nat) returns (end: nat)
    requires 9 * d3 + 5 * d2 <= e1 <= 339 && d2 < 16 && d3 <= 24 && 0 < e1 + 20 * d2 + 400 * d3 < 10000
    requires at + 4 <= buf.Length
    modifies buf
    ensures at + |Digits(e1 + 20 * d2 + 400 * d3)| == end <= at + 4
    ensures buf[..] == old(buf[..])[..at] + Digits(e1 + 20 * d2 + 400 * d3) + old(buf[..])[end..]
  {
    ghost var before := buf[..];
    Tenth(e1);
    Carry(e1 + 20 * d2 + 400 * d3, e1, 2 * d2 + 40 * d3);
    var q := e1 * 0xcd / 2048;
    buf[at] := DigitChar(e1 - 10 * q);
    end := at + 1;
    ghost var mid := buf[..];
    if q + 2 * d2 != 0 || d3 != 0 {
      end := TruncHundreds(buf, end, q, d2, d3);
    }
    Stored(before, mid, buf[..], at, e1 + 20 * d2 + 400 * d3);
  }

  /** The hexadecimal digits by shifts and masks. */
  method SplitHex(q: nat) returns (d0: nat, d1: nat, d2: nat, d3: nat)
    requires q < 100000
    ensures d0 < 16 && d1 < 16 && d2 < 16 && d3 <= 24 && q == 4096 * d3 + 256 * d2 + 16 * d1 + d0
  {
    d0, d1, d2, d3 := q % 16, q / 16 % 16, q / 256 % 16, q / 4096;
    HexDigits(q);
  }

  /** put_dec_trunc(): writes the digits of q from position at on. */
  method PutDecTrunc(buf: array<char>, at: nat, q0: nat) returns (end: nat)
    requires q0 < 100000 && at + 5 <= buf.Length
    modifies buf
    ensures at + |Digits(q0)| == end <= at + 5
    ensures buf[..] == old(buf[..])[..at] + Digits(q0) + old(buf[..])[end..]
  {
    ghost var before := buf[..];
    var d0, d1, d2, d3 := SplitHex(q0);
    d0 := 6 * (d3 + d2 + d1) + d0;
    Tenth(d0);
    Carry(q0, d0, 409 * d3 + 25 * d2 + d1);
    var q := d0 * 0xcd / 2048;
    buf[at] := DigitChar(d0 - 10 * q);
    end := at + 1;
    ghost var mid := buf[..];
    d1 := q + 9 * d3 + 5 * d2 + d1;
    if d1 != 0 {
      end := TruncTens(buf, end, d1, d2, d3);
    }
    Stored(before, mid, buf[..], at, q0);
  }

  function FiveDigits(a: nat, b: nat, c: nat, d: nat, e: nat): seq<char>
    requires a < 10 && b < 10 && c < 10 && d < 10 && e < 10
  {
    [DigitChar(a), DigitChar(b), DigitChar(c), DigitChar(d), DigitChar(e)]
  }

  lemma PaddedFive(q: nat, q1: nat, q2: nat, q3: nat, q4: nat)
    requires q < 100000 && q1 == q / 10 && q2 == q1 / 10 && q3 == q2 / 10 && q4 == q3 / 10
    ensures q4 < 10 && Padded(5, q) == FiveDigits(q % 10, q1 % 10, q2 % 10, q3 % 10, q4)
  {
    assert Padded(1, q4) == [DigitChar(q4)] + [];
    assert Padded(2, q3) == [DigitChar(q3 % 10)] + Padded(1, q4);
    assert Padded(3, q2) == [DigitChar(q2 % 10)] + Padded(2, q3);
    assert Padded(4, q1) == [DigitChar(q1 % 10)] + Padded(3, q2);
  }

  /** put_dec_full(): always five digits. */
  method PutDecFull(buf: array<char>, at: nat, q0: nat) returns (end: nat)
    requires q0 < 100000 && at + 5 <= buf.Length
    modifies buf
    ensures end == at + 5 && |Padded(5, q0)| == 5
    ensures buf[..] == old(buf[..])[..at] + Padded(5, q0) + old(buf[..])[end..]
  {
    var d0, d1, d2, d3, q;
    d0, d1, d2, d3, q := FiveColumns(q0);
    PaddedFive(q0, q0 / 10, q0 / 10 / 10, q0 / 10 / 10 / 10, q);
    StoreFive(buf, at, d0, d1, d2, d3, q);
    end := at + 5;
  }

  /** Its arithmetic. */
  method FiveColumns(q0: nat) returns (d0: nat, d1: nat, d2: nat, d3: nat, q: nat)
    requires q0 < 100000
    ensures d0 == q0 % 10 && d1 == q0 / 10 % 10 && d2 == q0 / 10 / 10 % 10 && d3 == q0 / 10 / 10 / 10 % 10
    ensures q == q0 / 10 / 10 / 10 / 10 < 10
  {
    d0, d1, d2, d3 := SplitHex(q0);
    ghost var e0 := 6 * (d3 + d2 + d1) + d0;
    ghost var e1 := e0 / 10 + 9 * d3 + 5 * d2 + d1;
    ghost var e2 := e1 / 10 + 2 * d2;
    Columns(q0, d0, d1, d2, d3, e0, e1, e2, e2 / 10 + 4 * d3);
    d0 := 6 * (d3 + d2 + d1) + d0;
    d0, q := Column(d0);
    d1 := q + 9 * d3 + 5 * d2 + d1;
    d1, q := Column(d1);
    d2 := q + 2 * d2;
    d2, q := SmallColumn(d2);
    d3 := q + 4 * d3;
    d3, q := Column(d3);
  }

  /** A column's digit and its carry. */
  method Column(e: nat) returns (digit: nat, carry: nat)
    requires e <= 339
    ensures digit == e % 10 && carry == e / 10
  {
    Tenth(e);
    carry := e * 0xcd / 2048;
    digit := e - 10 * carry;
  }

  method SmallColumn(e: nat) returns (digit: nat, carry: nat)
    requires e <= 63
    ensures digit == e % 10 && carry == e / 10
  {
    SmallTenth(e);
    carry := e * 0xd / 128;
    digit := e - 10 * carry;
  }

  method StoreFive(buf: array<char>, at: nat, d0: nat, d1: nat, d2: nat, d3: nat, q: nat)
    requires at + 5 <= buf.Length && d0 < 10 && d1 < 10 && d2 < 10 && d3 < 10 && q < 10
    modifies buf
    ensures buf[..] == old(buf[..])[..at] + FiveDigits(d0, d1, d2, d3, q) + old(buf[..])[at + 5..]
  {
    buf[at] := DigitChar(d0);
    buf[at + 1] := DigitChar(d1);
    buf[at + 2] := DigitChar(d2);
    buf[at + 3] := DigitChar(d3);
    buf[at + 4] := DigitChar(q);
  }

  /** put_dec(): five digits at a time. It writes exactly the digits of the number. */
  method PutDec(buf: array<char>, at: nat, num0: nat) returns (end: nat)
    requires at + |Digits(num0)| + 5 <= buf.Length
    modifies buf
    ensures end == at + |Digits(num0)|
    ensures buf[..] == old(buf[..])[..at] + Digits(num0) + old(buf[..])[end..]
  {
    hide Digits, Padded;
    var num := num0;
    end := at;
    ghost var before, done := buf[..], [];
    while num >= 100000
      invariant at <= end && end == at + |done| && Digits(num0) == done + Digits(num)
      invariant buf[..] == before[..at] + done + before[end..]
      decreases num
    {
      var rem := num % 100000;
      HighDigits(num);
      num := num / 100000;
      ghost var mid := buf[..];
      end := PutDecFull(buf, end, rem);
      FiveMore(before, mid, buf[..], at, done, Padded(5, rem));
      done := done + Padded(5, rem);
    }
    ghost var mid := buf[..];
    end := PutDecTrunc(buf, end, num);
    FiveMore(before, mid, buf[..], at, done, Digits(num));
  }

  lemma HighDigits(num: nat)
    requires num >= 100000
    ensures |Padded(5, num % 100000)| == 5 && Digits(num) == Padded(5, num % 100000) + Digits(num / 100000)
    ensures |Digits(num / 100000)| > 0
  {
    assert Pow10(1) == 10 && Pow10(2) == 100 && Pow10(3) == 1000 && Pow10(4) == 10000;
    DigitsSplit(5, num, 100000, num % 100000, num / 100000);
    DigitsValue(num / 100000);
    var low := num % 100000;
    PaddedFive(low, low / 10, low / 10 / 10, low / 10 / 10 / 10, low / 10 / 10 / 10 / 10);
  }

  lemma FiveMore(before: seq<char>, mid: seq<char>, after: seq<char>, at: nat, done: seq<char>, more: seq<char>)
    requires at + |done| + |more| <= |before| && mid == before[..at] + done + before[at + |done|..]
    requires after == mid[..at + |done|] + more + mid[at + |done| + |more|..]
    ensures after == before[..at] + (done + more) + before[at + |done| + |more|..]
  {
  }
}
