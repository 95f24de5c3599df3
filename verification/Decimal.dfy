/** `strconv.Itoa` and the value `strconv.Atoi` returns (its error is dropped by gtctl), for 64-bit ints. */
module Decimal {
  import opened Text

  const MAX_UINT64: int := 0xFFFF_FFFF_FFFF_FFFF
  const TWO63: int := 0x8000_0000_0000_0000

  predicate IsInt64(n: int) {
    -TWO63 <= n < TWO63
  }

  /** 64-bit two's complement. */
  function Wrap(n: int): (r: int)
    ensures IsInt64(r)
    ensures IsInt64(n) ==> r == n
  {
    (n + TWO63) % (2 * TWO63) - TWO63
  }

  /** 64-bit addition. */
  function Add64(a: int, b: int): (r: int)
    ensures IsInt64(r)
    ensures IsInt64(a + b) ==> r == a + b
  {
    Wrap(a + b)
  }

  predicate IsDigit(c: char) {
    '0' <= c <= '9'
  }

  function DigitValue(c: char): (d: nat)
    requires IsDigit(c)
    ensures d < 10
  {
    (c - '0') as int
  }

  function DigitChar(d: nat): (c: char)
    requires d < 10
    ensures IsDigit(c) && DigitValue(c) == d
  {
    '0' + d as char
  }

  function Digits(n: nat): (s: string)
    ensures s != "" && forall c | c in s :: IsDigit(c)
  {
    if n < 10 then [DigitChar(n)] else Digits(n / 10) + [DigitChar(n % 10)]
  }

  function Itoa(n: int): string {
    if n < 0 then ['-'] + Digits(-n) else Digits(n)
  }

  /** `strconv.ParseUint(s, 10, 64)`: digits are read until one is bad or the value no longer fits. */
  datatype Scanned = Num(n: nat) | Syntax | Range

  function Scan(s: string, n: nat): Scanned {
    if s == "" then Num(n)
    else if !IsDigit(s[0]) then Syntax
    else
      var m := 10 * n + DigitValue(s[0]);
      if m > MAX_UINT64 then Range else Scan(s[1..], m)
  }

  function Atoi(s: string): (r: int)
    ensures IsInt64(r)
  {
    var signed := s != "" && (s[0] == '-' || s[0] == '+');
    var body := if signed then s[1..] else s;
    var scanned := if body == "" then Syntax else Scan(body, 0);
    if scanned == Syntax then 0
    else
      var n := if scanned == Range then MAX_UINT64 else scanned.n;
      if signed && s[0] == '-' then (if n > TWO63 then -TWO63 else -n)
      else (if n >= TWO63 then TWO63 - 1 else n)
  }

  lemma {:induction false} ScanConcat(s: string, t: string, n: nat)
    requires Scan(s, n).Num?
    ensures Scan(s + t, n) == Scan(t, Scan(s, n).n)
    decreases |s|
  {
    if s == "" {
      assert s + t == t;
    } else {
      assert (s + t)[1..] == s[1..] + t;
      ScanConcat(s[1..], t, 10 * n + DigitValue(s[0]));
    }
  }

  lemma ScanDigit(d: nat, n: nat)
    requires d < 10 && 10 * n + d <= MAX_UINT64
    ensures Scan([DigitChar(d)], n) == Num(10 * n + d)
  {
    assert [DigitChar(d)][1..] == "";
    assert Scan("", 10 * n + d) == Num(10 * n + d);
  }

  lemma {:induction false} ScanDigits(n: nat)
    requires n <= MAX_UINT64
    ensures Scan(Digits(n), 0) == Num(n)
  {
    if n < 10 {
      ScanDigit(n, 0);
    } else {
      ScanDigits(n / 10);
      ScanConcat(Digits(n / 10), [DigitChar(n % 10)], 0);
      ScanDigit(n % 10, n / 10);
    }
  }

  /** Decimal text reads back as the number it was written from. */
  lemma AtoiItoa(n: int)
    requires IsInt64(n)
    ensures Atoi(Itoa(n)) == n
  {
    ScanDigits(if n < 0 then -n else n);
    if n < 0 {
      assert Itoa(n)[1..] == Digits(-n);
    } else {
      assert IsDigit(Digits(n)[0]);
    }
  }

  lemma {:induction false} DigitsInjective(m: nat, n: nat)
    requires Digits(m) == Digits(n)
    ensures m == n
  {
    if m >= 10 && n >= 10 {
      var sm, sn := Digits(m), Digits(n);
      assert sm[..|sm| - 1] == Digits(m / 10) && sm[|sm| - 1] == DigitChar(m % 10);
      assert sn[..|sn| - 1] == Digits(n / 10) && sn[|sn| - 1] == DigitChar(n % 10);
      DigitsInjective(m / 10, n / 10);
    }
  }

  /** Decimal text has no leading zero. */
  lemma {:induction false} DigitsLead(n: nat)
    ensures n == 0 ==> Digits(n) == "0"
    ensures n > 0 ==> Digits(n)[0] != '0'
    ensures n >= 10 ==> |Digits(n)| > 1
  {
    if n >= 10 {
      DigitsLead(n / 10);
    }
  }

  /** A number that was scanned fits 64 bits, and only digits were read. */
  lemma {:induction false} ScanRange(s: string, n: nat)
    requires Scan(s, n).Num? && n <= MAX_UINT64
    ensures Scan(s, n).n <= MAX_UINT64
    ensures forall c | c in s :: IsDigit(c)
    decreases |s|
  {
    if s != "" {
      ScanRange(s[1..], 10 * n + DigitValue(s[0]));
      assert s == [s[0]] + s[1..];
    }
  }

  predicate AllDigits(s: string) {
    forall c | c in s :: IsDigit(c)
  }

  /** The number a string of digits stands for. */
  function Value(s: string): nat
    requires AllDigits(s)
  {
    if s == "" then 0 else 10 * Value(s[..|s| - 1]) + DigitValue(s[|s| - 1])
  }

  lemma {:induction false} ScanStops(s: string, t: string, n: nat)
    requires !Scan(s, n).Num?
    ensures Scan(s + t, n) == Scan(s, n)
    decreases |s|
  {
    assert s != "" && (s + t)[0] == s[0] && (s + t)[1..] == s[1..] + t;
    if IsDigit(s[0]) && 10 * n + DigitValue(s[0]) <= MAX_UINT64 {
      ScanStops(s[1..], t, 10 * n + DigitValue(s[0]));
    }
  }

  /** Digits that fit 64 bits are read as their value, other digits are out of range, and anything else is no number. */
  lemma {:induction false} ScanExactly(s: string)
    ensures AllDigits(s) ==> Scan(s, 0) == if Value(s) <= MAX_UINT64 then Num(Value(s)) else Range
    ensures !AllDigits(s) ==> !Scan(s, 0).Num?
    decreases |s|
  {
    if s != "" {
      var t, c := s[..|s| - 1], s[|s| - 1];
      assert s == t + [c] && [c][1..] == "";
      ScanExactly(t);
      if Scan(t, 0).Num? {
        ScanConcat(t, [c], 0);
      } else {
        ScanStops(t, [c], 0);
      }
      assert AllDigits(s) ==> AllDigits(t);
      assert AllDigits(t) && IsDigit(c) ==> AllDigits(s);
    }
  }

  /** An optional sign and digits: the value, cut off at the ends of the 64-bit range. */
  lemma AtoiExactly(body: string)
    requires body != "" && AllDigits(body)
    ensures Atoi(body) == Atoi(['+'] + body) == if Value(body) < TWO63 then Value(body) else TWO63 - 1
    ensures Atoi(['-'] + body) == 0 - (if Value(body) <= TWO63 then Value(body) else TWO63)
  {
    ScanExactly(body);
    assert IsDigit(body[0]);
    assert (['+'] + body)[1..] == body && (['-'] + body)[1..] == body;
  }

  /** Anything else is zero, unless its digits leave the range before the first foreign character. */
  lemma AtoiOther(s: string)
    requires s == "" || !AllDigits(if s[0] == '-' || s[0] == '+' then s[1..] else s)
    ensures Atoi(s) in [0, TWO63 - 1, -TWO63]
  {
    if s != "" {
      ScanExactly(if s[0] == '-' || s[0] == '+' then s[1..] else s);
    }
  }

  lemma ItoaChars(n: int)
    ensures forall c | c in Itoa(n) :: IsDigit(c) || c == '-'
  {
  }

  lemma WrapSum(a: int, b: int)
    ensures Wrap(Wrap(a) + b) == Wrap(a + b)
    ensures Wrap(a + Wrap(b)) == Wrap(a + b)
  {
    WrapShift(a, b);
    WrapShift(b, a);
  }

  lemma WrapShift(a: int, b: int)
    ensures Wrap(Wrap(a) + b) == Wrap(a + b)
  {
    var m := 2 * TWO63;
    var q := (a + TWO63) / m;
    assert Wrap(a) == a - q * m;
    ModShift(a + b + TWO63, q, m);
  }

  lemma ModShift(x: int, q: int, m: int)
    requires m > 0
    ensures (x - q * m) % m == x % m
  {
    var k := x / m;
    assert x - q * m == (k - q) * m + x % m;
    ModUnique(k - q, x % m, m);
  }

  lemma ModUnique(k: int, r: int, m: int)
    requires 0 <= r < m
    ensures (k * m + r) % m == r
  {
    var x := k * m + r;
    var d := x / m - k;
    assert d * m == r - x % m;
    assert d >= 1 ==> d * m >= m;
    assert d <= -1 ==> d * m <= -m;
  }

  lemma AddAssociative(p: int, i: int, j: int)
    ensures Add64(Add64(p, i), j) == Add64(p, i + j)
  {
    WrapSum(p + i, j);
    assert p + i + j == p + (i + j);
  }

  lemma AddInjective(p: int, i: int, j: int)
    requires IsInt64(p) && IsInt64(i) && IsInt64(j) && Add64(p, i) == Add64(p, j)
    ensures i == j
  {
    WrapSum(p + i, -p);
    WrapSum(p + j, -p);
    assert Wrap(Wrap(p + i) - p) == Wrap(i) && Wrap(Wrap(p + j) - p) == Wrap(j);
  }
}
