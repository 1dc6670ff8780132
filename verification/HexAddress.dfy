/** Addresses and endpoint numbers typed on the command line: validation and conversion in `zigbee_cmd.c`. */
module HexAddress {
  import opened Bytes

  const TWO_TO_THE_64: nat := 0x1_0000_0000_0000_0000

  predicate IsDigit(c: u8) { 0x30 <= c <= 0x39 }

  predicate IsXDigit(c: u8) { IsDigit(c) || 0x41 <= c <= 0x46 || 0x61 <= c <= 0x66 }

  /** `c | 0x20`. */
  function Lower(c: u8): u8 { if c / 0x20 % 2 == 0 then c + 0x20 else c }

  function DigitOf(c: u8): (d: nat)
    requires IsXDigit(c)
    ensures d < 16 && (d < 10 <==> IsDigit(c))
  {
    if IsDigit(c) then c - 0x30 else Lower(c) - 0x61 + 10
  }

  /** A digit that the conversion takes in this base. */
  predicate Taken(c: u8, base: nat) { IsXDigit(c) && DigitOf(c) < base }

  predicate AllTaken(s: seq<u8>, base: nat) { forall i :: 0 <= i < |s| ==> Taken(s[i], base) }

  function Power(base: nat, n: nat): nat { if n == 0 then 1 else base * Power(base, n - 1) }

  function Times(a: nat, b: nat): nat { a * b }

  /** The number written by the digits: every digit times the power of its place. */
  function Value(s: seq<u8>, base: nat): nat
    requires AllTaken(s, base)
  {
    if |s| == 0 then 0
    else
      assert forall i :: 0 <= i < |s| - 1 ==> s[1..][i] == s[i + 1];
      Times(DigitOf(s[0]), Power(base, |s| - 1)) + Value(s[1..], base)
  }

  /** How many bytes of a "0x" are skipped in front. */
  function Prefix(s: seq<u8>): (n: nat)
    ensures n <= |s|
  {
    if |s| >= 2 && s[0] == 0x30 && Lower(s[1]) == 0x78 then 2 else 0
  }

  /** The length of the longest run of digits at the front. */
  function Run(s: seq<u8>, base: nat): (n: nat)
    ensures n <= |s| && AllTaken(s[..n], base) && (n < |s| ==> !Taken(s[n], base))
  {
    if |s| == 0 || !Taken(s[0], base) then 0
    else
      assert forall i :: 1 <= i < 1 + Run(s[1..], base) ==> s[i] == s[1..][..Run(s[1..], base)][i - 1];
      1 + Run(s[1..], base)
  }

  predicate ValidAddress(s: seq<u8>, k: nat) {
    var digits := s[Prefix(s)..];
    AllTaken(digits, 16) && |digits| <= k
  }

  // ---- Facts about values ----

  /** The next digit, as the conversion loop adds it. */
  lemma {:induction false} ValueSnoc(s: seq<u8>, c: u8, base: nat)
    requires AllTaken(s, base) && Taken(c, base)
    ensures AllTaken(s + [c], base) && Value(s + [c], base) == Value(s, base) * base + DigitOf(c)
  {
    if |s| == 0 {
      assert s + [c] == [c];
      assert Value([c][1..], base) == 0 && Power(base, 0) == 1;
    } else {
      hide DigitOf;
      assert (s + [c])[1..] == s[1..] + [c] && (s + [c])[0] == s[0];
      ValueSnoc(s[1..], c, base);
      assert Power(base, |s|) == base * Power(base, |s| - 1);
      Distribute(DigitOf(s[0]), Power(base, |s| - 1), Value(s[1..], base), base);
      hide Taken;
      hide Power;
    }
  }

  lemma Distribute(d: nat, p: nat, v: nat, base: nat)
    ensures d * (base * p) + v * base == (d * p + v) * base
  {
  }

  lemma LeadingDigit(d: nat, p: nat, v: nat, base: nat)
    requires d < base && v < p
    ensures d * p + v < base * p
  {
    assert (d + 1) * p <= base * p;
  }

  lemma {:induction false} ValueBound(s: seq<u8>, base: nat)
    requires AllTaken(s, base) && base > 0
    ensures Value(s, base) < Power(base, |s|)
  {
    if |s| > 0 {
      ValueBound(s[1..], base);
      LeadingDigit(DigitOf(s[0]), Power(base, |s| - 1), Value(s[1..], base), base);
      hide DigitOf;
    }
  }

  lemma {:induction false} PowerGrows(base: nat, m: nat, n: nat)
    requires base > 0 && m <= n
    ensures 0 < Power(base, m) <= Power(base, n)
  {
    if m < n {
      PowerGrows(base, m, n - 1);
    } else if m > 0 {
      PowerGrows(base, m - 1, n - 1);
    }
  }

  lemma Power16Bound()
    ensures Power(16, 16) == TWO_TO_THE_64
  {
    assert Power(16, 4) == 0x1_0000;
    assert Power(16, 8) == 0x1_0000_0000;
    assert Power(16, 12) == 0x1_0000_0000_0000;
  }

  /** Taking the remainder at every step or once at the end is the same. */
  lemma ModStep(v: nat, base: nat, d: nat)
    ensures ((v % TWO_TO_THE_64) * base + d) % TWO_TO_THE_64 == (v * base + d) % TWO_TO_THE_64
  {
    var q, r := v / TWO_TO_THE_64, v % TWO_TO_THE_64;
    assert v * base + d == (q * base) * TWO_TO_THE_64 + (r * base + d) by {
      assert v == q * TWO_TO_THE_64 + r;
    }
    ModOfMultiple(q * base, r * base + d);
  }

  lemma ModOfMultiple(q: nat, x: nat)
    ensures (q * TWO_TO_THE_64 + x) % TWO_TO_THE_64 == x % TWO_TO_THE_64
  {
  }

  /** Digits of base 16 all of them: the run goes to the end. */
  lemma {:induction false} RunTakesAll(s: seq<u8>, base: nat)
    requires AllTaken(s, base)
    ensures Run(s, base) == |s|
  {
    if |s| > 0 {
      RunTakesAll(s[1..], base);
    }
  }

  lemma {:induction false} RunIs(s: seq<u8>, base: nat, n: nat)
    requires n <= |s| && (forall i :: 0 <= i < n ==> Taken(s[i], base)) && (n < |s| ==> !Taken(s[n], base))
    ensures Run(s, base) == n
  {
    if n > 0 {
      RunIs(s[1..], base, n - 1);
    }
  }

  /**
   * Validated hex conversion is exact: a valid address of at most 16 digits is converted up to its end, to the number its
   * digits write, which is below 16^k and fits in 64 bits.
   */
  lemma {:induction false} ValidAddressIsExact(s: seq<u8>, k: nat)
    requires ValidAddress(s, k) && k <= 16
    ensures var digits := s[Prefix(s)..];
            && Run(digits, 16) == |digits|
            && Value(digits, 16) < Power(16, k) <= TWO_TO_THE_64
            && Value(digits, 16) % TWO_TO_THE_64 == Value(digits, 16)
  {
    var digits := s[Prefix(s)..];
    hide Power, Value, Run, Prefix;
    RunTakesAll(digits, 16);
    ValueBound(digits, 16);
    PowerGrows(16, |digits|, k);
    PowerGrows(16, k, 16);
    Power16Bound();
    SmallStays(Value(digits, 16));
  }

  lemma SmallStays(v: nat)
    requires v < TWO_TO_THE_64
    ensures v % TWO_TO_THE_64 == v
  {
  }

  // ---- The functions ----

  /** `cp` is a string that ends at its first NUL; the text is what stands before it. */
  predicate IsText(a: seq<u8>, s: seq<u8>) {
    |s| < |a| && a[..|s|] == s && a[|s|] == 0 && 0 !in s
  }

  method AddrValid(cp: array?<u8>, base: u8, ghost s: seq<u8>) returns (valid: bool)
    requires cp != null ==> IsText(cp[..], s)
    ensures valid == (cp == null || ValidAddress(s, base))
  {
    var length := 0;
    if cp != null {
      var i := 0;
      if cp[0] == 0x30 && Lower(cp[1]) == 0x78 {
        i := 2;
      }
      ghost var start := Prefix(s);
      assert i == start;
      while cp[i] != 0
        invariant start <= i <= |s| && length == i - start && AllTaken(s[start..i], 16)
        decreases |s| - i
      {
        length := length + 1;
        if !IsXDigit(cp[i]) {
          assert s[start..][i - start] == cp[i];
          return false;
        }
        assert s[start..i + 1] == s[start..i] + [cp[i]];
        i := i + 1;
      }
      assert s[start..i] == s[start..];
    }
    valid := length <= base;
  }

  /** Where the digits start and in which base, once the base is known. */
  function Start(s: seq<u8>, base: u8): (r: (nat, nat))
    ensures r.0 <= |s|
  {
    if base == 0 then
      if |s| == 0 || s[0] != 0x30 then (0, 10)
      else if |s| >= 3 && Lower(s[1]) == 0x78 && IsXDigit(s[2]) then (2, 16)
      else (1, 8)
    else if base == 16 then (Prefix(s), 16)
    else (0, base)
  }

  /** The conversion: the value of the digits it takes, in 64 bits, and where it stops. */
  method SimpleStrtoul(cp: array<u8>, base: u8, ghost s: seq<u8>) returns (result: nat, endp: nat)
    requires IsText(cp[..], s)
    ensures var (start, b) := Start(s, base);
            var n := Run(s[start..], b);
            endp == start + n && result == Value(s[start..][..n], b) % TWO_TO_THE_64
  {
    var i, b := 0, base;
    if b == 0 {
      b := 10;
      if cp[i] == 0x30 {
        b := 8;
        i := 1;
        if Lower(cp[i]) == 0x78 && IsXDigit(cp[i + 1]) {
          i := i + 1;
          b := 16;
        }
      }
    } else if b == 16 {
      if cp[0] == 0x30 && Lower(cp[1]) == 0x78 {
        i := 2;
      }
    }
    result, endp := Convert(cp, i, b, s);
  }

  /** The loop over the digits. */
  method Convert(cp: array<u8>, start: nat, base: u8, ghost s: seq<u8>) returns (result: nat, endp: nat)
    requires IsText(cp[..], s) && start <= |s|
    ensures var n := Run(s[start..], base);
            endp == start + n && result == Value(s[start..][..n], base) % TWO_TO_THE_64
  {
    result, endp := 0, start;
    ghost var digits := s[start..];
    assert digits[..0] == [] && Value([], base) == 0;
    hide Value, Run, Power;
    while IsXDigit(cp[endp]) && DigitOf(cp[endp]) < base
      invariant start <= endp <= |s| && AllTaken(digits[..endp - start], base)
      invariant result == Value(digits[..endp - start], base) % TWO_TO_THE_64
      decreases |s| - endp
    {
      ghost var n := endp - start;
      assert digits[n] == cp[endp] && digits[..n + 1] == digits[..n] + [digits[n]];
      ValueSnoc(digits[..n], digits[n], base);
      ModStep(Value(digits[..n], base), base, DigitOf(digits[n]));
      result := (result * base + DigitOf(cp[endp])) % TWO_TO_THE_64;
      endp := endp + 1;
    }
    RunOf(digits, base, endp - start);
  }

  lemma RunOf(s: seq<u8>, base: nat, n: nat)
    requires n <= |s| && AllTaken(s[..n], base) && (n < |s| ==> !Taken(s[n], base))
    ensures Run(s, base) == n
  {
    forall i | 0 <= i < n ensures Taken(s[i], base) {
      assert s[i] == s[..n][i];
    }
    RunIs(s, base, n);
  }

  /**
   * An endpoint number in decimal; a null pointer is not one. Of a digit string the answer is right exactly when its
   * number fits in 64 bits, or leaves there 0 or more than 240.
   */
  method IsAEndpoint(cp: array?<u8>, ghost s: seq<u8>) returns (valid: bool)
    requires cp != null ==> IsText(cp[..], s)
    ensures valid == (cp != null && AllTaken(s, 10) && 0 < Value(s, 10) % TWO_TO_THE_64 <= 240)
    ensures cp != null && AllTaken(s, 10) ==>
              ((valid <==> 1 <= Value(s, 10) <= 240)
               <==> (var v := Value(s, 10); v < TWO_TO_THE_64 || v % TWO_TO_THE_64 == 0 || v % TWO_TO_THE_64 > 240))
  {
    var result := 0;
    if cp != null {
      var i := 0;
      while cp[i] != 0
        invariant i <= |s| && AllTaken(s[..i], 10) && result == Value(s[..i], 10) % TWO_TO_THE_64
        decreases |s| - i
      {
        if !IsDigit(cp[i]) {
          assert !Taken(s[i], 10);
          return false;
        }
        assert s[..i + 1] == s[..i] + [s[i]];
        ValueSnoc(s[..i], s[i], 10);
        ModStep(Value(s[..i], 10), 10, DigitOf(s[i]));
        result := (result * 10 + (cp[i] - 0x30)) % TWO_TO_THE_64;
        i := i + 1;
      }
      assert s[..i] == s;
    }
    valid := 0 < result <= 240;
  }

  /** The endpoint check is right up to 19 digits: a number of 20 digits can wrap into the range. */
  lemma EndpointCheckIsRight(s: seq<u8>)
    requires AllTaken(s, 10) && |s| <= 19
    ensures 0 < Value(s, 10) % TWO_TO_THE_64 <= 240 <==> 1 <= Value(s, 10) <= 240
  {
    hide Value, Power;
    ValueBound(s, 10);
    PowerGrows(10, |s|, 19);
    Power10Bound();
    SmallStays(Value(s, 10));
  }

  lemma Power10Bound()
    ensures Power(10, 19) == 10000000000000000000 < TWO_TO_THE_64
  {
    assert Power(10, 5) == 100000;
    assert Power(10, 10) == 10000000000;
    assert Power(10, 15) == 1000000000000000;
  }

  // ---- Round trip ----

  function DigitChar(d: nat): (c: u8)
    requires d < 16
    ensures IsXDigit(c) && DigitOf(c) == d
  {
    if d < 10 then 0x30 + d else 0x61 + d - 10
  }

  /** The digits of `v`, without leading zeros; nothing for zero. */
  function Digits(v: nat, base: nat): (s: seq<u8>)
    requires 2 <= base <= 16
    ensures AllTaken(s, base)
  {
    if v == 0 then [] else Digits(v / base, base) + [DigitChar(v % base)]
  }

  lemma {:induction false} DigitsRoundTrip(v: nat, base: nat)
    requires 2 <= base <= 16
    ensures Value(Digits(v, base), base) == v
  {
    if v > 0 {
      DigitsRoundTrip(v / base, base);
      LastDigit(v, base);
      hide *;
      ValueSnoc(Digits(v / base, base), DigitChar(v % base), base);
      Recompose(v, base);
    }
  }

  lemma LastDigit(v: nat, base: nat)
    requires 2 <= base <= 16 && v > 0
    ensures Digits(v, base) == Digits(v / base, base) + [DigitChar(v % base)] && Taken(DigitChar(v % base), base)
  {
  }

  lemma Recompose(v: nat, base: nat)
    requires base > 0
    ensures v / base * base + v % base == v
  {
  }

  lemma {:induction false} DigitsAreFew(v: nat, base: nat, k: nat)
    requires 2 <= base <= 16 && v < Power(base, k)
    ensures |Digits(v, base)| <= k
    decreases k
  {
    hide *;
    PowerUnfolds(base, k);
    if v == 0 {
      NoDigits(base);
    } else {
      LastDigit(v, base);
      DivBelow(v, base, Power(base, k - 1));
      DigitsAreFew(v / base, base, k - 1);
    }
  }

  lemma PowerUnfolds(base: nat, k: nat)
    ensures Power(base, k) == if k == 0 then 1 else base * Power(base, k - 1)
  {
  }

  lemma NoDigits(base: nat)
    requires 2 <= base <= 16
    ensures Digits(0, base) == []
  {
  }

  lemma DivBelow(v: nat, base: nat, p: nat)
    requires base > 0 && v < base * p
    ensures v / base < p
  {
    var q := v / base;
    Recompose(v, base);
    assert q >= p ==> q * base >= p * base;
  }

  /** Every 64-bit address, written in hex, is valid and is converted back to itself. */
  lemma {:induction false} AddressRoundTrip(v: nat)
    requires v < TWO_TO_THE_64
    ensures var s := [0x30, 0x78] + Digits(v, 16);
            && ValidAddress(s, 16) && Start(s, 16) == (2, 16)
            && var digits := s[2..]; Run(digits, 16) == |digits| && Value(digits, 16) % TWO_TO_THE_64 == v
  {
    hide Power;
    hide Digits;
    hide Value;
    hide Run;
    hide AllTaken;
    var digits := Digits(v, 16);
    var s := [0x30, 0x78] + digits;
    assert s[2..] == digits;
    Power16Bound();
    DigitsAreFew(v, 16, 16);
    DigitsRoundTrip(v, 16);
    RunTakesAll(digits, 16);
  }

  /** The digits of 2^64 + 1 are taken for endpoint 1. */
  lemma EndpointCheckWraps()
    ensures var s := Digits(TWO_TO_THE_64 + 1, 10);
            AllTaken(s, 10) && Value(s, 10) > 240 && 0 < Value(s, 10) % TWO_TO_THE_64 <= 240
  {
    DigitsRoundTrip(TWO_TO_THE_64 + 1, 10);
  }

  // ---- Prefixes and letters ----

  /** The conversion takes the whole string, in the base it chooses, and gives `v`. */
  predicate ConvertsTo(s: seq<u8>, base: u8, v: nat) {
    var (start, b) := Start(s, base);
    && Run(s[start..], b) == |s| - start && AllTaken(s[start..], b) && Value(s[start..], b) % TWO_TO_THE_64 == v
  }

  lemma {:induction false} NoLeadingZero(v: nat, base: nat)
    requires 2 <= base <= 16 && v > 0
    ensures |Digits(v, base)| > 0 && Digits(v, base)[0] != 0x30
    decreases v
  {
    hide *;
    QuotientIsLess(v, base);
    if v / base > 0 {
      NoLeadingZero(v / base, base);
    }
    FirstDigit(v, base, v / base, v % base);
  }

  /** The first digit of `v`, from quotient and remainder. */
  lemma FirstDigit(v: nat, base: nat, q: nat, r: nat)
    requires 2 <= base <= 16 && v > 0 && q == v / base && r == v % base
    requires q > 0 ==> |Digits(q, base)| > 0 && Digits(q, base)[0] != 0x30
    ensures |Digits(v, base)| > 0 && Digits(v, base)[0] != 0x30
  {
    LastDigit(v, base);
    hide *;
    if q == 0 {
      NoDigits(base);
      SmallRemainder(v, base);
      OnlyZeroIsZero(r);
    }
  }

  lemma QuotientIsLess(v: nat, base: nat)
    requires 2 <= base && v > 0
    ensures v / base < v
  {
  }

  lemma SmallRemainder(v: nat, base: nat)
    requires 0 < base && v / base == 0
    ensures v % base == v
  {
    Recompose(v, base);
  }

  lemma OnlyZeroIsZero(d: nat)
    requires 0 < d < 16
    ensures DigitChar(d) != 0x30
  {
  }

  lemma {:induction false} WrittenConverts(prefix: seq<u8>, v: nat, base: u8, b: nat)
    requires v < TWO_TO_THE_64 && 2 <= b <= 16 && Start(prefix + Digits(v, b), base) == (|prefix|, b)
    ensures ConvertsTo(prefix + Digits(v, b), base, v)
  {
    hide Value, Run, Digits;
    var s := prefix + Digits(v, b);
    assert s[|prefix|..] == Digits(v, b);
    DigitsRoundTrip(v, b);
    RunTakesAll(Digits(v, b), b);
  }

  /**
   * With base 0 the prefix chooses: 0x or 0X before a digit is hex, any other leading 0 octal, else decimal. With base 16
   * the prefix may be left out.
   */
  lemma {:induction false} PrefixChoosesBase(v: nat, x: u8)
    requires 0 < v < TWO_TO_THE_64 && (x == 0x78 || x == 0x58)
    ensures ConvertsTo(Digits(v, 10), 0, v) && ConvertsTo([0x30] + Digits(v, 8), 0, v)
    ensures ConvertsTo([0x30, x] + Digits(v, 16), 0, v) && ConvertsTo([0x30, x] + Digits(v, 16), 16, v)
    ensures ConvertsTo(Digits(v, 16), 16, v) && ConvertsTo(Digits(v, 10), 10, v)
  {
    NoLeadingZero(v, 10);
    NoLeadingZero(v, 8);
    NoLeadingZero(v, 16);
    hide Digits;
    assert [] + Digits(v, 10) == Digits(v, 10) && [] + Digits(v, 16) == Digits(v, 16);
    WrittenConverts([], v, 0, 10);
    WrittenConverts([], v, 10, 10);
    WrittenConverts([], v, 16, 16);
    OctalStarts(Digits(v, 8));
    HexStarts(Digits(v, 16), x);
    PlainStarts(Digits(v, 10), 0, 10);
    PlainStarts(Digits(v, 16), 16, 16);
    hide Start;
    WrittenConverts([0x30], v, 0, 8);
    WrittenConverts([0x30, x], v, 0, 16);
    WrittenConverts([0x30, x], v, 16, 16);
  }

  lemma HexStarts(digits: seq<u8>, x: u8)
    requires AllTaken(digits, 16) && |digits| > 0 && (x == 0x78 || x == 0x58)
    ensures Start([0x30, x] + digits, 0) == (2, 16) == Start([0x30, x] + digits, 16)
  {
    assert Taken(digits[0], 16) && ([0x30, x] + digits)[2] == digits[0];
  }

  lemma PlainStarts(digits: seq<u8>, base: u8, b: nat)
    requires AllTaken(digits, b) && |digits| > 0 && digits[0] != 0x30 && ((base == 0 && b == 10) || base == b == 16)
    ensures Start(digits, base) == (0, b)
  {
  }

  lemma OctalStarts(digits: seq<u8>)
    requires AllTaken(digits, 8)
    ensures Start([0x30] + digits, 0) == (1, 8)
  {
    if |digits| > 0 {
      assert Taken(digits[0], 8);
    }
  }

  /** The same letter in the other case. */
  predicate OtherCase(c: u8, d: u8) { (0x41 <= c <= 0x46 && d == c + 0x20) || (0x41 <= d <= 0x46 && c == d + 0x20) }

  /** Upper and lower case letters are the same digits. */
  lemma {:induction false} CaseDoesNotMatter(s: seq<u8>, t: seq<u8>, base: nat)
    requires |s| == |t| && AllTaken(s, base) && forall i :: 0 <= i < |s| ==> t[i] == s[i] || OtherCase(s[i], t[i])
    ensures AllTaken(t, base) && Value(t, base) == Value(s, base)
  {
    forall i | 0 <= i < |t|
      ensures Taken(t[i], base) && DigitOf(t[i]) == DigitOf(s[i])
    {
      assert Taken(s[i], base);
    }
    if |s| > 0 {
      assert forall i :: 0 <= i < |s| - 1 ==> s[1..][i] == s[i + 1] && t[1..][i] == t[i + 1];
      CaseDoesNotMatter(s[1..], t[1..], base);
    }
  }
}
