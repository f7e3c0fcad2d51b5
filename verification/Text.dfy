/** Numbers and separators in text, as Rust's formatting and parsing treat them. */
module Text {
  import opened Types

  function Pow(base: nat, e: nat): (p: nat)
    ensures base > 0 ==> p > 0
  {
    if e == 0 then 1 else base * Pow(base, e - 1)
  }

  lemma Pow16Of32()
    ensures Pow(16, 32) == UUID_COUNT
  {
    assert Pow(16, 8) == 0x1_0000_0000 by {
      assert Pow(16, 4) == 0x1_0000;
    }
    assert Pow(16, 16) == 0x1_0000_0000_0000_0000 by {
      assert Pow(16, 12) == 0x1_0000_0000_0000;
    }
    assert Pow(16, 24) == 0x1_0000_0000_0000_0000_0000_0000 by {
      assert Pow(16, 20) == 0x1_0000_0000_0000_0000_0000;
    }
    assert Pow(16, 28) == 0x1_0000_0000_0000_0000_0000_0000_0000;
  }

  // ---------- digits ----------

  const Digits: string := "0123456789abcdef"

  function DigitValue(c: char): Option<nat> {
    if '0' <= c <= '9' then Some(c as nat - '0' as nat)
    else if 'a' <= c <= 'f' then Some(c as nat - 'a' as nat + 10)
    else if 'A' <= c <= 'F' then Some(c as nat - 'A' as nat + 10)
    else None
  }

  predicate IsDigit(c: char, base: nat) {
    DigitValue(c).Some? && DigitValue(c).value < base
  }

  lemma DigitRoundTrip(d: nat)
    requires d < 16
    ensures DigitValue(Digits[d]) == Some(d)
    ensures Digits[d] !in ":-={}+"
  {
  }

  /** Which characters are digits, of what value, and which are printed. */
  lemma DigitsAreUsual(c: char)
    ensures DigitValue(c).Some? <==> c in "0123456789abcdefABCDEF"
  {
    if '0' <= c <= '9' {
      assert c == "0123456789abcdefABCDEF"[c as nat - '0' as nat];
    } else if 'a' <= c <= 'f' {
      assert c == "0123456789abcdefABCDEF"[c as nat - 'a' as nat + 10];
    } else if 'A' <= c <= 'F' {
      assert c == "0123456789abcdefABCDEF"[c as nat - 'A' as nat + 16];
    }
  }

  lemma DigitValuesAreUsual(i: nat)
    requires i < 22
    ensures DigitValue("0123456789abcdefABCDEF"[i]) == Some(if i < 16 then i else i - 6)
    ensures i < 16 ==> Digits[i] == "0123456789abcdefABCDEF"[i]
  {
  }

  /** The number a string of digits stands for. */
  function Value(s: string, base: nat): nat
    requires forall c <- s :: IsDigit(c, base)
  {
    if s == [] then 0
    else
      assert IsDigit(s[|s| - 1], base);
      Value(s[..|s| - 1], base) * base + DigitValue(s[|s| - 1]).value
  }

  /** Exactly this many hexadecimal digits, leading zeros included. */
  function Hex(n: nat, width: nat): (s: string)
    ensures |s| == width && forall c <- s :: IsDigit(c, 16) && c !in ":-={}+"
  {
    if width == 0 then ""
    else
      DigitRoundTrip(n % 16);
      Hex(n / 16, width - 1) + [Digits[n % 16]]
  }

  lemma {:induction false} HexRoundTrip(n: nat, width: nat)
    requires n < Pow(16, width)
    ensures Value(Hex(n, width), 16) == n
  {
    if width > 0 {
      HexRoundTrip(n / 16, width - 1);
      DigitRoundTrip(n % 16);
    }
  }

  /** Decimal without leading zeros, as to_string prints an unsigned integer. */
  function Decimal(n: nat): (s: string)
    ensures s != [] && forall c <- s :: IsDigit(c, 10) && c !in ":-={}+"
  {
    DigitRoundTrip(n % 10);
    (if n < 10 then "" else Decimal(n / 10)) + [Digits[n % 10]]
  }

  lemma {:induction false} DecimalRoundTrip(n: nat)
    ensures Value(Decimal(n), 10) == n
  {
    DigitRoundTrip(n % 10);
    if n >= 10 {
      DecimalRoundTrip(n / 10);
    }
  }

  lemma Scaled(a: nat, x: nat, y: nat)
    requires x <= y
    ensures a * x <= a * y
  {
  }

  lemma QuotientIs(n: nat, d: nat, q: nat, r: nat)
    requires d > 0 && n == d * q + r && r < d
    ensures n / d == q
  {
    if n / d < q {
      Scaled(d, n / d + 1, q);
    } else if n / d > q {
      Scaled(d, q + 1, n / d);
    }
  }

  lemma DivTwice(n: nat, a: nat, b: nat)
    requires a > 0 && b > 0
    ensures a * b > 0 && n / (a * b) == n / a / b
  {
    var q, r := n / a, n % a;
    var qq, rr := q / b, q % b;
    assert n == a * b * qq + (a * rr + r) by {
      assert n == a * q + r && q == b * qq + rr;
      assert a * (b * qq + rr) == a * b * qq + a * rr;
    }
    assert a * rr + r < a * b by {
      assert a * rr <= a * (b - 1) by { Scaled(a, rr, b - 1); }
    }
    QuotientIs(n, a * b, qq, a * rr + r);
  }

  lemma DecimalSnoc(n: nat)
    ensures Decimal(n) == if n < 10 then [Digits[n]] else Decimal(n / 10) + [Digits[n % 10]]
  {
  }

  lemma DivMod(q: nat, r: nat, d: nat)
    requires r < d
    ensures (q * d + r) / d == q && (q * d + r) % d == r
  {
    QuotientIs(q * d + r, d, q, r);
  }

  lemma DecimalAppend(q: nat, r: nat)
    requires q > 0 && r < 10
    ensures Decimal(q * 10 + r) == Decimal(q) + [Digits[r]]
  {
    DivMod(q, r, 10);
    DecimalSnoc(q * 10 + r);
  }

  /** A printed number has no idle zero in front. */
  lemma {:induction false} NoIdleZero(n: nat)
    ensures n > 0 ==> Decimal(n)[0] != '0'
  {
    DecimalSnoc(n);
    if n >= 10 {
      NoIdleZero(n / 10);
    }
  }

  lemma PowStep(n: nat, base: nat, k: nat)
    requires base > 0 && k > 0
    ensures n / Pow(base, k) == n / base / Pow(base, k - 1)
  {
    DivTwice(n, base, Pow(base, k - 1));
  }

  /** The digit of base^k in a number. */
  function DigitOf(n: nat, base: nat, k: nat): nat
    requires base > 0
  {
    n / Pow(base, k) % base
  }

  lemma DigitOfStep(n: nat, base: nat, k: nat)
    requires base > 0
    ensures DigitOf(n, base, k) == if k == 0 then n % base else DigitOf(n / base, base, k - 1)
    ensures DigitOf(n, base, k) < base
  {
    if k > 0 {
      PowStep(n, base, k);
    }
  }

  /** The k-th character from the end. */
  function FromEnd(s: string, k: nat): char
    requires k < |s|
  {
    s[|s| - 1 - k]
  }

  lemma FromEndSnoc(s: string, c: char, k: nat)
    requires k <= |s|
    ensures FromEnd(s + [c], k) == if k == 0 then c else FromEnd(s, k - 1)
  {
  }

  lemma LastDigit(n: nat)
    ensures FromEnd(Decimal(n), 0) == Digits[n % 10]
  {
    DecimalSnoc(n);
  }

  lemma EarlierDigit(n: nat, k: nat)
    requires 0 < k < |Decimal(n)|
    ensures k - 1 < |Decimal(n / 10)| && FromEnd(Decimal(n), k) == FromEnd(Decimal(n / 10), k - 1)
  {
    DecimalSnoc(n);
    FromEndSnoc(Decimal(n / 10), Digits[n % 10], k);
  }

  /** The digit of 10^k stands k places before the last. */
  lemma {:induction false} DecimalDigits(n: nat, k: nat)
    requires k < |Decimal(n)|
    ensures DigitOf(n, 10, k) < 10 && FromEnd(Decimal(n), k) == Digits[DigitOf(n, 10, k)]
    decreases k
  {
    DigitOfStep(n, 10, k);
    if k == 0 {
      LastDigit(n);
    } else {
      EarlierDigit(n, k);
      DecimalDigits(n / 10, k - 1);
    }
  }

  /** The digit of 16^k stands k places before the last. */
  lemma {:induction false} HexDigits(n: nat, width: nat, k: nat)
    requires k < width
    ensures DigitOf(n, 16, k) < 16 && FromEnd(Hex(n, width), k) == Digits[DigitOf(n, 16, k)]
  {
    DigitOfStep(n, 16, k);
    FromEndSnoc(Hex(n / 16, width - 1), Digits[n % 16], k);
    if k > 0 {
      HexDigits(n / 16, width - 1, k - 1);
    }
  }

  predicate AllDigits(s: string, base: nat) {
    forall c <- s :: IsDigit(c, base)
  }

  lemma ValueSnoc(s: string, c: char, base: nat)
    requires AllDigits(s, base) && IsDigit(c, base)
    ensures AllDigits(s + [c], base) && Value(s + [c], base) == Value(s, base) * base + DigitValue(c).value
  {
    assert (s + [c])[..|s|] == s;
  }

  lemma FrontAndLast(s: string, base: nat)
    requires s != [] && AllDigits(s, base)
    ensures AllDigits(s[..|s| - 1], base) && IsDigit(s[|s| - 1], base) && s == s[..|s| - 1] + [s[|s| - 1]]
  {
  }

  lemma HexSnoc(n: nat, d: nat, width: nat)
    requires d < 16
    ensures Hex(n * 16 + d, width + 1) == Hex(n, width) + [Digits[d]]
  {
    DivMod(n, d, 16);
  }

  lemma HexAt(n: nat, d: nat, width: nat, i: nat)
    requires d < 16 && i <= width
    ensures Hex(n * 16 + d, width + 1)[i] == if i < width then Hex(n, width)[i] else Digits[d]
  {
    HexSnoc(n, d, width);
  }

  lemma ValueOfFront(s: string, base: nat)
    requires s != [] && AllDigits(s, base)
    ensures AllDigits(s[..|s| - 1], base) && IsDigit(s[|s| - 1], base)
    ensures Value(s, base) == Value(s[..|s| - 1], base) * base + DigitValue(s[|s| - 1]).value
  {
    FrontAndLast(s, base);
    ValueSnoc(s[..|s| - 1], s[|s| - 1], base);
  }

  /** Reading hexadecimal digits, of either case, and printing them keeps the value of each. */
  lemma {:induction false} ValueKeepsDigits(s: string, i: nat)
    requires i < |s| && AllDigits(s, 16)
    ensures DigitValue(Hex(Value(s, 16), |s|)[i]) == DigitValue(s[i])
  {
    var n := |s| - 1;
    ValueOfFront(s, 16);
    var d := DigitValue(s[n]).value;
    HexAt(Value(s[..n], 16), d, n, i);
    DigitRoundTrip(d);
    if i < n {
      assert s[..n][i] == s[i];
      ValueKeepsDigits(s[..n], i);
    }
  }

  function Zeros(k: nat): string {
    seq(k, _ => '0')
  }

  lemma OneDigit(c: char)
    requires IsDigit(c, 10)
    ensures Decimal(DigitValue(c).value) == [c] == [Digits[DigitValue(c).value]]
  {
    DecimalSnoc(DigitValue(c).value);
  }

  lemma OneMoreDigit(front: string, c: char, k: nat, v: nat) returns (l: nat)
    requires IsDigit(c, 10) && front == Zeros(k) + Decimal(v)
    ensures front + [c] == Zeros(l) + Decimal(v * 10 + DigitValue(c).value)
  {
    if v == 0 {
      l := k + 1;
      OneDigit(c);
      DecimalSnoc(0);
      assert front == Zeros(l);
    } else {
      l := k;
      OneDigit(c);
      DecimalAppend(v, DigitValue(c).value);
      assert front + [c] == Zeros(k) + (Decimal(v) + [c]);
    }
  }

  /** Decimal digits are leading zeros and then a number as it is printed. */
  lemma {:induction false} DigitsAreDecimal(s: string) returns (k: nat)
    requires s != [] && AllDigits(s, 10)
    ensures s == Zeros(k) + Decimal(Value(s, 10))
  {
    var front, c := s[..|s| - 1], s[|s| - 1];
    FrontAndLast(s, 10);
    ValueSnoc(front, c, 10);
    if front == [] {
      OneDigit(c);
      k := 0;
    } else {
      k := DigitsAreDecimal(front);
      k := OneMoreDigit(front, c, k, Value(front, 10));
    }
  }

  /** str::parse::<u64>: an optional plus sign, at least one digit, no overflow. */
  function ParseU64(s: string): Option<U64> {
    var digits := if s != [] && s[0] == '+' then s[1..] else s;
    if digits == [] || !(forall c <- digits :: IsDigit(c, 10)) then None
    else if Value(digits, 10) >= U64_COUNT then None
    else Some(Value(digits, 10))
  }

  lemma ParseU64RoundTrip(n: U64)
    ensures ParseU64(Decimal(n)) == Some(n)
  {
    DecimalRoundTrip(n);
    assert Decimal(n)[0] in Decimal(n);
  }

  lemma {:induction false} ZerosAreNothing(k: nat)
    ensures AllDigits(Zeros(k), 10) && Value(Zeros(k), 10) == 0
  {
    if k > 0 {
      ZerosAreNothing(k - 1);
      ValueSnoc(Zeros(k - 1), '0', 10);
      assert Zeros(k) == Zeros(k - 1) + ['0'];
    }
  }

  lemma {:induction false} ZerosAreIdle(k: nat, n: nat)
    ensures AllDigits(Zeros(k) + Decimal(n), 10) && Value(Zeros(k) + Decimal(n), 10) == n
    decreases n
  {
    var q, r := n / 10, n % 10;
    DecimalSnoc(n);
    DigitRoundTrip(r);
    if q == 0 {
      ZerosAreNothing(k);
      ValueSnoc(Zeros(k), Digits[r], 10);
    } else {
      ZerosAreIdle(k, q);
      ValueSnoc(Zeros(k) + Decimal(q), Digits[r], 10);
      assert Zeros(k) + Decimal(n) == Zeros(k) + Decimal(q) + [Digits[r]];
    }
  }

  lemma ParsedIsPrinted(s: string)
    requires ParseU64(s).Some?
    ensures exists k: nat ::
              s == Zeros(k) + Decimal(ParseU64(s).value) || s == "+" + (Zeros(k) + Decimal(ParseU64(s).value))
  {
    var digits := if s[0] == '+' then s[1..] else s;
    var k := DigitsAreDecimal(digits);
    assert s == digits || s == "+" + digits;
  }

  lemma PrintedIsParsed(digits: string, n: U64)
    requires digits != [] && AllDigits(digits, 10) && Value(digits, 10) == n
    ensures ParseU64(digits) == Some(n) && ParseU64("+" + digits) == Some(n)
  {
    assert IsDigit(digits[0], 10);
    assert ("+" + digits)[1..] == digits;
  }

  /** Exactly the printed 64-bit numbers are parsed, behind any zeros and perhaps a plus sign. */
  lemma ParseU64Iff(s: string, n: U64)
    ensures ParseU64(s) == Some(n) <==>
            exists k: nat :: s == Zeros(k) + Decimal(n) || s == "+" + (Zeros(k) + Decimal(n))
  {
    if ParseU64(s) == Some(n) {
      ParsedIsPrinted(s);
    }
    if k: nat :| s == Zeros(k) + Decimal(n) || s == "+" + (Zeros(k) + Decimal(n)) {
      ZerosAreIdle(k, n);
      PrintedIsParsed(Zeros(k) + Decimal(n), n);
    }
  }

  // ---------- separators ----------

  /** Where the first separator is, or the length when there is none. */
  function IndexOf(s: string, sep: char): (i: nat)
    ensures i <= |s| && sep !in s[..i] && (i < |s| ==> s[i] == sep)
  {
    if s == [] || s[0] == sep then 0 else 1 + IndexOf(s[1..], sep)
  }

  /** Cuts at the first separator. */
  function SplitOnce(s: string, sep: char): (r: Option<(string, string)>)
    ensures r == None <==> sep !in s
    ensures r.Some? ==> s == r.value.0 + [sep] + r.value.1 && sep !in r.value.0
  {
    var i := IndexOf(s, sep);
    if i == |s| then None else Some((s[..i], s[i + 1..]))
  }

  lemma {:induction false} IndexOfFirst(head: string, sep: char, tail: string)
    requires sep !in head
    ensures IndexOf(head + [sep] + tail, sep) == |head|
  {
    if head != [] {
      assert (head + [sep] + tail)[1..] == head[1..] + [sep] + tail;
      IndexOfFirst(head[1..], sep, tail);
    }
  }

  lemma SplitOnceAt(head: string, sep: char, tail: string)
    requires sep !in head
    ensures SplitOnce(head + [sep] + tail, sep) == Some((head, tail))
  {
    IndexOfFirst(head, sep, tail);
    assert (head + [sep] + tail)[..|head|] == head && (head + [sep] + tail)[|head| + 1..] == tail;
  }

  /** Cuts at the last separator. */
  function RSplitOnce(s: string, sep: char): (r: Option<(string, string)>)
    ensures r == None <==> sep !in s
    ensures r.Some? ==> s == r.value.0 + [sep] + r.value.1 && sep !in r.value.1
  {
    if s == [] then None
    else if s[|s| - 1] == sep then Some((s[..|s| - 1], ""))
    else
      match RSplitOnce(s[..|s| - 1], sep)
      case None => None
      case Some(parts) => Some((parts.0, parts.1 + [s[|s| - 1]]))
  }

  lemma {:induction false} RSplitOnceAt(head: string, sep: char, tail: string)
    requires sep !in tail
    ensures RSplitOnce(head + [sep] + tail, sep) == Some((head, tail))
    decreases |tail|
  {
    var s := head + [sep] + tail;
    if tail == [] {
      assert s[..|s| - 1] == head;
    } else {
      assert s[..|s| - 1] == head + [sep] + tail[..|tail| - 1];
      RSplitOnceAt(head, sep, tail[..|tail| - 1]);
      assert tail[..|tail| - 1] + [tail[|tail| - 1]] == tail;
    }
  }

  /** All the pieces between separators. */
  function Split(s: string, sep: char): (parts: seq<string>)
    ensures |parts| >= 1
    decreases |s|
  {
    var i := IndexOf(s, sep);
    if i == |s| then [s] else [s[..i]] + Split(s[i + 1..], sep)
  }

  lemma SplitAt(head: string, sep: char, tail: string)
    requires sep !in head
    ensures Split(head + [sep] + tail, sep) == [head] + Split(tail, sep)
  {
    IndexOfFirst(head, sep, tail);
    assert (head + [sep] + tail)[..|head|] == head && (head + [sep] + tail)[|head| + 1..] == tail;
  }

  lemma SplitNone(s: string, sep: char)
    requires sep !in s
    ensures Split(s, sep) == [s]
  {
  }

  function Join(parts: seq<string>, sep: char): string {
    if parts == [] then "" else if |parts| == 1 then parts[0] else parts[0] + [sep] + Join(parts[1..], sep)
  }

  /** No piece holds a separator, and with separators between them they are the text again. */
  lemma {:induction false} SplitJoins(s: string, sep: char)
    ensures (forall p <- Split(s, sep) :: sep !in p) && Join(Split(s, sep), sep) == s
    decreases |s|
  {
    var i := IndexOf(s, sep);
    if i < |s| {
      SplitJoins(s[i + 1..], sep);
      assert Split(s, sep)[1..] == Split(s[i + 1..], sep);
      assert s == s[..i] + [sep] + s[i + 1..];
    }
  }
}
