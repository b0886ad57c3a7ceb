/** Strings as the store sees them: the order of map keys and zero-padded decimals. */
module Text {

  const COLON: char := ':'

  /** Order of keys in a key-ordered map: lexicographic on code points. */
  predicate Less(a: string, b: string) {
    if b == "" then false
    else if a == "" then true
    else if a[0] != b[0] then a[0] < b[0]
    else Less(a[1..], b[1..])
  }

  predicate AtMost(a: string, b: string) {
    a == b || Less(a, b)
  }

  /** The first difference decides; a proper prefix comes first. */
  lemma {:induction false} LessMeaning(a: string, b: string, n: nat)
    requires n <= |a| && n <= |b| && a[..n] == b[..n] && (n < |a| && n < |b| ==> a[n] != b[n])
    ensures Less(a, b) <==> n < |b| && (n == |a| || a[n] < b[n])
  {
    if n > 0 {
      assert a[0] == a[..n][0] == b[..n][0] == b[0];
      assert a[1..][..n - 1] == a[..n][1..] && b[1..][..n - 1] == b[..n][1..];
      LessMeaning(a[1..], b[1..], n - 1);
    }
  }

  lemma {:induction false} LessIrreflexive(a: string)
    ensures !Less(a, a)
  {
    if a != "" {
      LessIrreflexive(a[1..]);
    }
  }

  lemma {:induction false} LessTransitive(a: string, b: string, c: string)
    requires Less(a, b) && Less(b, c)
    ensures Less(a, c)
  {
    if a != "" && a[0] == b[0] == c[0] {
      LessTransitive(a[1..], b[1..], c[1..]);
    }
  }

  lemma {:induction false} LessTotal(a: string, b: string)
    ensures a == b || Less(a, b) || Less(b, a)
  {
    if a != "" && b != "" && a[0] == b[0] {
      LessTotal(a[1..], b[1..]);
      assert a == [a[0]] + a[1..] && b == [b[0]] + b[1..];
    }
  }

  lemma LessAsymmetric(a: string, b: string)
    requires Less(a, b)
    ensures !Less(b, a) && a != b
  {
    LessIrreflexive(a);
    if Less(b, a) {
      LessTransitive(a, b, a);
    }
  }

  lemma {:induction false} LessAfterPrefix(p: string, a: string, b: string)
    ensures Less(p + a, p + b) == Less(a, b)
  {
    if p == "" {
      assert p + a == a && p + b == b;
    } else {
      assert (p + a)[1..] == p[1..] + a && (p + b)[1..] == p[1..] + b;
      LessAfterPrefix(p[1..], a, b);
    }
  }

  // ---- decimals ---------------------------------------------------------------

  function Pow10(w: nat): (r: nat)
    ensures r > 0
  {
    if w == 0 then 1 else 10 * Pow10(w - 1)
  }

  lemma TwentyDigits()
    ensures Pow10(20) == 100_000_000_000_000_000_000
  {
    assert Pow10(5) == 100_000;
    assert Pow10(10) == 10_000_000_000;
    assert Pow10(15) == 1_000_000_000_000_000;
  }

  function DigitChar(d: nat): char
    requires d < 10
  {
    '0' + d as char
  }

  predicate IsDigit(c: char) {
    '0' <= c <= '9'
  }

  predicate AllDigits(s: string) {
    forall i :: 0 <= i < |s| ==> IsDigit(s[i])
  }

  /** `str(n)` for a natural number. */
  function Decimal(n: nat): (s: string)
    ensures s != "" && AllDigits(s)
  {
    if n < 10 then [DigitChar(n)] else Decimal(n / 10) + [DigitChar(n % 10)]
  }

  function Zeros(n: nat): (s: string)
    ensures |s| == n && forall i :: 0 <= i < n ==> s[i] == '0'
  {
    seq(n, _ => '0')
  }

  /** `f"{n:0{w}d}"`: at least w digits, more when n needs them. */
  function Padded(n: nat, w: nat): (s: string)
    ensures AllDigits(s) && s != "" && |s| >= w
  {
    var d := Decimal(n);
    if |d| >= w then d else Zeros(w - |d|) + d
  }

  /** `int(s)` for a string of digits. */
  function Value(s: string): nat
    requires AllDigits(s)
  {
    if s == "" then 0 else 10 * Value(s[..|s| - 1]) + (s[|s| - 1] - '0') as nat
  }

  lemma {:induction false} ValueOfDecimal(n: nat)
    ensures Value(Decimal(n)) == n
  {
    if n >= 10 {
      ValueOfDecimal(n / 10);
      assert Decimal(n)[..|Decimal(n)| - 1] == Decimal(n / 10);
    }
  }

  lemma {:induction false} ValueIgnoresZeros(z: nat, s: string)
    requires AllDigits(s)
    ensures AllDigits(Zeros(z) + s) && Value(Zeros(z) + s) == Value(s)
    decreases |s|, z
  {
    var t := Zeros(z) + s;
    if s != "" {
      assert t[..|t| - 1] == Zeros(z) + s[..|s| - 1];
      ValueIgnoresZeros(z, s[..|s| - 1]);
    } else if z > 0 {
      assert t[..|t| - 1] == Zeros(z - 1) + s;
      ValueIgnoresZeros(z - 1, s);
    }
  }

  lemma ValueOfPadded(n: nat, w: nat)
    ensures Value(Padded(n, w)) == n
  {
    hide Value, Decimal;
    var d := Decimal(n);
    ValueOfDecimal(n);
    if |d| < w {
      ValueIgnoresZeros(w - |d|, d);
    }
  }

  /** The last w decimal digits of n. */
  function Fixed(n: nat, w: nat): (s: string)
    ensures |s| == w && AllDigits(s)
  {
    if w == 0 then "" else Fixed(n / 10, w - 1) + [DigitChar(n % 10)]
  }

  lemma {:induction false} FixedOfZero(w: nat)
    ensures Fixed(0, w) == Zeros(w)
  {
    if w > 0 {
      FixedOfZero(w - 1);
      assert Zeros(w) == Zeros(w - 1) + "0";
    }
  }

  lemma {:induction false} PaddedIsFixed(n: nat, w: nat)
    requires n < Pow10(w) && w > 0
    ensures Padded(n, w) == Fixed(n, w)
  {
    if n < 10 {
      FixedOfZero(w - 1);
      assert Fixed(n, w) == Zeros(w - 1) + Decimal(n);
      assert Zeros(0) + Decimal(n) == Decimal(n);
    } else {
      PaddedIsFixed(n / 10, w - 1);
      var d := Decimal(n / 10);
      assert Padded(n / 10, w - 1) + [DigitChar(n % 10)] == Padded(n, w);
    }
  }

  /** Equal widths: numeric order is string order, whatever follows the digits. */
  lemma {:induction false} FixedOrdersNumbers(m: nat, n: nat, w: nat, x: string, y: string)
    requires m < n < Pow10(w)
    ensures Less(Fixed(m, w) + x, Fixed(n, w) + y)
  {
    var dm, dn := [DigitChar(m % 10)], [DigitChar(n % 10)];
    assert Fixed(m, w) + x == Fixed(m / 10, w - 1) + (dm + x);
    assert Fixed(n, w) + y == Fixed(n / 10, w - 1) + (dn + y);
    if m / 10 < n / 10 {
      FixedOrdersNumbers(m / 10, n / 10, w - 1, dm + x, dn + y);
    } else {
      LessAfterPrefix(Fixed(m / 10, w - 1), dm + x, dn + y);
    }
  }

  /** A number too long for w digits has at least w + 1 of them. */
  lemma {:induction false} DecimalIsLong(n: nat, w: nat)
    requires n >= Pow10(w)
    ensures |Decimal(n)| > w
  {
    if w > 0 {
      DecimalIsLong(n / 10, w - 1);
    }
  }

  lemma {:induction false} FixedNines(w: nat)
    ensures Fixed(Pow10(w) - 1, w) == seq(w, _ => '9')
  {
    if w > 0 {
      FixedNines(w - 1);
      assert (Pow10(w) - 1) / 10 == Pow10(w - 1) - 1 && (Pow10(w) - 1) % 10 == 9;
      assert seq(w, _ => '9') == seq(w - 1, _ => '9') + "9";
    }
  }

  /** Digits followed by anything come before as many nines followed by a colon, if they are more. */
  lemma {:induction false} LongDigitsBelowNines(d: string, w: nat, x: string, y: string)
    requires AllDigits(d) && |d| > w
    ensures Less(d + x, seq(w, _ => '9') + [COLON] + y)
  {
    var nines := seq(w, _ => '9') + [COLON] + y;
    assert (d + x)[0] == d[0];
    if w > 0 && d[0] == '9' {
      assert (d + x)[1..] == d[1..] + x;
      assert nines[1..] == seq(w - 1, _ => '9') + [COLON] + y;
      LongDigitsBelowNines(d[1..], w - 1, x, y);
    }
  }

  /** A number of more than w digits comes before the largest of w digits. */
  lemma LongNumberBelowNines(m: nat, w: nat, x: string, y: string)
    requires m >= Pow10(w) && w > 0
    ensures Less(Padded(m, w) + x, Padded(Pow10(w) - 1, w) + [COLON] + y)
  {
    hide Less;
    DecimalIsLong(m, w);
    FixedNines(w);
    PaddedIsFixed(Pow10(w) - 1, w);
    LongDigitsBelowNines(Decimal(m), w, x, y);
  }

  /** Padded decimals: digits only, at least w of them, of the number's value. */
  lemma PaddedExamples()
    ensures Padded(0, 4) == "0000" && Padded(305, 4) == "0305" && Padded(30512, 4) == "30512"
  {
    assert Decimal(3) == "3" && Decimal(30) == "30" && Decimal(305) == "305";
    assert Decimal(3051) == "3051";
    assert Zeros(1) == "0" && Zeros(3) == "000";
  }

  // ---- fields separated by ':' -------------------------------------------------

  /** One field, the separator, and the rest of a key. */
  function Field(a: string, rest: string): string {
    a + [COLON] + rest
  }

  predicate NoColon(a: string) {
    COLON !in a
  }

  /** Where the first separator is; |s| when there is none. */
  function FirstColon(s: string): (k: nat)
    ensures k <= |s|
  {
    if s == "" || s[0] == COLON then 0 else 1 + FirstColon(s[1..])
  }

  /** Where the last separator is, counted from the end. */
  function LastColon(s: string): (k: nat)
    ensures k <= |s|
  {
    if s == "" || s[|s| - 1] == COLON then 0 else 1 + LastColon(s[..|s| - 1])
  }

  lemma {:induction false} FirstColonOfField(a: string, r: string)
    requires NoColon(a)
    ensures FirstColon(Field(a, r)) == |a|
  {
    if a != "" {
      assert Field(a, r)[1..] == Field(a[1..], r);
      FirstColonOfField(a[1..], r);
    }
  }

  lemma {:induction false} LastColonOfField(a: string, r: string)
    requires NoColon(r)
    ensures LastColon(Field(a, r)) == |r|
  {
    if r != "" {
      assert Field(a, r)[..|a| + |r|] == Field(a, r[..|r| - 1]);
      LastColonOfField(a, r[..|r| - 1]);
    }
  }

  lemma FirstFieldUnique(a: string, r: string, b: string, s: string)
    requires NoColon(a) && NoColon(b) && Field(a, r) == Field(b, s)
    ensures a == b && r == s
  {
    FirstColonOfField(a, r);
    FirstColonOfField(b, s);
    assert a == Field(a, r)[..|a|] && b == Field(b, s)[..|b|];
    assert r == Field(a, r)[|a| + 1..] && s == Field(b, s)[|b| + 1..];
  }

  lemma LastFieldUnique(a: string, r: string, b: string, s: string)
    requires NoColon(r) && NoColon(s) && Field(a, r) == Field(b, s)
    ensures a == b && r == s
  {
    LastColonOfField(a, r);
    LastColonOfField(b, s);
    assert a == Field(a, r)[..|a|] && b == Field(b, s)[..|b|];
    assert r == Field(a, r)[|a| + 1..] && s == Field(b, s)[|b| + 1..];
  }
}
