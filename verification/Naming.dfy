/** Decimal names: task identifiers `task-%06d` and memory region keys `mr-%d`. */
module Naming {
  import opened Machine
  import opened Order

  predicate IsDigits(s: string) { forall i :: 0 <= i < |s| ==> '0' <= s[i] <= '9' }

  function DigitChar(d: nat): (c: char)
    requires d < 10
  {
    '0' + d as char
  }

  function Digit(c: char): (d: nat)
    requires '0' <= c <= '9'
    ensures d < 10
  {
    (c - '0') as nat
  }

  /** Decimal digits without leading zeros. */
  function Decimal(n: nat): (s: string)
    ensures IsDigits(s) && s != ""
  {
    if n < 10 then [DigitChar(n)] else Decimal(n / 10) + [DigitChar(n % 10)]
  }

  /** The number a digit string denotes: the inverse of `Decimal`. */
  function Value(s: string): (n: nat)
    requires IsDigits(s)
  {
    if s == "" then 0 else 10 * Value(s[..|s| - 1]) + Digit(s[|s| - 1])
  }

  function Pow10(k: nat): (r: nat)
    ensures r >= 1
  {
    if k == 0 then 1 else 10 * Pow10(k - 1)
  }

  function Zeros(k: nat): (s: string)
    ensures |s| == k && IsDigits(s) && (forall i :: 0 <= i < k ==> s[i] == '0')
  {
    seq(k, _ => '0')
  }

  /** `%06d`: at least six digits, padded on the left with zeros. */
  function SixDigits(n: nat): (s: string)
    ensures IsDigits(s) && |s| >= 6
  {
    var d := Decimal(n);
    if |d| < 6 then Zeros(6 - |d|) + d else d
  }

  function FormatTaskID(counter: nat): (s: string) { "task-" + SixDigits(counter) }

  lemma {:induction false} DecimalValue(n: nat)
    ensures Value(Decimal(n)) == n
  {
    var s := Decimal(n);
    if n < 10 {
      assert s[..0] == "";
    } else {
      DecimalValue(n / 10);
      assert s[..|s| - 1] == Decimal(n / 10);
    }
  }

  lemma {:induction false} ValueOfPadded(k: nat, s: string)
    requires IsDigits(s)
    ensures IsDigits(Zeros(k) + s) && Value(Zeros(k) + s) == Value(s)
  {
    var z := Zeros(k) + s;
    if s == "" && k == 0 {
    } else if s == "" {
      assert z[..|z| - 1] == Zeros(k - 1) + "";
      ValueOfPadded(k - 1, "");
    } else {
      assert z[..|z| - 1] == Zeros(k) + s[..|s| - 1];
      ValueOfPadded(k, s[..|s| - 1]);
    }
  }

  lemma SixDigitsValue(n: nat)
    ensures Value(SixDigits(n)) == n
  {
    DecimalValue(n);
    var d := Decimal(n);
    if |d| < 6 { ValueOfPadded(6 - |d|, d); }
  }

  lemma {:induction false} DecimalHasNoZero(n: nat)
    ensures n > 0 ==> Decimal(n)[0] != '0'
  {
    if n < 10 {
    } else {
      DecimalHasNoZero(n / 10);
    }
  }

  /** An identifier is `task-` and the counter in decimal, padded with zeros to six digits and no further. */
  lemma FormatTaskIDText(n: nat) returns (digits: string)
    ensures FormatTaskID(n) == "task-" + digits
    ensures IsDigits(digits) && Value(digits) == n && |digits| >= 6 && (|digits| > 6 ==> digits[0] != '0')
  {
    digits := SixDigits(n);
    SixDigitsValue(n);
    DecimalHasNoZero(n);
  }

  /** Two counters never share a task identifier. */
  lemma FormatTaskIDInjective(i: nat, j: nat)
    requires FormatTaskID(i) == FormatTaskID(j)
    ensures i == j
  {
    assert FormatTaskID(i)[5..] == SixDigits(i) && FormatTaskID(j)[5..] == SixDigits(j);
    SixDigitsValue(i);
    SixDigitsValue(j);
  }

  /** The identifiers of the first `n` submissions, with the counter a 64-bit unsigned register. */
  ghost function IssuedIDs(n: nat): (ids: set<string>) {
    if n == 0 then {} else IssuedIDs(n - 1) + {FormatTaskID(Low64(n))}
  }

  lemma {:induction false} IssuedIDsHold(n: nat, i: nat)
    requires 1 <= i <= n
    ensures FormatTaskID(Low64(i)) in IssuedIDs(n)
  {
    if i == n {
    } else {
      IssuedIDsHold(n - 1, i);
    }
  }

  lemma {:induction false} IssuedIDsOnly(n: nat, id: string) returns (i: nat)
    requires id in IssuedIDs(n)
    ensures 1 <= i <= n && id == FormatTaskID(Low64(i))
  {
    if id == FormatTaskID(Low64(n)) { i := n; } else { i := IssuedIDsOnly(n - 1, id); }
  }

  lemma Low64Differ(i: nat, n: nat)
    requires 1 <= i < n <= TWO_64
    ensures Low64(i) != Low64(n)
  {
  }

  lemma StillFresh(n: nat)
    requires n < TWO_64
    ensures FormatTaskID(Low64(n + 1)) !in IssuedIDs(n)
  {
    var next := n + 1;
    if FormatTaskID(Low64(next)) in IssuedIDs(n) {
      var i := IssuedIDsOnly(n, FormatTaskID(Low64(next)));
      FormatTaskIDInjective(Low64(i), Low64(next));
      Low64Differ(i, next);
    }
  }

  /** A submission gets a fresh identifier exactly until the counter has gone all the way round. */
  lemma FreshIff(n: nat)
    ensures FormatTaskID(Low64(n + 1)) !in IssuedIDs(n) <==> n < TWO_64
  {
    if n < TWO_64 {
      StillFresh(n);
    } else {
      var i: nat := n + 1 - TWO_64;
      assert Low64(i) == Low64(n + 1);
      IssuedIDsHold(n, i);
    }
  }

  lemma {:induction false} ValueBound(s: string)
    requires IsDigits(s)
    ensures Value(s) < Pow10(|s|)
  {
    if s == "" {
    } else {
      ValueBound(s[..|s| - 1]);
    }
  }

  lemma {:induction false} ValueSplit(c: char, s: string)
    requires '0' <= c <= '9' && IsDigits(s)
    ensures IsDigits([c] + s) && Value([c] + s) == Digit(c) * Pow10(|s|) + Value(s)
  {
    var z := [c] + s;
    if s == "" {
      assert z[..0] == "" && z == [c];
    } else {
      var init, last := s[..|s| - 1], s[|s| - 1];
      assert z[..|z| - 1] == [c] + init;
      ValueSplit(c, init);
      ShiftDigit(Value([c] + init), Value(init), Digit(c), Pow10(|init|), Digit(last));
    }
  }

  lemma ShiftDigit(v: nat, u: nat, d: nat, p: nat, x: nat)
    requires v == d * p + u
    ensures 10 * v + x == d * (10 * p) + (10 * u + x)
  {
    assert 10 * (d * p) == d * (10 * p);
  }

  /** On digit strings of one length, byte order is numeric order. */
  lemma {:induction false} LessIsNumeric(a: string, b: string)
    requires IsDigits(a) && IsDigits(b) && |a| == |b|
    ensures Less(a, b) <==> Value(a) < Value(b)
  {
    if a == "" {
    } else {
      LessIsNumeric(a[1..], b[1..]);
      ByLeadingDigit(a, b);
    }
  }

  lemma {:induction false} ByLeadingDigit(a: string, b: string)
    requires IsDigits(a) && IsDigits(b) && |a| == |b| && a != ""
    ensures Value(a) < Value(b) <==> a[0] < b[0] || (a[0] == b[0] && Value(a[1..]) < Value(b[1..]))
  {
    var s, t := a[1..], b[1..];
    assert a == [a[0]] + s && b == [b[0]] + t;
    ValueSplit(a[0], s);
    ValueSplit(b[0], t);
    ValueBound(s);
    ValueBound(t);
    LeadingDigitDecides(Digit(a[0]), Digit(b[0]), Pow10(|s|), Value(s), Value(t));
  }

  lemma LeadingDigitDecides(x: nat, y: nat, p: nat, u: nat, v: nat)
    requires u < p && v < p
    ensures x * p + u < y * p + v <==> x < y || (x == y && u < v)
  {
    if x < y {
      assert x * p + p <= y * p by { assert (x + 1) * p <= y * p; }
    } else if y < x {
      assert y * p + p <= x * p by { assert (y + 1) * p <= x * p; }
    }
  }

  lemma {:induction false} DecimalLength(n: nat, k: nat)
    requires k >= 1
    ensures |Decimal(n)| <= k <==> n < Pow10(k)
  {
    if n < 10 || k == 1 {
    } else {
      DecimalLength(n / 10, k - 1);
    }
  }

  lemma {:induction false} CommonPrefix(p: string, a: string, b: string)
    ensures Less(p + a, p + b) <==> Less(a, b)
  {
    if p == "" {
      assert p + a == a && p + b == b;
    } else {
      assert (p + a)[1..] == p[1..] + a && (p + b)[1..] == p[1..] + b;
      CommonPrefix(p[1..], a, b);
    }
  }

  const LAST_ORDERED_ID: nat := 999999

  lemma SixDigitsOrdered(i: nat, j: nat)
    requires i <= LAST_ORDERED_ID && j <= LAST_ORDERED_ID
    ensures Less(FormatTaskID(i), FormatTaskID(j)) <==> i < j
  {
    assert Pow10(6) == 1000000;
    DecimalLength(i, 6);
    DecimalLength(j, 6);
    SixDigitsValue(i);
    SixDigitsValue(j);
    LessIsNumeric(SixDigits(i), SixDigits(j));
    CommonPrefix("task-", SixDigits(i), SixDigits(j));
  }

  /** Identifiers sort in numeric order up to a counter of `n` exactly when six digits hold `n`. */
  lemma {:induction false} OrderedUpToIff(n: nat)
    ensures (forall i: nat, j: nat :: i < j <= n ==> Less(FormatTaskID(i), FormatTaskID(j)))
            <==> n <= LAST_ORDERED_ID
  {
    if n <= LAST_ORDERED_ID {
      forall i: nat, j: nat | i < j <= n ensures Less(FormatTaskID(i), FormatTaskID(j)) {
        SixDigitsOrdered(i, j);
      }
    } else {
      var last, million := FormatTaskID(LAST_ORDERED_ID), FormatTaskID(LAST_ORDERED_ID + 1);
      MillionSortsFirst();
      if Less(last, million) {
        LessTransitive(last, million, last);
        LessIrreflexive(last);
      }
    }
  }

  lemma MillionSortsFirst()
    ensures Less(FormatTaskID(LAST_ORDERED_ID + 1), FormatTaskID(LAST_ORDERED_ID))
  {
    assert Decimal(1000000) == "1000000" && Decimal(999999) == "999999";
    CommonPrefix("task-", SixDigits(1000000), SixDigits(999999));
  }

  function RegionKey(id: nat): (s: string) { "mr-" + Decimal(id) }

  /** A key is `mr-` and the id in decimal, without leading zeros. */
  lemma RegionKeyText(id: nat) returns (digits: string)
    ensures RegionKey(id) == "mr-" + digits
    ensures IsDigits(digits) && Value(digits) == id && (id > 0 ==> digits[0] != '0')
  {
    digits := Decimal(id);
    DecimalValue(id);
    DecimalHasNoZero(id);
  }

  lemma RegionKeyInjective(i: nat, j: nat)
    requires RegionKey(i) == RegionKey(j)
    ensures i == j
  {
    assert RegionKey(i)[3..] == Decimal(i) && RegionKey(j)[3..] == Decimal(j);
    DecimalValue(i);
    DecimalValue(j);
  }
}
