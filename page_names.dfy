/**
  The page file names both scripts give their pages: the page's position
  in the input list written with Python's `"{:05}".format(i)`, that is, in
  decimal, padded on the left with zeros to at least five characters.
  Besides the names themselves this module holds what makes them fit for
  the job: they can be read back, they are pairwise distinct, and up to
  100000 pages they sort as strings in page order.
*/
module PageNames {

  predicate IsDigit(c: char)
  {
    '0' <= c <= '9'
  }

  predicate AllDigits(s: string)
  {
    forall k :: 0 <= k < |s| ==> IsDigit(s[k])
  }

  function DigitValue(c: char): (d: nat)
    requires IsDigit(c)
    ensures d < 10
  {
    c as int - '0' as int
  }

  function DigitChar(d: nat): (c: char)
    requires d < 10
    ensures IsDigit(c) && DigitValue(c) == d
  {
    ('0' as int + d) as char
  }

  function Pow10(k: nat): (p: nat)
    ensures p >= 1
  {
    if k == 0 then 1 else 10 * Pow10(k - 1)
  }

  /** Python's `str(n)` for a natural number: its decimal digits, most significant first. */
  function Decimal(n: nat): (s: string)
    ensures |s| >= 1
  {
    if n < 10 then [DigitChar(n)] else Decimal(n / 10) + [DigitChar(n % 10)]
  }

  lemma {:induction false} DecimalDigits(n: nat)
    ensures AllDigits(Decimal(n))
  {
    if n >= 10 {
      DecimalDigits(n / 10);
    }
  }

  /** The number a string of decimal digits denotes. */
  function Value(s: string): nat
    requires AllDigits(s)
  {
    if s == [] then 0 else 10 * Value(s[..|s| - 1]) + DigitValue(s[|s| - 1])
  }

  function Zeros(k: nat): (z: string)
    ensures |z| == k
  {
    if k == 0 then [] else Zeros(k - 1) + ['0']
  }

  lemma {:induction false} ZerosDigits(k: nat)
    ensures AllDigits(Zeros(k))
  {
    if k > 0 {
      ZerosDigits(k - 1);
    }
  }

  /** `"{:05}".format(i)`: `str(i)` left-padded with zeros to width five. */
  function Format5(i: nat): (s: string)
    ensures |s| >= 5
  {
    var d := Decimal(i);
    if |d| >= 5 then d else Zeros(5 - |d|) + d
  }

  /** A page name is made of decimal digits only. */
  lemma {:induction false} Format5Digits(i: nat)
    ensures AllDigits(Format5(i))
  {
    DecimalDigits(i);
    if |Decimal(i)| < 5 {
      ZerosDigits(5 - |Decimal(i)|);
    }
  }

  /** Python's `<` on strings: lexicographic order by code point, a proper prefix first. */
  predicate LexLess(s: string, t: string)
  {
    |t| > 0 && (|s| == 0 || s[0] < t[0] || (s[0] == t[0] && LexLess(s[1..], t[1..])))
  }

  lemma {:induction false} ValueOfDecimal(n: nat)
    ensures AllDigits(Decimal(n)) && Value(Decimal(n)) == n
  {
    DecimalDigits(n);
    if n >= 10 {
      var d := Decimal(n);
      assert d[..|d| - 1] == Decimal(n / 10);
      ValueOfDecimal(n / 10);
    }
  }

  /** Leading zeros do not change the value of a digit string. */
  lemma {:induction false} ValueIgnoresLeadingZeros(k: nat, s: string)
    requires AllDigits(s)
    ensures AllDigits(Zeros(k) + s) && Value(Zeros(k) + s) == Value(s)
  {
    ZerosDigits(k);
    if s == [] {
      assert Zeros(k) + s == Zeros(k);
      ZerosValue(k);
    } else {
      var s' := s[..|s| - 1];
      assert (Zeros(k) + s)[..|Zeros(k) + s| - 1] == Zeros(k) + s';
      ValueIgnoresLeadingZeros(k, s');
    }
  }

  lemma {:induction false} ZerosValue(k: nat)
    ensures AllDigits(Zeros(k)) && Value(Zeros(k)) == 0
  {
    ZerosDigits(k);
    if k > 0 {
      assert Zeros(k)[..k - 1] == Zeros(k - 1);
      ZerosValue(k - 1);
    }
  }

  lemma {:induction false} ValueBound(s: string)
    requires AllDigits(s)
    ensures Value(s) < Pow10(|s|)
  {
    if s != [] {
      ValueBound(s[..|s| - 1]);
    }
  }

  lemma {:induction false} DecimalLength(n: nat, k: nat)
    requires k >= 1 && n < Pow10(k)
    ensures |Decimal(n)| <= k
  {
    if n >= 10 {
      assert k >= 2;
      assert n / 10 < Pow10(k - 1);
      DecimalLength(n / 10, k - 1);
    }
  }

  /** A page name can be read back: its value is the page index. */
  lemma {:induction false} Format5Value(i: nat)
    ensures AllDigits(Format5(i)) && Value(Format5(i)) == i
  {
    Format5Digits(i);
    var d := Decimal(i);
    ValueOfDecimal(i);
    if |d| < 5 {
      ValueIgnoresLeadingZeros(5 - |d|, d);
    }
  }

  /** Below 100000 every page name has exactly five digits. */
  lemma {:induction false} Format5Width(i: nat)
    requires i < 100000
    ensures |Format5(i)| == 5
  {
    assert Pow10(5) == 100000;
    DecimalLength(i, 5);
  }

  /** Distinct indices give distinct page names, at every width. */
  lemma {:induction false} Format5Injective(i: nat, j: nat)
    requires Format5(i) == Format5(j)
    ensures i == j
  {
    Format5Value(i);
    Format5Value(j);
  }

  lemma {:induction false} SameLengthSameValue(s: string, t: string)
    requires AllDigits(s) && AllDigits(t) && |s| == |t|
    requires Value(s) == Value(t)
    ensures s == t
  {
    if s != [] {
      var s', t' := s[..|s| - 1], t[..|t| - 1];
      SameLengthSameValue(s', t');
      assert s == s' + [s[|s| - 1]] && t == t' + [t[|t| - 1]];
    }
  }

  lemma {:induction false} LexLessExtend(s: string, t: string, x: string, y: string)
    requires |s| == |t| && LexLess(s, t)
    ensures LexLess(s + x, t + y)
  {
    if s[0] == t[0] && !(s[0] < t[0]) {
      assert (s + x)[1..] == s[1..] + x && (t + y)[1..] == t[1..] + y;
      LexLessExtend(s[1..], t[1..], x, y);
    }
  }

  lemma {:induction false} LexLessLast(p: string, a: char, b: char)
    requires a < b
    ensures LexLess(p + [a], p + [b])
  {
    if p != [] {
      assert (p + [a])[1..] == p[1..] + [a] && (p + [b])[1..] == p[1..] + [b];
      LexLessLast(p[1..], a, b);
    }
  }

  lemma {:induction false} LexLessCommonPrefix(p: string, s: string, t: string)
    requires LexLess(s, t)
    ensures LexLess(p + s, p + t)
  {
    if p == [] {
      assert p + s == s && p + t == t;
    } else {
      assert (p + s)[1..] == p[1..] + s && (p + t)[1..] == p[1..] + t;
      LexLessCommonPrefix(p[1..], s, t);
    }
  }

  /** On digit strings of one length, string order is numeric order. */
  lemma {:induction false} SameLengthOrder(s: string, t: string)
    requires AllDigits(s) && AllDigits(t) && |s| == |t|
    requires Value(s) < Value(t)
    ensures LexLess(s, t)
  {
    var n := |s|;
    var s', t' := s[..n - 1], t[..n - 1];
    var a, b := s[n - 1], t[n - 1];
    assert s == s' + [a] && t == t' + [b];
    if Value(s') < Value(t') {
      SameLengthOrder(s', t');
      LexLessExtend(s', t', [a], [b]);
    } else {
      assert Value(s') == Value(t');
      SameLengthSameValue(s', t');
      LexLessLast(s', a, b);
    }
  }

  /** Below 100000 pages, the page names sort as strings in page order. */
  lemma {:induction false} Format5Ordered(i: nat, j: nat)
    requires i < j < 100000
    ensures LexLess(Format5(i), Format5(j))
  {
    Format5Width(i);
    Format5Width(j);
    Format5Value(i);
    Format5Value(j);
    SameLengthOrder(Format5(i), Format5(j));
  }

  /** From 100000 pages on the string order no longer follows page order. */
  lemma {:induction false} Format5OrderLimit()
    ensures LexLess(Format5(100000), Format5(99999))
  {
    assert Decimal(1) == "1";
    assert Decimal(10) == "10";
    assert Decimal(100) == "100";
    assert Decimal(1000) == "1000";
    assert Decimal(10000) == "10000";
    assert Decimal(100000) == "100000";
    assert Decimal(9) == "9";
    assert Decimal(99) == "99";
    assert Decimal(999) == "999";
    assert Decimal(9999) == "9999";
    assert Decimal(99999) == "99999";
  }

  /**
    The names the renaming loop collects for `n` pages, in page order:
    one name per page, the k-th being `Format5(k)`.
  */
  function Basenames(n: nat): (r: seq<string>)
    ensures |r| == n
  {
    if n == 0 then [] else Basenames(n - 1) + [Format5(n - 1)]
  }

  /** The `k`-th collected name is the name of page `k`. */
  lemma {:induction false} BasenamesAt(n: nat, k: nat)
    requires k < n
    ensures Basenames(n)[k] == Format5(k)
  {
    if k < n - 1 {
      BasenamesAt(n - 1, k);
    }
  }

  /** The collected names are pairwise distinct; below 100000 pages they are five digits long and ascending. */
  lemma {:induction false} BasenamesDistinctOrdered(n: nat)
    ensures forall j, k :: 0 <= j < k < n ==> Basenames(n)[j] != Basenames(n)[k]
    ensures n <= 100000 ==> forall k :: 0 <= k < n ==> |Basenames(n)[k]| == 5
    ensures n <= 100000 ==> forall j, k :: 0 <= j < k < n ==> LexLess(Basenames(n)[j], Basenames(n)[k])
  {
    var names := Basenames(n);
    forall j, k | 0 <= j < k < n
      ensures names[j] != names[k]
      ensures n <= 100000 ==> LexLess(names[j], names[k])
    {
      BasenamesAt(n, j);
      BasenamesAt(n, k);
      if names[j] == names[k] {
        Format5Injective(j, k);
      }
      if n <= 100000 {
        Format5Ordered(j, k);
      }
    }
    forall k | 0 <= k < n && n <= 100000
      ensures |names[k]| == 5
    {
      BasenamesAt(n, k);
      Format5Width(k);
    }
  }
}
