/** Decimal numbers as Rust's `{:0w}` writes them, and the order of the resulting strings. */
module Decimal {
  function Pow10(w: nat): (r: nat)
    ensures r > 0
  {
    if w == 0 then 1 else 10 * Pow10(w - 1)
  }

  function Digit(d: nat): char
    requires d < 10
  {
    ('0' as int + d) as char
  }

  /** The last `w` digits of `n`. */
  function Pad(n: nat, w: nat): (s: string)
    ensures |s| == w
  {
    if w == 0 then "" else Pad(n / 10, w - 1) + [Digit(n % 10)]
  }

  /** `{:0w}`: all the digits of `n`, with leading zeros up to `w`. */
  function Format(n: nat, w: nat): (s: string)
    ensures s != ""
    decreases n + w
  {
    (if n < 10 && w <= 1 then "" else Format(n / 10, if w == 0 then 0 else w - 1)) + [Digit(n % 10)]
  }

  lemma {:induction false} FormatIsPad(n: nat, w: nat)
    requires 1 <= w && n < Pow10(w)
    ensures Format(n, w) == Pad(n, w)
    decreases w
  {
    if w == 1 {
      assert Pow10(1) == 10;
    } else {
      FormatIsPad(n / 10, w - 1);
    }
  }

  predicate LexLess(a: string, b: string)
  {
    b != "" && (a == "" || a[0] < b[0] || (a[0] == b[0] && LexLess(a[1..], b[1..])))
  }

  lemma {:induction false} LexIrreflexive(s: string)
    ensures !LexLess(s, s)
  {
    if s != "" { LexIrreflexive(s[1..]); }
  }

  lemma FirstDecides(s: string, t: string)
    requires s != "" && t != "" && s[0] < t[0]
    ensures LexLess(s, t) && !LexLess(t, s)
  {
  }

  /** Strings with fronts of equal length compare front first. */
  lemma {:induction false} LexConcat(a: string, b: string, c: string, d: string)
    requires |a| == |b|
    ensures LexLess(a + c, b + d) <==> LexLess(a, b) || (a == b && LexLess(c, d))
    decreases |a|
  {
    if a == "" {
      assert a + c == c && b + d == d;
    } else {
      assert (a + c)[1..] == a[1..] + c && (b + d)[1..] == b[1..] + d;
      assert a == b <==> a[0] == b[0] && a[1..] == b[1..] by { assert a == [a[0]] + a[1..] && b == [b[0]] + b[1..]; }
      LexConcat(a[1..], b[1..], c, d);
    }
  }

  /** Numbers that fit are ordered as their padded strings are, and differ when those do. */
  lemma {:induction false} PadOrder(m: nat, n: nat, w: nat)
    requires m < Pow10(w) && n < Pow10(w)
    ensures LexLess(Pad(m, w), Pad(n, w)) <==> m < n
    ensures Pad(m, w) == Pad(n, w) <==> m == n
    decreases w
  {
    if w > 0 {
      PadOrder(m / 10, n / 10, w - 1);
      var x, y := [Digit(m % 10)], [Digit(n % 10)];
      LexConcat(Pad(m / 10, w - 1), Pad(n / 10, w - 1), x, y);
      assert LexLess(x, y) <==> m % 10 < n % 10;
      if Pad(m, w) == Pad(n, w) {
        assert Pad(m / 10, w - 1) == Pad(m, w)[..w - 1] && Pad(n / 10, w - 1) == Pad(n, w)[..w - 1];
        assert Pad(m, w)[w - 1] == Pad(n, w)[w - 1];
      }
    }
  }

  /** Different numbers never read the same, whatever their lengths. */
  lemma {:induction false} FormatInjective(m: nat, n: nat, w: nat)
    requires Format(m, w) == Format(n, w)
    ensures m == n
    decreases m + w
  {
    var f, g := Format(m, w), Format(n, w);
    assert f[|f| - 1] == Digit(m % 10) && g[|g| - 1] == Digit(n % 10);
    if !(m < 10 && w <= 1) && !(n < 10 && w <= 1) {
      var v := if w == 0 then 0 else w - 1;
      assert Format(m / 10, v) == f[..|f| - 1] && Format(n / 10, v) == g[..|g| - 1];
      FormatInjective(m / 10, n / 10, v);
    }
  }

  lemma {:induction false} FormatDigits(n: nat, w: nat)
    ensures forall k :: 0 <= k < |Format(n, w)| ==> '0' <= Format(n, w)[k] <= '9'
    decreases n + w
  {
    if !(n < 10 && w <= 1) {
      FormatDigits(n / 10, if w == 0 then 0 else w - 1);
    }
  }

  /** A number in `[d * 10^(w - 1), (d + 1) * 10^(w - 1))` reads as `d` does at the front. */
  lemma {:induction false} FormatFirst(n: nat, w: nat, d: nat)
    requires w >= 1 && d * Pow10(w - 1) <= n < (d + 1) * Pow10(w - 1)
    ensures Format(n, w)[0] == Format(d, 1)[0]
    decreases w
  {
    if w == 1 {
      assert Pow10(0) == 1 && n == d;
    } else {
      var p := Pow10(w - 2);
      TenTimes(d, p);
      TenTimes(d + 1, p);
      FormatFirst(n / 10, w - 1, d);
    }
  }

  lemma TenTimes(d: nat, p: nat)
    ensures d * (10 * p) == 10 * (d * p)
  {
  }

  /** A number one digit too long for its width is written out in full. */
  lemma {:induction false} FormatIsPadOneMore(n: nat, w: nat)
    requires 1 <= w && Pow10(w) <= n < Pow10(w + 1)
    ensures Format(n, w) == Pad(n, w + 1)
    decreases w
  {
    if w == 1 {
      assert Pow10(1) == 10 && Pow10(2) == 100;
      assert Format(n, 1) == Format(n / 10, 0) + [Digit(n % 10)];
      assert Format(n / 10, 0) == [Digit(n / 10 % 10)];
      assert Pad(n / 10, 1) == Pad(n / 10 / 10, 0) + [Digit(n / 10 % 10)];
    } else {
      FormatIsPadOneMore(n / 10, w - 1);
    }
  }

  /** The number a string of digits stands for. */
  function Reading(s: string): int
  {
    if s == "" then 0 else 10 * Reading(s[..|s| - 1]) + (s[|s| - 1] as int - '0' as int)
  }

  /** What is written reads back, in digits from '0' to '9'. */
  lemma {:induction false} FormatReads(n: nat, w: nat)
    ensures Reading(Format(n, w)) == n && |Format(n, w)| >= w
    decreases n + w
  {
    var s := Format(n, w);
    assert s[|s| - 1] == Digit(n % 10) && Digit(n % 10) as int == '0' as int + n % 10;
    if !(n < 10 && w <= 1) {
      FormatReads(n / 10, if w == 0 then 0 else w - 1);
      assert s[..|s| - 1] == Format(n / 10, if w == 0 then 0 else w - 1);
    } else {
      assert s[..|s| - 1] == "";
    }
  }
}
