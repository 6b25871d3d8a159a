/** Text as SQLite and the wire formats see it: byte-wise order, and decimal numbers. */
module Text {

  /** SQLite's BINARY collation: the order of the first differing character, a proper prefix being smaller. */
  predicate Less(s: string, t: string) {
    if t == "" then false
    else if s == "" then true
    else if s[0] != t[0] then s[0] < t[0]
    else Less(s[1..], t[1..])
  }

  /** The texts agree up to some place, where `s` ends or has the smaller character. */
  ghost predicate DiffersAt(s: string, t: string, k: nat) {
    k <= |s| && k < |t| && s[..k] == t[..k] && (k < |s| ==> s[k] < t[k])
  }

  lemma {:induction false} LessExactly(s: string, t: string)
    ensures Less(s, t) <==> exists k: nat :: DiffersAt(s, t, k)
  {
    if s != "" && t != "" && s[0] == t[0] {
      LessExactly(s[1..], t[1..]);
      if k: nat :| DiffersAt(s[1..], t[1..], k) {
        assert s[..k + 1] == [s[0]] + s[1..][..k] && t[..k + 1] == [t[0]] + t[1..][..k];
        assert DiffersAt(s, t, k + 1);
      }
      if k: nat :| DiffersAt(s, t, k) {
        assert k > 0 && s[1..][..k - 1] == s[..k][1..] && t[1..][..k - 1] == t[..k][1..];
        assert DiffersAt(s[1..], t[1..], k - 1);
      }
    } else {
      if Less(s, t) { assert DiffersAt(s, t, 0); }
      if k: nat :| DiffersAt(s, t, k) {
        if k > 0 { assert s[..k][0] == t[..k][0]; }
      }
    }
  }

  lemma {:induction false} LessIsStrict(s: string, t: string)
    ensures s == t ==> !Less(s, t)
    ensures s != t ==> (Less(s, t) <==> !Less(t, s))
  {
    if s != "" && t != "" && s[0] == t[0] {
      assert s == [s[0]] + s[1..] && t == [t[0]] + t[1..];
      LessIsStrict(s[1..], t[1..]);
    }
  }

  lemma {:induction false} LessIsTransitive(s: string, t: string, u: string)
    requires Less(s, t) && Less(t, u)
    ensures Less(s, u)
  {
    if s != "" && s[0] == t[0] == u[0] {
      LessIsTransitive(s[1..], t[1..], u[1..]);
    }
  }

  lemma {:induction false} LessAfterPrefix(p: string, s: string, t: string)
    ensures Less(p + s, p + t) == Less(s, t)
  {
    if p == "" {
      assert p + s == s && p + t == t;
    } else {
      assert (p + s)[1..] == p[1..] + s && (p + t)[1..] == p[1..] + t;
      LessAfterPrefix(p[1..], s, t);
    }
  }

  /** Two different fields of equal width decide the order, whatever follows them. */
  lemma {:induction false} LessByField(a: string, b: string, s: string, t: string)
    requires |a| == |b| && a != b
    ensures Less(a + s, b + t) == Less(a, b)
  {
    assert a[0] == b[0] ==> a[1..] != b[1..] by {
      assert a == [a[0]] + a[1..] && b == [b[0]] + b[1..];
    }
    assert (a + s)[1..] == a[1..] + s && (b + t)[1..] == b[1..] + t;
    if a[0] == b[0] {
      LessByField(a[1..], b[1..], s, t);
    }
  }

  // ---------------------------------------------------------------- decimal numbers

  function Pow10(w: nat): (p: nat)
    ensures p > 0
  {
    if w == 0 then 1 else 10 * Pow10(w - 1)
  }

  predicate IsDigit(c: char) { '0' <= c <= '9' }

  predicate AllDigits(s: string) { forall i | 0 <= i < |s| :: IsDigit(s[i]) }

  function Digit(d: nat): (c: char)
    requires d < 10
    ensures IsDigit(c)
  {
    ('0' as int + d) as char
  }

  /** The low `w` decimal digits of `n`, most significant first, zero padded. */
  function Fixed(n: nat, w: nat): (s: string)
    ensures |s| == w && AllDigits(s)
  {
    if w == 0 then "" else Fixed(n / 10, w - 1) + [Digit(n % 10)]
  }

  /** The number a string of digits denotes. */
  function Value(s: string): nat
    requires AllDigits(s)
  {
    if s == "" then 0 else Value(s[..|s| - 1]) * 10 + (s[|s| - 1] as int - '0' as int)
  }

  lemma {:induction false} ValueOfFixed(n: nat, w: nat)
    requires n < Pow10(w)
    ensures Value(Fixed(n, w)) == n
  {
    if w > 0 {
      var s := Fixed(n, w);
      assert s[..|s| - 1] == Fixed(n / 10, w - 1);
      ValueOfFixed(n / 10, w - 1);
    }
  }

  lemma FixedIsInjective(n: nat, m: nat, w: nat)
    requires n < Pow10(w) && m < Pow10(w) && Fixed(n, w) == Fixed(m, w)
    ensures n == m
  {
    ValueOfFixed(n, w);
    ValueOfFixed(m, w);
  }

  /** Numbers of one width are ordered as text exactly as they are as numbers. */
  lemma {:induction false} FixedOrder(n: nat, m: nat, w: nat)
    requires n < Pow10(w) && m < Pow10(w)
    ensures Less(Fixed(n, w), Fixed(m, w)) <==> n < m
  {
    if w > 0 {
      var a, b := Fixed(n / 10, w - 1), Fixed(m / 10, w - 1);
      var x, y := [Digit(n % 10)], [Digit(m % 10)];
      if n / 10 == m / 10 {
        LessAfterPrefix(a, x, y);
        assert Less(x, y) == (x[0] < y[0]);
      } else {
        if a == b { FixedIsInjective(n / 10, m / 10, w - 1); }
        LessByField(a, b, x, y);
        FixedOrder(n / 10, m / 10, w - 1);
      }
    }
  }

  /** `n` without its last `j` decimal digits. */
  function Shifted(n: nat, j: nat): nat {
    if j == 0 then n else Shifted(n / 10, j - 1)
  }

  lemma {:induction false} FixedSplit(n: nat, w: nat, j: nat)
    requires j <= w
    ensures Fixed(n, w) == Fixed(Shifted(n, j), w - j) + Fixed(n, j)
  {
    if j > 0 {
      FixedSplit(n / 10, w - 1, j - 1);
      var head, tail := Fixed(Shifted(n, j), w - j), Fixed(n / 10, j - 1);
      assert (head + tail) + [Digit(n % 10)] == head + (tail + [Digit(n % 10)]);
    }
  }

  lemma DivUnique(n: int, b: int, q: int, r: int)
    requires b > 0 && 0 <= r < b && n == b * q + r
    ensures n / b == q
  {
    var d := n / b - q;
    assert b * d == r - n % b;
    assert d >= 1 ==> b * d >= b;
    assert d <= -1 ==> b * d <= -b;
  }

  /** Decimal text of an integer, as Rust's and Go's formatting print it. */
  function Decimal(n: int): (s: string)
    ensures s != ""
    ensures forall i | 0 <= i < |s| :: IsDigit(s[i]) || s[i] == '-'
    ensures n >= 0 ==> AllDigits(s)
  {
    if n < 0 then "-" + NatText(-n) else NatText(n)
  }

  function NatText(n: nat): (s: string)
    ensures s != "" && AllDigits(s)
  {
    if n < 10 then [Digit(n)] else NatText(n / 10) + [Digit(n % 10)]
  }

  lemma {:induction false} ValueOfNatText(n: nat)
    ensures Value(NatText(n)) == n
  {
    var s := NatText(n);
    if n < 10 {
      assert s[..|s| - 1] == "";
    } else {
      assert s[..|s| - 1] == NatText(n / 10);
      ValueOfNatText(n / 10);
    }
  }

  lemma DecimalIsInjective(n: int, m: int)
    requires Decimal(n) == Decimal(m)
    ensures n == m
  {
    assert Decimal(n)[0] == '-' <==> n < 0;
    assert Decimal(m)[0] == '-' <==> m < 0;
    if n < 0 {
      assert NatText(-n) == Decimal(n)[1..] == Decimal(m)[1..] == NatText(-m);
      ValueOfNatText(-n);
      ValueOfNatText(-m);
    } else {
      ValueOfNatText(n);
      ValueOfNatText(m);
    }
  }

  /** Digits without a leading zero. */
  predicate Canonical(s: string) { s != "" && AllDigits(s) && (|s| > 1 ==> s[0] != '0') }

  lemma {:induction false} NatTextExactly(n: nat, s: string)
    ensures NatText(n) == s <==> Canonical(s) && Value(s) == n
  {
    var m := |s| - 1;
    if n >= 10 {
      NatTextExactly(n / 10, if s == "" then "" else s[..m]);
      assert NatText(n)[..|NatText(n)| - 1] == NatText(n / 10);
      ValueOfNatText(n / 10);
    }
    if Canonical(s) {
      assert s == s[..m] + [s[m]] && IsDigit(s[m]);
      if m > 0 { ValueIsPositive(s[..m]); }
    }
  }

  lemma {:induction false} ValueIsPositive(s: string)
    requires AllDigits(s) && s != "" && s[0] != '0'
    ensures Value(s) > 0
  {
    if |s| > 1 {
      ValueIsPositive(s[..|s| - 1]);
    } else {
      assert IsDigit(s[0]) && s[..0] == "";
    }
  }

  /** The one text of a number: its digits without a leading zero, after a minus sign when it is negative. */
  lemma DecimalExactly(n: int, s: string)
    ensures Decimal(n) == s <==>
            if n >= 0 then Canonical(s) && Value(s) == n
            else s != "" && s[0] == '-' && Canonical(s[1..]) && Value(s[1..]) == -n
  {
    if n >= 0 {
      NatTextExactly(n, s);
    } else if s != "" {
      NatTextExactly(-n, s[1..]);
      assert s == [s[0]] + s[1..] && Decimal(n)[1..] == NatText(-n);
    }
  }

  // ---------------------------------------------------------------- cutting text at a separator

  /** `a` ends at the first `sep`: a separator-free head determines both parts. */
  lemma CutAtFirst(sep: char, a: string, b: string, s: string, t: string)
    requires sep !in a && sep !in b
    requires a + [sep] + s == b + [sep] + t
    ensures a == b && s == t
  {
    var l, r := a + [sep] + s, b + [sep] + t;
    assert l[|a|] == sep && r[|b|] == sep;
    assert forall i | 0 <= i < |a| :: l[i] == a[i];
    assert forall i | 0 <= i < |b| :: r[i] == b[i];
    assert a == l[..|a|] && b == r[..|b|];
    assert s == l[|a| + 1..] && t == r[|b| + 1..];
  }

  /** Likewise from the right: a separator-free tail determines both parts. */
  lemma CutAtLast(sep: char, a: string, b: string, s: string, t: string)
    requires sep !in s && sep !in t
    requires a + [sep] + s == b + [sep] + t
    ensures a == b && s == t
  {
    var l, r := a + [sep] + s, b + [sep] + t;
    assert l[|a|] == sep && r[|b|] == sep;
    assert forall i | |a| < i < |l| :: l[i] == s[i - |a| - 1];
    assert forall i | |b| < i < |r| :: r[i] == t[i - |b| - 1];
    assert a == l[..|a|] && b == r[..|b|];
    assert s == l[|a| + 1..] && t == r[|b| + 1..];
  }
}
