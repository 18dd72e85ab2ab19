/** The handful of Python string operations the core uses: split, strip, join, str(int), zfill. */
module Text {

  /** Characters for which Python's `str.isspace()` holds, by code point. */
  predicate IsSpace(c: char) {
    var n := c as int;
    (9 <= n <= 13) || (28 <= n <= 32) || n == 0x85 || n == 0xA0 || n == 0x1680
    || (0x2000 <= n <= 0x200A) || n == 0x2028 || n == 0x2029 || n == 0x202F
    || n == 0x205F || n == 0x3000
  }

  /** `s.split(sep)`: the pieces between occurrences of `sep`; there is always at least one. */
  function Split(s: string, sep: char): (r: seq<string>)
    ensures |r| >= 1
    ensures forall i :: 0 <= i < |r| ==> sep !in r[i]
  {
    if |s| == 0 then [""]
    else
      var rest := Split(s[1..], sep);
      if s[0] == sep then [""] + rest
      else [[s[0]] + rest[0]] + rest[1..]
  }

  /** `sep.join(xs)`. */
  function Join(xs: seq<string>, sep: char): string {
    if |xs| == 0 then ""
    else if |xs| == 1 then xs[0]
    else xs[0] + [sep] + Join(xs[1..], sep)
  }

  /** Splitting then joining gives the text back. */
  lemma {:induction false} JoinSplit(s: string, sep: char)
    ensures Join(Split(s, sep), sep) == s
  {
    if |s| > 0 {
      JoinSplit(s[1..], sep);
      var rest := Split(s[1..], sep);
      if s[0] != sep {
        assert s == [s[0]] + s[1..];
        if |rest| > 1 {
          assert Join(rest, sep) == rest[0] + [sep] + Join(rest[1..], sep);
        }
      }
    }
  }

  /** Joining pieces that do not contain the separator, then splitting, gives the pieces back. */
  lemma {:induction false} SplitJoin(xs: seq<string>, sep: char)
    requires |xs| >= 1
    requires forall i :: 0 <= i < |xs| ==> sep !in xs[i]
    ensures Split(Join(xs, sep), sep) == xs
  {
    if |xs| == 1 {
      SplitNoSep(xs[0], sep);
    } else {
      SplitJoin(xs[1..], sep);
      SplitPrefix(xs[0], Join(xs[1..], sep), sep);
      assert xs == [xs[0]] + xs[1..];
    }
  }

  lemma {:induction false} SplitNoSep(s: string, sep: char)
    requires sep !in s
    ensures Split(s, sep) == [s]
  {
    if |s| > 0 {
      SplitNoSep(s[1..], sep);
      assert s == [s[0]] + s[1..];
    }
  }

  lemma {:induction false} SplitPrefix(p: string, rest: string, sep: char)
    requires sep !in p
    ensures Split(p + [sep] + rest, sep) == [p] + Split(rest, sep)
  {
    if |p| == 0 {
      assert p + [sep] + rest == [sep] + rest;
      assert ([sep] + rest)[1..] == rest;
    } else {
      SplitPrefix(p[1..], rest, sep);
      assert (p + [sep] + rest)[1..] == p[1..] + [sep] + rest;
      assert p == [p[0]] + p[1..];
    }
  }

  /** `s.lstrip()`: the suffix left after the leading white space. */
  function StripLeft(s: string): (r: string)
    ensures |r| <= |s| && r == s[|s| - |r|..]
    ensures |r| > 0 ==> !IsSpace(r[0])
    ensures forall i :: 0 <= i < |s| - |r| ==> IsSpace(s[i])
  {
    if |s| > 0 && IsSpace(s[0]) then StripLeft(s[1..]) else s
  }

  /** `s.rstrip()`: the prefix left before the trailing white space. */
  function StripRight(s: string): (r: string)
    ensures |r| <= |s| && r == s[..|r|]
    ensures |r| > 0 ==> !IsSpace(r[|r| - 1])
    ensures forall i :: |r| <= i < |s| ==> IsSpace(s[i])
  {
    if |s| > 0 && IsSpace(s[|s| - 1]) then StripRight(s[..|s| - 1]) else s
  }

  /** Neither starts nor ends with white space. */
  predicate Trimmed(s: string) {
    |s| > 0 ==> !IsSpace(s[0]) && !IsSpace(s[|s| - 1])
  }

  /** `r` is the piece of `s` that starts at `a`, with only white space before and after it. */
  ghost predicate PieceBetweenSpaces(s: string, a: int, r: string) {
    0 <= a && a + |r| <= |s| && r == s[a..a + |r|]
    && (forall i :: 0 <= i < a ==> IsSpace(s[i]))
    && (forall i :: a + |r| <= i < |s| ==> IsSpace(s[i]))
  }

  /**
   * `s.strip()`: the piece of `s` between its leading and its trailing white
   * space, which neither starts nor ends with white space.
   */
  function Strip(s: string): (r: string)
    ensures Trimmed(r)
    ensures PieceBetweenSpaces(s, |s| - |StripLeft(s)|, r)
  {
    var l := StripLeft(s);
    StripLeftPiece(s);
    StripRightPiece(s, |s| - |l|, l);
    StripRight(l)
  }

  lemma StripLeftPiece(s: string)
    ensures PieceBetweenSpaces(s, |s| - |StripLeft(s)|, StripLeft(s))
    ensures |StripLeft(s)| > 0 ==> !IsSpace(StripLeft(s)[0])
  {
  }

  /** Cutting the trailing white space off a piece between spaces leaves a piece between spaces. */
  lemma StripRightPiece(s: string, a: int, l: string)
    requires PieceBetweenSpaces(s, a, l)
    requires |l| > 0 ==> !IsSpace(l[0])
    ensures var r := StripRight(l);
      PieceBetweenSpaces(s, a, r) && Trimmed(r)
  {
    var r := StripRight(l);
    var b := a + |r|;
    assert r == l[..|r|];
    assert r == s[a..b];
    forall i | b <= i < |s| ensures IsSpace(s[i]) {
      if i < a + |l| {
        assert s[i] == l[i - a];
      }
    }
    if |r| > 0 {
      assert r[0] == l[0];
    }
  }

  /** Surrounding blanks go. */
  lemma StripExample()
    ensures Strip(" B07X ") == "B07X"
  {
    var s := " B07X ";
    assert IsSpace(s[0]);
    assert s[1..] == "B07X ";
    assert !IsSpace('B');
    assert StripLeft(s) == "B07X ";
    var t := "B07X ";
    assert IsSpace(t[4]);
    assert t[..4] == "B07X";
    assert !IsSpace('X');
    assert StripRight(t) == "B07X";
  }

  lemma StripExampleA()
    ensures Strip("A ") == "A"
  {
    var a := "A ";
    assert !IsSpace(a[0]);
    assert IsSpace(a[1]);
    assert a[..1] == "A";
    assert StripLeft(a) == a;
    assert StripRight(a) == "A";
  }

  lemma StripExampleB()
    ensures Strip(" B") == "B"
  {
    var b := " B";
    assert IsSpace(b[0]);
    assert b[1..] == "B";
    assert !IsSpace('B');
    assert StripLeft(b) == "B";
    assert StripRight("B") == "B";
  }

  lemma {:induction false} StripClean(s: string)
    requires Trimmed(s)
    ensures Strip(s) == s
  {
  }

  // ---------------------------------------------------------------------------
  // Decimal text of a natural number, its inverse, and zero padding.

  function DigitChar(d: int): (c: char)
    requires 0 <= d <= 9
    ensures '0' <= c <= '9'
  {
    (48 + d) as char
  }

  function DigitValue(c: char): int {
    c as int - 48
  }

  /** `str(n)` for a natural number. */
  function NatText(n: nat): (s: string)
    ensures |s| >= 1
    ensures forall i :: 0 <= i < |s| ==> '0' <= s[i] <= '9'
  {
    if n < 10 then [DigitChar(n)] else NatText(n / 10) + [DigitChar(n % 10)]
  }

  /** The value of a string of decimal digits. */
  function ParseNat(s: string): int {
    if |s| == 0 then 0 else 10 * ParseNat(s[..|s| - 1]) + DigitValue(s[|s| - 1])
  }

  /** Decimal text round trip: reading `str(n)` back gives `n`. */
  lemma {:induction false} ParseNatText(n: nat)
    ensures ParseNat(NatText(n)) == n
  {
    if n >= 10 {
      ParseNatText(n / 10);
      var s := NatText(n / 10) + [DigitChar(n % 10)];
      assert s[..|s| - 1] == NatText(n / 10);
    }
  }

  lemma NatTextInjective(a: nat, b: nat)
    requires NatText(a) == NatText(b)
    ensures a == b
  {
    ParseNatText(a);
    ParseNatText(b);
  }

  function Zeros(n: nat): (s: string)
    ensures |s| == n && forall i :: 0 <= i < n ==> s[i] == '0'
  {
    if n == 0 then "" else "0" + Zeros(n - 1)
  }

  /** `s.zfill(w)` for a string without a sign: left-padded with '0' up to width `w`. */
  function ZFill(s: string, w: nat): (r: string)
    ensures |r| == if |s| >= w then |s| else w
    ensures r[|r| - |s|..] == s
    ensures forall i :: 0 <= i < |r| - |s| ==> r[i] == '0'
  {
    if |s| >= w then s else Zeros(w - |s|) + s
  }

  lemma {:induction false} ParseNatZeros(k: nat)
    ensures ParseNat(Zeros(k)) == 0
  {
    if k > 0 {
      assert Zeros(k)[..k - 1] == Zeros(k - 1);
      ParseNatZeros(k - 1);
    }
  }

  /** Leading zeros do not change a decimal value. */
  lemma {:induction false} ParseNatLeadingZeros(k: nat, s: string)
    ensures ParseNat(Zeros(k) + s) == ParseNat(s)
    decreases |s|
  {
    if |s| == 0 {
      assert Zeros(k) + s == Zeros(k);
      ParseNatZeros(k);
    } else {
      ParseNatLeadingZeros(k, s[..|s| - 1]);
      assert (Zeros(k) + s)[..|Zeros(k) + s| - 1] == Zeros(k) + s[..|s| - 1];
    }
  }

  /** Zero padding does not change a decimal value. */
  lemma ParseNatZFill(s: string, w: nat)
    ensures ParseNat(ZFill(s, w)) == ParseNat(s)
  {
    if |s| < w {
      assert ZFill(s, w) == Zeros(w - |s|) + s;
      ParseNatLeadingZeros(w - |s|, s);
    }
  }
}
