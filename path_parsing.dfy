/**
 * The string operations the tile handler applies to a request path:
 * stripping a character from both ends (`str.strip`), splitting on a
 * separator (`str.split`) and reading a base-10 integer (`int`).
 */
module PathParsing {
  import opened Options

  /** `n` copies of `c`. */
  function Repeat(c: char, n: nat): (r: string)
    ensures |r| == n
  {
    if n == 0 then [] else [c] + Repeat(c, n - 1)
  }

  /** Every character of `Repeat(c, n)` is `c`. */
  lemma {:induction false} RepeatAll(c: char, n: nat)
    ensures forall i :: 0 <= i < n ==> Repeat(c, n)[i] == c
  {
    if n > 0 {
      RepeatAll(c, n - 1);
      assert Repeat(c, n)[1..] == Repeat(c, n - 1);
    }
  }

  /** Padding can be grown at either end. */
  lemma {:induction false} RepeatSnoc(c: char, n: nat)
    ensures Repeat(c, n + 1) == Repeat(c, n) + [c]
  {
    if n > 0 {
      RepeatSnoc(c, n - 1);
    }
  }

  // ---------------------------------------------------------------- strip

  /** Drops every leading `c`. */
  function StripLeading(s: string, c: char): (r: string)
    ensures |r| <= |s| && r == s[|s| - |r|..]
    ensures r == [] || r[0] != c
  {
    if |s| > 0 && s[0] == c then StripLeading(s[1..], c) else s
  }

  /** What StripLeading drops is copies of `c` and nothing else. */
  lemma {:induction false} StripLeadingDropsOnly(s: string, c: char)
    ensures var r := StripLeading(s, c);
      forall i :: 0 <= i < |s| - |r| ==> s[i] == c
  {
    if |s| > 0 && s[0] == c {
      StripLeadingDropsOnly(s[1..], c);
    }
  }

  /** Drops every trailing `c`. */
  function StripTrailing(s: string, c: char): (r: string)
    ensures |r| <= |s| && r == s[..|r|]
    ensures r == [] || r[|r| - 1] != c
  {
    if |s| > 0 && s[|s| - 1] == c then StripTrailing(s[..|s| - 1], c) else s
  }

  /** What StripTrailing drops is copies of `c` and nothing else. */
  lemma {:induction false} StripTrailingDropsOnly(s: string, c: char)
    ensures var r := StripTrailing(s, c);
      forall i :: |r| <= i < |s| ==> s[i] == c
  {
    if |s| > 0 && s[|s| - 1] == c {
      StripTrailingDropsOnly(s[..|s| - 1], c);
    }
  }

  /** Python's `s.strip(c)` for a one-character argument. */
  function Strip(s: string, c: char): (r: string)
    ensures |r| <= |s|
    ensures r == [] || (r[0] != c && r[|r| - 1] != c)
  {
    StripTrailing(StripLeading(s, c), c)
  }

  lemma {:induction false} StripLeadingPadded(s: string, c: char, i: nat)
    ensures StripLeading(Repeat(c, i) + s, c) == StripLeading(s, c)
  {
    if i > 0 {
      var shorter := Repeat(c, i - 1) + s;
      assert Repeat(c, i) + s == [c] + shorter;
      assert ([c] + shorter)[1..] == shorter;
      StripLeadingPadded(s, c, i - 1);
    } else {
      assert Repeat(c, i) + s == s;
    }
  }

  lemma {:induction false} StripTrailingPadded(s: string, c: char, j: nat)
    ensures StripTrailing(s + Repeat(c, j), c) == StripTrailing(s, c)
  {
    if j > 0 {
      var shorter := s + Repeat(c, j - 1);
      RepeatSnoc(c, j - 1);
      assert s + Repeat(c, j) == shorter + [c];
      assert (shorter + [c])[..|shorter|] == shorter;
      StripTrailingPadded(s, c, j - 1);
    } else {
      assert s + Repeat(c, j) == s;
    }
  }

  /** Stripping leading characters commutes with appending padding, unless nothing is left. */
  lemma {:induction false} StripLeadingThenPad(s: string, c: char, j: nat)
    ensures StripLeading(s + Repeat(c, j), c)
         == if StripLeading(s, c) == [] then [] else StripLeading(s, c) + Repeat(c, j)
  {
    if s == [] {
      assert s + Repeat(c, j) == Repeat(c, j) + [];
      StripLeadingPadded([], c, j);
      assert StripLeading([], c) == [];
    } else if s[0] == c {
      assert (s + Repeat(c, j))[1..] == s[1..] + Repeat(c, j);
      StripLeadingThenPad(s[1..], c, j);
    }
  }

  /** Strip removes exactly the padding: leading and trailing copies of `c` never matter. */
  lemma StripIgnoresPadding(s: string, c: char, i: nat, j: nat)
    ensures Strip(Repeat(c, i) + s + Repeat(c, j), c) == Strip(s, c)
  {
    assert Repeat(c, i) + s + Repeat(c, j) == Repeat(c, i) + (s + Repeat(c, j));
    StripLeadingPadded(s + Repeat(c, j), c, i);
    StripLeadingThenPad(s, c, j);
    if StripLeading(s, c) != [] {
      StripTrailingPadded(StripLeading(s, c), c, j);
    }
  }

  /** A string that neither starts nor ends with `c` is left as it is, so Strip is idempotent. */
  lemma StripKeepsTrimmed(s: string, c: char)
    requires s == [] || (s[0] != c && s[|s| - 1] != c)
    ensures Strip(s, c) == s
  {
  }

  // ---------------------------------------------------------------- split

  /** Glues `parts` back together with `sep` between neighbours. */
  function Join(parts: seq<string>, sep: char): (r: string)
    requires |parts| >= 1
  {
    if |parts| == 1 then parts[0] else parts[0] + [sep] + Join(parts[1..], sep)
  }

  /** True when no element of `parts` contains `sep`. */
  predicate SeparatorFree(parts: seq<string>, sep: char)
  {
    forall i :: 0 <= i < |parts| ==> sep !in parts[i]
  }

  /**
   * Python's `s.split(sep)`: always at least one part (the empty string
   * gives one empty part), separators never inside a part, and the parts
   * join back to `s`.
   */
  function Split(s: string, sep: char): (parts: seq<string>)
    ensures |parts| >= 1
    ensures SeparatorFree(parts, sep)
    ensures Join(parts, sep) == s
  {
    if s == [] then [[]]
    else
      var rest := Split(s[1..], sep);
      if s[0] == sep then
        assert ([[]] + rest)[1..] == rest;
        [[]] + rest
      else
        var parts := [[s[0]] + rest[0]] + rest[1..];
        assert parts[1..] == rest[1..];
        assert |rest| > 1 ==> Join(rest, sep) == rest[0] + [sep] + Join(rest[1..], sep);
        parts
  }

  /** The first separator of a join sits right after the first part. */
  lemma JoinHead(parts: seq<string>, sep: char)
    requires |parts| >= 1
    ensures exists tail: string ::
              && Join(parts, sep) == parts[0] + tail
              && (tail == [] <==> |parts| == 1)
              && (tail != [] ==> tail[0] == sep && tail[1..] == Join(parts[1..], sep))
  {
    if |parts| == 1 {
      assert Join(parts, sep) == parts[0] + [];
    } else {
      var tail := [sep] + Join(parts[1..], sep);
      assert Join(parts, sep) == parts[0] + tail;
    }
  }

  /** Position of the first `sep` in `s`, or `|s|` when there is none. */
  function SepIndex(s: string, sep: char): (k: nat)
    ensures k <= |s| && sep !in s[..k]
    ensures k < |s| ==> s[k] == sep
  {
    if s == [] || s[0] == sep then 0
    else
      var k := 1 + SepIndex(s[1..], sep);
      assert s[..k] == [s[0]] + s[1..][..k - 1];
      k
  }

  /** In a separator-free word followed by a separator-led tail, the first separator ends the word. */
  lemma {:induction false} SepIndexAfterWord(a: string, t: string, sep: char)
    requires sep !in a
    requires t == [] || t[0] == sep
    ensures SepIndex(a + t, sep) == |a|
  {
    if a != [] {
      assert (a + t)[0] == a[0] && (a + t)[1..] == a[1..] + t;
      assert sep !in a[1..] by { assert forall i :: 0 <= i < |a| - 1 ==> a[1..][i] == a[i + 1]; }
      SepIndexAfterWord(a[1..], t, sep);
    }
  }

  /** Two separator-free words followed by separator-led tails can only be equal word for word. */
  lemma SplitPoint(a: string, t1: string, b: string, t2: string, sep: char)
    requires sep !in a && sep !in b
    requires t1 == [] || t1[0] == sep
    requires t2 == [] || t2[0] == sep
    requires a + t1 == b + t2
    ensures a == b && t1 == t2
  {
    SepIndexAfterWord(a, t1, sep);
    SepIndexAfterWord(b, t2, sep);
    assert a == (a + t1)[..|a|] == (b + t2)[..|b|] == b;
    assert t1 == (a + t1)[|a|..] == (b + t2)[|b|..] == t2;
  }

  /** Joining is injective on separator-free parts. */
  lemma {:induction false} JoinInjective(p: seq<string>, q: seq<string>, sep: char)
    requires |p| >= 1 && |q| >= 1
    requires SeparatorFree(p, sep) && SeparatorFree(q, sep)
    requires Join(p, sep) == Join(q, sep)
    ensures p == q
    decreases |p|
  {
    JoinHead(p, sep);
    JoinHead(q, sep);
    var t1: string :| Join(p, sep) == p[0] + t1
      && (t1 == [] <==> |p| == 1)
      && (t1 != [] ==> t1[0] == sep && t1[1..] == Join(p[1..], sep));
    var t2: string :| Join(q, sep) == q[0] + t2
      && (t2 == [] <==> |q| == 1)
      && (t2 != [] ==> t2[0] == sep && t2[1..] == Join(q[1..], sep));
    assert sep !in p[0] && sep !in q[0];
    SplitPoint(p[0], t1, q[0], t2, sep);
    if t1 != [] {
      assert SeparatorFree(p[1..], sep) && SeparatorFree(q[1..], sep) by {
        forall i | 0 <= i < |p| - 1 ensures sep !in p[1..][i] { assert p[1..][i] == p[i + 1]; }
        forall i | 0 <= i < |q| - 1 ensures sep !in q[1..][i] { assert q[1..][i] == q[i + 1]; }
      }
      JoinInjective(p[1..], q[1..], sep);
      assert p == [p[0]] + p[1..] && q == [q[0]] + q[1..];
    } else {
      assert p == [p[0]] && q == [q[0]];
    }
  }

  /** Split inverts Join on separator-free parts (Join inverts Split by Split's contract). */
  lemma SplitJoin(parts: seq<string>, sep: char)
    requires |parts| >= 1 && SeparatorFree(parts, sep)
    ensures Split(Join(parts, sep), sep) == parts
  {
    JoinInjective(Split(Join(parts, sep), sep), parts, sep);
  }

  // ---------------------------------------------------------------- int

  predicate IsDigit(ch: char)
  {
    '0' <= ch <= '9'
  }

  function DigitValue(ch: char): (d: nat)
    requires IsDigit(ch)
    ensures d < 10
  {
    (ch as int) - ('0' as int)
  }

  function DigitChar(d: nat): (ch: char)
    requires d < 10
    ensures IsDigit(ch) && DigitValue(ch) == d
  {
    (d + '0' as int) as char
  }

  /**
   * The body of a base-10 literal that Python's `int()` accepts: ASCII
   * digits, where a single underscore may stand between two digits.
   */
  predicate IsNumeral(s: string)
  {
    |s| > 0 && IsDigit(s[0]) && NumeralChars(s)
    && (forall i :: 0 <= i < |s| - 1 && s[i] == '_' ==> IsDigit(s[i + 1]))
    && s[|s| - 1] != '_'
  }

  /** Every character is a digit or an underscore. */
  predicate NumeralChars(s: string)
  {
    forall i :: 0 <= i < |s| ==> IsDigit(s[i]) || s[i] == '_'
  }

  /** The value of a run of digits and underscores, underscores ignored. */
  function NumeralValue(s: string): (n: nat)
    requires NumeralChars(s)
  {
    if s == [] then 0
    else if s[|s| - 1] == '_' then NumeralValue(s[..|s| - 1])
    else NumeralValue(s[..|s| - 1]) * 10 + DigitValue(s[|s| - 1])
  }

  /**
   * The most digits `int()` converts from decimal text: CPython's default
   * `sys.get_int_max_str_digits()` (from CPython 3.11 and the matching
   * security releases), beyond which it raises `ValueError`.
   */
  const MaxStrDigits: nat := 4300

  /** The digits of a numeral as the limit counts them: leading zeros count, underscores do not. */
  function DigitCount(s: string): (k: nat)
    ensures k <= |s|
  {
    if s == [] then 0 else (if s[0] == '_' then 0 else 1) + DigitCount(s[1..])
  }

  /** Text made of digits alone counts every character. */
  lemma {:induction false} DigitCountOfDigits(s: string)
    requires forall i :: 0 <= i < |s| ==> IsDigit(s[i])
    ensures DigitCount(s) == |s|
  {
    if s != [] {
      assert forall i :: 0 <= i < |s[1..]| ==> s[1..][i] == s[i + 1];
      DigitCountOfDigits(s[1..]);
    }
  }

  /** A numeral `int()` accepts: well formed, and within the digit limit. */
  predicate Decimal(s: string)
  {
    IsNumeral(s) && DigitCount(s) <= MaxStrDigits
  }

  /** An unsigned numeral, or None. */
  function ParseNat(s: string): (r: Option<nat>)
    ensures r.Some? <==> Decimal(s)
  {
    if Decimal(s) then Some(NumeralValue(s)) else None
  }

  /**
   * Python's `int(s)` for base 10: an optional `+` or `-` sign followed by a
   * numeral of at most `MaxStrDigits` digits; anything else raises (None here).
   */
  function ParseInt(s: string): (r: Option<int>)
    ensures r.Some? <==> (Decimal(s) || (|s| > 0 && s[0] in "+-" && Decimal(s[1..])))
    ensures r.Some? && |s| > 0 && s[0] == '-' ==> r.value <= 0
    ensures r.Some? && (|s| == 0 || s[0] != '-') ==> r.value >= 0
  {
    if |s| > 0 && s[0] == '-' then
      match ParseNat(s[1..])
      case Some(n) => Some(-(n as int))
      case None => None
    else if |s| > 0 && s[0] == '+' then
      match ParseNat(s[1..])
      case Some(n) => Some(n)
      case None => None
    else
      match ParseNat(s)
      case Some(n) => Some(n)
      case None => None
  }

  lemma {:induction false} DigitCountAppend(a: string, b: string)
    ensures DigitCount(a + b) == DigitCount(a) + DigitCount(b)
  {
    if a != [] {
      assert (a + b)[1..] == a[1..] + b;
      DigitCountAppend(a[1..], b);
    } else {
      assert a + b == b;
    }
  }

  lemma {:induction false} ZerosHaveNoValue(k: nat)
    ensures NumeralChars(Repeat('0', k)) && NumeralValue(Repeat('0', k)) == 0
  {
    RepeatAll('0', k);
    if k > 0 {
      RepeatSnoc('0', k - 1);
      ZerosHaveNoValue(k - 1);
      assert Repeat('0', k)[..k - 1] == Repeat('0', k - 1);
    }
  }

  lemma {:induction false} ValueIgnoresZeroPrefix(p: string, s: string)
    requires NumeralChars(p) && NumeralChars(s) && NumeralValue(p) == 0
    ensures NumeralChars(p + s) && NumeralValue(p + s) == NumeralValue(s)
  {
    if s == [] {
      assert p + s == p;
    } else {
      var front := s[..|s| - 1];
      assert (p + s)[..|p + s| - 1] == p + front;
      ValueIgnoresZeroPrefix(p, front);
    }
  }

  /**
   * Leading zeros never change the value `int()` reads, but they count
   * towards the digit limit: enough of them make it raise.
   */
  lemma ParseZeroPadded(k: nat, s: string)
    requires IsNumeral(s)
    ensures ParseNat(Repeat('0', k) + s)
         == if k + DigitCount(s) <= MaxStrDigits then ParseNat(s) else None
  {
    var zeros := Repeat('0', k);
    var padded := zeros + s;
    RepeatAll('0', k);
    ZerosHaveNoValue(k);
    ValueIgnoresZeroPrefix(zeros, s);
    DigitCountOfDigits(zeros);
    DigitCountAppend(zeros, s);
    assert IsNumeral(padded) by {
      assert padded[0] == if k == 0 then s[0] else '0';
      assert padded[|padded| - 1] == s[|s| - 1];
      forall i | 0 <= i < |padded| - 1 && padded[i] == '_'
        ensures IsDigit(padded[i + 1])
      {
        assert i >= k && padded[i] == s[i - k] && padded[i + 1] == s[i - k + 1];
      }
    }
  }

  /** Canonical decimal digits of `n` (no sign, no leading zero). */
  function ShowNat(n: nat): (s: string)
    ensures IsNumeral(s) && NumeralValue(s) == n
    ensures forall i :: 0 <= i < |s| ==> IsDigit(s[i])
  {
    if n < 10 then [DigitChar(n)]
    else
      var s := ShowNat(n / 10) + [DigitChar(n % 10)];
      assert s[..|s| - 1] == ShowNat(n / 10);
      s
  }

  /** Canonical decimal text of `n`, as `str(n)` writes it. */
  function ShowInt(n: int): string
  {
    if n < 0 then "-" + ShowNat(-n) else ShowNat(n)
  }

  /** Whether `int()` reads the canonical text of `n` back: its digits fit the limit. */
  predicate WithinDigitLimit(n: int)
  {
    |ShowNat(if n < 0 then -n else n)| <= MaxStrDigits
  }

  /**
   * Reading back the canonical text of an integer gives that integer when
   * its digits fit the limit, and raises when they do not.
   */
  lemma ParseShowInt(n: int)
    ensures ParseInt(ShowInt(n)) == if WithinDigitLimit(n) then Some(n) else None
  {
    var digits := ShowNat(if n < 0 then -n else n);
    DigitCountOfDigits(digits);
    if n < 0 {
      assert ("-" + digits)[1..] == digits;
    } else {
      assert IsDigit(digits[0]);
    }
  }
}
