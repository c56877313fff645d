/** The suffix format of the scene renamer: the sanitiser that keeps only the
    `0` and `#` placeholders, and the rendering of a scene index through a
    .NET custom numeric format made only of those two placeholders. */
module NumberFormat {

  /** The two placeholder characters a suffix format may contain. */
  predicate IsFormatChar(c: char) {
    c == '0' || c == '#'
  }

  predicate IsFormat(s: string) {
    forall i :: 0 <= i < |s| ==> IsFormatChar(s[i])
  }

  /** A suffix format that has been through the sanitiser. */
  type FormatString = s: string | IsFormat(s) witness ""

  /** Keeps the placeholder characters of `input`, in their order, and drops
      every other character (the regular expression `[^0#]` replaced by ""). */
  function CleanFormatString(input: string): (r: string)
    ensures IsFormat(r)
    ensures |r| <= |input|
    decreases |input|
  {
    if input == [] then []
    else
      var rest := CleanFormatString(input[1..]);
      if IsFormatChar(input[0]) then [input[0]] + rest else rest
  }

  /** Every `0` and `#` of the input is kept and nothing else is: each
      character occurs in the result as often as in the input if it is a
      placeholder, and not at all otherwise. */
  lemma {:induction false} CleanCounts(input: string)
    ensures forall c :: multiset(CleanFormatString(input))[c] == if IsFormatChar(c) then multiset(input)[c] else 0
    decreases |input|
  {
    if input != [] {
      CleanCounts(input[1..]);
      assert input == [input[0]] + input[1..];
    }
  }

  /** `a` can be obtained from `b` by deleting characters. */
  predicate IsSubsequence(a: string, b: string)
    decreases |b|
  {
    if a == [] then true
    else if b == [] then false
    else (a[0] == b[0] && IsSubsequence(a[1..], b[1..])) || IsSubsequence(a, b[1..])
  }

  lemma {:induction false} CleanIsSubsequence(input: string)
    ensures IsSubsequence(CleanFormatString(input), input)
    decreases |input|
  {
    if input != [] {
      CleanIsSubsequence(input[1..]);
      var r := CleanFormatString(input);
      if IsFormatChar(input[0]) {
        assert r[0] == input[0] && r[1..] == CleanFormatString(input[1..]);
      }
    }
  }

  /** The sanitiser distributes over concatenation. */
  lemma {:induction false} CleanConcat(a: string, b: string)
    ensures CleanFormatString(a + b) == CleanFormatString(a) + CleanFormatString(b)
    decreases |a|
  {
    if a == [] {
      assert a + b == b;
    } else {
      assert (a + b)[0] == a[0];
      assert (a + b)[1..] == a[1..] + b;
      CleanConcat(a[1..], b);
    }
  }

  /** A string is returned unchanged exactly when it already is a format. */
  lemma {:induction false} CleanFixedPoint(s: string)
    ensures CleanFormatString(s) == s <==> IsFormat(s)
    decreases |s|
  {
    if s != [] {
      CleanFixedPoint(s[1..]);
      if IsFormat(s) {
        assert IsFormat(s[1..]) by {
          forall i | 0 <= i < |s[1..]| ensures IsFormatChar(s[1..][i]) {
            assert s[1..][i] == s[i + 1];
          }
        }
        assert [s[0]] + s[1..] == s;
      }
    }
  }

  lemma {:induction false} CleanIdempotent(s: string)
    ensures CleanFormatString(CleanFormatString(s)) == CleanFormatString(s)
  {
    CleanFixedPoint(CleanFormatString(s));
  }

  // ---------------------------------------------------------------- digits

  predicate IsDigit(c: char) {
    '0' <= c <= '9'
  }

  predicate IsDigits(s: string) {
    forall i :: 0 <= i < |s| ==> IsDigit(s[i])
  }

  function DigitChar(d: nat): char
    requires d < 10
  {
    ('0' as int + d) as char
  }

  /** The plain decimal rendering of `n`, most significant digit first. */
  function Decimal(n: nat): string
    decreases n
  {
    if n < 10 then [DigitChar(n)] else Decimal(n / 10) + [DigitChar(n % 10)]
  }

  /** The number a string of digits denotes, most significant digit first;
      the empty string denotes 0. */
  function Value(s: string): int
    decreases |s|
  {
    if s == [] then 0 else Value(s[..|s| - 1]) * 10 + (s[|s| - 1] as int - '0' as int)
  }

  /** Decimal gives a non-empty digit string that denotes `n`, has no leading
      zero, and is one digit long exactly when `n` is below ten. */
  lemma {:induction false} DecimalDigits(n: nat)
    ensures 1 <= |Decimal(n)| && IsDigits(Decimal(n))
    ensures |Decimal(n)| > 1 ==> Decimal(n)[0] != '0'
    ensures n < 10 <==> |Decimal(n)| == 1
    ensures Value(Decimal(n)) == n
    decreases n
  {
    if n >= 10 {
      DecimalDigits(n / 10);
      var s := Decimal(n);
      var t := Decimal(n / 10);
      assert s[..|s| - 1] == t;
      assert s[0] == t[0];
      forall i | 0 <= i < |s| ensures IsDigit(s[i]) {
        if i < |t| { assert s[i] == t[i]; }
      }
    }
  }

  /** `m` zero digits. */
  function Zeros(m: nat): string
    decreases m
  {
    if m == 0 then [] else Zeros(m - 1) + ['0']
  }

  lemma {:induction false} ZerosShape(m: nat)
    ensures |Zeros(m)| == m
    ensures forall i :: 0 <= i < m ==> Zeros(m)[i] == '0'
    ensures Value(Zeros(m)) == 0
    decreases m
  {
    if m > 0 {
      ZerosShape(m - 1);
      assert Zeros(m)[..m - 1] == Zeros(m - 1);
    }
  }

  /** Leading zeros do not change the value of a digit string. */
  lemma {:induction false} ValueIgnoresLeadingZeros(m: nat, s: string)
    ensures Value(Zeros(m) + s) == Value(s)
    decreases |s|
  {
    var t := Zeros(m) + s;
    if s == [] {
      assert t == Zeros(m);
      ZerosShape(m);
    } else {
      assert t[..|t| - 1] == Zeros(m) + s[..|s| - 1];
      assert t[|t| - 1] == s[|s| - 1];
      ValueIgnoresLeadingZeros(m, s[..|s| - 1]);
    }
  }

  /** Padding a digit string with zeros keeps it a digit string. */
  lemma {:induction false} LeadingZerosDigits(m: nat, s: string)
    requires IsDigits(s)
    ensures IsDigits(Zeros(m) + s)
  {
    ZerosShape(m);
    var t := Zeros(m) + s;
    forall i | 0 <= i < |t| ensures IsDigit(t[i]) {
      if i < m { assert t[i] == Zeros(m)[i]; } else { assert t[i] == s[i - m]; }
    }
  }

  /** The number of forced digits of a format: the positions from its leftmost
      `0` to its end, or none when it has no `0`. */
  function MinWidth(f: FormatString): (w: nat)
    ensures w <= |f|
    decreases |f|
  {
    if f == [] then 0
    else if f[0] == '0' then |f|
    else MinWidth(f[1..])
  }

  /** MinWidth counts from the leftmost `0`: it is zero exactly when there is
      no `0`, and only `#` come before the position it counts from. */
  lemma {:induction false} MinWidthLeftmostZero(f: FormatString)
    ensures MinWidth(f) == 0 <==> forall i :: 0 <= i < |f| ==> f[i] != '0'
    ensures MinWidth(f) > 0 ==>
      f[|f| - MinWidth(f)] == '0' && forall i :: 0 <= i < |f| - MinWidth(f) ==> f[i] == '#'
    decreases |f|
  {
    if f != [] && f[0] != '0' {
      MinWidthLeftmostZero(f[1..]);
      assert forall i :: 1 <= i < |f| ==> f[i] == f[1..][i - 1];
    }
  }

  /** `s` left-padded with zeros to at least `width` characters. */
  function PadLeft(s: string, width: nat): string
  {
    if |s| >= width then s else Zeros(width - |s|) + s
  }

  /** `n` rendered through the custom numeric format `f`: the digits of `n`,
      left-padded with zeros to the forced width; a zero with no forced digit
      renders as nothing, and the empty format is plain decimal. What the
      rendering promises is stated by the lemmas below. */
  function FormatIndex(n: nat, f: FormatString): string
  {
    if f == [] then Decimal(n)
    else if n == 0 then Zeros(MinWidth(f))
    else PadLeft(Decimal(n), MinWidth(f))
  }

  /** Padding puts zeros in front of `s` until the width is reached. */
  lemma {:induction false} PadLeftShape(s: string, width: nat)
    ensures |PadLeft(s, width)| == if |s| >= width then |s| else width
    ensures PadLeft(s, width)[|PadLeft(s, width)| - |s|..] == s
    ensures forall i :: 0 <= i < |PadLeft(s, width)| - |s| ==> PadLeft(s, width)[i] == '0'
  {
    if |s| < width {
      var z := Zeros(width - |s|);
      ZerosShape(width - |s|);
      assert (z + s)[|z|..] == s;
      assert forall i :: 0 <= i < |z| ==> (z + s)[i] == z[i];
    }
  }

  /** The rendering is a digit string that denotes `n`. */
  lemma {:induction false} FormatIndexValue(n: nat, f: FormatString, r: string)
    requires r == FormatIndex(n, f)
    ensures IsDigits(r) && Value(r) == n
  {
    DecimalDigits(n);
    if f != [] {
      var w := MinWidth(f);
      if n == 0 {
        ZerosShape(w);
      } else if |Decimal(n)| < w {
        ValueIgnoresLeadingZeros(w - |Decimal(n)|, Decimal(n));
        LeadingZerosDigits(w - |Decimal(n)|, Decimal(n));
      }
    }
  }

  /** The rendering has at least the forced width. A positive index (or any
      index under the empty format) shows all its decimal digits, behind
      zeros that only make up the forced width; zero under a non-empty format
      is the forced zeros alone, so nothing at all when the format has no
      `0`. */
  lemma {:induction false} FormatIndexShape(n: nat, f: FormatString, r: string)
    requires r == FormatIndex(n, f)
    ensures |r| >= MinWidth(f)
    ensures f == [] ==> r == Decimal(n)
    ensures n > 0 ==> |r| == if |Decimal(n)| >= MinWidth(f) then |Decimal(n)| else MinWidth(f)
    ensures n > 0 || f == [] ==> |Decimal(n)| <= |r| && r[|r| - |Decimal(n)|..] == Decimal(n)
    ensures n > 0 ==> forall i :: 0 <= i < |r| - |Decimal(n)| ==> r[i] == '0'
    ensures n == 0 && f != [] ==> r == Zeros(MinWidth(f))
    ensures n == 0 && f != [] && MinWidth(f) == 0 ==> r == ""
  {
    DecimalDigits(n);
    var d := Decimal(n);
    if f != [] {
      var w := MinWidth(f);
      if n == 0 {
        ZerosShape(w);
      } else {
        PadLeftShape(d, w);
      }
    }
  }

  /** Distinct indices render to distinct suffixes, whatever the format. */
  lemma {:induction false} FormatIndexInjective(i: nat, j: nat, f: FormatString)
    ensures FormatIndex(i, f) == FormatIndex(j, f) <==> i == j
  {
    FormatIndexValue(i, f, FormatIndex(i, f));
    FormatIndexValue(j, f, FormatIndex(j, f));
  }
}
