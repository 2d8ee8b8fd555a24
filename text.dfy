/**
 * The handful of Python `str` operations the pipeline relies on, written out character by
 * character: `isspace`, `strip`, `lower`, `isdigit`, `replace(old, "")`, `split(sep)`,
 * `sep.join(parts)`, `str(int)`, `int(text)` and `float(text)`, and `os.path.join`.
 */
module Text {
  import opened Wrappers

  /** Python's `str.isspace` for one character (ASCII separators and Unicode white space). */
  predicate IsSpace(c: char) {
    || c == ' ' || ('\t' <= c <= '\r') || ('\U{1C}' <= c <= '\U{1F}')
    || c == '\U{85}' || c == '\U{A0}' || c == '\U{1680}' || ('\U{2000}' <= c <= '\U{200A}')
    || c == '\U{2028}' || c == '\U{2029}' || c == '\U{202F}' || c == '\U{205F}' || c == '\U{3000}'
  }

  predicate IsDigit(c: char) { '0' <= c <= '9' }

  predicate IsUpper(c: char) { 'A' <= c <= 'Z' }

  /** A character of the regular-expression class `\w`: a letter, a digit or an underscore. */
  predicate IsWordChar(c: char) {
    ('a' <= c <= 'z') || ('A' <= c <= 'Z') || IsDigit(c) || c == '_'
  }

  /** Python's `str.isdigit`: non-empty and made of digits only. */
  predicate IsDigits(s: string) {
    |s| > 0 && forall i | 0 <= i < |s| :: IsDigit(s[i])
  }

  // ---------------------------------------------------------------- strip

  function LeadingSpaces(s: string): (n: nat)
    ensures n <= |s|
    ensures forall k | 0 <= k < n :: IsSpace(s[k])
    ensures n < |s| ==> !IsSpace(s[n])
  {
    if s == [] || !IsSpace(s[0]) then 0 else 1 + LeadingSpaces(s[1..])
  }

  function TrailingSpaces(s: string): (n: nat)
    ensures n <= |s|
    ensures forall k | |s| - n <= k < |s| :: IsSpace(s[k])
    ensures n < |s| ==> !IsSpace(s[|s| - 1 - n])
  {
    if s == [] || !IsSpace(s[|s| - 1]) then 0 else 1 + TrailingSpaces(s[..|s| - 1])
  }

  /** Python's `str.strip()`: the text with the white space at both ends removed. */
  function Strip(s: string): (r: string)
    ensures |r| <= |s|
    ensures r == [] || (!IsSpace(r[0]) && !IsSpace(r[|r| - 1]))
  {
    var t := s[LeadingSpaces(s)..];
    var r := t[..|t| - TrailingSpaces(t)];
    assert r != [] ==> r[0] == s[LeadingSpaces(s)];
    r
  }

  /** A text with no white space at either end is its own strip. */
  lemma StripUnchanged(s: string)
    requires s == [] || (!IsSpace(s[0]) && !IsSpace(s[|s| - 1]))
    ensures Strip(s) == s
  {
  }

  /** The stripped text is a slice of the original, starting after its leading white space. */
  lemma StripChars(s: string)
    ensures LeadingSpaces(s) + |Strip(s)| <= |s|
    ensures forall i | 0 <= i < |Strip(s)| :: Strip(s)[i] == s[LeadingSpaces(s) + i]
  {
  }

  // ---------------------------------------------------------------- lower

  function LowerChar(c: char): char {
    if IsUpper(c) then (c as int + 32) as char else c
  }

  predicate IsLower(c: char) { 'a' <= c <= 'z' }

  function UpperChar(c: char): char {
    if IsLower(c) then (c as int - 32) as char else c
  }

  /** Python's `str.lower()` on ASCII letters; every other character is kept. */
  function Lower(s: string): (r: string)
    ensures |r| == |s|
    ensures forall i | 0 <= i < |s| :: r[i] == LowerChar(s[i])
  {
    seq(|s|, i requires 0 <= i < |s| => LowerChar(s[i]))
  }

  /** Case-insensitive equality, as the `re.IGNORECASE` flag compares ASCII letters. */
  predicate EqualsIgnoreCase(a: string, b: string) {
    Lower(a) == Lower(b)
  }

  // ---------------------------------------------------------------- replace

  /** `pat` occurs somewhere in `s`. */
  predicate Occurs(pat: string, s: string)
    decreases |s|
  {
    pat <= s || (s != [] && Occurs(pat, s[1..]))
  }

  /**
   * Python's `s.replace(pat, "")`: scans left to right and deletes each non-overlapping
   * occurrence of `pat`.
   */
  function RemoveAll(s: string, pat: string): (r: string)
    requires pat != []
    ensures |r| <= |s|
    ensures !Occurs(pat, s) ==> r == s
    decreases |s|
  {
    if s == [] then []
    else if pat <= s then RemoveAll(s[|pat|..], pat)
    else [s[0]] + RemoveAll(s[1..], pat)
  }

  /** Deleting an absent one-character pattern changes nothing, and removes every copy of it. */
  lemma {:induction false} RemoveAllChar(s: string, c: char)
    ensures forall i | 0 <= i < |RemoveAll(s, [c])| :: RemoveAll(s, [c])[i] != c
    decreases |s|
  {
    if s != [] {
      RemoveAllChar(s[1..], c);
    }
  }

  // ---------------------------------------------------------------- split and join

  /** Python's `s.split(sep)` with a one-character separator: never an empty list. */
  function Split(s: string, sep: char): (parts: seq<string>)
    ensures |parts| >= 1
    ensures sep in s ==> |parts| >= 2
    ensures forall i, k | 0 <= i < |parts| && 0 <= k < |parts[i]| :: parts[i][k] != sep
    decreases |s|
  {
    if s == [] then [""]
    else if s[0] == sep then [""] + Split(s[1..], sep)
    else
      var rest := Split(s[1..], sep);
      [[s[0]] + rest[0]] + rest[1..]
  }

  /** Python's `sep.join(parts)`. */
  function Join(parts: seq<string>, sep: string): string
    decreases |parts|
  {
    if parts == [] then ""
    else if |parts| == 1 then parts[0]
    else parts[0] + sep + Join(parts[1..], sep)
  }

  lemma JoinCons(p: string, parts: seq<string>, sep: string)
    requires parts != []
    ensures Join([p] + parts, sep) == p + sep + Join(parts, sep)
  {
    assert ([p] + parts)[1..] == parts;
  }

  /** A character put in front of the first piece is put in front of the join. */
  lemma JoinPrepend(c: char, parts: seq<string>, sep: string)
    requires parts != []
    ensures Join([[c] + parts[0]] + parts[1..], sep) == [c] + Join(parts, sep)
  {
    if |parts| > 1 {
      JoinCons([c] + parts[0], parts[1..], sep);
      JoinCons(parts[0], parts[1..], sep);
      assert [parts[0]] + parts[1..] == parts;
    }
  }

  /** Joining the pieces of a split with the same separator gives the text back. */
  lemma {:induction false} JoinSplit(s: string, sep: char)
    ensures Join(Split(s, sep), [sep]) == s
    decreases |s|
  {
    if s != [] {
      var rest := Split(s[1..], sep);
      JoinSplit(s[1..], sep);
      if s[0] == sep {
        JoinCons("", rest, [sep]);
      } else {
        JoinPrepend(s[0], rest, [sep]);
      }
      assert s == [s[0]] + s[1..];
    }
  }

  /** A split distributes over a separator that joins two texts. */
  lemma {:induction false} SplitAround(a: string, b: string, sep: char)
    ensures Split(a + [sep] + b, sep) == Split(a, sep) + Split(b, sep)
    decreases |a|
  {
    if a == [] {
      assert a + [sep] + b == [sep] + b;
      assert ([sep] + b)[1..] == b;
    } else {
      var c, a' := a[0], a[1..];
      assert a + [sep] + b == [c] + (a' + [sep] + b);
      assert a == [c] + a';
      SplitCons(c, a' + [sep] + b, sep);
      SplitCons(c, a', sep);
      SplitAround(a', b, sep);
      ConsConcat(c, sep, Split(a + [sep] + b, sep), Split(a' + [sep] + b, sep), Split(a, sep), Split(a', sep), Split(b, sep));
    }
  }

  /** One character in front: a separator starts a new empty part, any other joins the first. */
  lemma SplitCons(c: char, s: string, sep: char)
    ensures Split([c] + s, sep)
         == if c == sep then [""] + Split(s, sep) else [[c] + Split(s, sep)[0]] + Split(s, sep)[1..]
  {
    assert ([c] + s)[1..] == s;
  }

  /** `SplitCons` on both sides of a concatenation of parts. */
  lemma ConsConcat(c: char, sep: char, x: seq<string>, y: seq<string>, a: seq<string>, p: seq<string>, q: seq<string>)
    requires |p| >= 1 && y == p + q
    requires x == if c == sep then [""] + y else [[c] + y[0]] + y[1..]
    requires a == if c == sep then [""] + p else [[c] + p[0]] + p[1..]
    ensures x == a + q
  {
    if c == sep {
      EmptyPartConcat(p, q);
    } else {
      FirstPartConcat(c, p, q);
    }
  }

  lemma EmptyPartConcat(p: seq<string>, q: seq<string>)
    ensures [""] + (p + q) == [""] + p + q
  {
  }

  lemma FirstPartConcat(c: char, p: seq<string>, q: seq<string>)
    requires |p| >= 1
    ensures [[c] + (p + q)[0]] + (p + q)[1..] == [[c] + p[0]] + p[1..] + q
  {
    assert (p + q)[1..] == p[1..] + q;
  }

  /** A text without the separator is a single piece. */
  lemma {:induction false} SplitWithout(s: string, sep: char)
    requires forall k | 0 <= k < |s| :: s[k] != sep
    ensures Split(s, sep) == [s]
    decreases |s|
  {
    if s != [] {
      SplitWithout(s[1..], sep);
      assert [s[0]] + s[1..] == s;
    }
  }

  /** Splitting a join of separator-free pieces gives the pieces back. */
  lemma {:induction false} SplitJoin(parts: seq<string>, sep: char)
    requires parts != []
    requires forall i, k | 0 <= i < |parts| && 0 <= k < |parts[i]| :: parts[i][k] != sep
    ensures Split(Join(parts, [sep]), sep) == parts
    decreases |parts|
  {
    if |parts| == 1 {
      SplitWithout(parts[0], sep);
    } else {
      var rest := parts[1..];
      forall i, k | 0 <= i < |rest| && 0 <= k < |rest[i]| ensures rest[i][k] != sep {
        assert rest[i] == parts[i + 1];
      }
      SplitJoin(rest, sep);
      SplitJoinStep(parts[0], rest, sep);
      assert [parts[0]] + rest == parts;
    }
  }

  /** Joining one more part in front splits off as that part. */
  lemma SplitJoinStep(p: string, rest: seq<string>, sep: char)
    requires forall k | 0 <= k < |p| :: p[k] != sep
    requires rest != []
    ensures Split(Join([p] + rest, [sep]), sep) == [p] + Split(Join(rest, [sep]), sep)
  {
    assert ([p] + rest)[1..] == rest;
    SplitWithout(p, sep);
    SplitAround(p, Join(rest, [sep]), sep);
  }

  // ---------------------------------------------------------------- numbers

  function DigitChar(d: nat): char
    requires d < 10
  {
    ('0' as int + d) as char
  }

  function DigitValue(c: char): nat
    requires IsDigit(c)
  {
    c as int - '0' as int
  }

  function Pow10(n: nat): (r: nat)
    ensures r >= 1
  {
    if n == 0 then 1 else 10 * Pow10(n - 1)
  }

  /** The number written by a run of decimal digits (the empty run stands for 0). */
  function DigitsValue(d: string): nat
    requires forall i | 0 <= i < |d| :: IsDigit(d[i])
    decreases |d|
  {
    if d == [] then 0 else 10 * DigitsValue(d[..|d| - 1]) + DigitValue(d[|d| - 1])
  }

  /** Python's `str(n)` for a natural number. */
  function NatToString(n: nat): (s: string)
    ensures IsDigits(s)
    ensures |s| > 1 ==> s[0] != '0'
    decreases n
  {
    if n < 10 then [DigitChar(n)] else NatToString(n / 10) + [DigitChar(n % 10)]
  }

  /** Python's `str(i)` for an integer. */
  function IntToString(i: int): string {
    if i < 0 then "-" + NatToString(-i) else NatToString(i)
  }

  /** Reading back the digits of `str(n)` gives `n`. */
  lemma {:induction false} NatToStringValue(n: nat)
    ensures DigitsValue(NatToString(n)) == n
    decreases n
  {
    if n >= 10 {
      NatToStringValue(n / 10);
      var s := NatToString(n);
      assert s[..|s| - 1] == NatToString(n / 10);
    }
  }

  function LeadingDigits(s: string): (n: nat)
    ensures n <= |s|
    ensures forall k | 0 <= k < n :: IsDigit(s[k])
    ensures n < |s| ==> !IsDigit(s[n])
  {
    if s == [] || !IsDigit(s[0]) then 0 else 1 + LeadingDigits(s[1..])
  }

  /** An optional sign followed by at least one digit and nothing else. */
  function ParseSignedDigits(t: string): Option<int> {
    var neg := t != [] && t[0] == '-';
    var body := if t != [] && (t[0] == '+' || t[0] == '-') then t[1..] else t;
    if IsDigits(body) then Some(if neg then -(DigitsValue(body) as int) else DigitsValue(body)) else None
  }

  /** Python's `int(text)` on decimal text: surrounding white space, a sign and digits. */
  function ParseInt(s: string): Option<int> {
    ParseSignedDigits(Strip(s))
  }

  function Scale(x: real, e: int): (r: real)
    ensures e == 0 ==> r == x
  {
    if e >= 0 then x * Pow10(e) as real else x / Pow10(-e) as real
  }

  /** The value of `<intPart>.<fracPart>`; without fraction digits it is the integer part. */
  function Mantissa(intPart: string, fracPart: string): (m: real)
    requires forall k | 0 <= k < |intPart| :: IsDigit(intPart[k])
    requires forall k | 0 <= k < |fracPart| :: IsDigit(fracPart[k])
    ensures fracPart == [] ==> m == DigitsValue(intPart) as real
  {
    DigitsValue(intPart) as real + DigitsValue(fracPart) as real / Pow10(|fracPart|) as real
  }

  /** The optional exponent that ends a float literal: empty, or `e`/`E`, a sign and digits. */
  function ParseExponent(t: string): Option<int> {
    if t == [] then Some(0)
    else if t[0] == 'e' || t[0] == 'E' then ParseSignedDigits(t[1..])
    else None
  }

  /** An unsigned decimal literal: digits, an optional fraction and an optional exponent. */
  function ParseUnsignedDecimal(u: string): Option<real> {
    var i := LeadingDigits(u);
    var intPart := u[..i];
    var rest := u[i..];
    var hasDot := rest != [] && rest[0] == '.';
    var afterDot := if hasDot then rest[1..] else [];
    var fracPart := afterDot[..LeadingDigits(afterDot)];
    var tail := if hasDot then afterDot[LeadingDigits(afterDot)..] else rest;
    if |intPart| + |fracPart| == 0 then None
    else
      match ParseExponent(tail)
      case None => None
      case Some(e) =>
        Some(Scale(Mantissa(intPart, fracPart), e))
  }

  /**
   * Python's `float(text)` on finite decimal literals: surrounding white space, a sign,
   * digits with an optional fraction, and an optional exponent. `None` is the `ValueError`.
   */
  function ParseFloat(s: string): Option<real> {
    var t := Strip(s);
    if t != [] && (t[0] == '+' || t[0] == '-') then
      match ParseUnsignedDecimal(t[1..])
      case None => None
      case Some(v) => Some(if t[0] == '-' then -v else v)
    else ParseUnsignedDecimal(t)
  }

  /** `float(str(n))` reads back the number `n`. */
  lemma ParseFloatNatToString(n: nat)
    ensures ParseFloat(NatToString(n)) == Some(n as real)
  {
    var s := NatToString(n);
    ParseFloatDigits(s);
    NatToStringValue(n);
  }

  /** `int(str(n))` reads back the number `n`. */
  lemma ParseIntNatToString(n: nat)
    ensures ParseInt(NatToString(n)) == Some(n)
  {
    var s := NatToString(n);
    ParseIntDigits(s);
    NatToStringValue(n);
  }

  /** Integer text is float text with the same value: `float(s) == int(s)` whenever `int(s)` succeeds. */
  lemma ParseFloatOfInt(s: string)
    ensures ParseInt(s).Some? ==> ParseFloat(s) == Some(ParseInt(s).value as real)
  {
    var t := Strip(s);
    if ParseInt(s).Some? {
      var body := if t != [] && (t[0] == '+' || t[0] == '-') then t[1..] else t;
      ParseUnsignedDigits(body);
    }
  }

  /** A run of digits parses, as an int, to the number it writes. */
  lemma ParseIntDigits(s: string)
    requires IsDigits(s)
    ensures ParseInt(s) == Some(DigitsValue(s))
  {
    StripUnchanged(s);
    assert !(s[0] == '+' || s[0] == '-');
  }

  /** A run of digits parses, as a float, to the number it writes. */
  lemma ParseFloatDigits(s: string)
    requires IsDigits(s)
    ensures ParseFloat(s) == Some(DigitsValue(s) as real)
  {
    StripUnchanged(s);
    assert !(s[0] == '+' || s[0] == '-');
    ParseUnsignedDigits(s);
  }

  lemma ParseUnsignedDigits(s: string)
    requires IsDigits(s)
    ensures ParseUnsignedDecimal(s) == Some(DigitsValue(s) as real)
  {
    LeadingDigitsAll(s);
    WholeDigitsParse(s);
  }

  /** With no dot and no exponent the mantissa is the integer part, scaled by ten to the zero. */
  lemma WholeDigitsParse(u: string)
    requires u != [] && forall k | 0 <= k < |u| :: IsDigit(u[k])
    requires LeadingDigits(u) == |u|
    ensures ParseUnsignedDecimal(u) == Some(DigitsValue(u) as real)
  {
    assert u[..|u|] == u;
    assert u[|u|..] == [];
  }

  lemma {:induction false} LeadingDigitsAll(s: string)
    requires forall k | 0 <= k < |s| :: IsDigit(s[k])
    ensures LeadingDigits(s) == |s|
    decreases |s|
  {
    if s != [] {
      LeadingDigitsAll(s[1..]);
    }
  }

  // ---------------------------------------------------------------- paths

  /** `os.path.join(root, name)` for POSIX paths. */
  function PathJoin(root: string, name: string): (p: string)
    ensures |p| >= |name| && p[|p| - |name|..] == name
    ensures (name == [] || name[0] != '/') ==> |root| <= |p| && p[..|root|] == root
    ensures (name == [] || name[0] != '/') && root != [] && root[|root| - 1] != '/' ==>
              |p| == |root| + 1 + |name| && p[|root|] == '/'
  {
    if |name| > 0 && name[0] == '/' then name
    else if root == [] || root[|root| - 1] == '/' then root + name
    else root + "/" + name
  }
}
