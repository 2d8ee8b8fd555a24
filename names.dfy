/**
 * The company-name normaliser of the regulator stage (`normalize_name`): three regular
 * expression substitutions, then lower-casing and stripping. Each substitution is written out as
 * the left-to-right scan `re.sub` performs over the original text: at each position either the
 * pattern matches there, and its replacement is emitted and the scan resumes after the match,
 * or the character is copied.
 */
module Names {
  import opened Wrappers
  import opened Text

  // ================================================================ re.sub(r'\s*\(.*?\)\s*', ' ', name)

  /**
   * Where the lazy `.*?\)` that starts at `j` stops: the first `)` at or after `j`, provided no
   * newline comes before it (`.` does not match a newline).
   */
  function CloseIndex(s: string, j: nat): (r: Option<nat>)
    requires j <= |s|
    ensures r.Some? ==> j <= r.value < |s| && s[r.value] == ')'
    ensures r.Some? ==> forall k | j <= k < r.value :: s[k] != ')' && s[k] != '\n'
    ensures r.None? ==> forall k | j <= k < |s| && s[k] == ')' :: exists m | j <= m < k :: s[m] == '\n'
    decreases |s| - j
  {
    if j == |s| || s[j] == '\n' then None
    else if s[j] == ')' then Some(j)
    else CloseIndex(s, j + 1)
  }

  /**
   * The end of the match of `\s*\(.*?\)\s*` at the start of `r`, if the pattern matches
   * there: the white space run, an opening parenthesis, the text up to the first closing one,
   * and the white space run after it. The pattern looks at nothing before its start, so a
   * match at position `i` of the original text is a match at the start of the suffix from `i`.
   */
  function ParenMatchEnd(r: string): (e: Option<nat>)
    ensures e.Some? ==> 0 < e.value <= |r|
  {
    var w := LeadingSpaces(r);
    if w < |r| && r[w] == '(' then
      match CloseIndex(r, w + 1)
      case None => None
      case Some(c) => Some(c + 1 + LeadingSpaces(r[c + 1..]))
    else None
  }

  /**
   * The scan of the first substitution over the rest `r` of the original text: each match
   * becomes one space and the scan resumes after it, any other character is copied.
   */
  function RemoveParenthesized(r: string): string
    decreases |r|
  {
    if r == [] then []
    else
      match ParenMatchEnd(r)
      case Some(e) => " " + RemoveParenthesized(r[e..])
      case None => [r[0]] + RemoveParenthesized(r[1..])
  }

  /** A text starting with neither white space nor `(` has no match at its start. */
  lemma PlainStartNoMatch(r: string)
    requires r != [] && !IsSpace(r[0]) && r[0] != '('
    ensures ParenMatchEnd(r) == None
  {
    assert LeadingSpaces(r) == 0;
  }

  /** Without a match at its start, the first character is copied. */
  lemma CopiedFirst(r: string)
    requires r != [] && ParenMatchEnd(r) == None
    ensures RemoveParenthesized(r) == [r[0]] + RemoveParenthesized(r[1..])
  { }

  /** A match at the start becomes one space and the scan resumes after it. */
  lemma ReplacedFirst(r: string, e: nat)
    requires r != [] && ParenMatchEnd(r) == Some(e)
    ensures RemoveParenthesized(r) == " " + RemoveParenthesized(r[e..])
  { }

  /** Text without an opening parenthesis is left as it is. */
  lemma {:induction false} NoParenUnchanged(r: string)
    requires forall k | 0 <= k < |r| :: r[k] != '('
    ensures RemoveParenthesized(r) == r
  {
    if r != [] {
      assert LeadingSpaces(r) < |r| ==> r[LeadingSpaces(r)] != '(';
      CopiedFirst(r);
      NoParenUnchanged(r[1..]);
      assert r == [r[0]] + r[1..];
    }
  }

  /** A plain first character is copied and the scan goes on with the rest. */
  lemma PlainConsCopied(c: char, rest: string)
    requires !IsSpace(c) && c != '('
    ensures RemoveParenthesized([c] + rest) == [c] + RemoveParenthesized(rest)
  {
    var r := [c] + rest;
    PlainStartNoMatch(r);
    CopiedFirst(r);
    assert r[1..] == rest;
  }

  /**
   * A scan `f` that copies a leading character free of white space and `(` copies a whole
   * leading run of them.
   */
  lemma {:induction false} PrefixCopiedBy(f: string -> string, a: string, t: string)
    requires forall k | 0 <= k < |a| :: !IsSpace(a[k]) && a[k] != '('
    requires forall c, rest | !IsSpace(c) && c != '(' :: f([c] + rest) == [c] + f(rest)
    ensures f(a + t) == a + f(t)
  {
    if a == [] {
      assert a + t == t;
    } else {
      assert a + t == [a[0]] + (a[1..] + t);
      PrefixCopiedBy(f, a[1..], t);
      assert [a[0]] + (a[1..] + f(t)) == a + f(t);
    }
  }

  /** A leading run free of white space and `(` is copied as it is. */
  lemma PlainPrefixCopied(a: string, t: string)
    requires forall k | 0 <= k < |a| :: !IsSpace(a[k]) && a[k] != '('
    ensures RemoveParenthesized(a + t) == a + RemoveParenthesized(t)
  {
    forall c, rest | !IsSpace(c) && c != '('
      ensures RemoveParenthesized([c] + rest) == [c] + RemoveParenthesized(rest)
    {
      PlainConsCopied(c, rest);
    }
    PrefixCopiedBy(RemoveParenthesized, a, t);
  }

  // ================================================================ word rewrites

  /** What a pattern demands of the character after it. */
  datatype After =
    | WordEnds     // `\b` after a word character: the next character is not a word character
    | WordFollows  // `\b` after a non-word character: the next character is a word character
    | Anything     // no condition

  /**
   * A substitution `\b<pattern><after>` with `re.IGNORECASE`: `pattern` is written in lower
   * case and starts with a word character, so the leading `\b` asks that the character before
   * the match is not a word character.
   */
  datatype Rule = Rule(pattern: string, after: After, replacement: string)

  /** `re.sub(r'\bLimited\b', 'Ltd', name, flags=re.IGNORECASE)`. */
  const LimitedRule: Rule := Rule("limited", WordEnds, "Ltd")

  /** `re.sub(r'\bLtd\.\b', 'Ltd', name, flags=re.IGNORECASE)`. */
  const LtdDotRule: Rule := Rule("ltd.", WordFollows, "Ltd")

  /** `re.sub(r'\bLtd\.', 'Ltd', name, flags=re.IGNORECASE)`: the same without the final `\b`. */
  const TrailingLtdDotRule: Rule := Rule("ltd.", Anything, "Ltd")

  predicate AfterHolds(after: After, s: string, q: nat)
    requires q <= |s|
  {
    match after
    case WordEnds => q == |s| || !IsWordChar(s[q])
    case WordFollows => q < |s| && IsWordChar(s[q])
    case Anything => true
  }

  /** The rule's pattern matches at position `p` of `s`. */
  predicate RuleAt(rule: Rule, s: string, p: nat)
    requires p <= |s|
  {
    && p + |rule.pattern| <= |s|
    && (p == 0 || !IsWordChar(s[p - 1]))
    && Lower(s[p..p + |rule.pattern|]) == rule.pattern
    && AfterHolds(rule.after, s, p + |rule.pattern|)
  }

  /** The scan of one substitution from position `i` of the original text. */
  function RewriteFrom(rule: Rule, s: string, i: nat): string
    requires |rule.pattern| > 0
    requires i <= |s|
    decreases |s| - i
  {
    if i == |s| then []
    else if RuleAt(rule, s, i) then rule.replacement + RewriteFrom(rule, s, i + |rule.pattern|)
    else [s[i]] + RewriteFrom(rule, s, i + 1)
  }

  function Rewrite(rule: Rule, s: string): string
    requires |rule.pattern| > 0
  {
    RewriteFrom(rule, s, 0)
  }

  lemma LowerCharWord(c: char)
    ensures IsWordChar(LowerChar(c)) == IsWordChar(c)
  {
  }

  /** Text shorter than the pattern is left as it is. */
  lemma {:induction false} ShortUnchanged(rule: Rule, s: string, i: nat)
    requires |rule.pattern| > 0
    requires i <= |s| && |s| - i < |rule.pattern|
    ensures RewriteFrom(rule, s, i) == s[i..]
    decreases |s| - i
  {
    if i < |s| {
      ShortUnchanged(rule, s, i + 1);
      assert s[i..] == [s[i]] + s[i + 1..];
    }
  }

  /**
   * Text none of whose characters lower-cases to the pattern character at `k` is left as it
   * is.
   */
  lemma {:induction false} MissingCharUnchanged(rule: Rule, s: string, i: nat, k: nat)
    requires k < |rule.pattern|
    requires i <= |s|
    requires forall j | i <= j < |s| :: LowerChar(s[j]) != rule.pattern[k]
    ensures RewriteFrom(rule, s, i) == s[i..]
    decreases |s| - i
  {
    if i < |s| {
      MissingCharCopied(rule, s, i, k);
      MissingCharUnchanged(rule, s, i + 1, k);
      assert s[i..] == [s[i]] + s[i + 1..];
    }
  }

  /** No match starts where the pattern's `k`-th character cannot be found. */
  lemma MissingCharCopied(rule: Rule, s: string, i: nat, k: nat)
    requires k < |rule.pattern|
    requires i < |s|
    requires forall j | i <= j < |s| :: LowerChar(s[j]) != rule.pattern[k]
    ensures RewriteFrom(rule, s, i) == [s[i]] + RewriteFrom(rule, s, i + 1)
  {
    if i + |rule.pattern| <= |s| {
      assert Lower(s[i..i + |rule.pattern|])[k] == LowerChar(s[i + k]);
    }
  }

  /**
   * The rules whose matches cannot reach back across a non-word end of the text before them:
   * the pattern starts with a word character, every pattern character but the last is a word
   * character, and a pattern that must end a word ends with a word character.
   */
  predicate EndSafe(rule: Rule) {
    && |rule.pattern| > 0
    && IsWordChar(rule.pattern[0])
    && (forall k | 0 <= k < |rule.pattern| - 1 :: IsWordChar(rule.pattern[k]))
    && (rule.after == WordEnds ==> IsWordChar(rule.pattern[|rule.pattern| - 1]))
  }

  /** `t` is empty or ends in a character that is not a word character. */
  predicate EndsOutsideWord(t: string) {
    t == [] || !IsWordChar(t[|t| - 1])
  }

  /**
   * No match found in `t` depends on what follows it: `t` ends outside a word, and for a rule
   * that needs a word character after its pattern, the last character of `t` is not the
   * pattern's last.
   */
  predicate EndsBefore(rule: Rule, t: string)
    requires |rule.pattern| > 0
  {
    && EndsOutsideWord(t)
    && (rule.after == WordFollows && t != [] ==> LowerChar(t[|t| - 1]) != rule.pattern[|rule.pattern| - 1])
  }

  /** A match lying wholly before the end of `t` sees the same characters in `t + u`. */
  lemma RuleAtInside(rule: Rule, t: string, u: string, i: nat)
    requires |rule.pattern| > 0
    requires i + |rule.pattern| < |t|
    ensures RuleAt(rule, t + u, i) <==> RuleAt(rule, t, i)
  {
    var s := t + u;
    var n := |rule.pattern|;
    assert s[i..i + n] == t[i..i + n];
    assert i > 0 ==> s[i - 1] == t[i - 1];
    assert s[i + n] == t[i + n];
  }

  /** No match ends exactly at the end of `t`, in `t` or in `t + u`, unless the rule asks nothing of what follows. */
  lemma RuleAtTouching(rule: Rule, t: string, u: string, i: nat)
    requires EndSafe(rule) && EndsBefore(rule, t)
    requires i + |rule.pattern| == |t|
    ensures RuleAt(rule, t + u, i) <==> RuleAt(rule, t, i)
  {
    var s := t + u;
    var n := |rule.pattern|;
    var w := t[i..i + n];
    assert s[i..i + n] == w;
    assert i > 0 ==> s[i - 1] == t[i - 1];
    if rule.after != Anything {
      assert Lower(w) != rule.pattern by {
        LowerCharWord(w[n - 1]);
        assert w[n - 1] == t[|t| - 1];
        assert Lower(w)[n - 1] == LowerChar(t[|t| - 1]);
      }
    }
  }

  /** A match that would cross the end of `t` needs a word character where `t` ends outside one. */
  lemma RuleAtAcross(rule: Rule, t: string, u: string, i: nat)
    requires EndSafe(rule)
    requires EndsOutsideWord(t)
    requires i < |t| < i + |rule.pattern|
    ensures !RuleAt(rule, t + u, i) && !RuleAt(rule, t, i)
  {
    var s := t + u;
    var n := |rule.pattern|;
    var last := t[|t| - 1];
    LowerCharWord(last);
    if i + n <= |s| {
      var k := |t| - 1 - i;
      assert s[i + k] == t[i + k] == last;
      assert s[i..i + n][k] == s[i + k];
      assert Lower(s[i..i + n])[k] == LowerChar(last);
    }
  }

  /**
   * Text appended after `t` does not change the decisions taken inside `t`: a match at a
   * position of `t` lies within `t`.
   */
  lemma RuleAtPrefix(rule: Rule, t: string, u: string, i: nat)
    requires EndSafe(rule) && EndsBefore(rule, t)
    requires i < |t|
    ensures RuleAt(rule, t + u, i) <==> RuleAt(rule, t, i)
    ensures RuleAt(rule, t + u, i) ==> i + |rule.pattern| <= |t|
  {
    var n := |rule.pattern|;
    if i + n < |t| {
      RuleAtInside(rule, t, u, i);
    } else if i + n == |t| {
      RuleAtTouching(rule, t, u, i);
    } else {
      RuleAtAcross(rule, t, u, i);
    }
  }

  /**
   * When `s` extends `t` and the rule matches at the same positions of both up to the end of
   * `t`, the scan of `s` is the scan of `t` followed by the scan of what `s` adds.
   */
  lemma {:induction false} RewriteFromPrefix(rule: Rule, s: string, t: string, i: nat)
    requires |rule.pattern| > 0
    requires i <= |t| <= |s| && s[..|t|] == t
    requires forall j | i <= j < |t| :: RuleAt(rule, s, j) <==> RuleAt(rule, t, j)
    ensures RewriteFrom(rule, s, i) == RewriteFrom(rule, t, i) + RewriteFrom(rule, s, |t|)
    decreases |t| - i
  {
    if i < |t| {
      var n := |rule.pattern|;
      if RuleAt(rule, t, i) {
        RewriteFromPrefix(rule, s, t, i + n);
      } else {
        assert s[i] == t[i];
        RewriteFromPrefix(rule, s, t, i + 1);
      }
    }
  }

  /**
   * A position of `v` is decided alike in `v` and in `p + v`: past its start the character
   * before it is the same, and at its start either `p` ends outside a word, as the start of a
   * text does, or `v` starts outside a word, where no pattern starts.
   */
  lemma RuleAtSuffix(rule: Rule, p: string, v: string, k: nat)
    requires EndSafe(rule)
    requires k < |v|
    requires k > 0 || EndsOutsideWord(p) || !IsWordChar(v[0])
    ensures RuleAt(rule, p + v, |p| + k) <==> RuleAt(rule, v, k)
  {
    var s := p + v;
    var n := |rule.pattern|;
    if k + n <= |v| {
      assert s[|p| + k..|p| + k + n] == v[k..k + n];
      if k + n < |v| {
        assert s[|p| + k + n] == v[k + n];
      }
      if k > 0 {
        assert s[|p| + k - 1] == v[k - 1];
      } else if EndsOutsideWord(p) {
        assert p != [] ==> s[|p| - 1] == p[|p| - 1];
      } else {
        LowerCharWord(v[0]);
        assert Lower(v[k..k + n])[0] == LowerChar(v[0]);
      }
    }
  }

  /**
   * Inside `v`, the scan of `p + v` is the scan of `v` alone, when the first position of `v`
   * is decided alike in both.
   */
  lemma {:induction false} RewriteFromSuffix(rule: Rule, p: string, v: string, j: nat)
    requires EndSafe(rule)
    requires j <= |v|
    requires j > 0 || EndsOutsideWord(p) || v == [] || !IsWordChar(v[0])
    ensures RewriteFrom(rule, p + v, |p| + j) == RewriteFrom(rule, v, j)
    decreases |v| - j
  {
    if j < |v| {
      RuleAtSuffix(rule, p, v, j);
      if RuleAt(rule, v, j) {
        RewriteFromSuffix(rule, p, v, j + |rule.pattern|);
        SuffixMatchedStep(rule, p, v, j);
      } else {
        RewriteFromSuffix(rule, p, v, j + 1);
        SuffixUnmatchedStep(rule, p, v, j);
      }
    }
  }

  /** One step of `RewriteFromSuffix` at a position where the rule matches. */
  lemma SuffixMatchedStep(rule: Rule, p: string, v: string, j: nat)
    requires |rule.pattern| > 0 && j + |rule.pattern| <= |v|
    requires RuleAt(rule, v, j) && RuleAt(rule, p + v, |p| + j)
    requires RewriteFrom(rule, p + v, |p| + j + |rule.pattern|) == RewriteFrom(rule, v, j + |rule.pattern|)
    ensures RewriteFrom(rule, p + v, |p| + j) == RewriteFrom(rule, v, j)
  {
    MatchedStep(rule, p + v, |p| + j);
    MatchedStep(rule, v, j);
  }

  /** One step of `RewriteFromSuffix` at a position where the rule does not match. */
  lemma SuffixUnmatchedStep(rule: Rule, p: string, v: string, j: nat)
    requires |rule.pattern| > 0 && j < |v|
    requires !RuleAt(rule, v, j) && !RuleAt(rule, p + v, |p| + j)
    requires RewriteFrom(rule, p + v, |p| + j + 1) == RewriteFrom(rule, v, j + 1)
    ensures RewriteFrom(rule, p + v, |p| + j) == RewriteFrom(rule, v, j)
  {
    UnmatchedStep(rule, p + v, |p| + j);
    UnmatchedStep(rule, v, j);
    assert (p + v)[|p| + j] == v[j];
  }

  /** The pattern word `u` after `t`, followed by `v` that meets the rule's condition, is a match. */
  lemma WordMatched(rule: Rule, t: string, u: string, v: string)
    requires |rule.pattern| > 0 && EndsOutsideWord(t)
    requires Lower(u) == rule.pattern
    requires AfterHolds(rule.after, v, 0)
    ensures |t + u + v| == |t| + |rule.pattern| + |v| && RuleAt(rule, t + u + v, |t|)
  {
    var s := t + u + v;
    var n := |rule.pattern|;
    assert s[|t|..|t| + n] == u;
    assert |t| > 0 ==> s[|t| - 1] == t[|t| - 1];
    assert v != [] ==> s[|t| + n] == v[0];
  }

  /** Whatever follows `t`, the scan up to the end of `t` is the scan of `t` alone. */
  lemma RewriteBefore(rule: Rule, t: string, w: string)
    requires EndSafe(rule) && EndsBefore(rule, t)
    ensures Rewrite(rule, t + w) == Rewrite(rule, t) + RewriteFrom(rule, t + w, |t|)
  {
    var s := t + w;
    forall j | 0 <= j < |t| ensures RuleAt(rule, s, j) <==> RuleAt(rule, t, j) {
      RuleAtPrefix(rule, t, w, j);
    }
    assert s[..|t|] == t;
    RewriteFromPrefix(rule, s, t, 0);
  }

  /**
   * After `p`, the scan reads `v` as if it stood alone, when `p` ends outside a word or `v`
   * does not start with a word character.
   */
  lemma RewriteAfter(rule: Rule, p: string, v: string)
    requires EndSafe(rule)
    requires EndsOutsideWord(p) || v == [] || !IsWordChar(v[0])
    ensures RewriteFrom(rule, p + v, |p|) == Rewrite(rule, v)
  {
    RewriteFromSuffix(rule, p, v, 0);
  }

  /**
   * A pattern word is replaced wherever it stands, and the text on either side is rewritten as
   * if it stood alone: `t + u + v`, where `u` spells the pattern in any case, becomes the
   * rewritten `t`, the replacement and the rewritten `v`. The conditions: `t` ends where no
   * match can reach into `u`, `v` meets the rule's condition on the character after the
   * pattern, and a pattern ending in a word character is followed by no word character.
   */
  lemma RewriteWord(rule: Rule, t: string, u: string, v: string)
    requires EndSafe(rule) && EndsBefore(rule, t)
    requires Lower(u) == rule.pattern
    requires AfterHolds(rule.after, v, 0)
    requires !IsWordChar(rule.pattern[|rule.pattern| - 1]) || v == [] || !IsWordChar(v[0])
    ensures Rewrite(rule, t + u + v) == Rewrite(rule, t) + rule.replacement + Rewrite(rule, v)
  {
    var s := t + u + v;
    var p := t + u;
    assert s == t + (u + v) && s == p + v;
    RewriteBefore(rule, t, u + v);
    WordMatched(rule, t, u, v);
    MatchedStep(rule, s, |t|);
    PatternWordEnd(rule, t, u, v);
    RewriteAfter(rule, p, v);
    ThreeParts(Rewrite(rule, s), Rewrite(rule, t), RewriteFrom(rule, s, |t|), rule.replacement,
               RewriteFrom(rule, s, |p|), Rewrite(rule, v));
  }

  /** A pattern word ending outside a word leaves `t + u` ending outside one. */
  lemma PatternWordEnd(rule: Rule, t: string, u: string, v: string)
    requires |rule.pattern| > 0 && Lower(u) == rule.pattern
    requires !IsWordChar(rule.pattern[|rule.pattern| - 1]) || v == [] || !IsWordChar(v[0])
    ensures EndsOutsideWord(t + u) || v == [] || !IsWordChar(v[0])
  {
    var n := |rule.pattern|;
    assert (t + u)[|t + u| - 1] == u[n - 1] && LowerChar(u[n - 1]) == rule.pattern[n - 1];
    LowerCharWord(u[n - 1]);
  }

  /** A match is replaced and the scan resumes after it. */
  lemma MatchedStep(rule: Rule, s: string, i: nat)
    requires |rule.pattern| > 0 && i <= |s| && RuleAt(rule, s, i)
    ensures RewriteFrom(rule, s, i) == rule.replacement + RewriteFrom(rule, s, i + |rule.pattern|)
  {
  }

  lemma UnmatchedStep(rule: Rule, s: string, i: nat)
    requires |rule.pattern| > 0 && i < |s| && !RuleAt(rule, s, i)
    ensures RewriteFrom(rule, s, i) == [s[i]] + RewriteFrom(rule, s, i + 1)
  {
  }

  lemma ThreeParts(x: string, a: string, b: string, r: string, c: string, d: string)
    requires x == a + b && b == r + c && c == d
    ensures x == a + r + d
  {
  }

  /**
   * A rule that asks nothing of a following word character rewrites a pattern word at the end
   * of a name: `t + u` becomes the rewritten `t` followed by the replacement.
   */
  lemma RewriteAtEnd(rule: Rule, t: string, u: string)
    requires EndSafe(rule) && rule.after != WordFollows
    requires EndsOutsideWord(t)
    requires Lower(u) == rule.pattern
    ensures Rewrite(rule, t + u) == Rewrite(rule, t) + rule.replacement
  {
    RewriteWord(rule, t, u, []);
    assert t + u + [] == t + u;
  }

  /** "Limited" as a whole word, in any case, becomes "Ltd" wherever it stands in a name. */
  lemma LimitedWord(t: string, u: string, v: string)
    requires EndsOutsideWord(t)
    requires Lower(u) == "limited"
    requires v == [] || !IsWordChar(v[0])
    ensures Rewrite(LimitedRule, t + u + v) == Rewrite(LimitedRule, t) + "Ltd" + Rewrite(LimitedRule, v)
  {
    RewriteWord(LimitedRule, t, u, v);
  }

  /** As written, "Ltd." followed by a word character becomes "Ltd" wherever it stands. */
  lemma LtdDotBeforeWord(t: string, u: string, v: string)
    requires EndsOutsideWord(t) && (t == [] || t[|t| - 1] != '.')
    requires Lower(u) == "ltd."
    requires v != [] && IsWordChar(v[0])
    ensures Rewrite(LtdDotRule, t + u + v) == Rewrite(LtdDotRule, t) + "Ltd" + Rewrite(LtdDotRule, v)
  {
    RewriteWord(LtdDotRule, t, u, v);
  }

  /** With the trailing `\b` dropped, "Ltd." ending a name becomes "Ltd". */
  lemma TrailingLtdDotRewritten(t: string, u: string)
    requires EndsOutsideWord(t)
    requires Lower(u) == "ltd."
    ensures Rewrite(TrailingLtdDotRule, t + u) == Rewrite(TrailingLtdDotRule, t) + "Ltd"
  {
    RewriteAtEnd(TrailingLtdDotRule, t, u);
  }

  /** The substitution as written never matches at the end of a text: a word character must follow the period. */
  lemma LtdDotNeedsFollower(s: string)
    requires |s| >= 4
    ensures !RuleAt(LtdDotRule, s, |s| - 4)
  {
  }

  /**
   * As written, "Ltd." ending a name is kept: for `t` ending in white space, `t + u` becomes the
   * rewritten `t` followed by `u` unchanged.
   */
  lemma TrailingLtdDotKept(t: string, u: string)
    requires t == [] || IsSpace(t[|t| - 1])
    requires Lower(u) == "ltd."
    ensures Rewrite(LtdDotRule, t + u) == Rewrite(LtdDotRule, t) + u
  {
    assert EndsBefore(LtdDotRule, t);
    RewriteBefore(LtdDotRule, t, u);
    LtdDotKeptAtEnd(t, u);
  }

  /** The final "Ltd." has no word character after it, so the scan copies it. */
  lemma LtdDotKeptAtEnd(t: string, u: string)
    requires Lower(u) == "ltd."
    ensures RewriteFrom(LtdDotRule, t + u, |t|) == u
  {
    var s := t + u;
    LtdDotNeedsFollower(s);
    ShortUnchanged(LtdDotRule, s, |t| + 1);
    assert s[|t|..] == u;
    assert s[|t| + 1..] == u[1..];
    assert u == [u[0]] + u[1..];
  }

  // ================================================================ normalize_name

  /** Lower-case, then strip. */
  function Finish(s: string): string {
    Strip(Lower(s))
  }

  /** `normalize_name` as written, with `\bLtd\.\b` as its third substitution. */
  function NormalizeName(name: string): string {
    Finish(Rewrite(LtdDotRule, Rewrite(LimitedRule, RemoveParenthesized(name))))
  }

  /** `normalize_name` with the third substitution dropping the period of a trailing "Ltd." too. */
  function NormalizeNameCorrected(name: string): string {
    Finish(Rewrite(TrailingLtdDotRule, Rewrite(LimitedRule, RemoveParenthesized(name))))
  }

  /** A finished name has no upper-case letter and no white space at either end. */
  lemma FinishShape(s: string)
    ensures forall i | 0 <= i < |Finish(s)| :: !IsUpper(Finish(s)[i])
    ensures Finish(s) == [] || (!IsSpace(Finish(s)[0]) && !IsSpace(Finish(s)[|Finish(s)| - 1]))
  {
    StripChars(Lower(s));
  }

  /** A normalised name has no upper-case letter and no white space at either end. */
  lemma NormalizeNameShape(name: string)
    ensures forall i | 0 <= i < |NormalizeName(name)| :: !IsUpper(NormalizeName(name)[i])
    ensures NormalizeName(name) == [] ||
              (!IsSpace(NormalizeName(name)[0]) && !IsSpace(NormalizeName(name)[|NormalizeName(name)| - 1]))
  {
    FinishShape(Rewrite(LtdDotRule, Rewrite(LimitedRule, RemoveParenthesized(name))));
  }

  /** Finishing is idempotent. */
  lemma FinishIdempotent(s: string)
    ensures Finish(Finish(s)) == Finish(s)
  {
    FinishShape(s);
    var f := Finish(s);
    forall i | 0 <= i < |f| ensures Lower(f)[i] == f[i] {
    }
    assert Lower(f) == f;
    StripUnchanged(f);
  }

  // ================================================================ worked names

  /** The first `)` of a run free of `)` and newlines closes the group. */
  lemma {:induction false} CloseIndexAt(s: string, j: nat, c: nat)
    requires j <= c < |s| && s[c] == ')'
    requires forall k | j <= k < c :: s[k] != ')' && s[k] != '\n'
    ensures CloseIndex(s, j) == Some(c)
    decreases c - j
  {
    if j < c {
      CloseIndexAt(s, j + 1, c);
    }
  }

  /** One white space character, then something else: a white space run of length one. */
  lemma OneSpace(x: string)
    requires |x| >= 2 && IsSpace(x[0]) && !IsSpace(x[1])
    ensures LeadingSpaces(x) == 1
  {
    assert x[1..][0] == x[1];
  }

  /** ` (b) u`, with `u` starting outside white space, is one match that ends where `u` starts. */
  lemma GroupMatched(b: string, u: string)
    requires forall k | 0 <= k < |b| :: b[k] != ')' && b[k] != '\n'
    requires u != [] && !IsSpace(u[0])
    ensures ParenMatchEnd(" (" + b + ") " + u) == Some(|b| + 4)
  {
    var r := " (" + b + ") " + u;
    var c := |b| + 2;
    OneSpace(r);
    assert forall k | 2 <= k < c :: r[k] != ')' && r[k] != '\n' by {
      forall k | 2 <= k < c ensures r[k] == b[k - 2] { }
    }
    CloseIndexAt(r, 2, c);
    assert r[c + 1..][1] == u[0];
    OneSpace(r[c + 1..]);
  }

  /** ` (b) u` becomes ` u` when `u` starts outside white space and holds no `(`. */
  lemma GroupDropped(b: string, u: string)
    requires forall k | 0 <= k < |b| :: b[k] != ')' && b[k] != '\n'
    requires u != [] && !IsSpace(u[0]) && forall k | 0 <= k < |u| :: u[k] != '('
    ensures RemoveParenthesized(" (" + b + ") " + u) == " " + u
  {
    var g := " (" + b + ") " + u;
    GroupMatched(b, u);
    ReplacedFirst(g, |b| + 4);
    assert g[|b| + 4..] == u;
    NoParenUnchanged(u);
  }

  /**
   * A parenthesised qualifier between two words becomes one space: `a (b) u` turns into
   * `a u` when `a` holds no white space or `(`, `b` no `)` or newline, and `u` starts
   * outside white space and holds no `(`.
   */
  lemma QualifierDropped(a: string, b: string, u: string)
    requires forall k | 0 <= k < |a| :: !IsSpace(a[k]) && a[k] != '('
    requires forall k | 0 <= k < |b| :: b[k] != ')' && b[k] != '\n'
    requires u != [] && !IsSpace(u[0]) && forall k | 0 <= k < |u| :: u[k] != '('
    ensures RemoveParenthesized(a + (" (" + b + ") " + u)) == a + " " + u
  {
    PlainPrefixCopied(a, " (" + b + ") " + u);
    GroupDropped(b, u);
    assert a + (" " + u) == a + " " + u;
  }

  lemma AcmeUkLimitedParens()
    ensures RemoveParenthesized("Acme (UK) Limited") == "Acme Limited"
  {
    var a, b, u := "Acme", "UK", "Limited";
    assert a + (" (" + b + ") " + u) == "Acme (UK) Limited";
    assert a + " " + u == "Acme Limited";
    QualifierDropped(a, b, u);
  }

  lemma AcmeLimitedRewritten()
    ensures Rewrite(LimitedRule, "Acme Limited") == "Acme Ltd"
  {
    assert "Acme Limited" == "Acme " + "Limited";
    assert "Acme Limited" == "Acme " + "Limited" + [];
    LimitedWord("Acme ", "Limited", []);
    ShortUnchanged(LimitedRule, "Acme ", 0);
    assert "Acme "[0..] == "Acme ";
  }

  lemma AcmeLtdKept(rule: Rule)
    requires rule == LtdDotRule || rule == TrailingLtdDotRule
    ensures Rewrite(rule, "Acme Ltd") == "Acme Ltd"
  {
    MissingCharUnchanged(rule, "Acme Ltd", 0, 3);
    assert "Acme Ltd"[0..] == "Acme Ltd";
  }

  lemma AcmeLtdFinished()
    ensures Finish("Acme Ltd") == "acme ltd"
  {
    assert Lower("Acme Ltd") == "acme ltd";
    StripUnchanged("acme ltd");
  }

  /** "Acme (UK) Limited" normalises to "acme ltd", as written and corrected alike. */
  lemma AcmeUkLimited()
    ensures NormalizeName("Acme (UK) Limited") == "acme ltd"
    ensures NormalizeNameCorrected("Acme (UK) Limited") == "acme ltd"
  {
    AcmeUkLimitedParens();
    AcmeLimitedRewritten();
    AcmeLtdKept(LtdDotRule);
    AcmeLtdKept(TrailingLtdDotRule);
    AcmeLtdFinished();
  }

  lemma AcmeLtdDotParens()
    ensures RemoveParenthesized("Acme Ltd.") == "Acme Ltd."
  {
    NoParenUnchanged("Acme Ltd.");
  }

  /** No character of "Acme Ltd." lower-cases to the `i` of "limited". */
  lemma AcmeLtdDotNotLimited()
    ensures Rewrite(LimitedRule, "Acme Ltd.") == "Acme Ltd."
  {
    MissingCharUnchanged(LimitedRule, "Acme Ltd.", 0, 1);
    assert "Acme Ltd."[0..] == "Acme Ltd.";
  }

  /** "Acme " holds no dot, so neither "Ltd." rule touches it. */
  lemma AcmeSpaceUnchanged(rule: Rule)
    requires rule == LtdDotRule || rule == TrailingLtdDotRule
    ensures Rewrite(rule, "Acme ") == "Acme "
  {
    MissingCharUnchanged(rule, "Acme ", 0, 3);
    assert "Acme "[0..] == "Acme ";
  }

  /** The substitution as written keeps the trailing "Ltd.". */
  lemma AcmeLtdDotAsWritten()
    ensures Rewrite(LtdDotRule, "Acme Ltd.") == "Acme Ltd."
  {
    var t, u := "Acme ", "Ltd.";
    assert t + u == "Acme Ltd.";
    assert Lower(u) == "ltd.";
    TrailingLtdDotKept(t, u);
    AcmeSpaceUnchanged(LtdDotRule);
  }

  /** The corrected substitution rewrites it. */
  lemma AcmeLtdDotCorrected()
    ensures Rewrite(TrailingLtdDotRule, "Acme Ltd.") == "Acme Ltd"
  {
    var t, u := "Acme ", "Ltd.";
    assert t + u == "Acme Ltd.";
    assert Lower(u) == "ltd.";
    TrailingLtdDotRewritten(t, u);
    AcmeSpaceUnchanged(TrailingLtdDotRule);
    assert t + "Ltd" == "Acme Ltd";
  }

  lemma AcmeLtdDotFinished()
    ensures Finish("Acme Ltd.") == "acme ltd."
  {
    assert Lower("Acme Ltd.") == "acme ltd.";
    StripUnchanged("acme ltd.");
  }

  /**
   * "Acme Ltd." and "Acme (UK) Limited" name the same company: the two normalise apart as
   * written, and alike with the corrected substitution.
   */
  lemma AcmeLtdDot()
    ensures NormalizeName("Acme Ltd.") == "acme ltd."
    ensures NormalizeNameCorrected("Acme Ltd.") == "acme ltd"
    ensures NormalizeName("Acme Ltd.") != NormalizeName("Acme (UK) Limited")
    ensures NormalizeNameCorrected("Acme Ltd.") == NormalizeNameCorrected("Acme (UK) Limited")
  {
    AcmeLtdDotParens();
    AcmeLtdDotNotLimited();
    AcmeLtdDotAsWritten();
    AcmeLtdDotCorrected();
    AcmeLtdDotFinished();
    AcmeLtdFinished();
    AcmeUkLimited();
  }

  /**
   * Normalising twice can differ from normalising once: the newline keeps the outer group of
   * "(\n())" unmatched, so one pass leaves "( )", which a second pass removes.
   */
  lemma NewlineGroupOnce(r: string)
    requires r == "(\n())"
    ensures RemoveParenthesized(r) == "( )"
  {
    NewlineGroupScan(r);
    NoParenUnchanged(")");
  }

  /** The outer "(" is copied and the inner group with the newline before it becomes one space. */
  lemma NewlineGroupScan(r: string)
    requires r == "(\n())"
    ensures RemoveParenthesized(r) == "( " + RemoveParenthesized(")")
  {
    var x := r[1..];
    OuterGroupUnmatched(r);
    InnerGroupMatched(x);
    CopiedThenReplaced(r, 3);
  }

  /** A first character copied, then a match at the next position. */
  lemma CopiedThenReplaced(r: string, e: nat)
    requires r != [] && ParenMatchEnd(r) == None
    requires r[1..] != [] && ParenMatchEnd(r[1..]) == Some(e)
    ensures RemoveParenthesized(r) == [r[0]] + " " + RemoveParenthesized(r[1..][e..])
  {
    var x := r[1..];
    CopiedFirst(r);
    ReplacedFirst(x, e);
    ConsSpace(r[0], RemoveParenthesized(r), RemoveParenthesized(x), RemoveParenthesized(x[e..]));
  }

  lemma ConsSpace(c: char, a: string, b: string, d: string)
    requires a == [c] + b && b == " " + d
    ensures a == [c] + " " + d
  {
    assert [c] + (" " + d) == [c] + " " + d;
  }

  /** The newline stops the lazy `.*?` of the outer group. */
  lemma OuterGroupUnmatched(r: string)
    requires r == "(\n())"
    ensures r != [] && r[0] == '(' && ParenMatchEnd(r) == None
    ensures r[1..] == "\n())"
  {
    assert LeadingSpaces(r) == 0;
    assert CloseIndex(r, 1) == None;
  }

  /** The newline is white space before the inner group "()". */
  lemma InnerGroupMatched(x: string)
    requires x == "\n())"
    ensures ParenMatchEnd(x) == Some(3) && x[3..] == ")"
  {
    OneSpace(x);
    assert CloseIndex(x, 2) == Some(2);
    assert x[3..] == ")";
    assert LeadingSpaces(x[3..]) == 0;
  }

  lemma SpacedGroupRemoved()
    ensures RemoveParenthesized("( )") == " "
  {
    var r := "( )";
    assert ParenMatchEnd(r) == Some(3) by {
      assert LeadingSpaces(r) == 0;
      assert CloseIndex(r, 1) == Some(2) by {
        assert CloseIndex(r, 2) == Some(2);
      }
      assert r[3..] == [];
    }
    ReplacedFirst(r, 3);
    assert r[3..] == [];
  }

  lemma SpacedGroupKept(rule: Rule)
    requires rule == LtdDotRule || rule == TrailingLtdDotRule
    ensures Rewrite(rule, Rewrite(LimitedRule, "( )")) == "( )"
    ensures Finish("( )") == "( )"
  {
    ShortUnchanged(LimitedRule, "( )", 0);
    ShortUnchanged(rule, "( )", 0);
    assert "( )"[0..] == "( )";
    assert Lower("( )") == "( )";
    StripUnchanged("( )");
  }

  lemma LoneSpaceFinished(rule: Rule)
    requires rule == LtdDotRule || rule == TrailingLtdDotRule
    ensures Rewrite(rule, Rewrite(LimitedRule, " ")) == " "
    ensures Finish(" ") == ""
  {
    ShortUnchanged(LimitedRule, " ", 0);
    ShortUnchanged(rule, " ", 0);
    assert " "[0..] == " ";
    assert Lower(" ") == " ";
    assert LeadingSpaces(" ") == 1;
  }

  /** Normalising twice can differ from normalising once, as written and corrected alike. */
  lemma NormalizeNameNotIdempotent()
    ensures NormalizeName("(\n())") == "( )"
    ensures NormalizeName(NormalizeName("(\n())")) == ""
    ensures NormalizeNameCorrected("(\n())") == "( )"
    ensures NormalizeNameCorrected(NormalizeNameCorrected("(\n())")) == ""
  {
    NewlineGroupOnce("(\n())");
    SpacedGroupKept(LtdDotRule);
    SpacedGroupKept(TrailingLtdDotRule);
    SpacedGroupRemoved();
    LoneSpaceFinished(LtdDotRule);
    LoneSpaceFinished(TrailingLtdDotRule);
  }
}
