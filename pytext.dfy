/**
 * The parts of Python's string handling that the scripts rely on:
 * whitespace, slicing, `str.replace`, `int()` on a string, list indexing
 * with negative indices, and the two shapes of regular expression they use
 * (a pattern whose only metacharacter is `.`, searched anywhere, and the
 * same pattern anchored by `$`).
 *
 * Regular-expression semantics follow Python's `re` without flags: `.`
 * matches any character except a newline, and `$` matches at the end of the
 * text or just before a newline that ends the text.
 */
module PyText {

  datatype Option<T> = None | Some(value: T)

  /** `str.isspace()` for one character (the characters Python treats as whitespace). */
  predicate IsSpace(c: char)
  {
    c == ' ' || ('\t' <= c <= '\r') || ('\U{1c}' <= c <= '\U{1f}') || c == '\U{85}' || c == '\U{a0}'
    || c == '\U{1680}' || ('\U{2000}' <= c <= '\U{200a}') || c == '\U{2028}' || c == '\U{2029}'
    || c == '\U{202f}' || c == '\U{205f}' || c == '\U{3000}'
  }

  predicate IsDigit(c: char) { '0' <= c <= '9' }

  predicate StartsWith(s: string, prefix: string)
  {
    |prefix| <= |s| && s[..|prefix|] == prefix
  }

  predicate EndsWith(s: string, suffix: string)
  {
    |suffix| <= |s| && s[|s| - |suffix|..] == suffix
  }

  /** `s[k:]` for a non-negative `k`: empty when `k` is past the end. */
  function DropPrefix(s: string, k: nat): (r: string)
    ensures |r| == if k <= |s| then |s| - k else 0
    ensures forall i :: 0 <= i < |r| ==> r[i] == s[k + i]
  {
    if k <= |s| then s[k..] else []
  }

  // ---------------------------------------------------------------------
  // Substring occurrence and `str.replace`
  // ---------------------------------------------------------------------

  predicate OccursAt(s: string, pat: string, k: int)
  {
    0 <= k && k + |pat| <= |s| && s[k..k + |pat|] == pat
  }

  /** `pat in s` */
  predicate Occurs(s: string, pat: string)
  {
    exists k | 0 <= k <= |s| - |pat| :: OccursAt(s, pat, k)
  }

  /** A character of the pattern that the text lacks rules the pattern out. */
  lemma AbsentChar(s: string, pat: string, c: char)
    requires c in pat && c !in s
    ensures !Occurs(s, pat)
  {
    var j :| 0 <= j < |pat| && pat[j] == c;
    forall k | 0 <= k <= |s| - |pat|
      ensures !OccursAt(s, pat, k)
    {
      assert s[k..k + |pat|][j] == s[k + j] != c;
    }
  }

  /** A text shorter than the pattern cannot contain it. */
  lemma TooShort(s: string, pat: string)
    requires |s| < |pat|
    ensures !Occurs(s, pat)
  {
  }

  /**
   * An occurrence of a pattern without `sep` in `a + [sep] + b` lies wholly
   * inside `a` or wholly inside `b`.
   */
  lemma OccursAcrossSeparator(a: string, sep: char, b: string, pat: string)
    requires sep !in pat
    requires !Occurs(a, pat) && !Occurs(b, pat)
    ensures !Occurs(a + [sep] + b, pat)
  {
    var s := a + [sep] + b;
    forall k | 0 <= k <= |s| - |pat|
      ensures !OccursAt(s, pat, k)
    {
      if k + |pat| <= |a| {
        assert s[k..k + |pat|] == a[k..k + |pat|];
        assert !OccursAt(a, pat, k);
      } else if k > |a| {
        assert s[k..k + |pat|] == b[k - |a| - 1..k - |a| - 1 + |pat|];
        assert !OccursAt(b, pat, k - |a| - 1);
      } else {
        assert s[k..k + |pat|][|a| - k] == sep;
      }
    }
  }

  /**
   * Python's `s.replace(target, repl)` for a non-empty `target`: occurrences are
   * replaced left to right, and the text scanned after a replacement starts
   * right after the replaced occurrence.
   */
  function Replace(s: string, target: string, repl: string): (r: string)
    requires |target| > 0
    decreases |s|
  {
    if |s| < |target| then s
    else if s[..|target|] == target then repl + Replace(s[|target|..], target, repl)
    else [s[0]] + Replace(s[1..], target, repl)
  }

  /** A text without any occurrence of `target` is left as it is. */
  lemma {:induction false} ReplaceAbsent(s: string, target: string, repl: string)
    requires |target| > 0 && !Occurs(s, target)
    ensures Replace(s, target, repl) == s
    decreases |s|
  {
    if |s| >= |target| {
      assert !OccursAt(s, target, 0);
      forall k | 0 <= k <= |s| - 1 - |target|
        ensures !OccursAt(s[1..], target, k)
      {
        assert s[1..][k..k + |target|] == s[k + 1..k + 1 + |target|];
        assert !OccursAt(s, target, k + 1);
      }
      ReplaceAbsent(s[1..], target, repl);
    }
  }

  /** Replacing inside `a + b`, where `a` cannot start an occurrence, leaves `a` alone. */
  lemma {:induction false} ReplaceKeepsPrefix(a: string, b: string, target: string, repl: string)
    requires |target| > 0 && target[0] !in a
    ensures Replace(a + b, target, repl) == a + Replace(b, target, repl)
    decreases |a|
  {
    if a != [] {
      var s := a + b;
      assert s[0] == a[0] && a[0] in a;
      assert s[1..] == a[1..] + b;
      ReplaceKeepsPrefix(a[1..], b, target, repl);
      if |s| >= |target| {
        assert s[..|target|][0] == a[0] != target[0];
        calc {
          Replace(s, target, repl);
          [a[0]] + Replace(a[1..] + b, target, repl);
          [a[0]] + (a[1..] + Replace(b, target, repl));
          { assert [a[0]] + a[1..] == a; }
          a + Replace(b, target, repl);
        }
      } else {
        // too short to hold an occurrence: both sides are the text itself
        TooShort(b, target);
        ReplaceAbsent(b, target, repl);
        assert Replace(s, target, repl) == s;
      }
    } else {
      assert a + b == b;
    }
  }

  /** An occurrence at the very start is replaced and the scan continues after it. */
  lemma ReplaceAtStart(rest: string, target: string, repl: string)
    requires |target| > 0
    ensures Replace(target + rest, target, repl) == repl + Replace(rest, target, repl)
  {
    assert (target + rest)[..|target|] == target;
    assert (target + rest)[|target|..] == rest;
  }

  // ---------------------------------------------------------------------
  // Python's `int(text)` for base 10 and `str(k)` for an int
  // ---------------------------------------------------------------------

  /** Digits with single underscores between them, as `int()` accepts. */
  predicate DigitGroups(s: string)
  {
    && |s| > 0 && IsDigit(s[0]) && IsDigit(s[|s| - 1])
    && (forall i :: 0 <= i < |s| ==> IsDigit(s[i]) || s[i] == '_')
    && (forall i :: 0 <= i < |s| - 1 && s[i] == '_' ==> s[i + 1] != '_')
  }

  /** The number the digits spell, underscores ignored. */
  function DigitsValue(s: string): nat
    decreases |s|
  {
    if s == [] then 0
    else if IsDigit(s[|s| - 1]) then 10 * DigitsValue(s[..|s| - 1]) + (s[|s| - 1] as int - '0' as int)
    else DigitsValue(s[..|s| - 1])
  }

  function StripStart(s: string): string
    decreases |s|
  {
    if s != [] && IsSpace(s[0]) then StripStart(s[1..]) else s
  }

  function StripEnd(s: string): string
    decreases |s|
  {
    if s != [] && IsSpace(s[|s| - 1]) then StripEnd(s[..|s| - 1]) else s
  }

  /** `lstrip()` removes the leading whitespace and nothing else. */
  lemma {:induction false} StripStartSpec(s: string)
    ensures var r := StripStart(s);
      && |r| <= |s| && r == s[|s| - |r|..]
      && (r == [] || !IsSpace(r[0]))
      && forall i :: 0 <= i < |s| - |r| ==> IsSpace(s[i])
    decreases |s|
  {
    if s != [] && IsSpace(s[0]) {
      StripStartSpec(s[1..]);
    }
  }

  /** `rstrip()` removes the trailing whitespace and nothing else. */
  lemma {:induction false} StripEndSpec(s: string)
    ensures var r := StripEnd(s);
      && |r| <= |s| && r == s[..|r|]
      && (r == [] || !IsSpace(r[|r| - 1]))
      && forall i :: |r| <= i < |s| ==> IsSpace(s[i])
    decreases |s|
  {
    if s != [] && IsSpace(s[|s| - 1]) {
      StripEndSpec(s[..|s| - 1]);
    }
  }

  /** `str.strip()` with no argument. */
  function Strip(s: string): string
  {
    StripEnd(StripStart(s))
  }

  /**
   * `int(text)`: surrounding whitespace, an optional sign, then digit groups;
   * anything else raises ValueError (here `None`).
   */
  function ParseInt(text: string): Option<int>
  {
    var t := Strip(text);
    if |t| > 0 && (t[0] == '+' || t[0] == '-') then
      if DigitGroups(t[1..]) then
        Some(if t[0] == '-' then -(DigitsValue(t[1..]) as int) else DigitsValue(t[1..]))
      else None
    else if DigitGroups(t) then Some(DigitsValue(t))
    else None
  }

  function NatToString(n: nat): (r: string)
    ensures |r| > 0 && forall i :: 0 <= i < |r| ==> IsDigit(r[i])
    decreases n
  {
    if n < 10 then [('0' as int + n) as char]
    else NatToString(n / 10) + [('0' as int + n % 10) as char]
  }

  /** `str(k)` */
  function IntToString(k: int): string
  {
    if k < 0 then "-" + NatToString(-k) else NatToString(k)
  }

  lemma {:induction false} NatToStringValue(n: nat)
    ensures DigitsValue(NatToString(n)) == n
    decreases n
  {
    var r := NatToString(n);
    if n >= 10 {
      NatToStringValue(n / 10);
      assert r[..|r| - 1] == NatToString(n / 10);
    }
  }

  lemma StripUnchanged(s: string)
    requires s != [] && !IsSpace(s[0]) && !IsSpace(s[|s| - 1])
    ensures Strip(s) == s
  {
    assert StripStart(s) == s;
  }

  /** `int(str(k)) == k` */
  lemma ParseIntOfIntToString(k: int)
    ensures ParseInt(IntToString(k)) == Some(k)
  {
    var s := IntToString(k);
    var n: nat := if k < 0 then -k else k;
    var d := NatToString(n);
    NatToStringValue(n);
    StripUnchanged(s);
    if k < 0 {
      assert s[1..] == d;
    }
  }

  /** Text without a digit is never an integer. */
  lemma ParseIntNeedsDigit(text: string)
    requires forall i :: 0 <= i < |text| ==> !IsDigit(text[i])
    ensures ParseInt(text) == None
  {
    var t := StripEnd(StripStart(text));
    var u := StripStart(text);
    StripStartSpec(text);
    StripEndSpec(u);
    assert forall i :: 0 <= i < |t| ==> t[i] == text[|text| - |u| + i];
  }

  // ---------------------------------------------------------------------
  // Python list indexing
  // ---------------------------------------------------------------------

  /** `xs[k]` on a list of length `n`: the position read, or None for IndexError. */
  function PyIndex(n: nat, k: int): (r: Option<nat>)
    ensures r.Some? <==> -(n as int) <= k < n
    ensures r.Some? ==> r.value < n && (r.value as int - k) % n == 0
    ensures r.Some? && k >= 0 ==> r.value == k
    ensures r.Some? && k < 0 ==> r.value == n + k
  {
    if 0 <= k < n then Some(k) else if -(n as int) <= k < 0 then Some(n + k) else None
  }

  // ---------------------------------------------------------------------
  // Regular expressions made of literal characters and `.`
  // ---------------------------------------------------------------------

  /** The pattern matches the text at position `k` (`.` being any character but a newline). */
  predicate DotPatternAt(pat: string, s: string, k: int)
  {
    && 0 <= k && k + |pat| <= |s|
    && forall i :: 0 <= i < |pat| ==> if pat[i] == '.' then s[k + i] != '\n' else s[k + i] == pat[i]
  }

  /** `re.search(pat, s) is not None` for a pattern whose only metacharacter is `.` */
  predicate DotSearch(pat: string, s: string)
  {
    exists k | 0 <= k <= |s| - |pat| :: DotPatternAt(pat, s, k)
  }

  /** `re.search(pat, s)` computed position by position. */
  function DotSearchFrom(pat: string, s: string, k: nat): (r: bool)
    ensures r <==> exists j :: k <= j && DotPatternAt(pat, s, j)
    decreases |s| - k
  {
    if k + |pat| > |s| then false
    else DotPatternAt(pat, s, k) || DotSearchFrom(pat, s, k + 1)
  }

  /** Every text matches itself read as a pattern, provided it has no newline. */
  lemma DotSearchSelf(pat: string, s: string, k: nat)
    requires '\n' !in pat
    requires k + |pat| <= |s| && s[k..k + |pat|] == pat
    ensures DotSearch(pat, s)
  {
    forall i | 0 <= i < |pat|
      ensures if pat[i] == '.' then s[k + i] != '\n' else s[k + i] == pat[i]
    {
      assert s[k + i] == s[k..k + |pat|][i];
    }
    assert DotPatternAt(pat, s, k);
  }

  /** A position where `$` matches. */
  predicate DollarAt(s: string, e: int)
  {
    e == |s| || (|s| >= 1 && e == |s| - 1 && s[|s| - 1] == '\n')
  }

  /**
   * The pattern `.` + `lit` + `$` matches `s` ending at `e`, where `lit`
   * holds literal characters only (as in `.md$` and `.svg$`).
   */
  predicate DotSuffixAt(s: string, lit: string, e: int)
  {
    && DollarAt(s, e) && e >= |lit| + 1
    && s[e - |lit| - 1] != '\n' && s[e - |lit|..e] == lit
  }

  /**
   * Where `re.search('.' + lit + '$', s)` ends its match, if anywhere. The
   * search is leftmost, so a match before a final newline wins over one at
   * the very end.
   */
  function DotSuffixEnd(s: string, lit: string): (r: Option<nat>)
    ensures r.Some? ==> DotSuffixAt(s, lit, r.value)
    ensures r.None? ==> forall e :: !DotSuffixAt(s, lit, e)
    ensures r.Some? ==> forall e :: DotSuffixAt(s, lit, e) ==> r.value <= e
  {
    if |s| >= 1 && DotSuffixAt(s, lit, |s| - 1) then Some(|s| - 1)
    else if DotSuffixAt(s, lit, |s|) then Some(|s|)
    else None
  }

  /**
   * `re.sub('.' + lit + '$', repl, s)`: `re.sub` replaces every match that
   * does not overlap an earlier one, and every match overlaps the leftmost,
   * so there is exactly one replacement: the character that `.` matched and
   * `lit` become `repl`, and the tail after them (nothing, or the final
   * newline) is kept.
   */
  function DotSuffixSub(s: string, lit: string, repl: string): (r: string)
    requires '\n' !in lit
    ensures DotSuffixEnd(s, lit).None? ==> r == s
    ensures DotSuffixEnd(s, lit).Some? ==>
      forall e2 :: DotSuffixAt(s, lit, e2) ==> e2 - |lit| - 1 < DotSuffixEnd(s, lit).value
    ensures DotSuffixEnd(s, lit).Some? ==>
      var e := DotSuffixEnd(s, lit).value;
      var head, dot, tail := s[..e - |lit| - 1], s[e - |lit| - 1], s[e..];
      && s == head + [dot] + lit + tail
      && dot != '\n'
      && (tail == "" || tail == "\n")
      && r == head + repl + tail
  {
    match DotSuffixEnd(s, lit)
    case None => s
    case Some(e) => s[..e - |lit| - 1] + repl + s[e..]
  }

  /** Only newline-free prefixes: `re.match(prefix + '(.*)', s)` captures up to the first newline. */
  function UpToNewline(s: string): (r: string)
    ensures '\n' !in r
    ensures StartsWith(s, r)
    ensures |r| < |s| ==> s[|r|] == '\n'
    decreases |s|
  {
    if s == [] || s[0] == '\n' then [] else [s[0]] + UpToNewline(s[1..])
  }

  lemma {:induction false} UpToNewlineOfLine(s: string)
    requires '\n' !in s
    ensures UpToNewline(s) == s
    decreases |s|
  {
    if s != [] {
      assert s[0] in s;
      assert forall c :: c in s[1..] ==> c in s;
      UpToNewlineOfLine(s[1..]);
    }
  }
}
