/**
 * String operations of JavaScript that the page scripts rely on, written out
 * over `seq<char>`: `includes`, `indexOf`, `replace` with a string pattern
 * (first occurrence only), `replace` with a regular expression anchored by `$`,
 * `trim`, `toLowerCase`/`toUpperCase` (ASCII letters), `toString` of a
 * non-negative integer and `padStart`.
 */
module Strings {

  /** `sub` occurs in `s` starting at position `i`. */
  predicate OccursAt(s: string, sub: string, i: nat)
  {
    i + |sub| <= |s| && s[i..i + |sub|] == sub
  }

  /** First position at or after `from` where `sub` occurs, or -1. */
  function IndexFrom(s: string, sub: string, from: nat): (r: int)
    decreases |s| - from
    ensures r == -1 || (from <= r && OccursAt(s, sub, r))
    ensures r == -1 ==> forall j: nat :: from <= j ==> !OccursAt(s, sub, j)
    ensures r != -1 ==> forall j: nat :: from <= j < r ==> !OccursAt(s, sub, j)
  {
    if from + |sub| > |s| then -1
    else if s[from..from + |sub|] == sub then from
    else IndexFrom(s, sub, from + 1)
  }

  /** JavaScript `s.indexOf(sub)`: the first position of `sub` in `s`, or -1. */
  function IndexOf(s: string, sub: string): (r: int)
    ensures r == -1 || (r >= 0 && OccursAt(s, sub, r))
    ensures r == -1 <==> forall j: nat :: !OccursAt(s, sub, j)
    ensures r != -1 ==> forall j: nat :: j < r ==> !OccursAt(s, sub, j)
  {
    IndexFrom(s, sub, 0)
  }

  /** JavaScript `s.includes(sub)`. */
  predicate Contains(s: string, sub: string)
  {
    IndexOf(s, sub) != -1
  }

  /** JavaScript `s.replace(pat, rep)` for a string `pat`: only the first occurrence is replaced. */
  function ReplaceFirst(s: string, pat: string, rep: string): string
  {
    var i := IndexOf(s, pat);
    if i == -1 then s else s[..i] + rep + s[i + |pat|..]
  }

  predicate EndsWith(s: string, suffix: string)
  {
    |suffix| <= |s| && s[|s| - |suffix|..] == suffix
  }

  /** `s.replace(/suffix$/, rep)`: rewrites `suffix` only where it ends the string. */
  function ReplaceSuffix(s: string, suffix: string, rep: string): string
  {
    if EndsWith(s, suffix) then s[..|s| - |suffix|] + rep else s
  }

  /** The characters JavaScript's `trim` removes (WhiteSpace and LineTerminator). */
  predicate IsSpace(c: char)
  {
    c == ' ' || c == '\t' || c == '\n' || c == '\r' || c == '\U{B}' || c == '\U{C}'
    || c == '\U{A0}' || c == '\U{1680}' || ('\U{2000}' <= c <= '\U{200A}')
    || c == '\U{2028}' || c == '\U{2029}' || c == '\U{202F}' || c == '\U{205F}'
    || c == '\U{3000}' || c == '\U{FEFF}'
  }

  /** `s` without its leading white space: a suffix of `s` that does not start with white space. */
  function TrimStart(s: string): string
  {
    if |s| > 0 && IsSpace(s[0]) then TrimStart(s[1..]) else s
  }

  /** `s` without its trailing white space. */
  function TrimEnd(s: string): string
  {
    if |s| > 0 && IsSpace(s[|s| - 1]) then TrimEnd(s[..|s| - 1]) else s
  }

  /** TrimStart drops a run of leading white space and nothing else: a suffix of `s` that does not start with white space. */
  lemma {:induction false} TrimStartSpec(s: string)
    ensures |TrimStart(s)| <= |s| && TrimStart(s) == s[|s| - |TrimStart(s)|..]
    ensures TrimStart(s) != [] ==> !IsSpace(TrimStart(s)[0])
    ensures forall i :: 0 <= i < |s| - |TrimStart(s)| ==> IsSpace(s[i])
  {
    if |s| > 0 && IsSpace(s[0]) {
      TrimStartSpec(s[1..]);
      forall i | 0 <= i < |s| - |TrimStart(s)|
        ensures IsSpace(s[i])
      {
        if i > 0 {
          assert s[i] == s[1..][i - 1];
        }
      }
    }
  }

  /** TrimEnd drops a run of trailing white space and nothing else: a prefix of `s` that does not end with white space. */
  lemma {:induction false} TrimEndSpec(s: string)
    ensures |TrimEnd(s)| <= |s| && TrimEnd(s) == s[..|TrimEnd(s)|]
    ensures TrimEnd(s) != [] ==> !IsSpace(TrimEnd(s)[|TrimEnd(s)| - 1])
    ensures forall i :: |TrimEnd(s)| <= i < |s| ==> IsSpace(s[i])
  {
    if |s| > 0 && IsSpace(s[|s| - 1]) {
      TrimEndSpec(s[..|s| - 1]);
      forall i | |TrimEnd(s)| <= i < |s|
        ensures IsSpace(s[i])
      {
        if i < |s| - 1 {
          assert s[i] == s[..|s| - 1][i];
        }
      }
    }
  }

  /** JavaScript `s.trim()`. */
  function Trim(s: string): string
  {
    TrimEnd(TrimStart(s))
  }

  function LowerChar(c: char): char
  {
    if 'A' <= c <= 'Z' then (c as int + 32) as char else c
  }

  function UpperChar(c: char): char
  {
    if 'a' <= c <= 'z' then (c as int - 32) as char else c
  }

  /** JavaScript `s.toLowerCase()`, restricted to the ASCII letters. */
  function ToLower(s: string): (r: string)
    ensures |r| == |s| && forall i :: 0 <= i < |s| ==> r[i] == LowerChar(s[i])
  {
    if s == [] then [] else [LowerChar(s[0])] + ToLower(s[1..])
  }

  /** `str.charAt(0).toUpperCase() + str.slice(1)`. */
  function Capitalize(s: string): (r: string)
    ensures |r| == |s| && (s != [] ==> r[1..] == s[1..])
    ensures s != [] ==> r[0] == UpperChar(s[0])
  {
    if s == [] then [] else [UpperChar(s[0])] + s[1..]
  }

  function DigitChar(d: nat): char
    requires d < 10
  {
    "0123456789"[d]
  }

  /** JavaScript `n.toString()` for a non-negative integer. */
  function NatToString(n: nat): (r: string)
    ensures AllDigits(r) && DigitsValue(r) == n
    ensures 1 <= |r| && (n < 10 <==> |r| == 1) && (10 <= n < 100 <==> |r| == 2)
  {
    if n < 10 then [DigitChar(n)] else NatToString(n / 10) + [DigitChar(n % 10)]
  }

  /** `s.padStart(2, '0')`. */
  function PadStart2(s: string): string
  {
    if |s| >= 2 then s else if |s| == 1 then "0" + s else "00"
  }

  predicate AllDigits(s: string)
  {
    forall i :: 0 <= i < |s| ==> '0' <= s[i] <= '9'
  }

  /** Reads a string of decimal digits back as a number (the inverse of NatToString). */
  function DigitsValue(s: string): int
  {
    if s == [] then 0
    else
      var d := s[|s| - 1] as int - '0' as int;
      DigitsValue(s[..|s| - 1]) * 10 + d
  }

  // ---------------------------------------------------------------------------
  // Facts about occurrences

  lemma OccursInLonger(s: string, t: string, sub: string, i: nat)
    requires OccursAt(s, sub, i)
    ensures OccursAt(s + t, sub, i)
  {
    assert (s + t)[i..i + |sub|] == s[i..i + |sub|];
  }

  lemma OccursShifted(a: string, s: string, sub: string, i: nat)
    requires OccursAt(s, sub, i)
    ensures OccursAt(a + s, sub, |a| + i)
  {
    assert (a + s)[|a| + i..|a| + i + |sub|] == s[i..i + |sub|];
  }

  /** An occurrence of `u + q` holds an occurrence of `q` right after `u`. */
  lemma OccursOfSuffix(s: string, u: string, q: string, i: nat)
    requires OccursAt(s, u + q, i)
    ensures OccursAt(s, q, i + |u|)
  {
    assert s[i + |u|..i + |u| + |q|] == (u + q)[|u|..];
  }

  lemma EndsWithOccurs(s: string, suffix: string)
    requires EndsWith(s, suffix)
    ensures OccursAt(s, suffix, |s| - |suffix|) && Contains(s, suffix)
  {
    OccursContains(s, suffix, |s| - |suffix|);
  }

  /** A string ending in `suffix` contains every trailing part of `suffix`. */
  lemma EndsWithContainsTail(s: string, suffix: string, q: string)
    requires EndsWith(s, suffix) && EndsWith(suffix, q)
    ensures Contains(s, q)
  {
    assert s[|s| - |q|..] == suffix[|suffix| - |q|..];
    EndsWithOccurs(s, q);
  }

  lemma OccursContains(s: string, sub: string, i: nat)
    requires OccursAt(s, sub, i)
    ensures Contains(s, sub)
  {
    var r := IndexOf(s, sub);
    assert r != -1;
  }

  /**
   * `p` cannot overlap itself by a proper prefix that ends within its first two
   * characters: a test that decides where a straddling occurrence could start.
   */
  predicate NoSelfOverlap(p: string)
  {
    forall k :: 1 <= k < |p| ==> p[k] != p[0] || (k + 1 < |p| && p[k + 1] != p[1])
  }

  /** NoSelfOverlap checked position by position from `k` on, so that it can be evaluated on a literal. */
  predicate NoOverlapFrom(p: string, k: nat)
    decreases |p| - k
  {
    k >= |p| || ((p[k] != p[0] || (k + 1 < |p| && p[k + 1] != p[1])) && NoOverlapFrom(p, k + 1))
  }

  /** The scan from `k` on covers every position from `k` on. */
  lemma {:induction false} NoOverlapFromSound(p: string, k: nat)
    requires k >= 1 && NoOverlapFrom(p, k)
    ensures forall j :: k <= j < |p| ==> p[j] != p[0] || (j + 1 < |p| && p[j + 1] != p[1])
    decreases |p| - k
  {
    if k < |p| {
      NoOverlapFromSound(p, k + 1);
      forall j | k <= j < |p|
        ensures p[j] != p[0] || (j + 1 < |p| && p[j + 1] != p[1])
      {
        if j > k {
          assert k + 1 <= j;
        }
      }
    }
  }

  /** No two adjacent characters of `s` from `k` on are `c0` then `c1`, checked position by position. */
  predicate LacksPairFrom(s: string, c0: char, c1: char, k: nat)
    decreases |s| - k
  {
    k + 1 >= |s| || ((s[k] != c0 || s[k + 1] != c1) && LacksPairFrom(s, c0, c1, k + 1))
  }

  /** The pair scan from `k` on covers every position from `k` on. */
  lemma {:induction false} LacksPairFromSound(s: string, c0: char, c1: char, k: nat)
    requires LacksPairFrom(s, c0, c1, k)
    ensures forall j :: k <= j && j + 1 < |s| ==> s[j] != c0 || s[j + 1] != c1
    decreases |s| - k
  {
    if k + 1 < |s| {
      LacksPairFromSound(s, c0, c1, k + 1);
      forall j | k <= j && j + 1 < |s|
        ensures s[j] != c0 || s[j + 1] != c1
      {
        if j > k {
          assert k + 1 <= j;
        }
      }
    }
  }

  /** Every position from `k` on passing the check makes the scan from `k` succeed. */
  lemma {:induction false} LacksPairFromComplete(s: string, c0: char, c1: char, k: nat)
    requires forall j :: k <= j && j + 1 < |s| ==> s[j] != c0 || s[j + 1] != c1
    ensures LacksPairFrom(s, c0, c1, k)
    decreases |s| - k
  {
    if k + 1 < |s| {
      LacksPairFromComplete(s, c0, c1, k + 1);
    }
  }

  /** Two strings without the pair, joined where the pair does not form, make a string without it. */
  lemma LacksPairConcat(a: string, b: string, c0: char, c1: char)
    requires LacksPairFrom(a, c0, c1, 0) && LacksPairFrom(b, c0, c1, 0)
    requires |a| == 0 || |b| == 0 || a[|a| - 1] != c0 || b[0] != c1
    ensures LacksPairFrom(a + b, c0, c1, 0)
  {
    LacksPairFromSound(a, c0, c1, 0);
    LacksPairFromSound(b, c0, c1, 0);
    var s := a + b;
    forall j | 0 <= j && j + 1 < |s|
      ensures s[j] != c0 || s[j + 1] != c1
    {
      if j + 1 < |a| {
        assert s[j] == a[j] && s[j + 1] == a[j + 1];
      } else if j >= |a| {
        assert s[j] == b[j - |a|] && s[j + 1] == b[j + 1 - |a|];
      }
    }
    LacksPairFromComplete(s, c0, c1, 0);
  }

  /** A string in which the first two characters of `p` never stand side by side does not contain `p`. */
  lemma LacksPairNotContains(s: string, p: string)
    requires |p| >= 2 && LacksPairFrom(s, p[0], p[1], 0)
    ensures !Contains(s, p)
  {
    LacksPairFromSound(s, p[0], p[1], 0);
  }

  /** No character of `s` from `k` on is `c`, checked position by position so that it can be evaluated on a literal. */
  predicate LacksFrom(s: string, c: char, k: nat)
    decreases |s| - k
  {
    k >= |s| || (s[k] != c && LacksFrom(s, c, k + 1))
  }

  /** The scan from `k` on covers every position from `k` on. */
  lemma {:induction false} LacksFromSound(s: string, c: char, k: nat)
    requires LacksFrom(s, c, k)
    ensures forall j :: k <= j < |s| ==> s[j] != c
    decreases |s| - k
  {
    if k < |s| {
      LacksFromSound(s, c, k + 1);
      forall j | k <= j < |s|
        ensures s[j] != c
      {
        if j > k {
          assert k + 1 <= j;
        }
      }
    }
  }

  /** A string that lacks one of the characters of `p` does not contain `p`. */
  lemma LacksNotContains(s: string, p: string, k: nat)
    requires k < |p| && forall j :: 0 <= j < |s| ==> s[j] != p[k]
    ensures !Contains(s, p)
  {
    forall j: nat
      ensures !OccursAt(s, p, j)
    {
      if j + |p| <= |s| {
        assert s[j..j + |p|][k] == s[j + k];
      }
    }
  }

  /**
   * In `a + p + b`, an occurrence of `p` that starts inside `a` either lies inside
   * `a` or straddles the border, and the second is ruled out by NoSelfOverlap. So
   * when `a` does not contain `p`, the first occurrence is the one right after `a`.
   */
  lemma {:induction false} FirstOccurrenceAfter(a: string, p: string, b: string)
    requires |p| >= 1 && NoSelfOverlap(p) && !Contains(a, p)
    ensures IndexOf(a + p + b, p) == |a|
  {
    var s := a + p + b;
    assert s[|a|..|a| + |p|] == p;
    assert OccursAt(s, p, |a|);
    forall j: nat | j < |a|
      ensures !OccursAt(s, p, j)
    {
      if j + |p| <= |a| {
        assert s[j..j + |p|] == a[j..j + |p|];
        assert !OccursAt(a, p, j);
      } else {
        var k := |a| - j;
        assert s[|a|] == p[0];
        if p[k] != p[0] {
          assert s[j..j + |p|][k] != p[k];
        } else {
          assert s[|a| + 1] == p[1];
          assert s[j..j + |p|][k + 1] != p[k + 1];
        }
      }
    }
  }

  /** Replacing the first occurrence of `p`, when it follows `a`, touches only that occurrence. */
  lemma ReplaceFirstAfter(a: string, p: string, b: string, rep: string)
    requires |p| >= 1 && NoSelfOverlap(p) && !Contains(a, p)
    ensures ReplaceFirst(a + p + b, p, rep) == a + rep + b
  {
    FirstOccurrenceAfter(a, p, b);
    var s := a + p + b;
    assert s[..|a|] == a && s[|a| + |p|..] == b;
  }

  /**
   * Replacing the first `p` by `q` in a string that holds `p` but not `q`,
   * and then the first `q` by `p`, gives the string back; the string in between
   * is a different one, and it holds `q`.
   */
  lemma ReplaceFirstRoundTrip(s: string, p: string, q: string)
    requires |p| >= 1 && |q| >= 1 && |p| != |q| && NoSelfOverlap(p) && NoSelfOverlap(q)
    requires Contains(s, p) && !Contains(s, q)
    ensures ReplaceFirst(s, p, q) != s && Contains(ReplaceFirst(s, p, q), q)
    ensures ReplaceFirst(ReplaceFirst(s, p, q), q, p) == s
  {
    var a, b := SplitAtFirst(s, p);
    ReplaceFirstAfter(a, p, b, q);
    assert s == a + (p + b);
    if Contains(a, q) {
      ContainsExtend(a, p + b, q);
      assert false;
    }
    OccursShifted(a, q + b, q, 0);
    assert a + (q + b) == a + q + b;
    OccursContains(a + q + b, q, |a|);
    ReplaceFirstAfter(a, q, b, p);
    assert |a + q + b| != |s|;
  }

  /** The regular-expression suffix rewrite undoes itself when applied the other way round. */
  lemma ReplaceSuffixRoundTrip(s: string, suffix: string, rep: string)
    requires EndsWith(s, suffix)
    ensures EndsWith(ReplaceSuffix(s, suffix, rep), rep)
    ensures ReplaceSuffix(ReplaceSuffix(s, suffix, rep), rep, suffix) == s
  {
    var t := s[..|s| - |suffix|] + rep;
    assert t[|t| - |rep|..] == rep;
    assert t[..|t| - |rep|] == s[..|s| - |suffix|];
  }

  /** Trimming leaves nothing exactly when every character is white space. */
  lemma TrimEmptyIff(s: string)
    ensures Trim(s) == [] <==> forall i :: 0 <= i < |s| ==> IsSpace(s[i])
  {
    TrimStartSpec(s);
    TrimEndSpec(TrimStart(s));
  }

  /** `padStart(2, '0')` of one or two digits keeps their value and gives two digits. */
  lemma PadStart2Digits(s: string)
    requires AllDigits(s) && 1 <= |s| <= 2
    ensures |PadStart2(s)| == 2 && AllDigits(PadStart2(s))
    ensures DigitsValue(PadStart2(s)) == DigitsValue(s)
  {
    if |s| == 1 {
      var t := "0" + s;
      assert t[..1] == "0" && t[..1][..0] == [];
    }
  }

  /** Whatever contains `u + q` contains `q`. */
  lemma ContainsPart(s: string, u: string, q: string)
    requires Contains(s, u + q)
    ensures Contains(s, q)
  {
    var i := IndexOf(s, u + q);
    OccursOfSuffix(s, u, q, i);
    OccursContains(s, q, i + |u|);
  }

  /**
   * Swapping the first `p` for `q` and back restores a string that holds `p`
   * and not the tail `qm` of `q`; the swapped string holds `qm`.
   */
  lemma SwapRoundTrip(s: string, p: string, pm: string, q: string, qm: string)
    requires |p| >= 1 && |q| >= 1 && |p| != |q| && NoSelfOverlap(p) && NoSelfOverlap(q)
    requires EndsWith(p, pm) && EndsWith(q, qm)
    requires Contains(s, p) && !Contains(s, qm)
    ensures Contains(s, pm)
    ensures ReplaceFirst(s, p, q) != s && Contains(ReplaceFirst(s, p, q), qm)
    ensures ReplaceFirst(ReplaceFirst(s, p, q), q, p) == s
  {
    ContainsTail(s, p, pm);
    if Contains(s, q) {
      ContainsTail(s, q, qm);
    }
    ReplaceFirstRoundTrip(s, p, q);
    ContainsTail(ReplaceFirst(s, p, q), q, qm);
  }

  /** Whatever contains `p` contains every trailing part of `p`. */
  lemma ContainsTail(s: string, p: string, q: string)
    requires Contains(s, p) && EndsWith(p, q)
    ensures Contains(s, q)
  {
    assert p == p[..|p| - |q|] + q;
    ContainsPart(s, p[..|p| - |q|], q);
  }

  /** What a prefix contains, the whole string contains. */
  lemma ContainsExtend(s: string, t: string, sub: string)
    requires Contains(s, sub)
    ensures Contains(s + t, sub)
  {
    var i := IndexOf(s, sub);
    OccursInLonger(s, t, sub, i);
    OccursContains(s + t, sub, i);
  }

  /** The string cut at the first occurrence of `p`: before it, nothing contains `p`. */
  lemma SplitAtFirst(s: string, p: string) returns (a: string, b: string)
    requires |p| >= 1 && Contains(s, p)
    ensures s == a + p + b && |a| == IndexOf(s, p) && !Contains(a, p)
  {
    var i := IndexOf(s, p);
    a, b := s[..i], s[i + |p|..];
    assert s == a + p + b;
    forall j: nat
      ensures !OccursAt(a, p, j)
    {
      if j + |p| <= |a| {
        assert a[j..j + |p|] == s[j..j + |p|];
        assert !OccursAt(s, p, j);
      }
    }
  }
}
