/**
 * Character and string primitives that Foundation supplies to the app:
 * ASCII case folding, prefix, suffix and substring tests, whitespace
 * trimming and splitting on a separator character.
 */
module Text {
  import opened Wrappers

  /** Lower-casing of one character; only ASCII letters fold. */
  function Lower(c: char): char {
    if 'A' <= c <= 'Z' then (c as int + 32) as char else c
  }

  function LowerStr(s: string): (r: string)
    ensures |r| == |s|
    ensures forall i :: 0 <= i < |s| ==> r[i] == Lower(s[i])
  {
    seq(|s|, i requires 0 <= i < |s| => Lower(s[i]))
  }

  lemma LowerStrAppend(a: string, b: string)
    ensures LowerStr(a + b) == LowerStr(a) + LowerStr(b)
  {
  }

  /** A string with no upper-case ASCII letter is its own lower-case form. */
  lemma LowerStrOfLower(s: string)
    requires forall i :: 0 <= i < |s| ==> !('A' <= s[i] <= 'Z')
    ensures LowerStr(s) == s
  {
  }

  lemma LowerStrIdempotent(s: string)
    ensures LowerStr(LowerStr(s)) == LowerStr(s)
  {
  }

  predicate HasPrefix(s: string, p: string) {
    |p| <= |s| && s[..|p|] == p
  }

  lemma PrefixTransitive(s: string, p: string, q: string)
    requires HasPrefix(s, p) && HasPrefix(p, q)
    ensures HasPrefix(s, q)
  {
    assert s[..|q|] == p[..|q|];
  }

  lemma PrefixOfAppend(p: string, q: string)
    ensures HasPrefix(p + q, p)
  {
    assert (p + q)[..|p|] == p;
  }

  predicate HasSuffix(s: string, p: string) {
    |p| <= |s| && s[|s| - |p|..] == p
  }

  /** Anchored, case-insensitive prefix match (`.anchored, .caseInsensitive`). */
  predicate HasPrefixCI(s: string, p: string) {
    |p| <= |s| && LowerStr(s[..|p|]) == LowerStr(p)
  }

  /** Anchored, case-insensitive suffix match (`.backwards, .anchored, .caseInsensitive`). */
  predicate HasSuffixCI(s: string, p: string) {
    |p| <= |s| && LowerStr(s[|s| - |p|..]) == LowerStr(p)
  }

  /** `s.contains(sub)`: `sub` occurs somewhere in `s`. */
  predicate Contains(s: string, sub: string)
    decreases |s|
  {
    HasPrefix(s, sub) || (|s| > 0 && Contains(s[1..], sub))
  }

  /** `s.caseInsensitiveContains(sub)`, and `s.lowercased().contains(sub)` for a lower-case `sub`. */
  predicate ContainsCI(s: string, sub: string) {
    Contains(LowerStr(s), LowerStr(sub))
  }

  lemma {:induction false} ContainsAt(s: string, sub: string, i: nat)
    requires i <= |s| && HasPrefix(s[i..], sub)
    ensures Contains(s, sub)
    decreases i
  {
    if i > 0 {
      assert s[1..][i - 1..] == s[i..];
      ContainsAt(s[1..], sub, i - 1);
    }
  }

  lemma {:induction false} ContainsWitness(s: string, sub: string) returns (i: nat)
    requires Contains(s, sub)
    ensures i + |sub| <= |s| && s[i..i + |sub|] == sub
    decreases |s|
  {
    if HasPrefix(s, sub) {
      i := 0;
    } else {
      var j := ContainsWitness(s[1..], sub);
      i := j + 1;
      assert s[i..i + |sub|] == s[1..][j..j + |sub|];
    }
  }

  lemma {:induction false} AbsentCharNotContained(s: string, c: char)
    requires c !in s
    ensures !Contains(s, [c])
    decreases |s|
  {
    if |s| > 0 {
      assert s[0] != c;
      AbsentCharNotContained(s[1..], c);
    }
  }

  /** Characters of `CharacterSet.whitespacesAndNewlines`: U+0009..U+000D, U+0085 and the Unicode separators. */
  predicate IsWhitespace(c: char) {
    var n := c as int;
    n == 0x20 || (0x09 <= n <= 0x0D) || n == 0x85 || n == 0xA0 || n == 0x1680
    || (0x2000 <= n <= 0x200A) || n == 0x2028 || n == 0x2029 || n == 0x202F
    || n == 0x205F || n == 0x3000
  }

  function TrimStart(s: string): (r: string)
    ensures |r| <= |s| && r == s[|s| - |r|..]
    ensures |r| > 0 ==> !IsWhitespace(r[0])
    ensures forall i :: 0 <= i < |s| - |r| ==> IsWhitespace(s[i])
    decreases |s|
  {
    if |s| > 0 && IsWhitespace(s[0]) then TrimStart(s[1..]) else s
  }

  function TrimEnd(s: string): (r: string)
    ensures |r| <= |s| && r == s[..|r|]
    ensures |r| > 0 ==> !IsWhitespace(r[|r| - 1])
    ensures forall i :: |r| <= i < |s| ==> IsWhitespace(s[i])
    decreases |s|
  {
    if |s| > 0 && IsWhitespace(s[|s| - 1]) then TrimEnd(s[..|s| - 1]) else s
  }

  /** `trimmingCharacters(in: .whitespacesAndNewlines)`. */
  function Trim(s: string): string {
    TrimEnd(TrimStart(s))
  }

  /** Characters of `CharacterSet.whitespaces`: tab and the Unicode space separators. */
  predicate IsSpace(c: char) {
    var n := c as int;
    n == 0x20 || n == 0x09 || n == 0xA0 || n == 0x1680 || (0x2000 <= n <= 0x200A)
    || n == 0x202F || n == 0x205F || n == 0x3000
  }

  function TrimSpacesStart(s: string): (r: string)
    ensures |r| <= |s| && r == s[|s| - |r|..]
    ensures |r| > 0 ==> !IsSpace(r[0])
    decreases |s|
  {
    if |s| > 0 && IsSpace(s[0]) then TrimSpacesStart(s[1..]) else s
  }

  function TrimSpacesEnd(s: string): (r: string)
    ensures |r| <= |s| && r == s[..|r|]
    ensures |r| > 0 ==> !IsSpace(r[|r| - 1])
    decreases |s|
  {
    if |s| > 0 && IsSpace(s[|s| - 1]) then TrimSpacesEnd(s[..|s| - 1]) else s
  }

  /** `trimmingCharacters(in: .whitespaces)`: newlines are kept. */
  function TrimSpaces(s: string): string {
    TrimSpacesEnd(TrimSpacesStart(s))
  }

  /** A string that neither starts nor ends with whitespace. */
  predicate Trimmed(s: string) {
    |s| > 0 ==> !IsWhitespace(s[0]) && !IsWhitespace(s[|s| - 1])
  }

  lemma TrimIsTrimmed(s: string)
    ensures Trimmed(Trim(s))
  {
    var t := TrimStart(s);
    var r := TrimEnd(t);
    if |r| > 0 {
      assert r[0] == t[0];
    }
  }

  /**
   * `Trim` removes exactly the whitespace at both ends: `s` is the result
   * with whitespace on either side.
   */
  lemma TrimExact(s: string) returns (lead: nat)
    ensures lead + |Trim(s)| <= |s| && Trim(s) == s[lead..lead + |Trim(s)|]
    ensures forall i :: 0 <= i < lead ==> IsWhitespace(s[i])
    ensures forall i :: lead + |Trim(s)| <= i < |s| ==> IsWhitespace(s[i])
  {
    var t := TrimStart(s);
    lead := |s| - |t|;
    var r := Trim(s);
    assert t == s[lead..];
    assert r == t[..|r|];
    forall i | lead + |r| <= i < |s| ensures IsWhitespace(s[i]) {
      assert s[i] == t[i - lead];
    }
  }

  lemma {:induction false} TrimAllWhitespace(s: string)
    requires forall i :: 0 <= i < |s| ==> IsWhitespace(s[i])
    ensures Trim(s) == ""
    decreases |s|
  {
    if |s| > 0 {
      TrimAllWhitespace(s[1..]);
      assert TrimStart(s) == TrimStart(s[1..]);
    }
  }

  lemma TrimOfTrimmed(s: string)
    requires Trimmed(s)
    ensures Trim(s) == s
  {
  }

  /** Number of occurrences of `c` in `s`. */
  function Count(s: string, c: char): nat
    decreases |s|
  {
    if |s| == 0 then 0 else (if s[0] == c then 1 else 0) + Count(s[1..], c)
  }

  /** `s.components(separatedBy: String(c))`. */
  function Split(s: string, c: char): (r: seq<string>)
    ensures |r| >= 1
    decreases |s|
  {
    if |s| == 0 then [""]
    else
      var rest := Split(s[1..], c);
      if s[0] == c then [""] + rest else [[s[0]] + rest[0]] + rest[1..]
  }

  /** The inverse of `Split`: the pieces rejoined with the separator. */
  function Join(parts: seq<string>, c: char): string
    decreases |parts|
  {
    if |parts| == 0 then "" else if |parts| == 1 then parts[0] else parts[0] + [c] + Join(parts[1..], c)
  }

  lemma {:induction false} SplitCount(s: string, c: char)
    ensures |Split(s, c)| == Count(s, c) + 1
    decreases |s|
  {
    if |s| > 0 {
      SplitCount(s[1..], c);
    }
  }

  lemma {:induction false} SplitPiecesHaveNoSeparator(s: string, c: char)
    ensures forall k, j :: 0 <= k < |Split(s, c)| && 0 <= j < |Split(s, c)[k]| ==> Split(s, c)[k][j] != c
    decreases |s|
  {
    if |s| > 0 {
      SplitPiecesHaveNoSeparator(s[1..], c);
    }
  }

  lemma {:induction false} JoinSplit(s: string, c: char)
    ensures Join(Split(s, c), c) == s
    decreases |s|
  {
    if |s| > 0 {
      var rest := Split(s[1..], c);
      JoinSplit(s[1..], c);
      if s[0] == c {
        assert Split(s, c) == [""] + rest;
        assert (["" ] + rest)[1..] == rest;
      } else {
        var parts := [[s[0]] + rest[0]] + rest[1..];
        assert Split(s, c) == parts;
        if |rest| == 1 {
          assert Join(parts, c) == [s[0]] + rest[0];
        } else {
          assert parts[1..] == rest[1..];
          assert Join(rest, c) == rest[0] + [c] + Join(rest[1..], c);
        }
      }
    }
  }

  lemma {:induction false} CountAppend(a: string, b: string, c: char)
    ensures Count(a + b, c) == Count(a, c) + Count(b, c)
    decreases |a|
  {
    if |a| > 0 {
      assert (a + b)[1..] == a[1..] + b;
      CountAppend(a[1..], b, c);
    } else {
      assert a + b == b;
    }
  }

  lemma {:induction false} CountAbsent(s: string, c: char)
    requires forall i :: 0 <= i < |s| ==> s[i] != c
    ensures Count(s, c) == 0
    decreases |s|
  {
    if |s| > 0 {
      CountAbsent(s[1..], c);
    }
  }

  /** `replacingOccurrences(of:with:)`: non-overlapping occurrences of `pat`, left to right. */
  function ReplaceAll(s: string, pat: string, rep: string): string
    requires |pat| > 0
    decreases |s|
  {
    if |s| < |pat| then s
    else if s[..|pat|] == pat then rep + ReplaceAll(s[|pat|..], pat, rep)
    else [s[0]] + ReplaceAll(s[1..], pat, rep)
  }

  /** Text without the pattern is left alone. */
  lemma {:induction false} ReplaceAllAbsent(s: string, pat: string, rep: string)
    requires |pat| > 0 && !Contains(s, pat)
    ensures ReplaceAll(s, pat, rep) == s
    decreases |s|
  {
    if |s| >= |pat| {
      ReplaceAllAbsent(s[1..], pat, rep);
      assert s == [s[0]] + s[1..];
    }
  }

  /** Replacing a character by text that lacks it removes every occurrence. */
  lemma {:induction false} ReplaceCharRemoves(s: string, c: char, rep: string)
    requires c !in rep
    ensures c !in ReplaceAll(s, [c], rep)
    decreases |s|
  {
    if |s| >= 1 {
      ReplaceCharRemoves(s[1..], c, rep);
      assert s[1..] == s[|[c]|..];
    }
  }

  /** A replacement introduces no character that neither the text nor the replacement has. */
  lemma {:induction false} ReplaceKeepsAbsent(s: string, pat: string, rep: string, c: char)
    requires |pat| > 0 && c !in s && c !in rep
    ensures c !in ReplaceAll(s, pat, rep)
    decreases |s|
  {
    if |s| >= |pat| {
      if s[..|pat|] == pat {
        assert forall k :: 0 <= k < |s[|pat|..]| ==> s[|pat|..][k] == s[k + |pat|];
        ReplaceKeepsAbsent(s[|pat|..], pat, rep, c);
      } else {
        assert forall k :: 0 <= k < |s[1..]| ==> s[1..][k] == s[k + 1];
        ReplaceKeepsAbsent(s[1..], pat, rep, c);
      }
    }
  }

  /** `p` occurs in `s` starting at position `k`. */
  predicate OccursAt(s: string, p: string, k: nat) {
    k + |p| <= |s| && forall n :: 0 <= n < |p| ==> CharMatches(s, p, k, n)
  }

  /**
   * Character `n` of `p` is character `k + n` of `s`. Naming the comparison
   * keeps the quantifier in `OccursAt` from firing on every index into `p`.
   */
  predicate CharMatches(s: string, p: string, k: nat, n: nat) {
    k + n < |s| && n < |p| && s[k + n] == p[n]
  }

  /** `OccursAt` in terms of a slice. */
  lemma OccursAtSlice(s: string, p: string, k: nat)
    requires k + |p| <= |s|
    ensures OccursAt(s, p, k) <==> s[k..k + |p|] == p
  {
    if OccursAt(s, p, k) {
      forall n | 0 <= n < |p| ensures s[k..k + |p|][n] == p[n] {
        assert CharMatches(s, p, k, n);
      }
      assert s[k..k + |p|] == p;
    }
    if s[k..k + |p|] == p {
      forall n | 0 <= n < |p| ensures CharMatches(s, p, k, n) {
        assert s[k..k + |p|][n] == p[n];
      }
    }
  }

  /**
   * `range(of: p)` on the substring starting at `from`: the first position
   * at or after `from` where `p` occurs.
   */
  function FindFrom(s: string, p: string, from: nat): (r: Option<nat>)
    ensures r.Some? ==> from <= r.value && OccursAt(s, p, r.value)
    decreases |s| - from
  {
    if OccursAt(s, p, from) then Some(from)
    else if from >= |s| then None
    else FindFrom(s, p, from + 1)
  }

  /** Every occurrence at or after `from` is found, at that position or an earlier one. */
  lemma {:induction false} FindFromFirst(s: string, p: string, from: nat, k: nat)
    requires from <= k && OccursAt(s, p, k)
    ensures FindFrom(s, p, from).Some? && FindFrom(s, p, from).value <= k
    decreases k - from
  {
    if from < k && !OccursAt(s, p, from) {
      FindFromFirst(s, p, from + 1, k);
    }
  }

  /** The search from the start fails exactly when `p` does not occur in `s`. */
  lemma FindFromNoneIffAbsent(s: string, p: string)
    ensures FindFrom(s, p, 0).None? <==> !Contains(s, p)
  {
    if Contains(s, p) {
      var i := ContainsWitness(s, p);
      OccursAtSlice(s, p, i);
      FindFromFirst(s, p, 0, i);
    }
    var r := FindFrom(s, p, 0);
    if r.Some? {
      OccursAtSlice(s, p, r.value);
      assert s[r.value..][..|p|] == s[r.value..r.value + |p|];
      ContainsAt(s, p, r.value);
    }
  }

  /** An occurrence of `p` that ends inside `w` is an occurrence in `w`. */
  lemma OccursWithin(w: string, rest: string, p: string, k: nat)
    requires k + |p| <= |w| && OccursAt(w + rest, p, k)
    ensures Contains(w, p)
  {
    OccursAtSlice(w + rest, p, k);
    assert w[k..k + |p|] == (w + rest)[k..k + |p|];
    assert w[k..][..|p|] == w[k..k + |p|];
    ContainsAt(w, p, k);
  }

  /**
   * When `p` does not occur in `pre` followed by all but the last character
   * of `p`, the first occurrence of `p` in `pre + p + rest` is right after `pre`.
   */
  lemma FirstOccurrenceAfter(pre: string, p: string, rest: string)
    requires |p| > 0
    ensures !Contains(pre + p[..|p| - 1], p) ==> FindFrom(pre + p + rest, p, 0) == Some(|pre|)
  {
    var u := pre + p + rest;
    var w := pre + p[..|p| - 1];
    if !Contains(w, p) {
      SplitLast(pre, p, rest);
      OccursAtMiddle(pre, p, rest);
      FirstOccurrenceAt(u, w, [p[|p| - 1]] + rest, p, |pre|);
    }
  }

  /** An occurrence at `k` is the first one when `p` is absent from the text up to its last character. */
  lemma FirstOccurrenceAt(u: string, w: string, tail: string, p: string, k: nat)
    requires u == w + tail && |w| + 1 == k + |p|
    requires OccursAt(u, p, k) && !Contains(w, p)
    ensures FindFrom(u, p, 0) == Some(k)
  {
    FindFromFirst(u, p, 0, k);
    var v := FindFrom(u, p, 0).value;
    if v < k {
      OccursWithin(w, tail, p, v);
    }
  }

  /** No occurrence at or after `k` exactly when the suffix from `k` does not contain `p`. */
  lemma FindFromNoneIffAbsentAfter(s: string, p: string, k: nat)
    requires k <= |s|
    ensures FindFrom(s, p, k).None? <==> !Contains(s[k..], p)
  {
    SuffixSearch(s, s[..k], s[k..], p, k);
    FindFromNoneIffAbsent(s[k..], p);
  }

  lemma SuffixSearch(s: string, pre: string, post: string, p: string, k: nat)
    requires s == pre + post && |pre| == k
    ensures FindFrom(s, p, k).None? <==> FindFrom(post, p, 0).None?
  {
    FindFromShift(pre, post, p, 0);
  }

  lemma OccursAtMiddle(pre: string, p: string, rest: string)
    ensures OccursAt(pre + p + rest, p, |pre|)
  {
    var u := pre + p + rest;
    forall n | 0 <= n < |p| ensures CharMatches(u, p, |pre|, n) {
      assert u == pre + (p + rest);
    }
  }

  lemma SplitLast(pre: string, p: string, rest: string)
    requires |p| > 0
    ensures pre + p + rest == (pre + p[..|p| - 1]) + ([p[|p| - 1]] + rest)
  {
    assert p == p[..|p| - 1] + [p[|p| - 1]];
    AppendAssoc(pre, p[..|p| - 1], [p[|p| - 1]]);
    AppendAssoc(pre + p[..|p| - 1], [p[|p| - 1]], rest);
  }

  /** Searching after a prefix finds the same occurrence, shifted by the prefix length. */
  lemma {:induction false} FindFromShift(pre: string, post: string, p: string, from: nat)
    ensures FindFrom(pre + post, p, |pre| + from)
         == (if FindFrom(post, p, from).None? then None else Some(|pre| + FindFrom(post, p, from).value))
    decreases |post| - from
  {
    OccursAtShift(pre, post, p, from);
    if !OccursAt(post, p, from) && from < |post| {
      FindFromShift(pre, post, p, from + 1);
    }
  }

  /** An occurrence after a prefix is an occurrence in the text without it. */
  lemma OccursAtShift(pre: string, post: string, p: string, k: nat)
    ensures OccursAt(pre + post, p, |pre| + k) <==> OccursAt(post, p, k)
  {
    var u, m := pre + post, |pre| + k;
    if OccursAt(post, p, k) {
      forall n | 0 <= n < |p| ensures CharMatches(u, p, m, n) {
        assert CharMatches(post, p, k, n);
      }
    }
    if OccursAt(u, p, m) {
      forall n | 0 <= n < |p| ensures CharMatches(post, p, k, n) {
        assert CharMatches(u, p, m, n);
      }
    }
  }

  /** `s[a..c]` is `s[a..b]` followed by `s[b..c]`. */
  lemma SliceSplit(s: string, a: nat, b: nat, c: nat)
    requires a <= b <= c <= |s|
    ensures s[a..c] == s[a..b] + s[b..c]
  {
  }

  lemma AppendAssoc(a: string, b: string, c: string)
    ensures (a + b) + c == a + (b + c)
  {
  }

  lemma AppendAssoc4(w: string, a: string, b: string, c: string)
    ensures w + (a + b + c) == w + a + b + c
  {
  }
}
