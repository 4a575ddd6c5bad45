/** String helpers with the meaning JavaScript gives them: trim, ASCII toLowerCase,
    includes, split on one character, join, and substring(0, n). */
module Text {

  /** The characters String.prototype.trim removes: ECMAScript WhiteSpace and LineTerminator. */
  predicate IsSpace(c: char) {
    ('\t' <= c <= '\r') || c == ' ' || ('\U{A0}' <= c && IsWideSpace(c))
  }

  /** The whitespace characters beyond ASCII. */
  predicate IsWideSpace(c: char) {
    || c == '\U{A0}' || c == '\U{1680}' || ('\U{2000}' <= c <= '\U{200A}')
    || c == '\U{2028}' || c == '\U{2029}' || c == '\U{202F}' || c == '\U{205F}'
    || c == '\U{3000}' || c == '\U{FEFF}'
  }

  predicate AllSpace(s: string) {
    forall i :: 0 <= i < |s| ==> IsSpace(s[i])
  }

  /** No whitespace at either end (what trim leaves behind). */
  predicate IsTrimmed(s: string) {
    s == [] || (!IsSpace(s[0]) && !IsSpace(s[|s| - 1]))
  }

  function TrimStart(s: string): (r: string)
    ensures |r| <= |s| && r == s[|s| - |r|..]
    ensures forall i :: 0 <= i < |s| - |r| ==> IsSpace(s[i])
    ensures r == [] || !IsSpace(r[0])
    decreases |s|
  {
    if |s| > 0 && IsSpace(s[0]) then
      var r := TrimStart(s[1..]);
      assert s[1..][|s| - 1 - |r|..] == s[|s| - |r|..];
      assert forall i :: 1 <= i < |s| - |r| ==> s[i] == s[1..][i - 1];
      r
    else s
  }

  function TrimEnd(s: string): (r: string)
    ensures |r| <= |s| && r == s[..|r|]
    ensures forall i :: |r| <= i < |s| ==> IsSpace(s[i])
    ensures r == [] || !IsSpace(r[|r| - 1])
    decreases |s|
  {
    if |s| > 0 && IsSpace(s[|s| - 1]) then
      var r := TrimEnd(s[..|s| - 1]);
      assert s[..|s| - 1][..|r|] == s[..|r|];
      assert forall i :: |r| <= i < |s| - 1 ==> s[i] == s[..|s| - 1][i];
      r
    else s
  }

  /** JavaScript s.trim(). */
  function Trim(s: string): (r: string)
    ensures IsTrimmed(r) && |r| <= |s|
  {
    var a := TrimStart(s);
    var r := TrimEnd(a);
    assert r == [] || !IsSpace(r[0]) by {
      if r != [] { assert r[0] == a[0]; }
    }
    r
  }

  /** trim removes whitespace only: what it returns is s[k..k + |r|] with nothing but
      whitespace before and after it. */
  lemma TrimRemovesOnlySpace(s: string) returns (k: nat)
    ensures var r := Trim(s);
      && k + |r| <= |s| && r == s[k..k + |r|]
      && (forall i :: 0 <= i < k ==> IsSpace(s[i]))
      && (forall i :: k + |r| <= i < |s| ==> IsSpace(s[i]))
  {
    var a := TrimStart(s);
    var r := TrimEnd(a);
    k := |s| - |a|;
    SliceOfSuffix(s, a, r, k);
  }

  /** The trailing whitespace TrimEnd drops from the suffix a = s[k..] is trailing
      whitespace of s. */
  lemma SliceOfSuffix(s: string, a: string, r: string, k: nat)
    requires k + |a| == |s| && a == s[k..]
    requires |r| <= |a| && r == a[..|r|]
    requires forall j :: |r| <= j < |a| ==> IsSpace(a[j])
    ensures r == s[k..k + |r|]
    ensures forall i :: k + |r| <= i < |s| ==> IsSpace(s[i])
  {
    forall i | k + |r| <= i < |s| ensures IsSpace(s[i]) {
      assert s[i] == a[i - k];
    }
  }

  /** trim introduces no character: one absent from s is absent from s.trim(). */
  lemma TrimKeepsOut(s: string, c: char)
    ensures c !in s ==> c !in Trim(s)
  {
    var k := TrimRemovesOnlySpace(s);
    var r := Trim(s);
    forall i | 0 <= i < |r| ensures r[i] in s {
      assert r[i] == s[k + i];
    }
  }

  /** A string is blank (falsy after trim) exactly when it is all whitespace. */
  lemma TrimEmptyIffBlank(s: string)
    ensures Trim(s) == [] <==> AllSpace(s)
  {
    var k := TrimRemovesOnlySpace(s);
  }

  /** Trimming a trimmed string changes nothing, and nothing else is a fixed point. */
  lemma {:induction false} TrimFixedIffTrimmed(s: string)
    ensures Trim(s) == s <==> IsTrimmed(s)
  {
    if IsTrimmed(s) {
      assert TrimStart(s) == s;
      assert TrimEnd(s) == s;
    }
  }

  /** Whitespace added around a trimmed string is removed again by trim. */
  lemma {:induction false} TrimPadded(pre: string, t: string)
    requires AllSpace(pre) && IsTrimmed(t)
    ensures Trim(pre + t) == t
  {
    TrimStartPadded(pre, t);
    assert TrimEnd(t) == t;
  }

  lemma {:induction false} TrimStartPadded(pre: string, t: string)
    requires AllSpace(pre) && (t == [] || !IsSpace(t[0]))
    ensures TrimStart(pre + t) == t
    decreases |pre|
  {
    if pre != [] {
      assert (pre + t)[1..] == pre[1..] + t;
      TrimStartPadded(pre[1..], t);
    }
  }

  /** ASCII part of String.prototype.toLowerCase. */
  function LowerChar(c: char): (r: char)
    ensures 'A' <= c <= 'Z' ==> r as int == c as int + 32
    ensures !('A' <= c <= 'Z') ==> r == c
  {
    if 'A' <= c <= 'Z' then (c as int + 32) as char else c
  }

  function Lower(s: string): (r: string)
    ensures |r| == |s|
    ensures forall i :: 0 <= i < |s| ==> r[i] == LowerChar(s[i])
  {
    seq(|s|, i requires 0 <= i < |s| => LowerChar(s[i]))
  }

  /** No ASCII upper-case letter occurs (what toLowerCase leaves behind). */
  predicate IsLower(s: string) {
    forall i :: 0 <= i < |s| ==> !('A' <= s[i] <= 'Z')
  }

  lemma LowerIsLower(s: string)
    ensures IsLower(Lower(s))
    ensures Lower(Lower(s)) == Lower(s)
  {
  }

  /** toLowerCase leaves a string with no upper-case letter unchanged. */
  lemma LowerKeepsLower(s: string)
    requires IsLower(s)
    ensures Lower(s) == s
  {
  }

  /** Lower-casing never turns whitespace into anything else, or anything else into whitespace. */
  lemma {:induction false} LowerTrimStart(s: string)
    ensures Lower(TrimStart(s)) == TrimStart(Lower(s))
    decreases |s|
  {
    if |s| > 0 {
      assert Lower(s)[1..] == Lower(s[1..]);
      assert IsSpace(Lower(s)[0]) == IsSpace(s[0]);
      if IsSpace(s[0]) {
        LowerTrimStart(s[1..]);
      }
    }
  }

  lemma {:induction false} LowerTrimEnd(s: string)
    ensures Lower(TrimEnd(s)) == TrimEnd(Lower(s))
    decreases |s|
  {
    if |s| > 0 {
      assert Lower(s)[..|s| - 1] == Lower(s[..|s| - 1]);
      assert IsSpace(Lower(s)[|s| - 1]) == IsSpace(s[|s| - 1]);
      if IsSpace(s[|s| - 1]) {
        LowerTrimEnd(s[..|s| - 1]);
      }
    }
  }

  /** trim and toLowerCase commute, so the order in which the two setters run does not
      matter, and the result is both trimmed and lower-case. */
  lemma LowerTrimCommute(s: string)
    ensures Lower(Trim(s)) == Trim(Lower(s))
    ensures IsTrimmed(Lower(Trim(s))) && IsLower(Lower(Trim(s)))
  {
    LowerTrimStart(s);
    LowerTrimEnd(TrimStart(s));
    LowerIsLower(Trim(s));
  }

  /** sub occurs in s starting at index i. */
  predicate OccursAt(s: string, sub: string, i: nat) {
    i + |sub| <= |s| && forall k :: 0 <= k < |sub| ==> s[i + k] == sub[k]
  }

  /** The characters sub[j..] match s from index i + j on. */
  predicate MatchAt(s: string, sub: string, i: nat, j: nat)
    decreases |sub| - j
  {
    j >= |sub| || (i + j < |s| && s[i + j] == sub[j] && MatchAt(s, sub, i, j + 1))
  }

  /** sub matches s at some index from i on. */
  predicate ContainsFrom(s: string, sub: string, i: nat)
    decreases |s| - i
  {
    MatchAt(s, sub, i, 0) || (i < |s| && ContainsFrom(s, sub, i + 1))
  }

  /** JavaScript s.includes(sub): a left-to-right scan for a match. */
  predicate Contains(s: string, sub: string) {
    ContainsFrom(s, sub, 0)
  }

  lemma {:induction false} MatchAtIff(s: string, sub: string, i: nat, j: nat)
    requires j <= |sub| && i + j <= |s|
    ensures MatchAt(s, sub, i, j) <==> i + |sub| <= |s| && forall k :: j <= k < |sub| ==> s[i + k] == sub[k]
    decreases |sub| - j
  {
    if j < |sub| && i + j < |s| {
      MatchAtIff(s, sub, i, j + 1);
    }
  }

  lemma {:induction false} ContainsFromIff(s: string, sub: string, i: nat)
    requires i <= |s|
    ensures ContainsFrom(s, sub, i) <==> exists k: nat :: i <= k && OccursAt(s, sub, k)
    decreases |s| - i
  {
    MatchAtIff(s, sub, i, 0);
    assert MatchAt(s, sub, i, 0) <==> OccursAt(s, sub, i);
    if i < |s| {
      ContainsFromIff(s, sub, i + 1);
      if exists k: nat :: i <= k && OccursAt(s, sub, k) {
        var k: nat :| i <= k && OccursAt(s, sub, k);
        if k > i {
          assert i + 1 <= k && OccursAt(s, sub, k);
        }
      }
    } else {
      if exists k: nat :: i <= k && OccursAt(s, sub, k) {
        var k: nat :| i <= k && OccursAt(s, sub, k);
        assert k == i;
      }
    }
  }

  /** A string with a character that s lacks does not occur in s. */
  lemma CharAbsent(s: string, sub: string, i: nat)
    requires i < |sub| && sub[i] !in s
    ensures !Contains(s, sub)
  {
    ContainsIff(s, sub);
  }

  /** A string with two adjacent characters that are never adjacent in s does not occur in s. */
  lemma PairAbsent(s: string, sub: string, i: nat)
    requires i + 1 < |sub|
    requires forall k :: 0 <= k < |s| - 1 ==> !(s[k] == sub[i] && s[k + 1] == sub[i + 1])
    ensures !Contains(s, sub)
  {
    ContainsIff(s, sub);
    forall k: nat | k + |sub| <= |s| ensures !OccursAt(s, sub, k) {
      if s[k + i] == sub[i] {
        assert s[k + i + 1] != sub[i + 1];
      }
    }
  }

  /** Contains means exactly: sub occurs at some index of s. */
  lemma ContainsIff(s: string, sub: string)
    ensures Contains(s, sub) <==> exists k: nat :: OccursAt(s, sub, k)
  {
    ContainsFromIff(s, sub, 0);
  }

  /** If big occurs in s and small occurs in big, then small occurs in s. */
  lemma ContainsTransitive(s: string, big: string, small: string)
    requires Contains(s, big) && Contains(big, small)
    ensures Contains(s, small)
  {
    ContainsIff(s, big);
    ContainsIff(big, small);
    var i: nat :| OccursAt(s, big, i);
    var j: nat :| OccursAt(big, small, j);
    assert forall k :: 0 <= k < |small| ==> s[i + j + k] == big[j + k] == small[k];
    assert OccursAt(s, small, i + j);
    ContainsIff(s, small);
  }

  /** The empty string is contained in every string. */
  lemma ContainsEmpty(s: string)
    ensures Contains(s, [])
  {
  }

  /** JavaScript s.substring(0, n) for n >= 0. */
  function Prefix(s: string, n: nat): (r: string)
    ensures |r| <= n && |r| <= |s|
    ensures r == s[..|r|]
    ensures |r| == if |s| < n then |s| else n
  {
    if |s| < n then s else s[..n]
  }

  /** JavaScript s.split(d) for a one-character separator d. */
  function Split(s: string, d: char): (r: seq<string>)
    ensures |r| >= 1
    ensures forall k :: 0 <= k < |r| ==> d !in r[k]
    decreases |s|
  {
    if |s| == 0 then [[]]
    else if s[0] == d then [[]] + Split(s[1..], d)
    else
      var rest := Split(s[1..], d);
      [[s[0]] + rest[0]] + rest[1..]
  }

  function CountChar(s: string, d: char): nat
    decreases |s|
  {
    if |s| == 0 then 0 else (if s[0] == d then 1 else 0) + CountChar(s[1..], d)
  }

  /** split yields one more piece than there are separators. */
  lemma {:induction false} SplitLength(s: string, d: char)
    ensures |Split(s, d)| == CountChar(s, d) + 1
    decreases |s|
  {
    if |s| > 0 {
      SplitLength(s[1..], d);
    }
  }

  /** A piece without the separator splits to itself. */
  lemma {:induction false} SplitNoSeparator(s: string, d: char)
    requires d !in s
    ensures Split(s, d) == [s]
    decreases |s|
  {
    if |s| > 0 {
      assert d !in s[1..] by {
        forall k | 0 <= k < |s[1..]| ensures s[1..][k] != d { assert s[1..][k] == s[k + 1]; }
      }
      SplitNoSeparator(s[1..], d);
      assert [s[0]] + s[1..] == s;
    }
  }

  /** Splitting at the first separator: a separator-free head is the first piece. */
  lemma {:induction false} SplitAtSeparator(a: string, d: char, b: string)
    requires d !in a
    ensures Split(a + [d] + b, d) == [a] + Split(b, d)
    decreases |a|
  {
    if |a| == 0 {
      assert a + [d] + b == [d] + b;
      assert ([d] + b)[1..] == b;
    } else {
      var s := a + [d] + b;
      assert s[0] == a[0] && s[0] != d;
      assert s[1..] == a[1..] + [d] + b;
      assert d !in a[1..] by {
        forall k | 0 <= k < |a[1..]| ensures a[1..][k] != d { assert a[1..][k] == a[k + 1]; }
      }
      SplitAtSeparator(a[1..], d, b);
      assert [a[0]] + a[1..] == a;
    }
  }

  /** Array.prototype.join(sep). */
  function Join(parts: seq<string>, sep: string): (r: string)
    ensures parts == [] ==> r == []
    ensures |parts| == 1 ==> r == parts[0]
    ensures parts != [] ==> |r| >= |parts[0]|
  {
    if |parts| == 0 then []
    else if |parts| == 1 then parts[0]
    else parts[0] + sep + Join(parts[1..], sep)
  }
}
