/**
 * The PHP string built-ins that the ORM generator command relies on:
 * `str_replace`, `strpos` and the `!strpos(...)` guard, `explode`,
 * `strtolower`, `ucfirst`, `lcfirst` and the falsiness of strings.
 * Strings are sequences of characters; the case functions are the ASCII
 * ones that PHP 8.2 and later use whatever the locale.
 */
module Php {

  datatype Option<T> = None | Some(value: T)

  /** `p` occurs in `s` starting at offset `i`. */
  predicate OccursAt(s: string, p: string, i: nat) {
    i + |p| <= |s| && s[i..i + |p|] == p
  }

  predicate Contains(s: string, p: string) {
    exists i: nat | i <= |s| :: OccursAt(s, p, i)
  }

  /** No occurrence of `p` in `a + b` starts in `a` and ends in `b`. */
  predicate NoStraddle(a: string, b: string, p: string) {
    forall j: nat :: j < |a| < j + |p| ==> !OccursAt(a + b, p, j)
  }

  // ---------------------------------------------------------------------
  // str_replace
  // ---------------------------------------------------------------------

  /**
   * `str_replace(pat, rep, s)`: scans `s` from the left and replaces every
   * occurrence of `pat` that does not overlap an earlier replaced one.
   * An empty search string leaves the subject as it is.
   */
  function Replace(s: string, pat: string, rep: string): string
    decreases |s|
  {
    if |pat| == 0 || |s| < |pat| then s
    else if s[..|pat|] == pat then rep + Replace(s[|pat|..], pat, rep)
    else [s[0]] + Replace(s[1..], pat, rep)
  }

  /** A subject without the search string comes back unchanged. */
  lemma {:induction false} ReplaceAbsent(s: string, pat: string, rep: string)
    requires !Contains(s, pat)
    ensures Replace(s, pat, rep) == s
    decreases |s|
  {
    if |pat| == 0 {
      assert OccursAt(s, pat, 0);
    } else if |s| >= |pat| {
      assert !OccursAt(s, pat, 0);
      forall i: nat | OccursAt(s[1..], pat, i) ensures false {
        assert s[1..][i..i + |pat|] == s[i + 1..i + 1 + |pat|];
        assert OccursAt(s, pat, i + 1);
      }
      ReplaceAbsent(s[1..], pat, rep);
    }
  }

  /** Replacing the search string by itself changes nothing. */
  lemma {:induction false} ReplaceBySelf(s: string, pat: string)
    ensures Replace(s, pat, pat) == s
    decreases |s|
  {
    if |pat| > 0 && |s| >= |pat| {
      if s[..|pat|] == pat {
        ReplaceBySelf(s[|pat|..], pat);
        assert s == s[..|pat|] + s[|pat|..];
      } else {
        ReplaceBySelf(s[1..], pat);
        assert s == [s[0]] + s[1..];
      }
    }
  }

  /** A replacement no longer than the search string never lengthens the subject. */
  lemma {:induction false} ReplaceShrinks(s: string, pat: string, rep: string)
    requires |rep| <= |pat|
    ensures |Replace(s, pat, rep)| <= |s|
    decreases |s|
  {
    if |pat| > 0 && |s| >= |pat| {
      if s[..|pat|] == pat {
        ReplaceShrinks(s[|pat|..], pat, rep);
      } else {
        ReplaceShrinks(s[1..], pat, rep);
      }
    }
  }

  /**
   * Where the search string occurs exactly once, `str_replace` puts the
   * replacement in its place and leaves both sides untouched.
   */
  lemma {:induction false} ReplaceUnique(pre: string, pat: string, post: string, rep: string)
    requires |pat| > 0
    requires forall i: nat :: OccursAt(pre + pat + post, pat, i) ==> i == |pre|
    ensures Replace(pre + pat + post, pat, rep) == pre + rep + post
    decreases |pre|
  {
    var s := pre + pat + post;
    assert OccursAt(s, pat, |pre|);
    if pre == [] {
      assert s[..|pat|] == pat;
      assert s[|pat|..] == post;
      forall i: nat | OccursAt(post, pat, i) ensures false {
        assert s[|pat| + i..|pat| + i + |pat|] == post[i..i + |pat|];
        assert OccursAt(s, pat, |pat| + i);
      }
      ReplaceAbsent(post, pat, rep);
    } else {
      assert !OccursAt(s, pat, 0);
      var s' := pre[1..] + pat + post;
      assert s[1..] == s';
      forall i: nat | OccursAt(s', pat, i) ensures i == |pre[1..]| {
        assert s[i + 1..i + 1 + |pat|] == s'[i..i + |pat|];
        assert OccursAt(s, pat, i + 1);
      }
      ReplaceUnique(pre[1..], pat, post, rep);
      assert pre == [pre[0]] + pre[1..];
    }
  }

  /** When the search string occurs, the replacement appears in the result. */
  lemma {:induction false} ReplaceEmits(s: string, pat: string, rep: string)
    requires |pat| > 0 && Contains(s, pat)
    ensures Contains(Replace(s, pat, rep), rep)
    decreases |s|
  {
    var i: nat :| i <= |s| && OccursAt(s, pat, i);
    assert i + |pat| <= |s| && s[i..i + |pat|] == pat;
    if s[..|pat|] == pat {
      assert OccursAt(Replace(s, pat, rep), rep, 0);
    } else {
      assert s[0..0 + |pat|] == s[..|pat|];
      assert i > 0;
      assert s[1..][i - 1..i - 1 + |pat|] == s[i..i + |pat|];
      assert OccursAt(s[1..], pat, i - 1);
      ReplaceEmits(s[1..], pat, rep);
      var t := Replace(s[1..], pat, rep);
      var k: nat :| k <= |t| && OccursAt(t, rep, k);
      assert ([s[0]] + t)[k + 1..k + 1 + |rep|] == t[k..k + |rep|];
      assert OccursAt([s[0]] + t, rep, k + 1);
    }
  }

  /**
   * When no occurrence straddles the seam, replacing in `a + b` is the same
   * as replacing in `a` and in `b` separately.
   */
  lemma {:induction false} ReplaceConcat(a: string, b: string, pat: string, rep: string)
    requires |pat| > 0 && NoStraddle(a, b, pat)
    ensures Replace(a + b, pat, rep) == Replace(a, pat, rep) + Replace(b, pat, rep)
    decreases |a|
  {
    if a == [] {
      assert a + b == b;
    } else if |a + b| < |pat| {
      assert Replace(b, pat, rep) == b;
    } else if (a + b)[..|pat|] == pat {
      assert OccursAt(a + b, pat, 0);
      assert a[..|pat|] == pat;
      assert (a + b)[|pat|..] == a[|pat|..] + b;
      NoStraddleShift(a, b, pat, |pat|);
      ReplaceConcat(a[|pat|..], b, pat, rep);
    } else {
      assert (a + b)[1..] == a[1..] + b;
      NoStraddleShift(a, b, pat, 1);
      ReplaceConcat(a[1..], b, pat, rep);
      if |a| >= |pat| {
        assert a[..|pat|] == (a + b)[..|pat|];
      } else {
        assert Replace(a[1..], pat, rep) == a[1..];
        assert a == [a[0]] + a[1..];
      }
    }
  }

  /** Dropping a prefix of `a` keeps the seam free of occurrences. */
  lemma NoStraddleShift(a: string, b: string, pat: string, k: nat)
    requires NoStraddle(a, b, pat) && k <= |a|
    ensures NoStraddle(a[k..], b, pat)
  {
    assert (a + b)[k..] == a[k..] + b;
    forall j: nat | j < |a[k..]| < j + |pat| ensures !OccursAt(a[k..] + b, pat, j) {
      if j + |pat| <= |a[k..] + b| {
        var x, y := (a + b)[j + k..j + k + |pat|], (a[k..] + b)[j..j + |pat|];
        forall t | 0 <= t < |pat| ensures x[t] == y[t] {
          assert x[t] == (a + b)[j + k + t];
          assert y[t] == (a[k..] + b)[j + t];
        }
        assert x == y;
      }
      assert !OccursAt(a + b, pat, j + k);
    }
  }

  /**
   * An occurrence of `n` survives `str_replace` of a search string that
   * cannot overlap it: `n` does not hold the first character of the search
   * string, and the search string does not hold the first character of `n`.
   */
  lemma ReplaceKeeps(s: string, pat: string, rep: string, n: string)
    requires |pat| > 0 && |n| > 0 && Contains(s, n)
    requires pat[0] !in n && n[0] !in pat
    ensures Contains(Replace(s, pat, rep), n)
  {
    var i: nat :| i <= |s| && OccursAt(s, n, i);
    assert i + |n| <= |s|;
    var a, c := s[..i], s[i + |n|..];
    assert s == a + (n + c);
    forall j: nat | j < |a| < j + |pat| ensures !OccursAt(a + (n + c), pat, j) {
      assert (a + (n + c))[|a|] == n[0];
      assert j + |pat| <= |a + (n + c)| ==>
        (a + (n + c))[j..j + |pat|][|a| - j] == (a + (n + c))[|a|];
    }
    ReplaceConcat(a, n + c, pat, rep);
    forall j: nat | j < |n| < j + |pat| ensures !OccursAt(n + c, pat, j) {
      assert j + |pat| <= |n + c| ==> (n + c)[j..j + |pat|][0] == n[j];
    }
    ReplaceConcat(n, c, pat, rep);
    forall j: nat | j <= |n| ensures !OccursAt(n, pat, j) {
      assert j + |pat| <= |n| ==> n[j..j + |pat|][0] == n[j];
    }
    ReplaceAbsent(n, pat, rep);
    var r := Replace(s, pat, rep);
    assert r == Replace(a, pat, rep) + n + Replace(c, pat, rep);
    var k := |Replace(a, pat, rep)|;
    assert r[k..k + |n|] == n;
    assert OccursAt(r, n, k);
  }

  /**
   * `str_replace` keeps the first character of the subject, unless the
   * subject starts with the search string and the replacement starts
   * differently.
   */
  lemma ReplaceHead(s: string, pat: string, rep: string)
    requires |pat| > 0 && |s| > 0
    requires s[0] != pat[0] || (|rep| > 0 && rep[0] == pat[0])
    ensures |Replace(s, pat, rep)| > 0 && Replace(s, pat, rep)[0] == s[0]
  {
    if |s| >= |pat| && s[..|pat|] == pat {
      assert s[0] == pat[0];
    }
  }

  /** The search string alone becomes the replacement. */
  lemma ReplaceWhole(pat: string, rep: string)
    requires |pat| > 0
    ensures Replace(pat, pat, rep) == rep
  {
    assert pat[..|pat|] == pat;
    assert pat[|pat|..] == [];
    assert Replace(pat, pat, rep) == rep + Replace([], pat, rep);
  }

  /** With no occurrence across either seam, replacing in `a + m + c` works piece by piece. */
  lemma ReplaceAround(a: string, m: string, c: string, pat: string, rep: string)
    requires |pat| > 0 && NoStraddle(a, m + c, pat) && NoStraddle(m, c, pat)
    ensures Replace(a + m + c, pat, rep) == Replace(a, pat, rep) + Replace(m, pat, rep) + Replace(c, pat, rep)
  {
    assert a + m + c == a + (m + c);
    ReplaceConcat(a, m + c, pat, rep);
    ReplaceConcat(m, c, pat, rep);
  }

  /** A text that occurs in neither piece nor across the seam does not occur in the whole. */
  lemma NotContainsConcat(a: string, b: string, p: string)
    requires !Contains(a, p) && !Contains(b, p) && NoStraddle(a, b, p)
    ensures !Contains(a + b, p)
  {
    forall j: nat | j <= |a + b| ensures !OccursAt(a + b, p, j) {
      if j + |p| <= |a| {
        assert (a + b)[j..j + |p|] == a[j..j + |p|];
        assert !OccursAt(a, p, j);
      } else if j >= |a| && j + |p| <= |a + b| {
        assert (a + b)[j..j + |p|] == b[j - |a|..j - |a| + |p|];
        assert !OccursAt(b, p, j - |a|);
      }
    }
  }

  /** With a non-empty replacement, the result starts with the subject's or the replacement's first character. */
  lemma ReplaceFront(s: string, pat: string, rep: string)
    requires |pat| > 0 && |rep| > 0 && |s| > 0
    ensures |Replace(s, pat, rep)| > 0
    ensures Replace(s, pat, rep)[0] == s[0] || Replace(s, pat, rep)[0] == rep[0]
  {
  }

  /** With a non-empty replacement, the result ends with the subject's or the replacement's last character. */
  lemma {:induction false} ReplaceBack(s: string, pat: string, rep: string)
    requires |pat| > 0 && |rep| > 0 && |s| > 0
    ensures var r := Replace(s, pat, rep);
      |r| > 0 && (r[|r| - 1] == s[|s| - 1] || r[|r| - 1] == rep[|rep| - 1])
    decreases |s|
  {
    if |s| < |pat| {
    } else if s[..|pat|] == pat {
      var rest := s[|pat|..];
      if |rest| > 0 {
        ReplaceBack(rest, pat, rep);
        assert s[|s| - 1] == rest[|rest| - 1];
      }
    } else {
      var rest := s[1..];
      if |rest| > 0 {
        ReplaceBack(rest, pat, rep);
        assert s[|s| - 1] == rest[|rest| - 1];
      }
    }
  }

  /** Occurrence is transitive: a text inside a text inside `s` is inside `s`. */
  lemma ContainsTrans(s: string, x: string, n: string)
    requires Contains(s, x) && Contains(x, n)
    ensures Contains(s, n)
  {
    var i: nat :| i <= |s| && OccursAt(s, x, i);
    var j: nat :| j <= |x| && OccursAt(x, n, j);
    assert s[i..i + |x|] == x;
    forall t | 0 <= t < |n| ensures s[i + j + t] == n[t] {
      assert x[j + t] == n[t];
      assert s[i + j + t] == s[i..i + |x|][j + t];
    }
    assert s[i + j..i + j + |n|] == n;
    assert OccursAt(s, n, i + j);
  }

  /** A text absent from `s` is absent from every suffix of `s`. */
  lemma NotContainsSuffix(s: string, q: string, k: nat)
    requires !Contains(s, q) && k <= |s|
    ensures !Contains(s[k..], q)
  {
    forall j: nat | j <= |s[k..]| && OccursAt(s[k..], q, j) ensures false {
      assert s[k..][j..j + |q|] == s[j + k..j + k + |q|];
      assert OccursAt(s, q, j + k);
    }
  }

  /** An occurrence in `a + b` that starts past `a` is an occurrence in `b`. */
  lemma OccursInSecond(a: string, b: string, q: string, j: nat)
    requires |a| <= j && OccursAt(a + b, q, j)
    ensures OccursAt(b, q, j - |a|)
  {
    assert (a + b)[j..j + |q|] == b[j - |a|..j - |a| + |q|];
  }

  /** No occurrence of `q` starts inside a text that lacks the first character of `q`. */
  lemma NoneStartsIn(e: string, t: string, rest: string, q: string)
    requires |q| > 0 && q[0] !in e
    ensures forall j: nat :: j < |e| ==> !OccursAt(e + t + rest, q, j)
  {
  }

  /**
   * A prefix of the result of `str_replace` that does not hold the first
   * character of the replacement is untouched: it is a prefix of the subject.
   */
  lemma {:induction false} ReplacePrefixBack(s: string, pat: string, rep: string, x: string)
    requires |rep| > 0 && rep[0] !in x
    requires |x| <= |Replace(s, pat, rep)| && Replace(s, pat, rep)[..|x|] == x
    ensures |x| <= |s| && s[..|x|] == x
    decreases |s|
  {
    if |x| > 0 && |pat| > 0 && |s| >= |pat| {
      var r := Replace(s, pat, rep);
      assert x[0] == r[..|x|][0] == r[0] && x[0] in x;
      assert s[..|pat|] != pat;
      var r' := Replace(s[1..], pat, rep);
      assert r == [s[0]] + r';
      assert r'[..|x| - 1] == x[1..];
      ReplacePrefixBack(s[1..], pat, rep, x[1..]);
      assert s[..|x|] == [s[0]] + s[1..][..|x| - 1];
    }
  }

  /**
   * Replacing `pat` by `e + t`, where `t` is a tail of `pat`, creates no
   * occurrence of `q`: `q` cannot start inside `e` nor run into it, and an
   * occurrence starting inside `t` was already there in front of the rest
   * of the subject.
   */
  lemma {:induction false} ReplaceAddsNone(s: string, pat: string, e: string, t: string, q: string)
    requires |q| > 0 && !Contains(s, q)
    requires |e| > 0 && e[0] !in q && q[0] !in e
    requires |t| <= |pat| && pat[|pat| - |t|..] == t
    ensures !Contains(Replace(s, pat, e + t), q)
    decreases |s|
  {
    if |pat| > 0 && |s| >= |pat| {
      if s[..|pat|] == pat {
        NotContainsSuffix(s, q, |pat|);
        ReplaceAddsNone(s[|pat|..], pat, e, t, q);
        ReplacedHereAddsNone(s, pat, e, t, q);
      } else {
        NotContainsSuffix(s, q, 1);
        ReplaceAddsNone(s[1..], pat, e, t, q);
        KeptHereAddsNone(s, pat, e + t, q);
      }
    }
  }

  /** The step of `ReplaceAddsNone` where the subject starts with the search string. */
  lemma ReplacedHereAddsNone(s: string, pat: string, e: string, t: string, q: string)
    requires |q| > 0 && !Contains(s, q)
    requires |e| > 0 && e[0] !in q && q[0] !in e
    requires |t| <= |pat| && pat[|pat| - |t|..] == t
    requires 0 < |pat| <= |s| && s[..|pat|] == pat
    requires !Contains(Replace(s[|pat|..], pat, e + t), q)
    ensures !Contains(Replace(s, pat, e + t), q)
  {
    var rep := e + t;
    var r' := Replace(s[|pat|..], pat, rep);
    var r := rep + r';
    assert Replace(s, pat, rep) == r;
    NoneStartsIn(e, t, r', q);
    forall j: nat | j <= |r| && OccursAt(r, q, j) ensures false {
      if |e| <= j < |rep| {
        OccurrenceInTail(s, pat, e, t, q, j);
      } else {
        OccursInSecond(rep, r', q, j);
      }
    }
  }

  /** An occurrence starting in the tail `t` of a replacement at the front of the result. */
  lemma OccurrenceInTail(s: string, pat: string, e: string, t: string, q: string, j: nat)
    requires |q| > 0 && |e| > 0 && e[0] !in q
    requires |t| <= |pat| && pat[|pat| - |t|..] == t
    requires 0 < |pat| <= |s| && s[..|pat|] == pat
    requires |e| <= j < |e + t|
    requires OccursAt(e + t + Replace(s[|pat|..], pat, e + t), q, j)
    ensures OccursAt(s, q, |pat| - |t| + (j - |e|))
  {
    var rep := e + t;
    var r' := Replace(s[|pat|..], pat, rep);
    var r := rep + r';
    var k := |rep| - j;
    if |q| > k {
      var x := q[k..];
      assert x == r[j..j + |q|][k..] == r[|rep|..j + |q|];
      assert r[|rep|..] == r';
      assert r'[..|x|] == x;
      assert rep[0] == e[0];
      ReplacePrefixBack(s[|pat|..], pat, rep, x);
    }
    OccurrenceFromTail(s, pat, e, t, q, j, r');
  }

  /**
   * An occurrence starting in the tail `t` of a replacement at the front
   * was in the subject already, given that the part of it past the
   * replacement is where the subject continues.
   */
  lemma OccurrenceFromTail(s: string, pat: string, e: string, t: string, q: string, j: nat, r': string)
    requires |t| <= |pat| && pat[|pat| - |t|..] == t
    requires |pat| <= |s| && s[..|pat|] == pat
    requires |e| <= j < |e + t|
    requires OccursAt(e + t + r', q, j)
    requires |q| > |e + t| - j ==>
               |q| - (|e + t| - j) <= |s| - |pat| && s[|pat|..][..|q| - (|e + t| - j)] == q[|e + t| - j..]
    ensures OccursAt(s, q, |pat| - |t| + (j - |e|))
  {
    var rep := e + t;
    var k := |rep| - j;
    var i0 := |pat| - |t| + (j - |e|);
    forall u | 0 <= u < |q| ensures i0 + u < |s| && s[i0 + u] == q[u] {
      assert q[u] == (rep + r')[j..j + |q|][u] == (rep + r')[j + u];
      if u < k {
        assert (rep + r')[j + u] == rep[j + u] == t[j - |e| + u];
        assert pat[i0 + u] == pat[|pat| - |t|..][j - |e| + u];
        assert s[i0 + u] == s[..|pat|][i0 + u];
      } else {
        assert q[u] == q[k..][u - k];
        assert s[i0 + u] == s[|pat|..][..|q| - k][u - k];
      }
    }
    assert s[i0..i0 + |q|] == q;
  }

  /** The step of `ReplaceAddsNone` where the first character of the subject is kept. */
  lemma KeptHereAddsNone(s: string, pat: string, rep: string, q: string)
    requires |q| > 0 && !Contains(s, q)
    requires |rep| > 0 && rep[0] !in q
    requires 0 < |pat| <= |s| && s[..|pat|] != pat
    requires !Contains(Replace(s[1..], pat, rep), q)
    ensures !Contains(Replace(s, pat, rep), q)
  {
    var r' := Replace(s[1..], pat, rep);
    var r := Replace(s, pat, rep);
    assert r == [s[0]] + r';
    forall j: nat | j <= |r| && OccursAt(r, q, j) ensures false {
      if j == 0 {
        OccurrenceFromKept(s, pat, rep, q);
      } else {
        assert r[j..j + |q|] == r'[j - 1..j - 1 + |q|];
        assert OccursAt(r', q, j - 1);
      }
    }
  }

  /** An occurrence at the front of the result, when the first character is kept, was in the subject already. */
  lemma OccurrenceFromKept(s: string, pat: string, rep: string, q: string)
    requires |q| > 0 && |rep| > 0 && rep[0] !in q
    requires 0 < |pat| <= |s| && s[..|pat|] != pat
    requires OccursAt([s[0]] + Replace(s[1..], pat, rep), q, 0)
    ensures OccursAt(s, q, 0)
  {
    var r' := Replace(s[1..], pat, rep);
    var r := [s[0]] + r';
    var x := q[1..];
    forall v | 0 <= v < |x| ensures r'[v] == x[v] {
      assert r[1 + v] == r'[v];
      assert r[..|q|][1 + v] == r[1 + v];
    }
    assert r'[..|x|] == x;
    assert forall v :: 0 <= v < |x| ==> x[v] == q[1 + v];
    ReplacePrefixBack(s[1..], pat, rep, x);
    forall u | 0 <= u < |q| ensures s[u] == q[u] {
      if u > 0 {
        assert s[u] == s[1..][..|x|][u - 1];
      } else {
        assert q[0] == r[..|q|][0] == s[0];
      }
    }
    assert s[..|q|] == q;
  }

  // ---------------------------------------------------------------------
  // strpos
  // ---------------------------------------------------------------------

  /** The first occurrence of `n` in `h` at offset `from` or later. */
  function FindFrom(h: string, n: string, from: nat): (r: Option<nat>)
    ensures r.Some? ==> from <= r.value && OccursAt(h, n, r.value)
    ensures r.Some? ==> forall j: nat :: from <= j < r.value ==> !OccursAt(h, n, j)
    ensures r.None? ==> forall j: nat :: from <= j ==> !OccursAt(h, n, j)
    decreases |h| - from
  {
    if from + |n| > |h| then None
    else if h[from..from + |n|] == n then Some(from)
    else FindFrom(h, n, from + 1)
  }

  /**
   * `strpos(h, n)`: the offset of the first occurrence of `n` in `h`, or
   * nothing (PHP's `false`). An empty needle is found at offset 0 (PHP 8).
   */
  function StrPos(h: string, n: string): (r: Option<nat>)
    ensures r.None? <==> !Contains(h, n)
    ensures r.Some? ==> OccursAt(h, n, r.value)
    ensures r.Some? ==> forall j: nat :: j < r.value ==> !OccursAt(h, n, j)
  {
    FindFrom(h, n, 0)
  }

  /**
   * `!strpos(h, n)`: true when `strpos` returns `false` and also when it
   * returns offset 0, since PHP treats 0 as false.
   */
  predicate StrposFalsy(h: string, n: string) {
    match StrPos(h, n)
    case None => true
    case Some(i) => i == 0
  }

  /** The guard holds exactly when `n` is absent or `h` starts with `n`. */
  lemma StrposFalsyIff(h: string, n: string)
    ensures StrposFalsy(h, n) <==> (!Contains(h, n) || OccursAt(h, n, 0))
  {
    if OccursAt(h, n, 0) {
      assert StrPos(h, n).Some?;
    }
  }

  /**
   * When `h` does not start with the first character of `n`, the guard is
   * plain absence.
   */
  lemma StrposFalsyAbsent(h: string, n: string)
    requires |h| > 0 && |n| > 0 && h[0] != n[0]
    ensures StrposFalsy(h, n) <==> !Contains(h, n)
  {
    StrposFalsyIff(h, n);
  }

  // ---------------------------------------------------------------------
  // explode / implode
  // ---------------------------------------------------------------------

  /** `explode(sep, s)`: the pieces of `s` between separators. */
  function Explode(sep: char, s: string): (parts: seq<string>)
    ensures |parts| >= 1
    ensures forall i :: 0 <= i < |parts| ==> sep !in parts[i]
    decreases |s|
  {
    if s == [] then [""]
    else
      var rest := Explode(sep, s[1..]);
      if s[0] == sep then [""] + rest
      else [[s[0]] + rest[0]] + rest[1..]
  }

  /** `implode(sep, parts)`. */
  function Implode(sep: char, parts: seq<string>): string
    decreases |parts|
  {
    if parts == [] then ""
    else if |parts| == 1 then parts[0]
    else parts[0] + [sep] + Implode(sep, parts[1..])
  }

  /** Joining the pieces again gives back the original string. */
  lemma {:induction false} ImplodeExplode(sep: char, s: string)
    ensures Implode(sep, Explode(sep, s)) == s
    decreases |s|
  {
    if s != [] {
      ImplodeExplode(sep, s[1..]);
      var rest := Explode(sep, s[1..]);
      if s[0] == sep {
        assert s == [sep] + s[1..];
      } else if |rest| == 1 {
        assert s == [s[0]] + s[1..];
      } else {
        assert Implode(sep, [[s[0]] + rest[0]] + rest[1..])
            == [s[0]] + rest[0] + [sep] + Implode(sep, rest[1..]);
        assert s == [s[0]] + s[1..];
      }
    }
  }

  /** A piece without separator followed by a separator becomes one part. */
  lemma {:induction false} ExplodeCons(sep: char, a: string, b: string)
    requires sep !in a
    ensures Explode(sep, a + [sep] + b) == [a] + Explode(sep, b)
    decreases |a|
  {
    if a == [] {
      assert a + [sep] + b == [sep] + b;
      assert ([sep] + b)[1..] == b;
    } else {
      assert (a + [sep] + b)[1..] == a[1..] + [sep] + b;
      ExplodeCons(sep, a[1..], b);
      assert a == [a[0]] + a[1..];
    }
  }

  /** A string without separator is a single part. */
  lemma {:induction false} ExplodeSingle(sep: char, a: string)
    requires sep !in a
    ensures Explode(sep, a) == [a]
    decreases |a|
  {
    if a != [] {
      ExplodeSingle(sep, a[1..]);
      assert a == [a[0]] + a[1..];
    }
  }

  /** Splitting a joined list of separator-free pieces gives back the list. */
  lemma {:induction false} ExplodeImplode(sep: char, parts: seq<string>)
    requires |parts| >= 1
    requires forall i :: 0 <= i < |parts| ==> sep !in parts[i]
    ensures Explode(sep, Implode(sep, parts)) == parts
    decreases |parts|
  {
    if |parts| == 1 {
      ExplodeSingle(sep, parts[0]);
    } else {
      ExplodeImplode(sep, parts[1..]);
      ExplodeCons(sep, parts[0], Implode(sep, parts[1..]));
      assert parts == [parts[0]] + parts[1..];
    }
  }

  // ---------------------------------------------------------------------
  // Case functions and falsiness
  // ---------------------------------------------------------------------

  predicate IsUpper(c: char) { 'A' <= c <= 'Z' }

  predicate IsLower(c: char) { 'a' <= c <= 'z' }

  function ToLower(c: char): char {
    if IsUpper(c) then (c as int + 32) as char else c
  }

  function ToUpper(c: char): char {
    if IsLower(c) then (c as int - 32) as char else c
  }

  /** `strtolower(s)`, ASCII letters only. */
  function StrToLower(s: string): string {
    seq(|s|, i requires 0 <= i < |s| => ToLower(s[i]))
  }

  /** `ucfirst(s)`. */
  function UcFirst(s: string): string {
    if s == [] then s else [ToUpper(s[0])] + s[1..]
  }

  /** `lcfirst(s)`. */
  function LcFirst(s: string): string {
    if s == [] then s else [ToLower(s[0])] + s[1..]
  }

  /**
   * The registration key (`lcfirst`) and the configuration key
   * (`strtolower`) of a model name agree exactly when no letter after the
   * first is upper case.
   */
  lemma LcFirstIsLower(s: string)
    ensures LcFirst(s) == StrToLower(s) <==> forall i :: 1 <= i < |s| ==> !IsUpper(s[i])
  {
    if LcFirst(s) == StrToLower(s) {
      forall i | 1 <= i < |s| ensures !IsUpper(s[i]) {
        assert LcFirst(s)[i] == s[i];
        assert StrToLower(s)[i] == ToLower(s[i]);
      }
    }
    if forall i :: 1 <= i < |s| ==> !IsUpper(s[i]) {
      if s != [] {
        assert forall i :: 0 <= i < |s| ==> LcFirst(s)[i] == StrToLower(s)[i];
      }
    }
  }

  /** A string is falsy in PHP when it is empty or "0". */
  predicate Falsy(s: string) {
    s == "" || s == "0"
  }
}
