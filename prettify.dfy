/**
 * The text tidying step the generator command applies before writing a
 * document back (GenerateORM.php, lines 212-214): a Unicode-aware regular
 * expression first deletes every run of whitespace that stands directly in
 * front of a comma, then a plain replacement turns each opening
 * parenthesis followed by a comma into the parenthesis alone.
 */
module Prettify {
  import opened Php

  /**
   * `\s` under the `/u` modifier: the characters of `\p{Z}` together with
   * the horizontal (`\h`) and vertical (`\v`) white space characters, that
   * is tab, line feed, vertical tab, form feed, carriage return and space,
   * next line, the Unicode space separators, the Mongolian vowel separator,
   * and the line and paragraph separators.
   */
  predicate IsSpace(c: char) {
    c == ' ' || 9 <= c as int <= 13 || c as int == 0x85 || c as int == 0xA0
    || c as int == 0x1680 || c as int == 0x180E || 0x2000 <= c as int <= 0x200A
    || c as int == 0x2028 || c as int == 0x2029 || c as int == 0x202F
    || c as int == 0x205F || c as int == 0x3000
  }

  /** `s` starts with a (possibly empty) run of whitespace and then a comma. */
  predicate CommaAhead(s: string)
    decreases |s|
  {
    |s| > 0 && (s[0] == ',' || (IsSpace(s[0]) && CommaAhead(s[1..])))
  }

  /** No whitespace character stands immediately before a comma. */
  predicate NoSpaceBeforeComma(s: string) {
    forall i :: 0 < i < |s| && s[i] == ',' ==> !IsSpace(s[i - 1])
  }

  /** The characters of `s` that are not whitespace, in order. */
  function Visible(s: string): string
    decreases |s|
  {
    if s == [] then []
    else if IsSpace(s[0]) then Visible(s[1..])
    else [s[0]] + Visible(s[1..])
  }

  /**
   * The regular-expression stage. A match of `(\n|\s|\t)*,` starts at the
   * first character of a whitespace run that reaches a comma, so a
   * whitespace character is deleted exactly when the rest of its run is
   * followed by a comma; every other character, commas included, stays.
   */
  function Collapse(s: string): (r: string)
    ensures |r| <= |s|
    ensures NoSpaceBeforeComma(r)
    ensures (|r| > 0 && r[0] == ',') <==> CommaAhead(s)
    decreases |s|
  {
    if s == [] then []
    else if IsSpace(s[0]) && CommaAhead(s[1..]) then Collapse(s[1..])
    else [s[0]] + Collapse(s[1..])
  }

  /** `prettifyText(txt)`. */
  function PrettifyText(s: string): string {
    Replace(Collapse(s), "(,", "(")
  }

  /** The regular-expression stage deletes whitespace and nothing else. */
  lemma {:induction false} CollapseOnlyDropsSpace(s: string)
    ensures Visible(Collapse(s)) == Visible(s)
    decreases |s|
  {
    if s != [] {
      CollapseOnlyDropsSpace(s[1..]);
      var t := Collapse(s[1..]);
      if !(IsSpace(s[0]) && CommaAhead(s[1..])) {
        assert ([s[0]] + t)[1..] == t;
      }
    }
  }

  /** Text without a comma passes the regular-expression stage unchanged. */
  lemma {:induction false} CollapseNoComma(s: string)
    requires ',' !in s
    ensures Collapse(s) == s
    decreases |s|
  {
    if s != [] {
      NoCommaNoCommaAhead(s[1..]);
      CollapseNoComma(s[1..]);
      assert s == [s[0]] + s[1..];
    }
  }

  lemma {:induction false} NoCommaNoCommaAhead(s: string)
    requires ',' !in s
    ensures !CommaAhead(s)
    decreases |s|
  {
    if s != [] {
      NoCommaNoCommaAhead(s[1..]);
    }
  }

  /**
   * Whether a comma lies ahead is decided inside `a` when `a` ends with a
   * non-space character, or when no comma lies ahead in `b`.
   */
  lemma {:induction false} CommaAheadAppend(a: string, b: string)
    requires !CommaAhead(b) || (|a| > 0 && !IsSpace(a[|a| - 1]))
    ensures CommaAhead(a + b) == CommaAhead(a)
    decreases |a|
  {
    if a == [] {
      assert a + b == b;
    } else {
      assert (a + b)[0] == a[0];
      assert (a + b)[1..] == a[1..] + b;
      if a[0] != ',' && IsSpace(a[0]) {
        CommaAheadAppend(a[1..], b);
      }
    }
  }

  /** Under the same condition the stage works on both pieces separately. */
  lemma {:induction false} CollapseConcat(a: string, b: string)
    requires |a| == 0 || !IsSpace(a[|a| - 1]) || !CommaAhead(b)
    ensures Collapse(a + b) == Collapse(a) + Collapse(b)
    decreases |a|
  {
    if a == [] {
      assert a + b == b;
    } else {
      assert (a + b)[0] == a[0];
      assert (a + b)[1..] == a[1..] + b;
      if IsSpace(a[0]) {
        CommaAheadAppend(a[1..], b);
      }
      CollapseConcat(a[1..], b);
    }
  }

  /** A leading non-space character survives the regular-expression stage. */
  lemma CollapseHead(s: string)
    requires |s| > 0 && !IsSpace(s[0])
    ensures |Collapse(s)| > 0 && Collapse(s)[0] == s[0]
  {
  }

  /**
   * An occurrence of a comma-free text that neither starts nor ends with
   * whitespace survives the regular-expression stage.
   */
  lemma CollapseKeeps(s: string, n: string)
    requires Contains(s, n) && |n| > 0 && ',' !in n
    requires !IsSpace(n[0]) && !IsSpace(n[|n| - 1])
    ensures Contains(Collapse(s), n)
  {
    var i: nat :| i <= |s| && OccursAt(s, n, i);
    assert i + |n| <= |s|;
    var a, c := s[..i], s[i + |n|..];
    assert s == a + (n + c);
    assert !CommaAhead(n + c) by {
      assert (n + c)[0] == n[0];
      assert n[0] != ',' by { assert n[0] in n; }
    }
    CollapseConcat(a, n + c);
    CollapseConcat(n, c);
    CollapseNoComma(n);
    var r := Collapse(s);
    assert r == Collapse(a) + n + Collapse(c);
    var k := |Collapse(a)|;
    assert r[k..k + |n|] == n;
    assert OccursAt(r, n, k);
  }

  /** A comma-free prefix of the result of the regular-expression stage is a prefix of its input. */
  lemma {:induction false} CollapsePrefixBack(s: string, x: string)
    requires ',' !in x
    requires |x| <= |Collapse(s)| && Collapse(s)[..|x|] == x
    ensures |x| <= |s| && s[..|x|] == x
    decreases |s|
  {
    if |x| > 0 {
      var r := Collapse(s);
      assert x[0] == r[..|x|][0] == r[0] && x[0] in x;
      assert !(IsSpace(s[0]) && CommaAhead(s[1..]));
      var r' := Collapse(s[1..]);
      assert r == [s[0]] + r';
      assert r'[..|x| - 1] == x[1..];
      CollapsePrefixBack(s[1..], x[1..]);
      assert s[..|x|] == [s[0]] + s[1..][..|x| - 1];
    }
  }

  /**
   * The regular-expression stage creates no occurrence of a comma-free
   * text: it only deletes whitespace that a comma follows.
   */
  lemma {:induction false} CollapseAddsNone(s: string, q: string)
    requires |q| > 0 && ',' !in q && !Contains(s, q)
    ensures !Contains(Collapse(s), q)
    decreases |s|
  {
    if s != [] {
      NotContainsSuffix(s, q, 1);
      CollapseAddsNone(s[1..], q);
      if !(IsSpace(s[0]) && CommaAhead(s[1..])) {
        var r' := Collapse(s[1..]);
        var r := Collapse(s);
        assert r == [s[0]] + r';
        forall j: nat | j <= |r| && OccursAt(r, q, j) ensures false {
          if j == 0 {
            CollapseFrontOccurrence(s, q);
          } else {
            OccursInSecond([s[0]], r', q, j);
          }
        }
      }
    }
  }

  /** An occurrence at the front of the output, when the first character is kept, was at the front of the input. */
  lemma CollapseFrontOccurrence(s: string, q: string)
    requires |q| > 0 && ',' !in q && s != []
    requires OccursAt([s[0]] + Collapse(s[1..]), q, 0)
    ensures OccursAt(s, q, 0)
  {
    var r' := Collapse(s[1..]);
    var r := [s[0]] + r';
    var x := q[1..];
    assert x == r[..|q|][1..] == r[1..|q|];
    assert r[1..] == r';
    assert r'[..|x|] == x;
    CollapsePrefixBack(s[1..], x);
    assert s[..|q|] == [s[0]] + s[1..][..|x|];
  }

  /** `prettifyText` creates no occurrence of a text without commas and parentheses. */
  lemma PrettifyAddsNone(s: string, q: string)
    requires |q| > 0 && ',' !in q && '(' !in q && !Contains(s, q)
    ensures !Contains(PrettifyText(s), q)
  {
    CollapseAddsNone(s, q);
    assert q[0] != '(' by { assert q[0] in q; }
    assert "(," [2..] == "" && "(" + "" == "(";
    ReplaceAddsNone(Collapse(s), "(,", "(", "", q);
  }

  /** Dropping the comma after `(` never puts whitespace in front of a comma. */
  lemma {:induction false} DropParenCommaKeepsNoSpace(s: string)
    requires NoSpaceBeforeComma(s)
    ensures NoSpaceBeforeComma(Replace(s, "(,", "("))
    decreases |s|
  {
    var r := Replace(s, "(,", "(");
    if |s| >= 2 {
      if s[..2] == "(," {
        var t := Replace(s[2..], "(,", "(");
        DropParenCommaKeepsNoSpace(s[2..]);
        assert r == "(" + t;
        forall i | 0 < i < |r| && r[i] == ',' ensures !IsSpace(r[i - 1]) {
          if i > 1 { assert r[i] == t[i - 1] && r[i - 1] == t[i - 2]; }
        }
      } else {
        var t := Replace(s[1..], "(,", "(");
        DropParenCommaKeepsNoSpace(s[1..]);
        assert r == [s[0]] + t;
        if |t| > 0 {
          ReplaceHead(s[1..], "(,", "(");
        }
        forall i | 0 < i < |r| && r[i] == ',' ensures !IsSpace(r[i - 1]) {
          if i > 1 {
            assert r[i] == t[i - 1] && r[i - 1] == t[i - 2];
          } else {
            assert s[1] == ',';
          }
        }
      }
    }
  }

  /**
   * The result of `prettifyText` has no whitespace right before a comma,
   * is never longer than its input, and a text without commas comes back
   * unchanged.
   */
  lemma PrettifyTextSpec(s: string)
    ensures NoSpaceBeforeComma(PrettifyText(s))
    ensures |PrettifyText(s)| <= |s|
    ensures ',' !in s ==> PrettifyText(s) == s
  {
    DropParenCommaKeepsNoSpace(Collapse(s));
    ReplaceShrinks(Collapse(s), "(,", "(");
    if ',' !in s {
      CollapseNoComma(s);
      forall i: nat | i <= |s| ensures !OccursAt(s, "(,", i) {
        assert i + 2 <= |s| ==> s[i..i + 2][1] == s[i + 1];
      }
      ReplaceAbsent(s, "(,", "(");
    }
  }

  /** A leading non-space character survives `prettifyText`. */
  lemma PrettifyTextHead(s: string)
    requires |s| > 0 && !IsSpace(s[0])
    ensures |PrettifyText(s)| > 0 && PrettifyText(s)[0] == s[0]
  {
    CollapseHead(s);
    ReplaceHead(Collapse(s), "(,", "(");
  }

  /**
   * An occurrence of a text without commas and parentheses that neither
   * starts nor ends with whitespace survives `prettifyText`.
   */
  lemma PrettifyTextKeeps(s: string, n: string)
    requires Contains(s, n) && |n| > 0 && ',' !in n && '(' !in n
    requires !IsSpace(n[0]) && !IsSpace(n[|n| - 1])
    ensures Contains(PrettifyText(s), n)
  {
    CollapseKeeps(s, n);
    assert n[0] != '(' && n[0] != ',' by { assert n[0] in n; }
    ReplaceKeeps(Collapse(s), "(,", "(", n);
  }

  /**
   * `prettifyText` is not idempotent: a second pass can remove a comma
   * that the first pass left behind an opening parenthesis.
   */
  lemma PrettifyTextNotIdempotent()
    ensures PrettifyText("((,,") == "((,"
    ensures PrettifyText("((,") == "(("
  {
    assert Collapse(",") == ",";
    assert Collapse(",,") == ",,";
    assert Collapse("(,,") == "(,,";
    assert Collapse("((,,") == "((,,";
    assert Collapse("(,") == "(,";
    assert Collapse("((,") == "((,";
    assert Replace(",", "(,", "(") == ",";
    assert Replace(",,", "(,", "(") == ",,";
    assert Replace("(,,", "(,", "(") == "(,";
    assert Replace("((,,", "(,", "(") == "((,";
    assert Replace("", "(,", "(") == "";
    assert Replace("(,", "(,", "(") == "(";
    assert Replace("((,", "(,", "(") == "((";
  }
}
