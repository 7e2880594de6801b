/**
 * Properties of the generator command's operations, stated over the
 * functions of module Orm: what the registration patches insert and keep,
 * that registering twice adds nothing, that errors come before writes, and
 * the order in which files are produced.
 */
module OrmProps {
  import opened Php
  import opened Prettify
  import opened Files
  import opened Orm

  // -----------------------------------------------------------------------
  // Names
  // -----------------------------------------------------------------------

  predicate IsIdentChar(c: char) {
    'a' <= c <= 'z' || 'A' <= c <= 'Z' || '0' <= c <= '9' || c == '_'
  }

  /** A PHP identifier-like name: non-empty, letters, digits and underscores. */
  predicate IsIdentifier(s: string) {
    |s| > 0 && forall i :: 0 <= i < |s| ==> IsIdentChar(s[i])
  }

  /** Identifier characters and namespace separators only. */
  predicate IsQualified(s: string) {
    forall i :: 0 <= i < |s| ==> IsIdentChar(s[i]) || s[i] == '\\'
  }

  lemma UcFirstIdentifier(s: string)
    requires IsIdentifier(s)
    ensures IsIdentifier(UcFirst(s))
  {
    assert UcFirst(s)[0] == ToUpper(s[0]);
    forall i | 1 <= i < |s| ensures UcFirst(s)[i] == s[i] { }
  }

  /** A wrapper's class name starts with `\`, ends with `y`, and holds no comma, parenthesis, slash or star. */
  lemma ClassNameShape(root: string, name: string, k: Wrapper)
    requires IsIdentifier(root) && IsIdentifier(name)
    ensures var n := ClassName(root, name, k);
      && |n| > 0 && n[0] == '\\' && n[|n| - 1] == 'y'
      && IsQualified(n) && ',' !in n && '(' !in n && '/' !in n && '*' !in n
  {
    UcFirstIdentifier(root);
    UcFirstIdentifier(name);
    var n := ClassName(root, name, k);
    var parts := ["\\Project\\", UcFirst(root), "\\ORM\\", UcFirst(name), "\\", WrapperName(k)];
    assert n == parts[0] + parts[1] + parts[2] + parts[3] + parts[4] + parts[5];
    assert forall j :: 0 <= j < |parts| ==> IsQualified(parts[j]);
    assert IsQualified(n);
  }

  // -----------------------------------------------------------------------
  // Markers
  // -----------------------------------------------------------------------

  predicate IsLetter(c: char) {
    'a' <= c <= 'z' || 'A' <= c <= 'Z'
  }

  /** A marker comment: `/*`, letters, then `*/`. */
  predicate MarkerShaped(m: string) {
    && |m| >= 4 && m[0] == '/' && m[1] == '*' && m[|m| - 2] == '*' && m[|m| - 1] == '/'
    && forall t :: 2 <= t < |m| - 2 ==> IsLetter(m[t])
  }

  /** Inside a marker the only slashes are its first and last characters. */
  lemma MarkerSlashes(m: string)
    requires MarkerShaped(m)
    ensures forall t :: 0 < t < |m| - 1 ==> m[t] != '/'
  {
  }

  lemma EntityMarkerShaped() ensures MarkerShaped(EntityMarker) { }
  lemma RepositoryMarkerShaped() ensures MarkerShaped(RepositoryMarker) { }
  lemma QueryMarkerShaped() ensures MarkerShaped(QueryMarker) { }
  lemma ModelMarkerShaped() ensures MarkerShaped(ModelMarker) { }

  /** The four markers are marker comments, and the three table markers differ. */
  lemma MarkersShaped()
    ensures MarkerShaped(EntityMarker) && MarkerShaped(RepositoryMarker)
    ensures MarkerShaped(QueryMarker) && MarkerShaped(ModelMarker)
    ensures EntityMarker != RepositoryMarker && EntityMarker != QueryMarker && RepositoryMarker != QueryMarker
  {
    EntityMarkerShaped();
    RepositoryMarkerShaped();
    QueryMarkerShaped();
    ModelMarkerShaped();
    assert EntityMarker[2] == 'e' && RepositoryMarker[2] == 'r' && QueryMarker[2] == 'q';
  }

  /** A marker holds no comma, opening parenthesis or backslash. */
  lemma MarkerPlain(m: string)
    requires MarkerShaped(m)
    ensures ',' !in m && '(' !in m && '\\' !in m
  {
    forall t | 0 <= t < |m| ensures m[t] != ',' && m[t] != '(' && m[t] != '\\' {
      if 2 <= t < |m| - 2 {
        assert IsLetter(m[t]);
      }
    }
  }

  /** A marker survives `prettifyText`. */
  lemma PrettifyKeepsMarker(t: string, m: string)
    requires MarkerShaped(m) && Contains(t, m)
    ensures Contains(PrettifyText(t), m)
  {
    MarkerPlain(m);
    PrettifyTextKeeps(t, m);
  }

  /** An occurrence of `m` at `i` with no `*` right before or right after it. */
  predicate IsolatedAt(s: string, m: string, i: nat) {
    && OccursAt(s, m, i)
    && (i == 0 || s[i - 1] != '*')
    && (i + |m| == |s| || s[i + |m|] != '*')
  }

  /** `s` holds an isolated occurrence of the marker `m`. */
  predicate Isolated(s: string, m: string) {
    exists i: nat | i <= |s| :: IsolatedAt(s, m, i)
  }

  /** One marker never occurs inside another. */
  lemma MarkerNotInMarker(m: string, p: string)
    requires MarkerShaped(m) && MarkerShaped(p) && m != p
    ensures !Contains(m, p)
  {
    MarkerSlashes(m);
    MarkerSlashes(p);
    forall j: nat | j <= |m| ensures !OccursAt(m, p, j) {
      if j + |p| <= |m| {
        var sl := m[j..j + |p|];
        assert sl[0] == m[j];
        assert sl[|p| - 1] == m[j + |p| - 1];
        assert j == 0 && |p| == |m| ==> sl == m;
      }
    }
  }

  /** Splits `s` around an isolated occurrence of `m`. */
  lemma IsolatedParts(s: string, m: string) returns (a: string, c: string)
    requires Isolated(s, m)
    ensures s == a + m + c
    ensures |a| > 0 ==> a[|a| - 1] != '*'
    ensures |c| > 0 ==> c[0] != '*'
  {
    var i: nat :| i <= |s| && IsolatedAt(s, m, i);
    a, c := s[..i], s[i + |m|..];
    assert s == a + s[i..i + |m|] + c;
  }

  /** A marker between texts that do not touch it with `*` is isolated. */
  lemma IsolatedJoin(a: string, m: string, c: string)
    requires |a| > 0 ==> a[|a| - 1] != '*'
    requires |c| > 0 ==> c[0] != '*'
    ensures Isolated(a + m + c, m)
  {
    var t := a + m + c;
    assert t[|a|..|a| + |m|] == m;
    assert |a| > 0 ==> t[|a| - 1] == a[|a| - 1];
    assert |c| > 0 ==> t[|a| + |m|] == c[0];
    assert IsolatedAt(t, m, |a|);
  }

  /** No marker occurrence runs from `a` into a marker `m` unless `a` ends with `*`. */
  lemma NoStraddleBefore(a: string, m: string, c: string, p: string)
    requires MarkerShaped(m) && MarkerShaped(p)
    requires |a| > 0 ==> a[|a| - 1] != '*'
    ensures NoStraddle(a, m + c, p)
  {
    MarkerSlashes(p);
    var s := a + (m + c);
    forall j: nat | j < |a| < j + |p| ensures !OccursAt(s, p, j) {
      if j + |p| <= |s| {
        var sl := s[j..j + |p|];
        assert sl[|a| - j] == s[|a|] == m[0];
        assert sl[|a| - j - 1] == s[|a| - 1] == a[|a| - 1];
      }
    }
  }

  /** No marker occurrence runs from a marker `m` into `c` unless `c` starts with `*`. */
  lemma NoStraddleAfter(m: string, c: string, p: string)
    requires MarkerShaped(m) && MarkerShaped(p)
    requires |c| > 0 ==> c[0] != '*'
    ensures NoStraddle(m, c, p)
  {
    MarkerSlashes(m);
    MarkerSlashes(p);
    forall j: nat | j < |m| < j + |p| ensures !OccursAt(m + c, p, j) {
      if j + |p| <= |m + c| {
        var sl := (m + c)[j..j + |p|];
        assert sl[0] == m[j];
        assert sl[|m| - j - 1] == m[|m| - 1];
        assert sl[|m| - j] == c[0];
      }
    }
  }

  /**
   * Replacing every occurrence of one marker by a text that neither starts
   * nor ends with `*` leaves an isolated occurrence of any other marker in
   * place: two markers can share a slash only where a star touches them.
   */
  lemma MarkerSurvives(s: string, m: string, p: string, r: string)
    requires MarkerShaped(m) && MarkerShaped(p) && m != p
    requires |r| > 0 && r[0] != '*' && r[|r| - 1] != '*'
    requires Isolated(s, m)
    ensures Isolated(Replace(s, p, r), m)
  {
    var a, c := IsolatedParts(s, m);
    var ra, rc := Replace(a, p, r), Replace(c, p, r);
    assert Replace(s, p, r) == ra + m + rc by {
      NoStraddleBefore(a, m, c, p);
      NoStraddleAfter(m, c, p);
      MarkerNotInMarker(m, p);
      ReplaceAround(a, m, c, p, r);
      ReplaceAbsent(m, p, r);
    }
    assert |ra| > 0 ==> ra[|ra| - 1] != '*' by {
      if |a| > 0 { ReplaceBack(a, p, r); }
    }
    assert |rc| > 0 ==> rc[0] != '*' by {
      if |c| > 0 { ReplaceFront(c, p, r); }
    }
    IsolatedJoin(ra, m, rc);
  }

  // -----------------------------------------------------------------------
  // registerClasses
  // -----------------------------------------------------------------------

  /** The text written in place of a marker of kind `k`. */
  function Insertion(root: string, name: string, k: Wrapper): string {
    ClassEntry(LcFirst(name), ClassName(root, name, k)) + EmittedMarker(k)
  }

  /** A class entry followed by a marker starts with a comma, ends as the marker does, and holds the class name. */
  lemma EntryShape(key: string, cls: string, marker: string)
    requires |marker| > 0
    ensures var r := ClassEntry(key, cls) + marker;
      && |r| > 0 && r[0] == ',' && r[|r| - 1] == marker[|marker| - 1]
      && Contains(r, cls)
  {
    var lead := ",\n\t\t'" + key + "' => '";
    var r := ClassEntry(key, cls) + marker;
    assert r == lead + cls + ("'\n\t\t" + marker);
    assert r[|lead|..|lead| + |cls|] == cls;
    assert OccursAt(r, cls, |lead|);
  }

  lemma InsertionShape(root: string, name: string, k: Wrapper)
    ensures var r := Insertion(root, name, k); |r| > 0 && r[0] == ',' && r[|r| - 1] == '/'
    ensures Contains(Insertion(root, name, k), ClassName(root, name, k))
  {
    MarkersShaped();
    EntryShape(LcFirst(name), ClassName(root, name, k), EmittedMarker(k));
  }

  /** A patch step keeps the document's leading `<`. */
  lemma StepHead(txt: string, root: string, name: string, k: Wrapper)
    requires |txt| > 0 && txt[0] == '<'
    ensures var t := RegistryStep(txt, root, name, k); |t| > 0 && t[0] == '<'
  {
    ReplaceHead(txt, Marker(k), Insertion(root, name, k));
  }

  /** A patch step keeps every class name already in the document. */
  lemma StepKeeps(txt: string, root: string, name: string, k: Wrapper, n: string)
    requires IsIdentifier(root) && IsIdentifier(name)
    requires |n| > 0 && n[0] == '\\' && '/' !in n && Contains(txt, n)
    ensures Contains(RegistryStep(txt, root, name, k), n)
  {
    MarkersShaped();
    MarkerPlain(Marker(k));
    ReplaceKeeps(txt, Marker(k), Insertion(root, name, k), n);
  }

  /** After a patch step of kind `k` on a document with its marker, the class of kind `k` is registered. */
  lemma StepRegisters(txt: string, root: string, name: string, k: Wrapper)
    requires IsIdentifier(root) && IsIdentifier(name)
    requires Contains(txt, Marker(k))
    ensures Contains(RegistryStep(txt, root, name, k), ClassName(root, name, k))
  {
    var n := ClassName(root, name, k);
    StrposFalsyIff(txt, n);
    if StrposFalsy(txt, n) {
      MarkersShaped();
      ReplaceEmits(txt, Marker(k), Insertion(root, name, k));
      InsertionShape(root, name, k);
      ContainsTrans(RegistryStep(txt, root, name, k), Insertion(root, name, k), n);
    }
  }

  /** A patch step keeps an isolated occurrence of any marker but the one it replaces. */
  lemma StepKeepsMarker(txt: string, root: string, name: string, k: Wrapper, m: string)
    requires IsIdentifier(root) && IsIdentifier(name)
    requires MarkerShaped(m) && m != Marker(k) && Isolated(txt, m)
    ensures Isolated(RegistryStep(txt, root, name, k), m)
  {
    MarkersShaped();
    InsertionShape(root, name, k);
    MarkerSurvives(txt, m, Marker(k), Insertion(root, name, k));
  }

  /** A patch step whose class is already present past the first character changes nothing. */
  lemma StepSkips(txt: string, root: string, name: string, k: Wrapper)
    requires IsIdentifier(root) && IsIdentifier(name)
    requires |txt| > 0 && txt[0] == '<' && Contains(txt, ClassName(root, name, k))
    ensures RegistryStep(txt, root, name, k) == txt
  {
    ClassNameShape(root, name, k);
    StrposFalsyAbsent(txt, ClassName(root, name, k));
  }

  /** A document that starts with `<`, as every PHP file the command patches does. */
  predicate Headed(t: string) {
    |t| > 0 && t[0] == '<'
  }

  /**
   * After the entity step: the entity class is present, the entity and
   * repository markers are still isolated, and the query marker is still
   * isolated if it was, and still absent if it was.
   */
  lemma EntityStage(txt: string, root: string, name: string)
    requires IsIdentifier(root) && IsIdentifier(name) && Headed(txt)
    requires Isolated(txt, EntityMarker) && Isolated(txt, RepositoryMarker)
    ensures var t1 := RegistryStep(txt, root, name, Entity);
      && Headed(t1) && Contains(t1, ClassName(root, name, Entity))
      && Isolated(t1, EntityMarker) && Isolated(t1, RepositoryMarker)
      && (Isolated(txt, QueryMarker) ==> Isolated(t1, QueryMarker))
      && (!Contains(txt, QueryMarker) ==> !Contains(t1, QueryMarker))
  {
    MarkersShaped();
    StepHead(txt, root, name, Entity);
    StepRegisters(txt, root, name, Entity);
    StepEmits(txt, root, name, Entity);
    StepKeepsMarker(txt, root, name, Entity, RepositoryMarker);
    if Isolated(txt, QueryMarker) {
      StepKeepsMarker(txt, root, name, Entity, QueryMarker);
    }
    if !Contains(txt, QueryMarker) {
      StepAddsNoQueryMarker(txt, root, name, Entity);
    }
  }

  /**
   * After the repository step: entity and repository classes present, the
   * entity and repository markers isolated, and the query marker isolated
   * or absent as it was before.
   */
  lemma RepositoryStage(t1: string, root: string, name: string)
    requires IsIdentifier(root) && IsIdentifier(name) && Headed(t1)
    requires Contains(t1, ClassName(root, name, Entity))
    requires Isolated(t1, EntityMarker) && Isolated(t1, RepositoryMarker)
    ensures var t2 := RegistryStep(t1, root, name, Repository);
      && Headed(t2) && Contains(t2, ClassName(root, name, Entity)) && Contains(t2, ClassName(root, name, Repository))
      && Isolated(t2, EntityMarker) && Isolated(t2, RepositoryMarker)
      && (Isolated(t1, QueryMarker) ==> Isolated(t2, QueryMarker))
      && (!Contains(t1, QueryMarker) ==> !Contains(t2, QueryMarker))
  {
    MarkersShaped();
    ClassNameShape(root, name, Entity);
    StepHead(t1, root, name, Repository);
    StepKeeps(t1, root, name, Repository, ClassName(root, name, Entity));
    StepRegisters(t1, root, name, Repository);
    StepEmits(t1, root, name, Repository);
    StepKeepsMarker(t1, root, name, Repository, EntityMarker);
    if Isolated(t1, QueryMarker) {
      StepKeepsMarker(t1, root, name, Repository, QueryMarker);
    }
    if !Contains(t1, QueryMarker) {
      StepAddsNoQueryMarker(t1, root, name, Repository);
    }
  }

  /**
   * The entity and repository steps never create a query marker: their
   * entry holds no slash and starts with a comma, and the marker they write
   * back is the one they replaced.
   */
  lemma StepAddsNoQueryMarker(txt: string, root: string, name: string, k: Wrapper)
    requires IsIdentifier(root) && IsIdentifier(name) && k != Query
    requires !Contains(txt, QueryMarker)
    ensures !Contains(RegistryStep(txt, root, name, k), QueryMarker)
  {
    var cls := ClassName(root, name, k);
    if StrposFalsy(txt, cls) {
      var e := ClassEntry(LcFirst(name), cls);
      var m := Marker(k);
      assert '/' !in e by {
        ClassNameShape(root, name, k);
        LcFirstIdentifier(name);
        EntryNoSlash(LcFirst(name), cls);
      }
      MarkersShaped();
      MarkerPlain(QueryMarker);
      assert QueryMarker[0] == '/';
      assert e[0] == ',';
      assert m[|m| - |m|..] == m;
      ReplaceAddsNone(txt, m, e, m, QueryMarker);
    }
  }

  /** After the query step: all three classes present, entity and repository markers isolated. */
  lemma QueryStage(t2: string, root: string, name: string)
    requires IsIdentifier(root) && IsIdentifier(name) && Headed(t2)
    requires Contains(t2, ClassName(root, name, Entity)) && Contains(t2, ClassName(root, name, Repository))
    requires Isolated(t2, EntityMarker) && Isolated(t2, RepositoryMarker) && Isolated(t2, QueryMarker)
    ensures var t3 := RegistryStep(t2, root, name, Query);
      && Headed(t3) && Contains(t3, ClassName(root, name, Entity)) && Contains(t3, ClassName(root, name, Repository))
      && Contains(t3, ClassName(root, name, Query))
      && Isolated(t3, EntityMarker) && Isolated(t3, RepositoryMarker)
  {
    MarkersShaped();
    ClassNameShape(root, name, Entity);
    ClassNameShape(root, name, Repository);
    StepHead(t2, root, name, Query);
    StepKeeps(t2, root, name, Query, ClassName(root, name, Entity));
    StepKeeps(t2, root, name, Query, ClassName(root, name, Repository));
    StepRegisters(t2, root, name, Query);
    StepKeepsMarker(t2, root, name, Query, EntityMarker);
    StepKeepsMarker(t2, root, name, Query, RepositoryMarker);
  }

  /** Prettifying keeps the leading `<` and every class name and marker. */
  lemma PrettifyStage(t3: string, root: string, name: string)
    requires IsIdentifier(root) && IsIdentifier(name) && Headed(t3)
    requires Contains(t3, ClassName(root, name, Entity)) && Contains(t3, ClassName(root, name, Repository))
    requires Contains(t3, ClassName(root, name, Query))
    requires Isolated(t3, EntityMarker) && Isolated(t3, RepositoryMarker)
    ensures var d := PrettifyText(t3);
      && Headed(d) && Contains(d, ClassName(root, name, Entity)) && Contains(d, ClassName(root, name, Repository))
      && Contains(d, ClassName(root, name, Query))
      && Contains(d, EntityMarker) && Contains(d, RepositoryMarker)
  {
    var d := PrettifyText(t3);
    assert Headed(d) by {
      PrettifyTextHead(t3);
    }
    assert Contains(d, ClassName(root, name, Entity)) by {
      ClassNameShape(root, name, Entity);
      PrettifyTextKeeps(t3, ClassName(root, name, Entity));
    }
    assert Contains(d, ClassName(root, name, Repository)) by {
      ClassNameShape(root, name, Repository);
      PrettifyTextKeeps(t3, ClassName(root, name, Repository));
    }
    assert Contains(d, ClassName(root, name, Query)) by {
      ClassNameShape(root, name, Query);
      PrettifyTextKeeps(t3, ClassName(root, name, Query));
    }
    MarkersShaped();
    PrettifyKeepsMarker(t3, EntityMarker);
    PrettifyKeepsMarker(t3, RepositoryMarker);
  }

  /**
   * On a document that starts with `<` and holds the three table markers,
   * `registerClasses` leaves all three wrapper classes registered and keeps
   * the entity and repository markers.
   */
  lemma RegistryRegistersAll(txt: string, root: string, name: string)
    requires IsIdentifier(root) && IsIdentifier(name) && Headed(txt)
    requires Isolated(txt, EntityMarker) && Isolated(txt, RepositoryMarker) && Isolated(txt, QueryMarker)
    ensures var d := RegistryPatched(txt, root, name);
      && Headed(d)
      && Contains(d, ClassName(root, name, Entity))
      && Contains(d, ClassName(root, name, Repository))
      && Contains(d, ClassName(root, name, Query))
      && Contains(d, EntityMarker) && Contains(d, RepositoryMarker)
  {
    var t1 := RegistryStep(txt, root, name, Entity);
    var t2 := RegistryStep(t1, root, name, Repository);
    var t3 := RegistryStep(t2, root, name, Query);
    EntityStage(txt, root, name);
    RepositoryStage(t1, root, name);
    QueryStage(t2, root, name);
    PrettifyStage(t3, root, name);
  }

  /** Replacing `m` by `e + m` around an occurrence of `m` that no star touches. */
  lemma ReemitSplit(a: string, m: string, c: string, e: string)
    requires MarkerShaped(m)
    requires |a| > 0 ==> a[|a| - 1] != '*'
    requires |c| > 0 ==> c[0] != '*'
    ensures Replace(a + m + c, m, e + m) == (Replace(a, m, e + m) + e) + m + Replace(c, m, e + m)
  {
    var r := e + m;
    assert Replace(a + m + c, m, r) == Replace(a, m, r) + Replace(m, m, r) + Replace(c, m, r) by {
      NoStraddleBefore(a, m, c, m);
      NoStraddleAfter(m, c, m);
      ReplaceAround(a, m, c, m, r);
    }
    ReplaceWhole(m, r);
  }

  /** The text after a replaced part starts as the original did or as the replacement does. */
  lemma FrontNotStar(c: string, pat: string, r: string)
    requires |pat| > 0 && |r| > 0 && r[0] != '*'
    requires |c| > 0 ==> c[0] != '*'
    ensures var rc := Replace(c, pat, r); |rc| > 0 ==> rc[0] != '*'
  {
    if |c| > 0 {
      ReplaceFront(c, pat, r);
    }
  }

  /**
   * Replacing a marker by a text that ends with that same marker keeps an
   * isolated occurrence of it.
   */
  lemma MarkerReemitted(s: string, m: string, e: string)
    requires MarkerShaped(m) && Isolated(s, m)
    requires |e| > 0 && e[0] != '*' && e[|e| - 1] != '*'
    ensures Isolated(Replace(s, m, e + m), m)
  {
    var a, c := IsolatedParts(s, m);
    ReemitSplit(a, m, c, e);
    FrontNotStar(c, m, e + m);
    var x := Replace(a, m, e + m) + e;
    assert x[|x| - 1] == e[|e| - 1];
    IsolatedJoin(x, m, Replace(c, m, e + m));
  }

  /** The entity and repository steps keep their own marker: it is written back after the entry. */
  lemma StepEmits(txt: string, root: string, name: string, k: Wrapper)
    requires IsIdentifier(root) && IsIdentifier(name) && k != Query
    requires Isolated(txt, Marker(k))
    ensures Isolated(RegistryStep(txt, root, name, k), Marker(k))
  {
    var cls := ClassName(root, name, k);
    if StrposFalsy(txt, cls) {
      var e := ClassEntry(LcFirst(name), cls);
      var m := Marker(k);
      assert EmittedMarker(k) == m;
      EntryEnds(LcFirst(name), cls);
      MarkersShaped();
      MarkerReemitted(txt, m, e);
    }
  }

  /** A class entry starts with a comma and ends with a tab. */
  lemma EntryEnds(key: string, cls: string)
    ensures var e := ClassEntry(key, cls); |e| > 0 && e[0] == ',' && e[|e| - 1] == '\t'
  {
    var e := ClassEntry(key, cls);
    assert e == (",\n\t\t'" + key + "' => '" + cls) + "'\n\t\t";
  }

  /**
   * Registering the same classes twice adds nothing the second time: the
   * second call only prettifies the document again. This holds both for a
   * document that still has its query marker and for one whose query
   * marker an earlier registration consumed.
   */
  lemma RegisterClassesIdempotent(txt: string, root: string, name: string)
    requires IsIdentifier(root) && IsIdentifier(name)
    requires Headed(txt)
    requires Isolated(txt, EntityMarker) && Isolated(txt, RepositoryMarker)
    requires Isolated(txt, QueryMarker) || !Contains(txt, QueryMarker)
    ensures var d := RegistryPatched(txt, root, name);
      RegistryPatched(d, root, name) == PrettifyText(d)
  {
    var d := RegistryPatched(txt, root, name);
    if Isolated(txt, QueryMarker) {
      RegistryRegistersAll(txt, root, name);
      StepSkips(d, root, name, Entity);
      StepSkips(d, root, name, Repository);
      StepSkips(d, root, name, Query);
    } else {
      RegistryWithoutQueryMarker(txt, root, name);
      StepSkips(d, root, name, Entity);
      StepSkips(d, root, name, Repository);
      StepWithoutMarker(d, root, name, Query);
    }
  }

  /**
   * On a document whose query marker is gone, `registerClasses` registers
   * the entity and repository classes, leaves the query table alone and
   * creates no query marker.
   */
  lemma RegistryWithoutQueryMarker(txt: string, root: string, name: string)
    requires IsIdentifier(root) && IsIdentifier(name) && Headed(txt)
    requires Isolated(txt, EntityMarker) && Isolated(txt, RepositoryMarker) && !Contains(txt, QueryMarker)
    ensures var d := RegistryPatched(txt, root, name);
      && Headed(d)
      && Contains(d, ClassName(root, name, Entity))
      && Contains(d, ClassName(root, name, Repository))
      && !Contains(d, QueryMarker)
  {
    var t1 := RegistryStep(txt, root, name, Entity);
    var t2 := RegistryStep(t1, root, name, Repository);
    EntityStage(txt, root, name);
    RepositoryStage(t1, root, name);
    StepWithoutMarker(t2, root, name, Query);
    PrettifyTextHead(t2);
    ClassNameShape(root, name, Entity);
    PrettifyTextKeeps(t2, ClassName(root, name, Entity));
    ClassNameShape(root, name, Repository);
    PrettifyTextKeeps(t2, ClassName(root, name, Repository));
    MarkersShaped();
    MarkerPlain(QueryMarker);
    PrettifyAddsNone(t2, QueryMarker);
  }

  /**
   * Once the query step has written a second repository marker, the
   * repository step puts the next model's repository entry in front of
   * both markers: once in the repository table and once in the query table.
   */
  lemma RepositoryEntryDoubled(a: string, mid: string, post: string, root: string, name: string)
    requires !Contains(a, RepositoryMarker) && !Contains(mid, RepositoryMarker) && !Contains(post, RepositoryMarker)
    requires |a| > 0 ==> a[|a| - 1] != '*'
    requires |mid| > 0 ==> mid[0] != '*' && mid[|mid| - 1] != '*'
    requires |post| > 0 ==> post[0] != '*'
    requires StrposFalsy(a + RepositoryMarker + mid + RepositoryMarker + post, ClassName(root, name, Repository))
    ensures var e := ClassEntry(LcFirst(name), ClassName(root, name, Repository));
      RegistryStep(a + RepositoryMarker + mid + RepositoryMarker + post, root, name, Repository)
        == a + e + RepositoryMarker + mid + e + RepositoryMarker + post
  {
    var e := ClassEntry(LcFirst(name), ClassName(root, name, Repository));
    RepositoryMarkerShaped();
    ReemitTwice(a, RepositoryMarker, mid, post, e);
  }

  /** Replacing `m` by `e + m` in a text holding `m` twice, with no star touching either occurrence. */
  lemma ReemitTwice(a: string, m: string, mid: string, post: string, e: string)
    requires MarkerShaped(m)
    requires !Contains(a, m) && !Contains(mid, m) && !Contains(post, m)
    requires |a| > 0 ==> a[|a| - 1] != '*'
    requires |mid| > 0 ==> mid[0] != '*' && mid[|mid| - 1] != '*'
    requires |post| > 0 ==> post[0] != '*'
    ensures Replace(a + m + mid + m + post, m, e + m) == a + e + m + mid + e + m + post
  {
    var c := mid + m + post;
    assert c[0] != '*' by {
      if |mid| > 0 { assert c[0] == mid[0]; } else { assert c[0] == m[0]; }
    }
    calc {
      Replace(a + m + mid + m + post, m, e + m);
      == { GroupTail(a, m, mid, m, post); }
      Replace(a + m + c, m, e + m);
      == { ReemitOnce(a, m, c, e); }
      a + e + m + Replace(c, m, e + m);
      == { ReemitOnce(mid, m, post, e); ReplaceAbsent(post, m, e + m); }
      a + e + m + (mid + e + m + post);
      == { GroupTail4(a, e, m, mid, e, m, post); }
      a + e + m + mid + e + m + post;
    }
  }

  /** Concatenation regrouped: the last three pieces joined first. */
  lemma GroupTail(p: string, q: string, x: string, y: string, z: string)
    ensures p + q + x + y + z == p + q + (x + y + z)
  {
  }

  /** Concatenation regrouped: the last four pieces joined first. */
  lemma GroupTail4(p: string, q: string, r: string, x: string, y: string, z: string, w: string)
    ensures p + q + r + x + y + z + w == p + q + r + (x + y + z + w)
  {
  }

  /** Replacing `m` by `e + m` at an occurrence of `m` that no star touches and no earlier one precedes. */
  lemma ReemitOnce(a: string, m: string, c: string, e: string)
    requires MarkerShaped(m) && !Contains(a, m)
    requires |a| > 0 ==> a[|a| - 1] != '*'
    requires |c| > 0 ==> c[0] != '*'
    ensures Replace(a + m + c, m, e + m) == a + e + m + Replace(c, m, e + m)
  {
    ReemitSplit(a, m, c, e);
    ReplaceAbsent(a, m, e + m);
  }

  /** A patch step whose marker is absent changes nothing. */
  lemma StepWithoutMarker(txt: string, root: string, name: string, k: Wrapper)
    requires !Contains(txt, Marker(k))
    ensures RegistryStep(txt, root, name, k) == txt
  {
    ReplaceAbsent(txt, Marker(k), Insertion(root, name, k));
  }

  /**
   * At a single marker occurrence, a patch step writes the entry
   * `'lcfirst(name)' => 'class'` and then the emitted marker in place of
   * the marker: the entity and repository steps write their own marker
   * back, the query step writes the repository marker.
   */
  lemma StepInserts(pre: string, post: string, root: string, name: string, k: Wrapper)
    requires forall i: nat :: OccursAt(pre + Marker(k) + post, Marker(k), i) ==> i == |pre|
    requires StrposFalsy(pre + Marker(k) + post, ClassName(root, name, k))
    ensures RegistryStep(pre + Marker(k) + post, root, name, k)
         == pre + ClassEntry(LcFirst(name), ClassName(root, name, k)) + EmittedMarker(k) + post
  {
    MarkerNonEmpty(k);
    ReplaceAtUnique(pre, Marker(k), post, ClassEntry(LcFirst(name), ClassName(root, name, k)), EmittedMarker(k));
  }

  lemma MarkerNonEmpty(k: Wrapper)
    ensures |Marker(k)| > 0
  {
    MarkersShaped();
  }

  /** `ReplaceUnique` with the replacement given as two parts. */
  lemma ReplaceAtUnique(pre: string, m: string, post: string, e: string, tail: string)
    requires |m| > 0
    requires forall i: nat :: OccursAt(pre + m + post, m, i) ==> i == |pre|
    ensures Replace(pre + m + post, m, e + tail) == pre + e + tail + post
  {
    ReplaceUnique(pre, m, post, e + tail);
  }

  /** Neither a class entry nor an identifier holds a slash. */
  lemma EntryNoSlash(key: string, cls: string)
    requires '/' !in key && '/' !in cls
    ensures '/' !in ClassEntry(key, cls)
  {
  }

  /** A text without a slash holds no marker and cannot begin one that runs past its end. */
  lemma NoSlashNoMarker(e: string, rest: string, m: string)
    requires '/' !in e && MarkerShaped(m)
    ensures !Contains(e, m) && NoStraddle(e, rest, m)
  {
    forall j: nat | j <= |e| ensures !OccursAt(e, m, j) {
      if j + |m| <= |e| {
        assert e[j..j + |m|][0] == e[j];
      }
    }
    forall j: nat | j < |e| < j + |m| ensures !OccursAt(e + rest, m, j) {
      if j + |m| <= |e + rest| {
        assert (e + rest)[j..j + |m|][0] == e[j];
      }
    }
  }

  /** No occurrence of a marker can run into a text that starts with a character the marker lacks. */
  lemma SeamBlocked(a: string, b: string, m: string)
    requires |b| > 0 && b[0] !in m
    ensures NoStraddle(a, b, m)
  {
    forall j: nat | j < |a| < j + |m| ensures !OccursAt(a + b, m, j) {
      if j + |m| <= |a + b| {
        assert (a + b)[j..j + |m|][|a| - j] == b[0];
      }
    }
  }

  /** A marker placed between two texts that hold none, with no star touching it, occurs exactly once. */
  lemma OnlyMarker(pre: string, m: string, post: string)
    requires MarkerShaped(m) && !Contains(pre, m) && !Contains(post, m)
    requires |pre| > 0 ==> pre[|pre| - 1] != '*'
    requires |post| > 0 ==> post[0] != '*'
    ensures forall i: nat :: OccursAt(pre + m + post, m, i) ==> i == |pre|
  {
    var s := pre + m + post;
    NoStraddleBefore(pre, m, post, m);
    NoStraddleAfter(m, post, m);
    assert s == pre + (m + post);
    forall i: nat | i != |pre| ensures !OccursAt(s, m, i) {
      if i + |m| <= |pre| {
        assert s[i..i + |m|] == pre[i..i + |m|];
        assert !OccursAt(pre, m, i);
      } else if |pre| < i < |pre| + |m| && i + |m| <= |s| {
        assert s[i..i + |m|] == (m + post)[i - |pre|..i - |pre| + |m|];
        assert !OccursAt(m + post, m, i - |pre|);
      } else if |pre| + |m| <= i && i + |m| <= |s| {
        assert s[i..i + |m|] == post[i - |pre| - |m|..i - |pre|];
        assert !OccursAt(post, m, i - |pre| - |m|);
      }
    }
  }

  lemma LcFirstIdentifier(s: string)
    requires IsIdentifier(s)
    ensures IsIdentifier(LcFirst(s))
  {
    assert LcFirst(s)[0] == ToLower(s[0]);
    forall i | 1 <= i < |s| ensures LcFirst(s)[i] == s[i] { }
  }

  /**
   * A marker `q` found in none of the pieces does not appear when a
   * comma-led, slash-free text and another marker are put between them.
   */
  lemma MarkerGone(pre: string, e: string, r: string, post: string, q: string)
    requires MarkerShaped(q) && MarkerShaped(r) && r != q
    requires !Contains(pre, q) && !Contains(post, q)
    requires |post| > 0 ==> post[0] != '*'
    requires |e| > 0 && e[0] == ',' && '/' !in e
    ensures !Contains(pre + e + r + post, q)
  {
    assert !Contains(r + post, q) by {
      MarkerNotInMarker(r, q);
      NoStraddleAfter(r, post, q);
      NotContainsConcat(r, post, q);
    }
    assert !Contains(e + (r + post), q) by {
      NoSlashNoMarker(e, r + post, q);
      NotContainsConcat(e, r + post, q);
    }
    assert !Contains(pre + (e + (r + post)), q) by {
      MarkerPlain(q);
      SeamBlocked(pre, e + (r + post), q);
      NotContainsConcat(pre, e + (r + post), q);
    }
    assert pre + e + r + post == pre + (e + (r + post));
  }

  /**
   * The query step consumes the query marker: when the document holds it
   * once, with no star right after it, the patched document holds no query
   * marker at all, so every later query step leaves the document unchanged.
   */
  lemma QueryMarkerConsumed(pre: string, post: string, root: string, name: string)
    requires IsIdentifier(root) && IsIdentifier(name)
    requires !Contains(pre, QueryMarker) && !Contains(post, QueryMarker)
    requires |pre| > 0 ==> pre[|pre| - 1] != '*'
    requires |post| > 0 ==> post[0] != '*'
    requires StrposFalsy(pre + QueryMarker + post, ClassName(root, name, Query))
    ensures var t := RegistryStep(pre + QueryMarker + post, root, name, Query);
      && t == pre + ClassEntry(LcFirst(name), ClassName(root, name, Query)) + RepositoryMarker + post
      && !Contains(t, QueryMarker)
      && forall other :: IsIdentifier(other) ==> RegistryStep(t, root, other, Query) == t
  {
    MarkersShaped();
    var q := QueryMarker;
    OnlyMarker(pre, q, post);
    StepInserts(pre, post, root, name, Query);
    var e := ClassEntry(LcFirst(name), ClassName(root, name, Query));
    var t := pre + e + RepositoryMarker + post;
    assert '/' !in e by {
      ClassNameShape(root, name, Query);
      LcFirstIdentifier(name);
      EntryNoSlash(LcFirst(name), ClassName(root, name, Query));
    }
    MarkerGone(pre, e, RepositoryMarker, post, q);
    forall other | IsIdentifier(other) ensures RegistryStep(t, root, other, Query) == t {
      StepWithoutMarker(t, root, other, Query);
    }
  }

  /**
   * When every class of the model is already present past the first
   * character, `registerClasses` inserts nothing but still writes the
   * prettified document back.
   */
  lemma RegistryRewritten(txt: string, root: string, name: string)
    requires IsIdentifier(root) && IsIdentifier(name) && Headed(txt)
    requires Contains(txt, ClassName(root, name, Entity))
    requires Contains(txt, ClassName(root, name, Repository))
    requires Contains(txt, ClassName(root, name, Query))
    ensures RegistryPatched(txt, root, name) == PrettifyText(txt)
  {
    StepSkips(txt, root, name, Entity);
    StepSkips(txt, root, name, Repository);
    StepSkips(txt, root, name, Query);
  }

  /** The file-level form: the registration document is written even when nothing is inserted. */
  lemma RegisterClassesRewrites(w: World, root: string, name: string)
    requires IsIdentifier(root) && IsIdentifier(name)
    requires RegistryPath(root) in w.files
    requires var txt := w.files[RegistryPath(root)];
      && Headed(txt)
      && Contains(txt, ClassName(root, name, Entity))
      && Contains(txt, ClassName(root, name, Repository))
      && Contains(txt, ClassName(root, name, Query))
    ensures ClassesRegistered(w, root, name) == w.Write(RegistryPath(root), PrettifyText(w.files[RegistryPath(root)]))
  {
    RegistryRewritten(w.files[RegistryPath(root)], root, name);
  }

  // -----------------------------------------------------------------------
  // registerModel
  // -----------------------------------------------------------------------

  function Quoted(name: string): string {
    "'" + name + "'"
  }

  function DoubleQuoted(name: string): string {
    "\"" + name + "\""
  }

  /** A name between a text ending in a quote and one starting with a quote is quoted. */
  lemma QuotedBetween(a: string, name: string, b: string)
    requires |a| > 0 && a[|a| - 1] == '\'' && |b| > 0 && b[0] == '\''
    ensures OccursAt(a + name + b, Quoted(name), |a| - 1)
  {
    var t := a + name + b;
    assert t[|a| - 1..|a| + |name| + 1] == Quoted(name);
  }

  /** The model entry starts with a comma and holds `'name'`. */
  lemma ModelEntryShape(name: string, modelType: string, connection: string)
    ensures var e := ModelEntry(name, modelType, connection); |e| > 0 && e[0] == ','
    ensures Contains(ModelEntry(name, modelType, connection), Quoted(name))
  {
    var a := ",\n        '";
    var b := "' => array(\n            'type' => '";
    var rest := modelType + "',\n            'connection' => '" + connection
      + "',\n            'id' => 'id'    \n        )\n        ";
    var e := ModelEntry(name, modelType, connection);
    assert e == (a + name + b) + rest;
    QuotedBetween(a, name, b);
    PrefixOccurrence(a + name + b, rest, Quoted(name), |a| - 1);
  }

  /** An occurrence in a prefix is an occurrence in the whole. */
  lemma PrefixOccurrence(x: string, y: string, n: string, i: nat)
    requires OccursAt(x, n, i)
    ensures OccursAt(x + y, n, i) && Contains(x + y, n)
  {
    assert (x + y)[i..i + |n|] == x[i..i + |n|];
    assert i <= |x + y| && OccursAt(x + y, n, i);
  }

  /**
   * At a single model marker, when neither `'name'` nor `"name"` is found
   * past the first character, the definition is inserted right before the
   * marker, which stays in the document.
   */
  lemma RegisterModelInserts(pre: string, post: string, name: string, modelType: string, connection: string)
    requires forall i: nat :: OccursAt(pre + ModelMarker + post, ModelMarker, i) ==> i == |pre|
    requires StrposFalsy(pre + ModelMarker + post, "'" + name + "'")
    requires StrposFalsy(pre + ModelMarker + post, "\"" + name + "\"")
    ensures ConfigPatched(pre + ModelMarker + post, name, modelType, connection)
         == Some(PrettifyText(pre + ModelEntry(name, modelType, connection) + ModelMarker + post))
    ensures Contains(ConfigPatched(pre + ModelMarker + post, name, modelType, connection).value, ModelMarker)
  {
    var m := ModelMarker;
    var e := ModelEntry(name, modelType, connection);
    var txt := pre + m + post;
    ModelMarkerShaped();
    ReplaceAtUnique(pre, m, post, e, m);
    assert ConfigPatched(txt, name, modelType, connection) == Some(PrettifyText(Replace(txt, m, e + m)));
    MarkerBeforeTail(pre + e, m, post);
    PrettifyKeepsMarker(pre + e + m + post, m);
  }

  /** A marker written in front of a tail occurs in the text. */
  lemma MarkerBeforeTail(a: string, m: string, post: string)
    ensures Contains(a + m + post, m)
  {
    assert OccursAt(a + m, m, |a|);
    PrefixOccurrence(a + m, post, m, |a|);
  }

  /**
   * A document that starts with `<` is left alone exactly when it holds
   * `'name'` or `"name"`.
   */
  lemma RegisterModelSkips(txt: string, name: string, modelType: string, connection: string)
    requires Headed(txt)
    ensures ConfigPatched(txt, name, modelType, connection) == None
        <==> Contains(txt, Quoted(name)) || Contains(txt, DoubleQuoted(name))
  {
    StrposFalsyAbsent(txt, Quoted(name));
    StrposFalsyAbsent(txt, DoubleQuoted(name));
  }

  /**
   * Registering a model twice equals registering it once: after the first
   * insertion the document holds `'name'`, so the second call changes
   * nothing. The name must hold no comma or parenthesis, which
   * `prettifyText` could otherwise rewrite.
   */
  lemma RegisterModelIdempotent(txt: string, name: string, modelType: string, connection: string)
    requires Headed(txt) && Contains(txt, ModelMarker)
    requires ',' !in name && '(' !in name
    ensures var r := ConfigPatched(txt, name, modelType, connection);
      r.Some? ==> ConfigPatched(r.value, name, modelType, connection) == None
  {
    var m := ModelMarker;
    var e := ModelEntry(name, modelType, connection);
    var t1 := Replace(txt, m, e + m);
    var q := Quoted(name);
    ModelMarkerShaped();
    assert Contains(t1, q) by {
      ReplaceEmits(txt, m, e + m);
      ModelEntryShape(name, modelType, connection);
      assert OccursAt(e + m, e, 0);
      ContainsTrans(e + m, e, q);
      ContainsTrans(t1, e + m, q);
    }
    assert Headed(t1) by {
      ReplaceHead(txt, m, e + m);
    }
    var d := PrettifyText(t1);
    assert Headed(d) && Contains(d, q) by {
      PrettifyTextHead(t1);
      assert ',' !in q && '(' !in q;
      PrettifyTextKeeps(t1, q);
    }
    RegisterModelSkips(d, name, modelType, connection);
  }

  /** The file-level form: running `registerModel` a second time leaves the filesystem as the first run left it. */
  lemma ModelRegisteredTwice(w: World, root: string, name: string, modelType: string, connection: string)
    requires ConfigPath(root) in w.files
    requires Headed(w.files[ConfigPath(root)]) && Contains(w.files[ConfigPath(root)], ModelMarker)
    requires ',' !in name && '(' !in name
    ensures var w1 := ModelRegistered(w, root, name, modelType, connection);
      ModelRegistered(w1, root, name, modelType, connection) == w1
  {
    var path := ConfigPath(root);
    var txt := w.files[path];
    RegisterModelIdempotent(txt, name, modelType, connection);
    match ConfigPatched(txt, name, modelType, connection)
    case Some(t) =>
      assert ModelRegistered(w, root, name, modelType, connection) == w.Write(path, t);
    case None =>
  }

  /**
   * The first `registerModel` of a bundle without a configuration document
   * copies the template and patches the copy; running it again leaves the
   * filesystem as the first run left it.
   */
  lemma ModelRegisteredTwiceFromTemplate(w: World, root: string, name: string, modelType: string, connection: string)
    requires !w.Exists(ConfigPath(root)) && ConfigTemplatePath in w.files
    requires Headed(w.files[ConfigTemplatePath]) && Contains(w.files[ConfigTemplatePath], ModelMarker)
    requires ',' !in name && '(' !in name
    ensures var w1 := ModelRegistered(w, root, name, modelType, connection);
      ModelRegistered(w1, root, name, modelType, connection) == w1
  {
    var wc := w.Copy(ConfigTemplatePath, ConfigPath(root));
    assert wc.files[ConfigPath(root)] == w.files[ConfigTemplatePath];
    assert ModelRegistered(w, root, name, modelType, connection) == ModelRegistered(wc, root, name, modelType, connection);
    ModelRegisteredTwice(wc, root, name, modelType, connection);
  }

  // -----------------------------------------------------------------------
  // makeClassFile
  // -----------------------------------------------------------------------

  /** `NS` is replaced first, so a model name that itself holds `BUNDLE` has it replaced too. */
  lemma SubstitutionOrder(model: string, bundle: string)
    ensures Substituted("NS", model, bundle) == Replace(model, "BUNDLE", bundle)
  {
    ReplaceWhole("NS", model);
  }

  /** A template without placeholders is copied verbatim. */
  lemma SubstitutedVerbatim(template: string, model: string, bundle: string)
    requires !Contains(template, "NS") && !Contains(template, "BUNDLE")
    ensures Substituted(template, model, bundle) == template
  {
    ReplaceAbsent(template, "NS", model);
    ReplaceAbsent(template, "BUNDLE", bundle);
  }
}
