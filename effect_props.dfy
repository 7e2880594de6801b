/**
 * Properties of the command's effects on the filesystem: when class
 * generation succeeds, which files it writes and in which order, what it
 * leaves alone, and how `make` and `run` compose the steps.
 */
module EffectProps {
  import opened Php
  import opened Files
  import opened Orm

  // -----------------------------------------------------------------------
  // Paths
  // -----------------------------------------------------------------------

  /** Every wrapper file lies inside the model directory. */
  lemma ClassFileUnder(root: string, model: string, k: Wrapper)
    ensures Under(ClassFilePath(root, model, k), OrmDir(root, model))
    ensures ClassFilePath(root, model, k) != OrmDir(root, model)
  {
    var dir := OrmDir(root, model);
    var p := ClassFilePath(root, model, k);
    assert p.rel == (dir.rel + "/") + (WrapperName(k) + ".php");
  }

  /** The three wrapper files are different files. */
  lemma ClassFilesDistinct(root: string, model: string, k1: Wrapper, k2: Wrapper)
    requires k1 != k2
    ensures ClassFilePath(root, model, k1) != ClassFilePath(root, model, k2)
  {
    var prefix := "src/ORM/" + model + "/";
    var r1, r2 := ClassFilePath(root, model, k1).rel, ClassFilePath(root, model, k2).rel;
    assert r1 == prefix + (WrapperName(k1) + ".php");
    assert r2 == prefix + (WrapperName(k2) + ".php");
    assert r1[|prefix|] == WrapperName(k1)[0];
    assert r2[|prefix|] == WrapperName(k2)[0];
  }

  /** Templates belong to the framework, never to a project bundle. */
  lemma TemplateNotInBundle(root: string, model: string, k: Wrapper, j: Wrapper)
    ensures !Under(TemplatePath(k), OrmDir(root, model))
    ensures TemplatePath(k) != OrmDir(root, model)
    ensures TemplatePath(k) != ClassFilePath(root, model, j)
  {
  }

  // -----------------------------------------------------------------------
  // The wrapper loop
  // -----------------------------------------------------------------------

  predicate Distinct(kinds: seq<Wrapper>) {
    forall i, j :: 0 <= i < j < |kinds| ==> kinds[i] != kinds[j]
  }

  /** One `Wrote` action per wrapper file, in the order of `kinds`. */
  function ClassWrites(root: string, model: string, kinds: seq<Wrapper>): (log: seq<Action>)
    ensures |log| == |kinds|
    decreases |kinds|
  {
    if kinds == [] then [] else [Wrote(ClassFilePath(root, model, kinds[0]))] + ClassWrites(root, model, kinds[1..])
  }

  /** The `i`-th action of `ClassWrites` is the write of the `i`-th wrapper file. */
  lemma {:induction false} ClassWritesContents(root: string, model: string, kinds: seq<Wrapper>, i: nat)
    requires i < |kinds|
    ensures ClassWrites(root, model, kinds)[i] == Wrote(ClassFilePath(root, model, kinds[i]))
    decreases |kinds|
  {
    if i > 0 {
      ClassWritesContents(root, model, kinds[1..], i - 1);
    }
  }

  /** The loop can run to the end: every template exists and, without overwrite, no wrapper file does. */
  predicate WrappersPossible(w: World, root: string, model: string, kinds: seq<Wrapper>, overwrite: bool) {
    forall k :: k in kinds ==> w.Exists(TemplatePath(k)) && (overwrite || !w.Exists(ClassFilePath(root, model, k)))
  }

  /** `p` is none of the wrapper files of `kinds`. */
  predicate NotClassFile(p: Path, root: string, model: string, kinds: seq<Wrapper>) {
    forall k :: k in kinds ==> p != ClassFilePath(root, model, k)
  }

  /** `w2` holds the same file at `p` as `w1`, or none if `w1` has none. */
  predicate SameFile(w1: World, w2: World, p: Path) {
    (p in w2.files <==> p in w1.files) && (p in w1.files ==> w2.files[p] == w1.files[p])
  }

  lemma SameFilesEqual(w1: World, w2: World)
    requires forall p :: SameFile(w1, w2, p)
    ensures w2.files == w1.files
  {
    forall p | p in w1.files ensures p in w2.files && w2.files[p] == w1.files[p] {
      assert SameFile(w1, w2, p);
    }
    forall p | p in w2.files ensures p in w1.files {
      assert SameFile(w1, w2, p);
    }
  }

  /** What the first step of the wrapper loop leaves for the remaining kinds. */
  lemma StepFacts(w: World, root: string, bundle: string, model: string, kinds: seq<Wrapper>, overwrite: bool)
    requires Distinct(kinds) && kinds != []
    requires ClassFileMade(w, root, bundle, model, kinds[0], overwrite).status.Ok?
    ensures Distinct(kinds[1..])
    ensures NotClassFile(ClassFilePath(root, model, kinds[0]), root, model, kinds[1..])
    ensures var w' := ClassFileMade(w, root, bundle, model, kinds[0], overwrite).world;
      forall k :: k in kinds[1..] ==>
        && w'.Exists(TemplatePath(k)) == w.Exists(TemplatePath(k))
        && w'.Read(TemplatePath(k)) == w.Read(TemplatePath(k))
        && w'.Exists(ClassFilePath(root, model, k)) == w.Exists(ClassFilePath(root, model, k))
  {
    var k0, rest := kinds[0], kinds[1..];
    var w' := ClassFileMade(w, root, bundle, model, k0, overwrite).world;
    var p0 := ClassFilePath(root, model, k0);
    forall i, j | 0 <= i < j < |rest| ensures rest[i] != rest[j] {
      assert rest[i] == kinds[i + 1] && rest[j] == kinds[j + 1];
    }
    forall k | k in rest
      ensures ClassFilePath(root, model, k) != p0
      ensures w'.Exists(TemplatePath(k)) == w.Exists(TemplatePath(k))
      ensures w'.Read(TemplatePath(k)) == w.Read(TemplatePath(k))
      ensures w'.Exists(ClassFilePath(root, model, k)) == w.Exists(ClassFilePath(root, model, k))
    {
      var i :| 0 <= i < |rest| && rest[i] == k;
      assert kinds[i + 1] == k;
      ClassFilesDistinct(root, model, k, k0);
      TemplateNotInBundle(root, model, k, k0);
    }
  }

  /** The wrapper loop runs to the end exactly when every one of its steps can. */
  lemma {:induction false} WrappersOk(w: World, root: string, bundle: string, model: string,
                                      kinds: seq<Wrapper>, overwrite: bool)
    requires Distinct(kinds)
    ensures WrappersMade(w, root, bundle, model, kinds, overwrite).status.Ok?
        <==> WrappersPossible(w, root, model, kinds, overwrite)
    decreases |kinds|
  {
    if kinds != [] {
      var c := ClassFileMade(w, root, bundle, model, kinds[0], overwrite);
      if c.status.Ok? {
        StepFacts(w, root, bundle, model, kinds, overwrite);
        WrappersOk(c.world, root, bundle, model, kinds[1..], overwrite);
        assert forall k :: k in kinds <==> k == kinds[0] || k in kinds[1..];
      }
    }
  }

  /** The wrapper loop writes nothing but the wrapper files of `kinds`, whether it succeeds or not. */
  lemma {:induction false} WrappersFrame(w: World, root: string, bundle: string, model: string,
                                         kinds: seq<Wrapper>, overwrite: bool)
    requires Distinct(kinds)
    ensures forall p :: NotClassFile(p, root, model, kinds) ==>
                          SameFile(w, WrappersMade(w, root, bundle, model, kinds, overwrite).world, p)
    decreases |kinds|
  {
    if kinds != [] {
      var c := ClassFileMade(w, root, bundle, model, kinds[0], overwrite);
      if c.status.Ok? {
        StepFacts(w, root, bundle, model, kinds, overwrite);
        WrappersFrame(c.world, root, bundle, model, kinds[1..], overwrite);
        forall p | NotClassFile(p, root, model, kinds)
          ensures p != ClassFilePath(root, model, kinds[0]) && NotClassFile(p, root, model, kinds[1..])
        {
        }
      }
    }
  }

  lemma LogGrows(before: seq<Action>, mid: seq<Action>, after: seq<Action>, head: seq<Action>, tail: seq<Action>)
    requires mid == before + head && after == mid + tail
    ensures after == before + (head + tail)
  {
  }

  /** A successful wrapper loop wrote the wrapper files of `kinds`, in that order. */
  lemma {:induction false} WrappersLog(w: World, root: string, bundle: string, model: string,
                                       kinds: seq<Wrapper>, overwrite: bool)
    ensures var e := WrappersMade(w, root, bundle, model, kinds, overwrite);
      e.status.Ok? ==> e.world.log == w.log + ClassWrites(root, model, kinds)
    decreases |kinds|
  {
    if kinds != [] {
      var c := ClassFileMade(w, root, bundle, model, kinds[0], overwrite);
      if c.status.Ok? {
        WrappersLog(c.world, root, bundle, model, kinds[1..], overwrite);
        var e := WrappersMade(c.world, root, bundle, model, kinds[1..], overwrite);
        assert WrappersMade(w, root, bundle, model, kinds, overwrite) == e;
        if e.status.Ok? {
          LogGrows(w.log, c.world.log, e.world.log, [Wrote(ClassFilePath(root, model, kinds[0]))],
                   ClassWrites(root, model, kinds[1..]));
        }
      }
    }
  }

  /** After a successful wrapper loop every wrapper file holds its template with the names substituted. */
  lemma {:induction false} WrappersContents(w: World, root: string, bundle: string, model: string,
                                            kinds: seq<Wrapper>, overwrite: bool)
    requires Distinct(kinds)
    ensures var e := WrappersMade(w, root, bundle, model, kinds, overwrite);
      e.status.Ok? ==> forall k :: k in kinds ==>
        && ClassFilePath(root, model, k) in e.world.files
        && e.world.files[ClassFilePath(root, model, k)] == Substituted(w.Read(TemplatePath(k)), model, bundle)
    decreases |kinds|
  {
    if kinds != [] {
      var c := ClassFileMade(w, root, bundle, model, kinds[0], overwrite);
      if c.status.Ok? {
        StepFacts(w, root, bundle, model, kinds, overwrite);
        WrappersContents(c.world, root, bundle, model, kinds[1..], overwrite);
        WrappersFrame(c.world, root, bundle, model, kinds[1..], overwrite);
        TemplateNotInBundle(root, model, kinds[0], kinds[0]);
        assert forall k :: k in kinds <==> k == kinds[0] || k in kinds[1..];
      }
    }
  }

  // -----------------------------------------------------------------------
  // generateClasses
  // -----------------------------------------------------------------------

  /** The world in which the wrapper loop starts: the model directory emptied if it existed, then created. */
  function Prepared(w: World, dir: Path): World {
    (if w.IsDir(dir) then w.Remove(dir) else w).CreateDirectory(dir)
  }

  /** Preparing the model directory logs the removal (only if it existed) and the creation, and leaves it in place. */
  lemma PreparedLog(w: World, root: string, model: string)
    ensures var w1 := Prepared(w, OrmDir(root, model));
      && OrmDir(root, model) in w1.dirs
      && w1.log == w.log + (if w.IsDir(OrmDir(root, model)) then [Removed(OrmDir(root, model))] else [])
                 + [CreatedDirectory(OrmDir(root, model))]
  {
  }

  /** Preparing the model directory keeps the templates and removes the old wrapper files. */
  lemma PreparedFiles(w: World, root: string, model: string)
    ensures var w1 := Prepared(w, OrmDir(root, model));
      && (forall k :: w1.Exists(TemplatePath(k)) == w.Exists(TemplatePath(k)))
      && (forall k :: w1.Read(TemplatePath(k)) == w.Read(TemplatePath(k)))
      && (forall k :: w1.Exists(ClassFilePath(root, model, k))
                      == (!w.IsDir(OrmDir(root, model)) && w.Exists(ClassFilePath(root, model, k))))
  {
    var dir := OrmDir(root, model);
    forall k ensures !Under(TemplatePath(k), dir) && TemplatePath(k) != dir {
      TemplateNotInBundle(root, model, k, k);
    }
    forall k ensures Under(ClassFilePath(root, model, k), dir) && ClassFilePath(root, model, k) != dir {
      ClassFileUnder(root, model, k);
    }
  }

  /** Preparing the model directory keeps every file outside it, and empties it when it existed. */
  lemma PreparedFrame(w: World, root: string, model: string)
    ensures var w1 := Prepared(w, OrmDir(root, model));
      && (forall p :: !Under(p, OrmDir(root, model)) ==> SameFile(w, w1, p))
      && (forall p :: Under(p, OrmDir(root, model)) && w.IsDir(OrmDir(root, model)) ==> p !in w1.files)
  {
  }


  /** Neither `dir` nor anything below it exists: the model has never been generated. */
  ghost predicate NothingUnder(w: World, dir: Path) {
    forall p :: Under(p, dir) ==> p !in w.files && p !in w.dirs
  }

  /** `generateClasses` can run to the end: templates exist, and without overwrite neither directory nor wrapper files do. */
  predicate Generable(w: World, root: string, name: string, overwrite: bool) {
    var model := UcFirst(name);
    && (forall k: Wrapper :: w.Exists(TemplatePath(k)))
    && (overwrite || (!w.IsDir(OrmDir(root, model)) && forall k: Wrapper :: !w.Exists(ClassFilePath(root, model, k))))
  }

  lemma EveryWrapperGenerated(k: Wrapper)
    ensures k in WrapperOrder
  {
  }

  lemma WrapperOrderDistinct()
    ensures Distinct(WrapperOrder)
  {
  }

  /** Past the directory check, `generateClasses` is the wrapper loop run on the prepared world. */
  lemma GenerateUnfold(w: World, root: string, name: string, overwrite: bool)
    requires !(w.IsDir(OrmDir(root, UcFirst(name))) && !overwrite)
    ensures ClassesGenerated(w, root, name, overwrite)
         == WrappersMade(Prepared(w, OrmDir(root, UcFirst(name))), root, UcFirst(root), UcFirst(name), WrapperOrder, overwrite)
  {
  }

  lemma WrapperOrderWrites(root: string, model: string)
    ensures ClassWrites(root, model, WrapperOrder)
         == [Wrote(ClassFilePath(root, model, Repository)), Wrote(ClassFilePath(root, model, Entity)),
             Wrote(ClassFilePath(root, model, Query))]
  {
  }

  /** `generateClasses` runs to the end exactly when it can. */
  lemma GenerateOk(w: World, root: string, name: string, overwrite: bool)
    ensures ClassesGenerated(w, root, name, overwrite).status.Ok? <==> Generable(w, root, name, overwrite)
  {
    var model := UcFirst(name);
    var dir := OrmDir(root, model);
    if !(w.IsDir(dir) && !overwrite) {
      var w1 := Prepared(w, dir);
      GenerateUnfold(w, root, name, overwrite);
      PreparedFiles(w, root, model);
      WrapperOrderDistinct();
      WrappersOk(w1, root, UcFirst(root), model, WrapperOrder, overwrite);
      forall k: Wrapper ensures k in WrapperOrder {
        EveryWrapperGenerated(k);
      }
      assert WrappersPossible(w1, root, model, WrapperOrder, overwrite) <==> Generable(w, root, name, overwrite);
    }
  }

  /**
   * The files after `generateClasses` ran to the end: each wrapper file
   * holds its template with the names substituted; anything else below an
   * old model directory is gone, and below a new one is as it was; every
   * other file is as it was.
   */
  lemma GenerateFiles(w: World, root: string, name: string, overwrite: bool, p: Path)
    requires ClassesGenerated(w, root, name, overwrite).status.Ok?
    ensures var e := ClassesGenerated(w, root, name, overwrite);
      var model := UcFirst(name);
      var dir := OrmDir(root, model);
      && (forall k: Wrapper :: p == ClassFilePath(root, model, k) ==>
            p in e.world.files && e.world.files[p] == Substituted(w.Read(TemplatePath(k)), model, UcFirst(root)))
      && ((forall k: Wrapper :: p != ClassFilePath(root, model, k)) && Under(p, dir) && w.IsDir(dir) ==>
            p !in e.world.files)
      && ((forall k: Wrapper :: p != ClassFilePath(root, model, k)) && !w.IsDir(dir) ==> SameFile(w, e.world, p))
      && (!Under(p, dir) ==> SameFile(w, e.world, p))
  {
    var model := UcFirst(name);
    var dir := OrmDir(root, model);
    var e := ClassesGenerated(w, root, name, overwrite);
    forall k: Wrapper | p == ClassFilePath(root, model, k)
      ensures p in e.world.files && e.world.files[p] == Substituted(w.Read(TemplatePath(k)), model, UcFirst(root))
    {
      GenerateWrapperContents(w, root, name, overwrite, k);
    }
    if (forall k: Wrapper :: p != ClassFilePath(root, model, k)) && Under(p, dir) && w.IsDir(dir) {
      GenerateClearsOld(w, root, name, overwrite, p);
    }
    if (forall k: Wrapper :: p != ClassFilePath(root, model, k)) && !w.IsDir(dir) {
      GenerateKeepsOthers(w, root, name, overwrite, p);
    }
    if !Under(p, dir) {
      GenerateFrame(w, root, name, overwrite, p);
    }
  }

  /** After a successful generation each wrapper file holds its substituted template. */
  lemma GenerateWrapperContents(w: World, root: string, name: string, overwrite: bool, k: Wrapper)
    requires ClassesGenerated(w, root, name, overwrite).status.Ok?
    ensures var e := ClassesGenerated(w, root, name, overwrite);
      var p := ClassFilePath(root, UcFirst(name), k);
      p in e.world.files && e.world.files[p] == Substituted(w.Read(TemplatePath(k)), UcFirst(name), UcFirst(root))
  {
    var model := UcFirst(name);
    var w1 := Prepared(w, OrmDir(root, model));
    GenerateUnfold(w, root, name, overwrite);
    PreparedFiles(w, root, model);
    WrapperOrderDistinct();
    WrappersContents(w1, root, UcFirst(root), model, WrapperOrder, overwrite);
    EveryWrapperGenerated(k);
  }

  /** Generating over an old model directory removes every file below it but the wrappers. */
  lemma GenerateClearsOld(w: World, root: string, name: string, overwrite: bool, p: Path)
    requires ClassesGenerated(w, root, name, overwrite).status.Ok?
    requires w.IsDir(OrmDir(root, UcFirst(name))) && Under(p, OrmDir(root, UcFirst(name)))
    requires forall k: Wrapper :: p != ClassFilePath(root, UcFirst(name), k)
    ensures p !in ClassesGenerated(w, root, name, overwrite).world.files
  {
    var model := UcFirst(name);
    var w1 := Prepared(w, OrmDir(root, model));
    GenerateUnfold(w, root, name, overwrite);
    PreparedFrame(w, root, model);
    assert p !in w1.files;
    WrapperOrderDistinct();
    WrappersFrame(w1, root, UcFirst(root), model, WrapperOrder, overwrite);
    assert NotClassFile(p, root, model, WrapperOrder);
  }

  /** Generating into a new model directory keeps every file but the wrappers. */
  lemma GenerateKeepsOthers(w: World, root: string, name: string, overwrite: bool, p: Path)
    requires !w.IsDir(OrmDir(root, UcFirst(name)))
    requires forall k: Wrapper :: p != ClassFilePath(root, UcFirst(name), k)
    ensures SameFile(w, ClassesGenerated(w, root, name, overwrite).world, p)
  {
    var model := UcFirst(name);
    var w1 := Prepared(w, OrmDir(root, model));
    assert w1.files == w.files;
    GenerateUnfold(w, root, name, overwrite);
    WrapperOrderDistinct();
    WrappersFrame(w1, root, UcFirst(root), model, WrapperOrder, overwrite);
    assert NotClassFile(p, root, model, WrapperOrder);
  }

  /**
   * After `generateClasses` ran to the end, its actions were, in order:
   * removing the old model directory (only if there was one), creating the
   * directory, and writing the Repository, Entity and Query wrappers; the
   * directory is then in place.
   */
  lemma GenerateLog(w: World, root: string, name: string, overwrite: bool)
    requires ClassesGenerated(w, root, name, overwrite).status.Ok?
    ensures var e := ClassesGenerated(w, root, name, overwrite);
      var model := UcFirst(name);
      var dir := OrmDir(root, model);
      && dir in e.world.dirs
      && e.world.log == w.log + (if w.IsDir(dir) then [Removed(dir)] else [])
           + [CreatedDirectory(dir), Wrote(ClassFilePath(root, model, Repository)),
              Wrote(ClassFilePath(root, model, Entity)), Wrote(ClassFilePath(root, model, Query))]
  {
    var model := UcFirst(name);
    var dir := OrmDir(root, model);
    var w1 := Prepared(w, dir);
    GenerateUnfold(w, root, name, overwrite);
    PreparedLog(w, root, model);
    WrapperOrderDistinct();
    WrappersLog(w1, root, UcFirst(root), model, WrapperOrder, overwrite);
    WrapperOrderWrites(root, model);
  }

  /** `generateClasses` touches nothing outside the model directory, whether it succeeds or not. */
  lemma GenerateFrame(w: World, root: string, name: string, overwrite: bool, p: Path)
    requires !Under(p, OrmDir(root, UcFirst(name)))
    ensures SameFile(w, ClassesGenerated(w, root, name, overwrite).world, p)
  {
    var model := UcFirst(name);
    var dir := OrmDir(root, model);
    if !(w.IsDir(dir) && !overwrite) {
      var w1 := Prepared(w, dir);
      GenerateUnfold(w, root, name, overwrite);
      PreparedFrame(w, root, model);
      WrapperOrderDistinct();
      WrappersFrame(w1, root, UcFirst(root), model, WrapperOrder, overwrite);
      forall k | k in WrapperOrder ensures p != ClassFilePath(root, model, k) {
        ClassFileUnder(root, model, k);
      }
      assert NotClassFile(p, root, model, WrapperOrder);
      assert SameFile(w, w1, p);
    }
  }

  /** Without overwrite, generating the same model a second time fails on the existing directory and changes nothing. */
  lemma GenerateTwiceFails(w: World, root: string, name: string, overwrite: bool)
    requires ClassesGenerated(w, root, name, overwrite).status.Ok?
    ensures var w1 := ClassesGenerated(w, root, name, overwrite).world;
      ClassesGenerated(w1, root, name, false) == Effect(w1, Fail(DirectoryExists(OrmDir(root, UcFirst(name)))))
  {
    GenerateLog(w, root, name, overwrite);
  }

  /**
   * The directories after `generateClasses` ran to the end: over an old
   * model directory, the old ones outside it plus the directory; otherwise
   * the old ones plus the directory.
   */
  lemma GenerateDirs(w: World, root: string, name: string, overwrite: bool)
    requires ClassesGenerated(w, root, name, overwrite).status.Ok?
    ensures var dir := OrmDir(root, UcFirst(name));
      ClassesGenerated(w, root, name, overwrite).world.dirs
         == (if w.IsDir(dir) then (set d | d in w.dirs && !Under(d, dir)) else w.dirs) + {dir}
  {
  }

  /** Generation leaves the templates where and as they were. */
  lemma GenerateKeepsTemplates(w: World, root: string, name: string, overwrite: bool, k: Wrapper)
    ensures var w1 := ClassesGenerated(w, root, name, overwrite).world;
      w1.Read(TemplatePath(k)) == w.Read(TemplatePath(k)) && w1.Exists(TemplatePath(k)) == w.Exists(TemplatePath(k))
  {
    TemplateNotInBundle(root, UcFirst(name), k, k);
    GenerateFrame(w, root, name, overwrite, TemplatePath(k));
  }

  /**
   * Regenerating with overwrite, over a directory generation just made,
   * leaves every path as the first generation left it, when the first one
   * started from an old model directory or from none at all.
   */
  lemma RegenerateSameFile(w: World, root: string, name: string, p: Path)
    requires ClassesGenerated(w, root, name, true).status.Ok?
    requires ClassesGenerated(ClassesGenerated(w, root, name, true).world, root, name, true).status.Ok?
    requires w.IsDir(OrmDir(root, UcFirst(name))) || NothingUnder(w, OrmDir(root, UcFirst(name)))
    ensures var w1 := ClassesGenerated(w, root, name, true).world;
      SameFile(w1, ClassesGenerated(w1, root, name, true).world, p)
  {
    var w1 := ClassesGenerated(w, root, name, true).world;
    GenerateFiles(w, root, name, true, p);
    GenerateFiles(w1, root, name, true, p);
    if exists k: Wrapper :: p == ClassFilePath(root, UcFirst(name), k) {
      var k: Wrapper :| p == ClassFilePath(root, UcFirst(name), k);
      GenerateKeepsTemplates(w, root, name, true, k);
    } else {
      GenerateLog(w, root, name, true);
    }
  }

  /** Regenerating with overwrite, over a directory generation just made, yields the same files. */
  lemma RegenerateSameFiles(w: World, root: string, name: string)
    requires ClassesGenerated(w, root, name, true).status.Ok?
    requires ClassesGenerated(ClassesGenerated(w, root, name, true).world, root, name, true).status.Ok?
    requires w.IsDir(OrmDir(root, UcFirst(name))) || NothingUnder(w, OrmDir(root, UcFirst(name)))
    ensures var w1 := ClassesGenerated(w, root, name, true).world;
      ClassesGenerated(w1, root, name, true).world.files == w1.files
  {
    var w1 := ClassesGenerated(w, root, name, true).world;
    var w2 := ClassesGenerated(w1, root, name, true).world;
    forall p ensures SameFile(w1, w2, p) {
      RegenerateSameFile(w, root, name, p);
    }
    SameFilesEqual(w1, w2);
  }

  /**
   * With overwrite, generating a model succeeds, whether its directory
   * exists or has never been made, and doing it again leaves the same
   * directories and files.
   */
  lemma GenerateOverwriteStable(w: World, root: string, name: string)
    requires w.IsDir(OrmDir(root, UcFirst(name))) || NothingUnder(w, OrmDir(root, UcFirst(name)))
    requires forall k: Wrapper :: w.Exists(TemplatePath(k))
    ensures var e1 := ClassesGenerated(w, root, name, true);
      var e2 := ClassesGenerated(e1.world, root, name, true);
      e1.status.Ok? && e2.status.Ok? && e2.world.SameContents(e1.world)
  {
    var w1 := ClassesGenerated(w, root, name, true).world;
    GenerateOk(w, root, name, true);
    GenerateLog(w, root, name, true);
    forall k: Wrapper ensures w1.Exists(TemplatePath(k)) {
      GenerateKeepsTemplates(w, root, name, true, k);
    }
    GenerateOk(w1, root, name, true);
    GenerateDirs(w, root, name, true);
    GenerateDirs(w1, root, name, true);
    RegenerateSameFiles(w, root, name);
  }

  // -----------------------------------------------------------------------
  // make
  // -----------------------------------------------------------------------

  lemma ConfigOutsideModelDir(root: string, model: string)
    ensures !Under(ConfigPath(root), OrmDir(root, model))
    ensures ConfigPath(root) != RegistryPath(root)
  {
    assert ConfigPath(root).rel[0] == 'a';
    assert (OrmDir(root, model).rel + "/")[0] == 's';
  }

  /**
   * `make` changes the model definitions document only through
   * `registerModel`, and calls that only when the configuration lacks
   * `models.<strtolower(name)>`: afterwards the document is what it was
   * before, for a configured model, or what `registerModel` made of it.
   */
  lemma MakeConfigFile(w: World, root: string, config: seq<ConfiguredModel>, name: string,
                       modelType: string, connection: string, overwrite: bool)
    requires !Falsy(name)
    ensures var e := Made(w, root, config, name, modelType, connection, overwrite);
      SameFile(if Configured(config, name) then w else ModelRegistered(w, root, name, modelType, connection),
               e.world, ConfigPath(root))
  {
    var w1 := if Configured(config, name) then w else ModelRegistered(w, root, name, modelType, connection);
    ConfigOutsideModelDir(root, UcFirst(UcFirst(name)));
    GenerateFrame(w1, root, UcFirst(name), overwrite, ConfigPath(root));
  }

  /**
   * `registerModel` acts on the model definitions document only: it copies
   * the template there when the document is missing, then writes it when
   * the duplicate guards let the patch through.
   */
  lemma RegisterModelLog(w: World, root: string, name: string, modelType: string, connection: string)
    ensures var p := ConfigPath(root);
      var w1 := if !w.Exists(p) then w.Copy(ConfigTemplatePath, p) else w;
      ModelRegistered(w, root, name, modelType, connection).log
        == w.log + (if !w.Exists(p) then [Copied(ConfigTemplatePath, p)] else [])
           + (if ConfigPatched(w1.Read(p), name, modelType, connection).Some? then [Wrote(p)] else [])
  {
  }

  /**
   * The order of `make`: the model registration (only for a model the
   * configuration lacks), then the class generation, then the class
   * registration, which is the last action of a successful `make`.
   */
  lemma MakeLog(w: World, root: string, config: seq<ConfiguredModel>, name: string,
                modelType: string, connection: string, overwrite: bool)
    requires !Falsy(name)
    ensures var w1 := if Configured(config, name) then w else ModelRegistered(w, root, name, modelType, connection);
      var model := UcFirst(UcFirst(name));
      var dir := OrmDir(root, model);
      var e := Made(w, root, config, name, modelType, connection, overwrite);
      && (Configured(config, name) ==> w1.log == w.log)
      && (e.status.Ok? ==>
            e.world.log == w1.log + (if w1.IsDir(dir) then [Removed(dir)] else [])
              + [CreatedDirectory(dir), Wrote(ClassFilePath(root, model, Repository)),
                 Wrote(ClassFilePath(root, model, Entity)), Wrote(ClassFilePath(root, model, Query)),
                 Wrote(RegistryPath(root))])
  {
    var w1 := if Configured(config, name) then w else ModelRegistered(w, root, name, modelType, connection);
    var g := ClassesGenerated(w1, root, UcFirst(name), overwrite);
    var e := Made(w, root, config, name, modelType, connection, overwrite);
    assert e == if g.status.Fail? then g else Effect(ClassesRegistered(g.world, root, name), Ok);
    if g.status.Ok? {
      GenerateThenRegisterLog(w1, root, name, overwrite);
    }
  }

  /** The class generation followed by the class registration, as `make` runs them. */
  lemma GenerateThenRegisterLog(w1: World, root: string, name: string, overwrite: bool)
    requires ClassesGenerated(w1, root, UcFirst(name), overwrite).status.Ok?
    ensures var model := UcFirst(UcFirst(name));
      var dir := OrmDir(root, model);
      var g := ClassesGenerated(w1, root, UcFirst(name), overwrite);
      ClassesRegistered(g.world, root, name).log
        == w1.log + (if w1.IsDir(dir) then [Removed(dir)] else [])
           + [CreatedDirectory(dir), Wrote(ClassFilePath(root, model, Repository)),
              Wrote(ClassFilePath(root, model, Entity)), Wrote(ClassFilePath(root, model, Query)),
              Wrote(RegistryPath(root))]
  {
    GenerateLog(w1, root, UcFirst(name), overwrite);
  }

  // -----------------------------------------------------------------------
  // run
  // -----------------------------------------------------------------------

  /** Running the command once per configured model, each with `bundle:name`, stopping at the first failure. */
  function SinglesRan(w: World, bundles: map<string, seq<ConfiguredModel>>, root: string,
                      models: seq<ConfiguredModel>, overwrite: bool): Effect
    decreases |models|
  {
    if models == [] then Effect(w, Ok)
    else
      var e := Ran(w, bundles, root + ":" + models[0].name, models[0].modelType, models[0].connection, false, overwrite);
      if e.status.Fail? then e
      else SinglesRan(e.world, bundles, root, models[1..], overwrite)
  }

  /** `bundle:name` names the bundle and the model. */
  lemma ArgumentParts(root: string, name: string)
    requires ':' !in root && ':' !in name
    ensures BundlePart(root + ":" + name) == root && ModelPart(root + ":" + name) == name
  {
    ExplodeSingle(':', name);
    assert root + ":" + name == root + [':'] + name;
    ExplodeCons(':', root, name);
  }

  /** With a model name and no `-a`, `run` makes exactly that model once. */
  lemma RunSingle(w: World, bundles: map<string, seq<ConfiguredModel>>, root: string, name: string,
                  modelType: string, connection: string, overwrite: bool)
    requires root in bundles && ':' !in root && ':' !in name && !Falsy(name)
    ensures Ran(w, bundles, root + ":" + name, modelType, connection, false, overwrite)
         == Made(w, root, bundles[root], name, modelType, connection, overwrite)
  {
    ArgumentParts(root, name);
  }

  lemma {:induction false} BulkIsSingles(w: World, bundles: map<string, seq<ConfiguredModel>>, root: string,
                                         models: seq<ConfiguredModel>, overwrite: bool)
    requires root in bundles && ':' !in root
    requires forall i :: 0 <= i < |models| ==> !Falsy(models[i].name) && ':' !in models[i].name
    ensures MadeAll(w, root, bundles[root], models, overwrite) == SinglesRan(w, bundles, root, models, overwrite)
    decreases |models|
  {
    if models != [] {
      var m := models[0];
      RunSingle(w, bundles, root, m.name, m.modelType, m.connection, overwrite);
      var e := Made(w, root, bundles[root], m.name, m.modelType, m.connection, overwrite);
      if e.status.Ok? {
        BulkIsSingles(e.world, bundles, root, models[1..], overwrite);
      }
    }
  }

  /**
   * `run bundle -a` does what running `run bundle:name` for every
   * configured model in enumeration order would do, stopping at the first
   * failure; the type and connection arguments are ignored.
   */
  lemma RunAllIsSingles(w: World, bundles: map<string, seq<ConfiguredModel>>, root: string,
                        modelType: string, connection: string, overwrite: bool)
    requires root in bundles && ':' !in root
    requires forall i :: 0 <= i < |bundles[root]| ==> !Falsy(bundles[root][i].name) && ':' !in bundles[root][i].name
    ensures Ran(w, bundles, root, modelType, connection, true, overwrite)
         == SinglesRan(w, bundles, root, bundles[root], overwrite)
  {
    ExplodeSingle(':', root);
    BulkIsSingles(w, bundles, root, bundles[root], overwrite);
  }
}
