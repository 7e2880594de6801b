/**
 * The `GenerateORM` console command as an object: `run` records the
 * overwrite flag and the bundle in its fields and then drives `make`,
 * which drives the generation and registration steps, all of them
 * changing the filesystem object in place. Every method is proved to
 * leave the filesystem in the state, and to end with the status, that the
 * functions of module Orm describe.
 */
module Command {
  import opened Php
  import opened Prettify
  import opened Files
  import opened Orm

  class GenerateOrm {
    /** The filesystem the command reads and writes. */
    const fs: FileSystem
    /** The bundles the framework builder knows, each with the models of its ORM configuration. */
    const bundles: map<string, seq<ConfiguredModel>>
    /** The `-o` flag of the current run. */
    var overwrite: bool
    /** The bundle part of the `name` argument of the current run. */
    var bundle: string

    constructor (fs: FileSystem, bundles: map<string, seq<ConfiguredModel>>)
      ensures this.fs == fs && this.bundles == bundles
      ensures !overwrite && bundle == ""
    {
      this.fs := fs;
      this.bundles := bundles;
      overwrite := false;
      bundle := "";
    }

    /**
     * `run`: `arg` is the `name` argument, `all` and `overwriteFlag` the
     * `-a` and `-o` options. The fields are set before the bundle is looked
     * up, so they change even when the bundle is unknown.
     */
    method Run(arg: string, modelType: string, connection: string, all: bool, overwriteFlag: bool)
      returns (status: Status)
      modifies this, fs
      ensures overwrite == overwriteFlag && bundle == BundlePart(arg)
      ensures Effect(fs.State(), status) == Ran(old(fs.State()), bundles, arg, modelType, connection, all, overwriteFlag)
    {
      overwrite := overwriteFlag;
      var parts := Explode(':', arg);
      bundle := parts[0];
      if bundle !in bundles {
        return Fail(UnknownBundle(bundle));
      }
      var model := if |parts| > 1 then parts[1] else "";
      assert bundle == BundlePart(arg) && model == ModelPart(arg);
      if (Falsy(model) && !all) || (!Falsy(model) && all) {
        return Fail(UsageError);
      } else if !Falsy(model) {
        status := Make(model, modelType, connection);
      } else {
        status := MakeAll(bundles[bundle]);
      }
    }

    /** The `-a` branch of `run`: `make` for each configured model in order, stopping at the first failure. */
    method MakeAll(models: seq<ConfiguredModel>) returns (status: Status)
      requires bundle in bundles
      modifies fs
      ensures Effect(fs.State(), status) == MadeAll(old(fs.State()), bundle, bundles[bundle], models, overwrite)
    {
      status := Ok;
      var i := 0;
      while i < |models|
        invariant 0 <= i <= |models|
        invariant MadeAll(old(fs.State()), bundle, bundles[bundle], models, overwrite)
               == MadeAll(fs.State(), bundle, bundles[bundle], models[i..], overwrite)
        invariant status == Ok
      {
        status := Make(models[i].name, models[i].modelType, models[i].connection);
        assert models[i..][1..] == models[i + 1..];
        if status.Fail? {
          return;
        }
        i := i + 1;
      }
    }

    /** `make(name, modelType, connection)` for the bundle of the current run. */
    method Make(name: string, modelType: string, connection: string) returns (status: Status)
      requires bundle in bundles
      modifies fs
      ensures Effect(fs.State(), status)
           == Made(old(fs.State()), bundle, bundles[bundle], name, modelType, connection, overwrite)
    {
      if Falsy(name) {
        return Fail(InvalidModelName);
      }
      if !Configured(bundles[bundle], name) {
        RegisterModel(name, modelType, connection);
      }
      status := GenerateClasses(UcFirst(name));
      if status.Fail? {
        return;
      }
      RegisterClasses(name);
    }

    /** `generateClasses(name)`: prepare the model directory, then one wrapper file per kind. */
    method GenerateClasses(name: string) returns (status: Status)
      modifies fs
      ensures Effect(fs.State(), status) == ClassesGenerated(old(fs.State()), bundle, name, overwrite)
    {
      var model := UcFirst(name);
      var ucBundle := UcFirst(bundle);
      var destination := OrmDir(bundle, model);
      if destination in fs.dirs && overwrite {
        fs.Remove(destination);
      } else if destination in fs.dirs && !overwrite {
        return Fail(DirectoryExists(destination));
      }
      fs.CreateDirectory(destination);
      ghost var w1 := fs.State();
      status := Ok;
      var i := 0;
      while i < |WrapperOrder|
        invariant 0 <= i <= |WrapperOrder|
        invariant WrappersMade(w1, bundle, ucBundle, model, WrapperOrder, overwrite)
               == WrappersMade(fs.State(), bundle, ucBundle, model, WrapperOrder[i..], overwrite)
        invariant status == Ok
      {
        status := MakeClassFile(ucBundle, model, WrapperOrder[i]);
        assert WrapperOrder[i..][1..] == WrapperOrder[i + 1..];
        if status.Fail? {
          return;
        }
        i := i + 1;
      }
    }

    /** `makeClassFile(ucBundle, model, k)`: the template of kind `k`, names substituted, written into the bundle. */
    method MakeClassFile(ucBundle: string, model: string, k: Wrapper) returns (status: Status)
      modifies fs
      ensures Effect(fs.State(), status) == ClassFileMade(old(fs.State()), bundle, ucBundle, model, k, overwrite)
    {
      var source := TemplatePath(k);
      if !fs.State().Exists(source) {
        return Fail(TemplateMissing(k));
      }
      var target := ClassFilePath(bundle, model, k);
      if fs.State().Exists(target) && !overwrite {
        return Fail(ClassExists(k));
      }
      var txt := Replace(Replace(fs.State().Read(source), "NS", model), "BUNDLE", ucBundle);
      fs.Write(target, txt);
      status := Ok;
    }

    /** `registerClasses(name)`: three conditional patches, then the document is written back prettified. */
    method RegisterClasses(name: string)
      modifies fs
      ensures fs.State() == ClassesRegistered(old(fs.State()), bundle, name)
    {
      var key := LcFirst(name);
      var path := RegistryPath(bundle);
      var txt := fs.State().Read(path);
      ghost var t0 := txt;
      var cls := ClassName(bundle, name, Entity);
      if StrposFalsy(txt, cls) {
        txt := Replace(txt, EntityMarker, ClassEntry(key, cls) + EntityMarker);
      }
      assert txt == RegistryStep(t0, bundle, name, Entity);
      ghost var t1 := txt;
      cls := ClassName(bundle, name, Repository);
      if StrposFalsy(txt, cls) {
        txt := Replace(txt, RepositoryMarker, ClassEntry(key, cls) + RepositoryMarker);
      }
      assert txt == RegistryStep(t1, bundle, name, Repository);
      ghost var t2 := txt;
      cls := ClassName(bundle, name, Query);
      if StrposFalsy(txt, cls) {
        txt := Replace(txt, QueryMarker, ClassEntry(key, cls) + RepositoryMarker);
      }
      assert txt == RegistryStep(t2, bundle, name, Query);
      fs.Write(path, PrettifyText(txt));
    }

    /** `registerModel(name, modelType, connection)`: add a definition to the bundle's ORM configuration. */
    method RegisterModel(name: string, modelType: string, connection: string)
      modifies fs
      ensures fs.State() == ModelRegistered(old(fs.State()), bundle, name, modelType, connection)
    {
      var path := ConfigPath(bundle);
      if !fs.State().Exists(path) {
        fs.Copy(ConfigTemplatePath, path);
      }
      var txt := fs.State().Read(path);
      if StrposFalsy(txt, "'" + name + "'") && StrposFalsy(txt, "\"" + name + "\"") {
        txt := Replace(txt, ModelMarker, ModelEntry(name, modelType, connection) + ModelMarker);
        fs.Write(path, PrettifyText(txt));
      }
    }
  }
}
