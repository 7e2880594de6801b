/**
 * What each operation of the `GenerateORM` console command does, as pure
 * functions: the text patches applied to the two generated registration
 * documents, and the effect of every operation on the filesystem. The
 * class in module Command runs these steps one at a time and is proved to
 * end in the states described here.
 *
 * Naming: `root` is the bundle name as typed on the command line (it
 * selects the bundle whose files are touched); `bundle` and `model` are the
 * `ucfirst` forms used inside generated text.
 */
module Orm {
  import opened Php
  import opened Prettify
  import opened Files

  /** The three wrapper classes generated for every model. */
  datatype Wrapper = Repository | Entity | Query

  function WrapperName(k: Wrapper): string {
    match k
    case Repository => "Repository"
    case Entity => "Entity"
    case Query => "Query"
  }

  /** The order in which `generateClasses` produces the wrappers. */
  const WrapperOrder: seq<Wrapper> := [Repository, Entity, Query]

  /** The reasons for which the command throws a `CommandException`. */
  datatype Error =
    | UnknownBundle(bundle: string)     // the framework has no bundle of that name
    | UsageError                        // neither or both of a model name and `-a`
    | InvalidModelName                  // `make` with a falsy name
    | DirectoryExists(dir: Path)        // model directory exists, no `-o`
    | TemplateMissing(kind: Wrapper)    // no template for a wrapper
    | ClassExists(kind: Wrapper)        // wrapper file exists, no `-o`

  datatype Status = Ok | Fail(error: Error)

  /** The errors `generateClasses` and `makeClassFile` throw. */
  predicate GenerationError(e: Error) {
    e.DirectoryExists? || e.TemplateMissing? || e.ClassExists?
  }

  /** The filesystem after an operation and whether the operation completed. Nothing is rolled back on failure. */
  datatype Effect = Effect(world: World, status: Status)

  /** A model listed in a bundle's ORM configuration (`models.<name>`). */
  datatype ConfiguredModel = ConfiguredModel(name: string, modelType: string, connection: string)

  // -----------------------------------------------------------------------
  // Paths
  // -----------------------------------------------------------------------

  function OrmDir(root: string, model: string): Path {
    Path(BundleRoot(root), "src/ORM/" + model)
  }

  function ClassFilePath(root: string, model: string, k: Wrapper): Path {
    Path(BundleRoot(root), "src/ORM/" + model + "/" + WrapperName(k) + ".php")
  }

  function TemplatePath(k: Wrapper): Path {
    Path(FrameworkAssets, "ormTemplate/" + WrapperName(k) + ".php")
  }

  /** The class registration document. */
  function RegistryPath(root: string): Path {
    Path(BundleRoot(root), "src/ORM.php")
  }

  /** The model definitions document. */
  function ConfigPath(root: string): Path {
    Path(BundleRoot(root), "assets/config/orm.php")
  }

  const ConfigTemplatePath: Path := Path(FrameworkAssets, "bundleTemplate/assets/config/orm.php")

  // -----------------------------------------------------------------------
  // Markers
  // -----------------------------------------------------------------------

  const ModelMarker: string := "/*modelGeneratorPlaceholder*/"
  const EntityMarker: string := "/*entityGeneratorPlaceholder*/"
  const RepositoryMarker: string := "/*repositoryGeneratorPlaceholder*/"
  const QueryMarker: string := "/*queryGeneratorPlaceholder*/"

  /** The marker an entry of kind `k` is inserted at. */
  function Marker(k: Wrapper): string {
    match k
    case Entity => EntityMarker
    case Repository => RepositoryMarker
    case Query => QueryMarker
  }

  /** The marker written back after an entry of kind `k`: the query entry is followed by the repository marker. */
  function EmittedMarker(k: Wrapper): string {
    match k
    case Entity => EntityMarker
    case Repository => RepositoryMarker
    case Query => RepositoryMarker
  }

  // -----------------------------------------------------------------------
  // Template substitution (makeClassFile)
  // -----------------------------------------------------------------------

  /** The text of a generated wrapper: `NS` becomes the model, then `BUNDLE` the bundle. */
  function Substituted(template: string, model: string, bundle: string): string {
    Replace(Replace(template, "NS", model), "BUNDLE", bundle)
  }

  // -----------------------------------------------------------------------
  // The model definitions document (registerModel)
  // -----------------------------------------------------------------------

  /** The definition inserted in front of the model marker. */
  function ModelEntry(name: string, modelType: string, connection: string): string {
    ",\n        '" + name + "' => array(\n            'type' => '" + modelType
    + "',\n            'connection' => '" + connection
    + "',\n            'id' => 'id'    \n        )\n        "
  }

  /**
   * The new text of the model definitions document, or None when the
   * document is left alone because `'name'` or `"name"` is found past its
   * first character.
   */
  function ConfigPatched(txt: string, name: string, modelType: string, connection: string): Option<string> {
    if StrposFalsy(txt, "'" + name + "'") && StrposFalsy(txt, "\"" + name + "\"") then
      Some(PrettifyText(Replace(txt, ModelMarker, ModelEntry(name, modelType, connection) + ModelMarker)))
    else
      None
  }

  // -----------------------------------------------------------------------
  // The class registration document (registerClasses)
  // -----------------------------------------------------------------------

  function Namespace(root: string, name: string): string {
    "\\Project\\" + UcFirst(root) + "\\ORM\\" + UcFirst(name)
  }

  /** The fully qualified name of the wrapper class of kind `k`. */
  function ClassName(root: string, name: string, k: Wrapper): string {
    Namespace(root, name) + "\\" + WrapperName(k)
  }

  /** A map entry `'key' => 'class'`, led by a comma and followed by the marker's indentation. */
  function ClassEntry(key: string, cls: string): string {
    ",\n\t\t'" + key + "' => '" + cls + "'\n\t\t"
  }

  /**
   * One of the three conditional patches: when the class name is not found
   * past the first character, every marker of kind `k` becomes the entry
   * followed by the emitted marker.
   */
  function RegistryStep(txt: string, root: string, name: string, k: Wrapper): string {
    var cls := ClassName(root, name, k);
    if StrposFalsy(txt, cls) then
      Replace(txt, Marker(k), ClassEntry(LcFirst(name), cls) + EmittedMarker(k))
    else
      txt
  }

  /** The new text of the class registration document: Entity, Repository, Query patches, then prettified. */
  function RegistryPatched(txt: string, root: string, name: string): string {
    var t1 := RegistryStep(txt, root, name, Entity);
    var t2 := RegistryStep(t1, root, name, Repository);
    var t3 := RegistryStep(t2, root, name, Query);
    PrettifyText(t3)
  }

  // -----------------------------------------------------------------------
  // Effects on the filesystem
  // -----------------------------------------------------------------------

  /** `makeClassFile(bundle, model, k)`. */
  function ClassFileMade(w: World, root: string, bundle: string, model: string, k: Wrapper, overwrite: bool): (e: Effect)
    ensures e.status == Fail(TemplateMissing(k)) <==> !w.Exists(TemplatePath(k))
    ensures e.status == Fail(ClassExists(k))
        <==> w.Exists(TemplatePath(k)) && w.Exists(ClassFilePath(root, model, k)) && !overwrite
    ensures e.status.Fail? ==> e.world == w
    ensures e.status.Ok? ==>
              && e.world.files == w.files[ClassFilePath(root, model, k) := Substituted(w.Read(TemplatePath(k)), model, bundle)]
              && e.world.dirs == w.dirs
              && e.world.log == w.log + [Wrote(ClassFilePath(root, model, k))]
  {
    var source := TemplatePath(k);
    var target := ClassFilePath(root, model, k);
    if !w.Exists(source) then Effect(w, Fail(TemplateMissing(k)))
    else if w.Exists(target) && !overwrite then Effect(w, Fail(ClassExists(k)))
    else Effect(w.Write(target, Substituted(w.Read(source), model, bundle)), Ok)
  }

  /** The wrapper loop of `generateClasses`: one class file per kind, stopping at the first failure. */
  function WrappersMade(w: World, root: string, bundle: string, model: string, kinds: seq<Wrapper>, overwrite: bool): (e: Effect)
    ensures e.world.dirs == w.dirs
    ensures w.log <= e.world.log
    ensures e.status.Fail? ==> e.status.error.TemplateMissing? || e.status.error.ClassExists?
    decreases |kinds|
  {
    if kinds == [] then Effect(w, Ok)
    else
      var e := ClassFileMade(w, root, bundle, model, kinds[0], overwrite);
      if e.status.Fail? then e
      else WrappersMade(e.world, root, bundle, model, kinds[1..], overwrite)
  }

  /** `generateClasses(name)`. */
  function ClassesGenerated(w: World, root: string, name: string, overwrite: bool): (e: Effect)
    ensures e.status == Fail(DirectoryExists(OrmDir(root, UcFirst(name))))
        <==> w.IsDir(OrmDir(root, UcFirst(name))) && !overwrite
    ensures e.status.Fail? && e.status.error.DirectoryExists? ==> e.world == w
    ensures e.status.Fail? ==> GenerationError(e.status.error)
  {
    var model := UcFirst(name);
    var dir := OrmDir(root, model);
    if w.IsDir(dir) && !overwrite then
      Effect(w, Fail(DirectoryExists(dir)))
    else
      var cleared := if w.IsDir(dir) then w.Remove(dir) else w;
      WrappersMade(cleared.CreateDirectory(dir), root, UcFirst(root), model, WrapperOrder, overwrite)
  }

  /** `registerClasses(name)`: the registration document is rewritten in every case. */
  function ClassesRegistered(w: World, root: string, name: string): World {
    w.Write(RegistryPath(root), RegistryPatched(w.Read(RegistryPath(root)), root, name))
  }

  /** `registerModel(name, modelType, connection)`. */
  function ModelRegistered(w: World, root: string, name: string, modelType: string, connection: string): World {
    var path := ConfigPath(root);
    var w1 := if !w.Exists(path) then w.Copy(ConfigTemplatePath, path) else w;
    match ConfigPatched(w1.Read(path), name, modelType, connection)
    case Some(txt) => w1.Write(path, txt)
    case None => w1
  }

  /** The configuration has an entry `models.<strtolower(name)>`. */
  predicate Configured(config: seq<ConfiguredModel>, name: string) {
    exists i :: 0 <= i < |config| && config[i].name == StrToLower(name)
  }

  /** `make(name, modelType, connection)`. */
  function Made(w: World, root: string, config: seq<ConfiguredModel>, name: string, modelType: string,
                connection: string, overwrite: bool): (e: Effect)
    ensures Falsy(name) ==> e == Effect(w, Fail(InvalidModelName))
    ensures !Falsy(name) && e.status.Fail? ==> GenerationError(e.status.error)
    ensures e.status.Ok? ==> |e.world.log| > 0 && e.world.log[|e.world.log| - 1] == Wrote(RegistryPath(root))
  {
    if Falsy(name) then Effect(w, Fail(InvalidModelName))
    else
      var w1 := if Configured(config, name) then w else ModelRegistered(w, root, name, modelType, connection);
      var g := ClassesGenerated(w1, root, UcFirst(name), overwrite);
      if g.status.Fail? then g
      else Effect(ClassesRegistered(g.world, root, name), Ok)
  }

  /** The `-a` loop of `run`: `make` for each configured model in order, stopping at the first failure. */
  function MadeAll(w: World, root: string, config: seq<ConfiguredModel>, models: seq<ConfiguredModel>,
                   overwrite: bool): (e: Effect)
    ensures e.status.Fail? ==> e.status.error == InvalidModelName || GenerationError(e.status.error)
    decreases |models|
  {
    if models == [] then Effect(w, Ok)
    else
      var e := Made(w, root, config, models[0].name, models[0].modelType, models[0].connection, overwrite);
      if e.status.Fail? then e
      else MadeAll(e.world, root, config, models[1..], overwrite)
  }

  /** The text in front of the first colon of the `name` argument. */
  function BundlePart(arg: string): string {
    Explode(':', arg)[0]
  }

  /** The text between the first and the second colon, "" when there is no colon. */
  function ModelPart(arg: string): string {
    var parts := Explode(':', arg);
    if |parts| > 1 then parts[1] else ""
  }

  /**
   * `run`: `bundles` maps each bundle the framework knows to the models of
   * its ORM configuration, in enumeration order.
   */
  function Ran(w: World, bundles: map<string, seq<ConfiguredModel>>, arg: string, modelType: string,
               connection: string, all: bool, overwrite: bool): (e: Effect)
    ensures e.status == Fail(UnknownBundle(BundlePart(arg))) <==> BundlePart(arg) !in bundles
    ensures BundlePart(arg) in bundles ==>
              (e.status == Fail(UsageError) <==> Falsy(ModelPart(arg)) == !all)
    ensures e.status == Fail(UnknownBundle(BundlePart(arg))) || e.status == Fail(UsageError) ==> e.world == w
  {
    var root := BundlePart(arg);
    if root !in bundles then Effect(w, Fail(UnknownBundle(root)))
    else
      var model := ModelPart(arg);
      if (Falsy(model) && !all) || (!Falsy(model) && all) then Effect(w, Fail(UsageError))
      else if !Falsy(model) then Made(w, root, bundles[root], model, modelType, connection, overwrite)
      else MadeAll(w, root, bundles[root], bundles[root], overwrite)
  }
}
