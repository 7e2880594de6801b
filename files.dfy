/**
 * The filesystem the generator command works on, reduced to a set of
 * directories and a map from file path to text. The primitives stand for
 * PHP's `is_dir`, `file_exists`, `file_get_contents`, `file_put_contents`,
 * `copy` and the framework's `remove` and `createDirectory` actions. Every
 * change is also recorded, in order, in a log of actions.
 */
module Files {

  /** Where a path lives: under the root of a project bundle, or among the assets shipped with the framework bundle. */
  datatype Area = BundleRoot(bundle: string) | FrameworkAssets

  datatype Path = Path(area: Area, rel: string)

  datatype Action =
    | Removed(dir: Path)
    | CreatedDirectory(dir: Path)
    | Wrote(file: Path)
    | Copied(source: Path, target: Path)

  /** `p` is `dir` itself or lies somewhere below it. */
  predicate Under(p: Path, dir: Path) {
    p.area == dir.area && (p.rel == dir.rel || dir.rel + "/" <= p.rel)
  }

  datatype World = World(dirs: set<Path>, files: map<Path, string>, log: seq<Action>) {

    /** `is_dir(p)`. */
    predicate IsDir(p: Path) {
      p in dirs
    }

    /** `file_exists(p)`: true for files and for directories. */
    predicate Exists(p: Path) {
      p in files || p in dirs
    }

    /**
     * `file_get_contents(p)`; a path that holds no file yields "", the
     * string PHP makes of the `false` returned on failure.
     */
    function Read(p: Path): string {
      if p in files then files[p] else ""
    }

    /** `file_put_contents(p, text)`. */
    function Write(p: Path, text: string): World {
      World(dirs, files[p := text], log + [Wrote(p)])
    }

    /** The `remove` action: deletes `dir` with everything below it. */
    function Remove(dir: Path): World {
      World(set d | d in dirs && !Under(d, dir),
            map p | p in files && !Under(p, dir) :: files[p],
            log + [Removed(dir)])
    }

    /** The `createDirectory` action. */
    function CreateDirectory(dir: Path): World {
      World(dirs + {dir}, files, log + [CreatedDirectory(dir)])
    }

    /** `copy(source, target)`; a missing source copies nothing. */
    function Copy(source: Path, target: Path): World {
      if source in files then World(dirs, files[target := files[source]], log + [Copied(source, target)])
      else World(dirs, files, log + [Copied(source, target)])
    }

    /** Same directories and same file contents, whatever the log says. */
    predicate SameContents(other: World) {
      dirs == other.dirs && files == other.files
    }
  }

  /** The filesystem as an object whose state the primitives update in place. */
  class FileSystem {
    var dirs: set<Path>
    var files: map<Path, string>
    var log: seq<Action>

    function State(): World
      reads this
    {
      World(dirs, files, log)
    }

    constructor (dirs: set<Path>, files: map<Path, string>)
      ensures State() == World(dirs, files, [])
    {
      this.dirs := dirs;
      this.files := files;
      this.log := [];
    }

    method Set(w: World)
      modifies this
      ensures State() == w
    {
      dirs, files, log := w.dirs, w.files, w.log;
    }

    method Write(p: Path, text: string)
      modifies this
      ensures State() == old(State()).Write(p, text)
    {
      Set(State().Write(p, text));
    }

    method Remove(dir: Path)
      modifies this
      ensures State() == old(State()).Remove(dir)
    {
      Set(State().Remove(dir));
    }

    method CreateDirectory(dir: Path)
      modifies this
      ensures State() == old(State()).CreateDirectory(dir)
    {
      Set(State().CreateDirectory(dir));
    }

    method Copy(source: Path, target: Path)
      modifies this
      ensures State() == old(State()).Copy(source, target)
    {
      Set(State().Copy(source, target));
    }
  }
}
