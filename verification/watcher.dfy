/** The watcher: which library a changed path belongs to, the paths it expects to hear about
    again because it moved them itself, and what it does with one filesystem notification. */
module Watch {
  import opened Errors
  import opened Paths
  import opened Fs
  import opened Sorting
  import opened Configuration

  /** The notifications `notify` delivers once debounced. */
  datatype Event =
    | NoticeWrite(path: Path)
    | NoticeRemove(path: Path)
    | Create(path: Path)
    | Write(path: Path)
    | Chmod(path: Path)
    | Remove(path: Path)
    | Rename(src: Path, dst: Path)
    | Rescan
    | WatchError(at: Option<Path>)

  /** The path of a notification that can start a sort: what was created, or a rename's target. */
  function Target(e: Event): (r: Option<Path>)
    ensures r.Some? <==> e.Create? || e.Rename?
    ensures e.Create? ==> r == Some(e.path)
    ensures e.Rename? ==> r == Some(e.dst)
  {
    match e
    case Create(p) => Some(p)
    case Rename(_, p) => Some(p)
    case _ => None
  }

  /** `is_ignored`: a path that is a file is ignored when the set holds it; any other path when some
      entry of the set is a directory that starts with it. */
  predicate IgnoredIn(ignore: set<Path>, t: Tree, cwd: seq<string>, path: Path)
  {
    if FileAt(t, ResolveIn(cwd, path)) then path in ignore
    else exists q :: q in ignore && DirAt(t, ResolveIn(cwd, q)) && StartsWith(q, path)
  }

  /** An entry that is not a directory never makes another path ignored, so an ignored path that
      is not a file stays ignored as long as the directory entry below it does, even once the path
      itself is dropped from the set. */
  lemma IgnoredByOther(ignore: set<Path>, t: Tree, cwd: seq<string>, path: Path, q: Path)
    requires q in ignore && q != path && DirAt(t, ResolveIn(cwd, q)) && StartsWith(q, path)
    requires !FileAt(t, ResolveIn(cwd, path))
    ensures IgnoredIn(ignore, t, cwd, path) && IgnoredIn(ignore - {path}, t, cwd, path)
  {
    assert q in ignore - {path};
  }

  /** Relative entries never make an absolute path ignored: an absolute path never starts with a
      relative one, and a file is matched exactly. */
  lemma RelativeNeverIgnores(ignore: set<Path>, t: Tree, cwd: seq<string>, path: Path)
    requires forall q :: q in ignore ==> !q.absolute
    requires path.absolute
    ensures !IgnoredIn(ignore, t, cwd, path)
  {
  }

  /** `root_for`: the nearest ancestor of `path`, the path itself first, that is a library folder;
      None when no ancestor is. */
  function RootFor(roots: map<Path, string>, path: Path): (r: Option<Path>)
    ensures r.Some? ==> r.value in roots && StartsWith(path, r.value)
    ensures r.Some? ==> forall i :: |r.value.comps| < i <= |path.comps| ==> Path(path.absolute, path.comps[..i]) !in roots
    ensures r.None? ==> forall i :: 0 <= i <= |path.comps| ==> Path(path.absolute, path.comps[..i]) !in roots
    decreases |path.comps|
  {
    if path in roots then
      assert path.comps[..|path.comps|] == path.comps;
      Some(path)
    else if path.comps == [] then
      assert forall i :: 0 <= i <= |path.comps| ==> path.comps[..i] == path.comps;
      None
    else
      var parent := Path(path.absolute, path.comps[..|path.comps| - 1]);
      var r := RootFor(roots, parent);
      assert forall i :: 0 <= i <= |parent.comps| ==> parent.comps[..i] == path.comps[..i];
      assert path.comps[..|path.comps|] == path.comps;
      r
  }

  /** The ignore set after `ignore_path(path, root)`: a path without a parent fails with
      `InvalidParent` and adds nothing; otherwise the path goes in, and its parent too unless the
      parent is the root. */
  function Ignored(ignore: set<Path>, path: Path, root: Path): (r: Result<set<Path>>)
    ensures r.Failure? <==> path.comps == []
    ensures r.Failure? ==> r.error == InvalidParent(Display(path))
    ensures r.Success? ==> path in r.value && ignore <= r.value
    ensures r.Success? && Parent(path).value != root ==> Parent(path).value in r.value
    ensures r.Success? ==> forall q :: q in r.value && q !in ignore ==> q == path || (q == Parent(path).value && q != root)
    ensures r.Success? ==> r.value == ignore + Added(path, root)
  {
    match Parent(path)
    case None => Failure(InvalidParent(Display(path)))
    case Some(parent) => Success(ignore + (if parent != root then {parent} else {}) + {path})
  }

  /** What `ignore_path` adds for `path`: the path, and its parent unless that is the root. */
  function Added(path: Path, root: Path): set<Path>
  {
    {path} + match Parent(path) case None => {} case Some(parent) => if parent != root then {parent} else {}
  }

  /** `ignore_path` for each path in turn, stopping at the first failure, which `?` passes on; the
      set keeps what was added before it. */
  function IgnoreEach(ignore: set<Path>, paths: seq<Path>, root: Path): (Result<()>, set<Path>)
    decreases |paths|
  {
    if paths == [] then (Success(()), ignore)
    else
      match Ignored(ignore, paths[0], root)
      case Failure(e) => (Failure(e), ignore)
      case Success(s) => IgnoreEach(s, paths[1..], root)
  }

  /** Ignoring a list of paths only adds to the set. */
  lemma {:induction false} IgnoreEachGrows(ignore: set<Path>, paths: seq<Path>, root: Path)
    ensures ignore <= IgnoreEach(ignore, paths, root).1
    decreases |paths|
  {
    if paths != [] {
      var first := Ignored(ignore, paths[0], root);
      if first.Success? {
        IgnoreEachGrows(first.value, paths[1..], root);
      }
    }
  }

  /** Ignoring a list of paths succeeds exactly when every path has a parent. */
  lemma {:induction false} IgnoreEachSucceeds(ignore: set<Path>, paths: seq<Path>, root: Path)
    ensures IgnoreEach(ignore, paths, root).0.Success? <==> forall i :: 0 <= i < |paths| ==> paths[i].comps != []
    decreases |paths|
  {
    if paths != [] {
      var first := Ignored(ignore, paths[0], root);
      if first.Success? {
        IgnoreEachSucceeds(first.value, paths[1..], root);
        assert forall i :: 0 <= i < |paths[1..]| ==> paths[1..][i] == paths[i + 1];
      }
    }
  }

  /** `k` is the first path without a parent, and `err` names it. */
  predicate FirstOrphan(paths: seq<Path>, k: int, err: Error)
  {
    0 <= k < |paths| && paths[k].comps == [] && err == InvalidParent(Display(paths[k]))
    && forall i :: 0 <= i < k ==> paths[i].comps != []
  }

  /** A failure is `InvalidParent` naming the first path without a parent. */
  lemma {:induction false} IgnoreEachFailure(ignore: set<Path>, paths: seq<Path>, root: Path)
    ensures var r := IgnoreEach(ignore, paths, root).0;
            r.Failure? ==> exists k :: FirstOrphan(paths, k, r.error)
    decreases |paths|
  {
    if paths != [] {
      var first := Ignored(ignore, paths[0], root);
      if first.Success? {
        var rest := paths[1..];
        IgnoreEachFailure(first.value, rest, root);
        var r := IgnoreEach(first.value, rest, root).0;
        if r.Failure? {
          var k :| FirstOrphan(rest, k, r.error);
          OrphanStep(paths, k, r.error);
        }
      } else {
        assert FirstOrphan(paths, 0, first.error);
      }
    }
  }

  /** The first orphan of the rest, behind a path with a parent, is the first of the whole. */
  lemma OrphanStep(paths: seq<Path>, k: int, err: Error)
    requires paths != [] && paths[0].comps != [] && FirstOrphan(paths[1..], k, err)
    ensures FirstOrphan(paths, k + 1, err)
  {
    assert forall i :: 0 < i <= k + 1 ==> paths[i] == paths[1..][i - 1];
  }

  /** After a successful run the set holds exactly what it held, every path, and every parent of
      a path that is not the root. */
  lemma {:induction false} IgnoreEachContents(ignore: set<Path>, paths: seq<Path>, root: Path)
    ensures var (r, s) := (IgnoreEach(ignore, paths, root).0, IgnoreEach(ignore, paths, root).1);
            r.Success? ==> forall q :: q in s <==> q in ignore || exists i :: 0 <= i < |paths| && q in Added(paths[i], root)
    decreases |paths|
  {
    if paths != [] {
      var first := Ignored(ignore, paths[0], root);
      if first.Success? {
        var rest := paths[1..];
        IgnoreEachContents(first.value, rest, root);
        var r := IgnoreEach(first.value, rest, root).0;
        var s := IgnoreEach(first.value, rest, root).1;
        if r.Success? {
          ContentsStep(ignore, first.value, paths, rest, s, root);
        }
      }
    }
  }

  /** The inductive step of `IgnoreEachContents`, for the first path and the rest. */
  lemma ContentsStep(ignore: set<Path>, mid: set<Path>, paths: seq<Path>, rest: seq<Path>, s: set<Path>, root: Path)
    requires paths != [] && rest == paths[1..] && Ignored(ignore, paths[0], root) == Success(mid)
    requires forall q :: q in s <==> q in mid || exists i :: 0 <= i < |rest| && q in Added(rest[i], root)
    ensures forall q :: q in s <==> q in ignore || exists i :: 0 <= i < |paths| && q in Added(paths[i], root)
  {
    forall q | q in s
      ensures q in ignore || exists i :: 0 <= i < |paths| && q in Added(paths[i], root)
    {
      if q !in mid {
        var i :| 0 <= i < |rest| && q in Added(rest[i], root);
        assert rest[i] == paths[i + 1];
      }
    }
    forall q | q in ignore || exists i :: 0 <= i < |paths| && q in Added(paths[i], root)
      ensures q in s
    {
      if q !in ignore {
        var i :| 0 <= i < |paths| && q in Added(paths[i], root);
        if i > 0 {
          assert rest[i - 1] == paths[i];
        }
      }
    }
  }

  /** Relative paths only add relative entries: the parent of a relative path is relative. */
  lemma {:induction false} IgnoreEachRelative(ignore: set<Path>, paths: seq<Path>, root: Path)
    requires forall q :: q in ignore ==> !q.absolute
    requires forall i :: 0 <= i < |paths| ==> !paths[i].absolute
    ensures forall q :: q in IgnoreEach(ignore, paths, root).1 ==> !q.absolute
    decreases |paths|
  {
    if paths != [] {
      var first := Ignored(ignore, paths[0], root);
      if first.Success? {
        IgnoreEachRelative(first.value, paths[1..], root);
      }
    }
  }

  /** What the watch loop does with one notification. */
  datatype Action =
    | Skip
    | Unignore(path: Path)
    | SortDir(root: Path, path: Path, options: Options)
    | SortOne(root: Path, path: Path, options: Options)

  /** The options of a sort in watch mode: no dry run, recursive, empty directories removed, and
      the template and exFAT flag of the library. */
  function WatchOptions(libs: Libraries, library: string): (o: Options)
    requires library in libs
    ensures o.format == libs[library].format && o.exfatCompat == IsExfatCompat(libs, library)
    ensures !o.dryrun && o.recursive && o.removeEmpty
  {
    Options(FormatOf(libs, library).value, false, true, IsExfatCompat(libs, library), true)
  }

  class Watcher {
    const libraries: Libraries
    const roots: map<Path, string>
    var ignore: set<Path>

    /** Every root is a folder of the library it names. */
    ghost predicate Valid()
    {
      forall p :: p in roots ==> roots[p] in libraries && p in libraries[roots[p]].folders
    }

    /** `Watcher::new`: maps every folder of every library to the library's name, and ignores
        nothing yet. Libraries are taken in an unspecified order, so a folder two libraries share
        names either one; when none is shared, each folder names its own library. */
    constructor (config: Config)
      ensures libraries == config.libraries && ignore == {} && Valid()
      ensures forall p :: p in roots <==> exists n :: n in libraries && p in libraries[n].folders
      ensures Unique(libraries) ==> forall n, p :: n in libraries && p in libraries[n].folders ==> roots[p] == n
    {
      var libs := config.libraries;
      var m: map<Path, string> := map[];
      var todo := libs.Keys;
      while todo != {}
        invariant todo <= libs.Keys
        invariant forall p :: p in m <==> exists n :: n in libs && n !in todo && p in libs[n].folders
        invariant forall p :: p in m ==> m[p] in libs && m[p] !in todo && p in libs[m[p]].folders
        invariant Unique(libs) ==> forall n, p :: n in libs && n !in todo && p in libs[n].folders ==> m[p] == n
        decreases |todo|
      {
        var name :| name in todo;
        var folders := libs[name].folders;
        m := MapFolders(m, folders, name);
        todo := todo - {name};
      }
      libraries := libs;
      roots := m;
      ignore := {};
    }

    /** The inner loop of `Watcher::new`: each folder of one library, in order, maps to its name. */
    static method MapFolders(m0: map<Path, string>, folders: seq<Path>, name: string) returns (m: map<Path, string>)
      ensures forall p :: p in m <==> p in m0 || p in folders
      ensures forall p :: p in m ==> m[p] == if p in folders then name else m0[p]
    {
      m := m0;
      for i := 0 to |folders|
        invariant forall p :: p in m <==> p in m0 || p in folders[..i]
        invariant forall p :: p in m ==> m[p] == if p in folders[..i] then name else m0[p]
      {
        assert folders[..i + 1] == folders[..i] + [folders[i]];
        m := m[folders[i] := name];
      }
      assert folders[..|folders|] == folders;
    }

    /** `is_ignored`: a file is looked up in the set; for any other path the entries are tried in
        turn, in the set's unspecified order, and the first directory entry that starts with the
        path answers yes. */
    method IsIgnored(fs: FileSystem, path: Path) returns (b: bool)
      ensures b == IgnoredIn(ignore, fs.entries, fs.cwd, path)
    {
      if FileAt(fs.entries, fs.Resolve(path)) {
        return path in ignore;
      }
      var todo := ignore;
      while todo != {}
        invariant todo <= ignore
        invariant forall q :: q in ignore && q !in todo ==> !(DirAt(fs.entries, ResolveIn(fs.cwd, q)) && StartsWith(q, path))
        decreases |todo|
      {
        var q :| q in todo;
        if DirAt(fs.entries, fs.Resolve(q)) && StartsWith(q, path) {
          return true;
        }
        todo := todo - {q};
      }
      return false;
    }

    /** How one notification is handled, given the tree as it is: only a creation or a rename's
        target counts; an ignored path is taken off the set; a path under no library is left
        alone; otherwise the nearest library folder is the root, and a directory is sorted as a
        folder and anything else as a file, with the watch-mode options of that library. */
    function Decide(t: Tree, cwd: seq<string>, e: Event): (a: Action)
      requires Valid()
      reads this
      ensures Target(e).None? ==> a == Skip
      ensures Target(e).Some? && IgnoredIn(ignore, t, cwd, Target(e).value) ==> a == Unignore(Target(e).value)
      ensures Target(e).Some? && !IgnoredIn(ignore, t, cwd, Target(e).value) && RootFor(roots, Target(e).value).None? ==> a == Skip
      ensures a.SortDir? || a.SortOne? ==>
                && Target(e) == Some(a.path) && !IgnoredIn(ignore, t, cwd, a.path)
                && RootFor(roots, a.path) == Some(a.root)
                && a.options == WatchOptions(libraries, roots[a.root])
      ensures a.SortDir? <==> (Target(e).Some? && !IgnoredIn(ignore, t, cwd, Target(e).value)
                               && RootFor(roots, Target(e).value).Some? && DirAt(t, ResolveIn(cwd, Target(e).value)))
      ensures a.SortOne? <==> (Target(e).Some? && !IgnoredIn(ignore, t, cwd, Target(e).value)
                               && RootFor(roots, Target(e).value).Some? && !DirAt(t, ResolveIn(cwd, Target(e).value)))
    {
      match Target(e)
      case None => Skip
      case Some(path) =>
        if IgnoredIn(ignore, t, cwd, path) then Unignore(path)
        else
          match RootFor(roots, path)
          case None => Skip
          case Some(root) =>
            var o := WatchOptions(libraries, roots[root]);
            if DirAt(t, ResolveIn(cwd, path)) then SortDir(root, path, o) else SortOne(root, path, o)
    }

    /** `ignore_path(path, root)`. */
    method IgnorePath(path: Path, root: Path) returns (r: Result<()>)
      modifies this
      ensures var i := Ignored(old(ignore), path, root);
              if i.Success? then r == Success(()) && ignore == i.value else r == Failure(i.error) && ignore == old(ignore)
    {
      var parent := Parent(path);
      if parent.None? {
        return Failure(InvalidParent(Display(path)));
      }
      if parent.value != root {
        ignore := ignore + {parent.value};
      }
      ignore := ignore + {path};
      r := Success(());
    }

    /** The `for new_path in report.new_paths` loop: `ignore_path` for each, `?` ending it at the
        first failure. */
    method IgnoreAll(paths: seq<Path>, root: Path) returns (r: Result<()>)
      modifies this
      ensures (r, ignore) == IgnoreEach(old(ignore), paths, root)
    {
      for i := 0 to |paths|
        invariant IgnoreEach(old(ignore), paths, root) == IgnoreEach(ignore, paths[i..], root)
      {
        assert paths[i..][1..] == paths[i + 1..];
        var e := IgnorePath(paths[i], root);
        if e.Failure? {
          return e;
        }
      }
      r := Success(());
    }

    /** One turn of `watchloop`, for one notification: the action `Decide` picks on the tree as
        it was. Skipping changes nothing; unignoring drops exactly that path from the set; a sort
        changes the tree as `sort_folder` or `sort_file` does, with `files` the files it sorted
        and `outcomes` their results (for a folder, every file reachable from the path is among
        them, and nothing outside the path changes kind), and the new paths of the successes are
        then ignored in turn, an `ignore_path` failure ending the turn with that error. */
    method Step(fs: FileSystem, e: Event) returns (r: Result<()>, ghost files: seq<seq<string>>, ghost outcomes: seq<Result<Path>>)
      requires Valid()
      modifies this, fs
      ensures Valid()
      ensures var a := old(Decide(fs.entries, fs.cwd, e));
              && (a.Skip? ==> r == Success(()) && ignore == old(ignore) && fs.entries == old(fs.entries) && outcomes == [])
              && (a.Unignore? ==> r == Success(()) && ignore == old(ignore) - {a.path} && fs.entries == old(fs.entries) && outcomes == [])
              && (a.SortOne? ==> outcomes == [SortFileEffect(old(fs.entries), fs.cwd, a.root, a.path, a.options).0]
                                 && fs.entries == SortFileEffect(old(fs.entries), fs.cwd, a.root, a.path, a.options).1)
              && (a.SortDir? ==> forall i :: 0 <= i < |outcomes| && outcomes[i].Success? ==> exists m :: Built(a.options, m) == outcomes[i])
              && (a.SortDir? ==> Covered(old(fs.entries), fs.entries, ResolveIn(fs.cwd, a.path), files, outcomes))
              && (a.SortOne? || a.SortDir? ==> (r, ignore) == IgnoreEach(old(ignore), Successes(outcomes), a.root))
    {
      var a := Decide(fs.entries, fs.cwd, e);
      files, outcomes := [], [];
      match a
      case Skip =>
        r := Success(());
      case Unignore(path) =>
        ignore := ignore - {path};
        r := Success(());
      case SortDir(root, path, o) =>
        var report;
        ghost var removed;
        report, files, outcomes, removed := SortFolder(fs, root, path, o);
        r := IgnoreAll(report.value.newPaths, root);
      case SortOne(root, path, o) =>
        var res := SortFile(fs, root, path, o);
        files, outcomes := [fs.Resolve(path)], [res];
        assert Successes(outcomes) == if res.Success? then [res.value] else [];
        if res.Success? {
          r := IgnorePath(res.value, root);
        } else {
          r := Success(());
        }
    }
  }

  /** A sorted file's new path is the one the template gives, not joined with the root, and it is
      relative whenever the template's first directory fills in some text
      (`Sorting.SortFileRelative`). A watcher whose set held only relative entries, after sorting
      with relative new paths, still ignores no absolute path: the notifications its own moves
      cause are not suppressed. */
  lemma OwnMovesNotIgnored(ignore: set<Path>, outcomes: seq<Result<Path>>, root: Path, t: Tree, cwd: seq<string>, path: Path)
    requires forall q :: q in ignore ==> !q.absolute
    requires forall i :: 0 <= i < |Successes(outcomes)| ==> !Successes(outcomes)[i].absolute
    requires path.absolute
    ensures !IgnoredIn(IgnoreEach(ignore, Successes(outcomes), root).1, t, cwd, path)
  {
    IgnoreEachRelative(ignore, Successes(outcomes), root);
    RelativeNeverIgnores(IgnoreEach(ignore, Successes(outcomes), root).1, t, cwd, path);
  }
}
