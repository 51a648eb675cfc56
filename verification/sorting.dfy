/** Sorting files into the library: `sort_file` builds the destination of one file from its tags
    and moves it there; `sort_folder` walks a directory tree with an explicit stack and sorts
    every file it meets, counting successes and failures. */
module Sorting {
  import opened Errors
  import opened Paths
  import opened Meta
  import opened Format
  import opened Fs

  /** How to sort. `recursive` is carried along but never read: a folder is always walked in
      full. */
  datatype Options = Options(format: ParsedFormat, dryrun: bool, recursive: bool, exfatCompat: bool, removeEmpty: bool)

  datatype SortReport = SortReport(success: nat, total: nat, newPaths: seq<Path>)

  /** The path `build_path` gives for tags `m`. It is relative unless the first directory of the
      template fills in nothing (see `BuiltAbsolute`). */
  function Built(o: Options, m: Metadata): (r: Result<Path>)
    ensures r.Success? <==> BuildText(o.format.segments, m, o.exfatCompat).Success?
  {
    var b := BuildText(o.format.segments, m, o.exfatCompat);
    if b.Failure? then Failure(b.error) else Success(FromString(b.value))
  }

  /** A built path is absolute exactly when the template's first segment is a directory that
      fills in nothing: a template text starting with `/`, or a first directory whose tags are
      all empty. Joined with the library root, such a path replaces the root. */
  lemma {:induction false} BuiltAbsolute(o: Options, m: Metadata, root: Path)
    requires WellCut(o.format.segments)
    requires Built(o, m).Success?
    ensures var segs := o.format.segments;
            Built(o, m).value.absolute <==> |segs| > 0 && segs[0].Dir? && FillAll(segs[0].parts, m, o.exfatCompat) == ""
    ensures Built(o, m).value.absolute ==> Join(root, Built(o, m).value) == Built(o, m).value
  {
    BuildTextSpec(o.format.segments, m, o.exfatCompat);
    FilledLeadingSlash(o.format.segments, m, o.exfatCompat);
  }

  /** What `sort_file` does to the tree `t`, and what it returns. */
  function SortFileEffect(t: Tree, cwd: seq<string>, root: Path, file: Path, o: Options): (Result<Path>, Tree)
  {
    var src := ResolveIn(cwd, file);
    var tags := TagsAt(t, src);
    if tags.Failure? then (Failure(tags.error), t)
    else
      var built := Built(o, tags.value);
      if built.Failure? then (Failure(built.error), t)
      else if o.dryrun then (built, t)
      else
        var dest := Join(root, built.value);
        if dest.comps == [] then (Failure(InvalidParent(Display(dest))), t)
        else
          var moved := Relocate(t, src, ResolveIn(cwd, dest));
          (if moved.0.Some? then Failure(IoError(moved.0.value)) else built, moved.1)
  }

  /** The real-mode step of `sort_file`: make the target's directory, then rename the file onto
      the target. A failed rename keeps the directories made. */
  function Relocate(t: Tree, src: seq<string>, dst: seq<string>): (Option<IoKind>, Tree)
    requires src in t && t[src].File? && dst != []
  {
    var parent := dst[..|dst| - 1];
    MaybeCreateDirSpec(t, parent);
    match MaybeCreateDir(t, parent)
    case Fails(k) => (Some(k), t)
    case Done(t1) =>
      match RenameFile(t1, src, dst)
      case Fails(k) => (Some(k), t1)
      case Done(t2) => (None, t2)
  }

  /** A relocation that succeeds puts the file at the target, removes it from the source, adds
      only readable directories on the way to the target, and leaves every other entry alone;
      one that fails adds at most such directories. A directory at the target makes it fail. */
  lemma {:induction false} RelocateSpec(t: Tree, src: seq<string>, dst: seq<string>)
    requires src in t && t[src].File? && dst != []
    ensures var e := Relocate(t, src, dst).0;
            var t' := Relocate(t, src, dst).1;
            && (e.None? ==> dst in t' && t'[dst] == t[src] && (src != dst ==> src !in t'))
            && (e.Some? ==> Grows(t, t', dst[..|dst| - 1]))
            && (dst in t && t[dst].Dir? ==> e.Some?)
            && (forall k :: k in t && k != src && k != dst ==> k in t' && t'[k] == t[k])
            && (forall k :: k in t' && k !in t && k != dst ==> |k| < |dst| && k == dst[..|k|] && t'[k] == Dir(true))
  {
    var parent := dst[..|dst| - 1];
    MaybeCreateDirSpec(t, parent);
    var made := MaybeCreateDir(t, parent);
    if made.Fails? {
      assert Relocate(t, src, dst) == (Some(made.kind), t);
      assert Grows(t, t, parent);
    } else {
      var t1 := made.tree;
      RenameFileSpec(t1, src, dst);
      GrowsOnTheWay(t, t1, dst);
      var moved := RenameFile(t1, src, dst);
      if moved.Fails? {
        assert Relocate(t, src, dst) == (Some(moved.kind), t1);
      } else {
        assert Relocate(t, src, dst) == (None, moved.tree);
        RelocateDone(t, t1, moved.tree, src, dst);
      }
    }
  }

  /** Directories made on the way to the target's directory are on the way to the target. */
  lemma GrowsOnTheWay(t: Tree, t1: Tree, dst: seq<string>)
    requires dst != [] && Grows(t, t1, dst[..|dst| - 1])
    ensures forall k :: k in t1 && k !in t ==> |k| < |dst| && k == dst[..|k|] && t1[k] == Dir(true)
  {
    forall k | k in t1 && k !in t
      ensures |k| < |dst| && k == dst[..|k|]
    {
      assert dst[..|dst| - 1][..|k|] == dst[..|k|];
    }
  }

  lemma RelocateDone(t: Tree, t1: Tree, t2: Tree, src: seq<string>, dst: seq<string>)
    requires src in t && dst != []
    requires forall k :: k in t ==> k in t1 && t1[k] == t[k]
    requires forall k :: k in t1 && k !in t ==> |k| < |dst| && k == dst[..|k|] && t1[k] == Dir(true)
    requires Moved(t1, t2, src, dst)
    ensures dst in t2 && t2[dst] == t[src] && (src != dst ==> src !in t2)
    ensures forall k :: k in t && k != src && k != dst ==> k in t2 && t2[k] == t[k]
    ensures forall k :: k in t2 && k !in t && k != dst ==> |k| < |dst| && k == dst[..|k|] && t2[k] == Dir(true)
  {
  }

  /** `sort_file`: read the tags, build the path, and unless this is a dry run make the
      destination's directory under `root` and move the file there. What it returns is the
      path `build_path` gave, not the one joined with `root`. */
  method SortFile(fs: FileSystem, root: Path, file: Path, o: Options) returns (r: Result<Path>)
    modifies fs
    ensures (r, fs.entries) == SortFileEffect(old(fs.entries), fs.cwd, root, file, o)
  {
    var tags := TagsAt(fs.entries, fs.Resolve(file));
    if tags.Failure? {
      return Failure(tags.error);
    }
    var built := BuildPath(o.format, tags.value, o.exfatCompat);
    if built.Failure? {
      return Failure(built.error);
    }
    if !o.dryrun {
      var dest := Join(root, built.value);
      if Parent(dest).None? {
        return Failure(InvalidParent(Display(dest)));
      }
      ghost var t := fs.entries;
      assert fs.Resolve(Parent(dest).value) == fs.Resolve(dest)[..|fs.Resolve(dest)| - 1];
      var e := fs.MakeDirs(Parent(dest).value);
      if e.Some? {
        return Failure(IoError(e.value));
      }
      MaybeCreateDirSpec(t, fs.Resolve(Parent(dest).value));
      e := fs.Rename(file, dest);
      if e.Some? {
        return Failure(IoError(e.value));
      }
    }
    return built;
  }

  /** The result of `sort_file`: the error reading the tags, else the error building the path,
      else (in either mode) the path built from the tags, not joined with the root. A dry run
      leaves the tree as it was, and so does every failure before the destination's directory is
      made. */
  lemma {:induction false} SortFileResult(t: Tree, cwd: seq<string>, root: Path, file: Path, o: Options)
    ensures var r := SortFileEffect(t, cwd, root, file, o).0;
            var tags := TagsAt(t, ResolveIn(cwd, file));
            && (tags.Failure? ==> r == Failure(tags.error))
            && (tags.Success? && Built(o, tags.value).Failure? ==> r == Failure(Built(o, tags.value).error))
            && (r.Success? ==> tags.Success? && r == Built(o, tags.value))
            && (o.dryrun && tags.Success? ==> r == Built(o, tags.value))
    ensures var t' := SortFileEffect(t, cwd, root, file, o).1;
            var tags := TagsAt(t, ResolveIn(cwd, file));
            (o.dryrun || tags.Failure? || Built(o, tags.value).Failure?) ==> t' == t
  {
  }

  /** What `sort_file` returns on success is relative unless the template's first directory
      fills in nothing from the file's tags. */
  lemma {:induction false} SortFileRelative(t: Tree, cwd: seq<string>, root: Path, file: Path, o: Options)
    requires WellCut(o.format.segments)
    ensures var r := SortFileEffect(t, cwd, root, file, o).0;
            var tags := TagsAt(t, ResolveIn(cwd, file));
            var segs := o.format.segments;
            r.Success? ==>
              (r.value.absolute <==> |segs| > 0 && segs[0].Dir? && FillAll(segs[0].parts, tags.value, o.exfatCompat) == "")
  {
    SortFileResult(t, cwd, root, file, o);
    var tags := TagsAt(t, ResolveIn(cwd, file));
    if SortFileEffect(t, cwd, root, file, o).0.Success? {
      BuiltAbsolute(o, tags.value, root);
    }
  }

  /** A path with no parent after joining with the root stops a real sort with `InvalidParent`
      before anything changes. */
  lemma {:induction false} SortFileInvalidParent(t: Tree, cwd: seq<string>, root: Path, file: Path, o: Options)
    requires !o.dryrun
    requires TagsAt(t, ResolveIn(cwd, file)).Success?
    requires var b := Built(o, TagsAt(t, ResolveIn(cwd, file)).value); b.Success? && Join(root, b.value).comps == []
    ensures var b := Built(o, TagsAt(t, ResolveIn(cwd, file)).value);
            SortFileEffect(t, cwd, root, file, o) == (Failure(InvalidParent(Display(Join(root, b.value)))), t)
  {
  }

  /** A real sort that succeeds moves the file to `root` joined with the built path, creates
      only readable directories on the way there, and leaves every other entry alone. */
  lemma {:induction false} SortFileMoves(t: Tree, cwd: seq<string>, root: Path, file: Path, o: Options)
    requires !o.dryrun && SortFileEffect(t, cwd, root, file, o).0.Success?
    ensures var (r, t') := SortFileEffect(t, cwd, root, file, o);
            var src := ResolveIn(cwd, file);
            var dst := ResolveIn(cwd, Join(root, r.value));
            && src in t && t[src].File?
            && dst in t' && t'[dst] == t[src]
            && (src != dst ==> src !in t')
            && (forall k :: k in t && k != src && k != dst ==> k in t' && t'[k] == t[k])
            && (forall k :: k in t' && k !in t && k != dst ==> |k| < |dst| && k == dst[..|k|] && t'[k] == Dir(true))
  {
    var src := ResolveIn(cwd, file);
    var built := Built(o, TagsAt(t, src).value);
    RelocateSpec(t, src, ResolveIn(cwd, Join(root, built.value)));
  }

  /** The directory a file with tags `m` is sorted to, as an absolute component sequence; empty
      when no path can be built. */
  function Dest(cwd: seq<string>, root: Path, o: Options, m: Metadata): seq<string>
  {
    var b := Built(o, m);
    if b.Failure? then [] else ResolveIn(cwd, Join(root, b.value))
  }

  /** Every entry of `t`, and every prefix of the destination of each of its files, is in
      `pot`: whatever sorting the files can create stays in `pot`. */
  ghost predicate Within(t: Tree, pot: set<seq<string>>, dest: Metadata -> seq<string>)
  {
    && (forall k :: k in t ==> k in pot)
    && (forall k, i :: k in t && t[k].File? && t[k].tags.Success? && 0 <= i <= |dest(t[k].tags.value)| ==>
          dest(t[k].tags.value)[..i] in pot)
  }

  /** The paths a sort over `t` can ever reach: its entries and the prefixes of its files'
      destinations. */
  ghost function Reach(t: Tree, dest: Metadata -> seq<string>): (pot: set<seq<string>>)
    ensures Within(t, pot, dest)
  {
    var dests := set k, i | k in t && t[k].File? && t[k].tags.Success? && 0 <= i <= |dest(t[k].tags.value)|
                   :: dest(t[k].tags.value)[..i];
    t.Keys + dests
  }

  /** Sorting one file keeps the tree within the reachable paths. */
  lemma {:induction false} SortFileWithin(t: Tree, pot: set<seq<string>>, dest: Metadata -> seq<string>,
                                          cwd: seq<string>, root: Path, file: Path, o: Options)
    requires forall m :: dest(m) == Dest(cwd, root, o, m)
    requires Within(t, pot, dest)
    ensures Within(SortFileEffect(t, cwd, root, file, o).1, pot, dest)
  {
    var src := ResolveIn(cwd, file);
    var tags := TagsAt(t, src);
    if !o.dryrun && tags.Success? && Built(o, tags.value).Success? {
      var d := Dest(cwd, root, o, tags.value);
      if d != [] {
        RelocateWithin(t, pot, dest, src, d);
      }
    }
  }

  /** Sorting one file removes no entry but the file itself. */
  lemma {:induction false} SortFileKeeps(t: Tree, cwd: seq<string>, root: Path, file: Path, o: Options)
    ensures forall k :: k in t && k != ResolveIn(cwd, file) ==> k in SortFileEffect(t, cwd, root, file, o).1
  {
    var src := ResolveIn(cwd, file);
    var tags := TagsAt(t, src);
    if !o.dryrun && tags.Success? && Built(o, tags.value).Success? {
      var dest := Join(root, Built(o, tags.value).value);
      if dest.comps != [] {
        RelocateSpec(t, src, ResolveIn(cwd, dest));
      }
    }
  }

  /** A relocation of a file to its own destination keeps the tree within the reachable paths. */
  lemma {:induction false} RelocateWithin(t: Tree, pot: set<seq<string>>, dest: Metadata -> seq<string>, src: seq<string>, dst: seq<string>)
    requires Within(t, pot, dest)
    requires src in t && t[src].File? && t[src].tags.Success? && dst == dest(t[src].tags.value) && dst != []
    ensures Within(Relocate(t, src, dst).1, pot, dest)
  {
    RelocateSpec(t, src, dst);
    var t' := Relocate(t, src, dst).1;
    assert forall i :: 0 <= i <= |dst| ==> dst[..i] in pot;
    assert dst[..|dst|] == dst;
    forall k | k in t'
      ensures k in pot
    {
      if k !in t && k != dst {
        assert k == dst[..|k|];
      }
    }
    forall k, i | k in t' && t'[k].File? && t'[k].tags.Success? && 0 <= i <= |dest(t'[k].tags.value)|
      ensures dest(t'[k].tags.value)[..i] in pot
    {
      if k == dst && Relocate(t, src, dst).0.None? {
        assert t'[k] == t[src];
      } else if k in t {
        assert t'[k] == t[k] || k == src;
      }
    }
  }

  /** Removing a directory keeps the tree within the reachable paths. */
  lemma {:induction false} RemoveDirWithin(t: Tree, pot: set<seq<string>>, dest: Metadata -> seq<string>, p: seq<string>)
    requires Within(t, pot, dest) && RemoveDir(t, p).Done?
    ensures Within(RemoveDir(t, p).tree, pot, dest)
  {
    RemoveDirSpec(t, p);
  }

  /** The paths of the successful results, in order. */
  function Successes(rs: seq<Result<Path>>): (ps: seq<Path>)
    ensures |ps| <= |rs|
  {
    if rs == [] then []
    else Successes(rs[..|rs| - 1]) + (if rs[|rs| - 1].Success? then [rs[|rs| - 1].value] else [])
  }

  /** `x` lies in the tree under `start`. */
  ghost predicate Inside(x: seq<string>, start: seq<string>)
  {
    |start| <= |x| && x[..|start|] == start
  }

  /** `x` lies under `start` and is `start` itself or an entry of a directory already listed. */
  ghost predicate Tracked(x: seq<string>, start: seq<string>, listed: set<seq<string>>)
  {
    Inside(x, start) && (x == start || x[..|x| - 1] in listed)
  }

  /** The stack holds distinct paths, none popped before, each under `start` and each the start
      or an entry of a listed directory; so is every path popped so far. */
  ghost predicate Walk(stack: seq<seq<string>>, start: seq<string>, popped: set<seq<string>>, listed: set<seq<string>>)
  {
    && (forall i :: 0 <= i < |stack| ==> Tracked(stack[i], start, listed) && stack[i] !in popped)
    && (forall i, j :: 0 <= i < j < |stack| ==> stack[i] != stack[j])
    && (forall x :: x in popped ==> Tracked(x, start, listed))
    && listed <= popped
  }

  /** What `sort_folder` keeps true from one pop to the next, for the tree `t0` it started on,
      the tree `t` now, and the directories it has removed. */
  ghost predicate Inv(t0: Tree, t: Tree, pot: set<seq<string>>, dest: Metadata -> seq<string>, o: Options,
                      start: seq<string>, stack: seq<seq<string>>,
                      popped: set<seq<string>>, listed: set<seq<string>>, removed: set<seq<string>>)
  {
    && Within(t, pot, dest) && listed <= pot
    && Walk(stack, start, popped, listed)
    && removed <= listed
    && (forall k :: k in t0 && k !in t ==> k in popped)
    && (forall d :: d in removed ==> Children(t0, d) == {} && Inside(d, start))
    && (!o.removeEmpty ==> removed == {})
    && (o.dryrun ==> t == t0 - removed)
  }

  /** Popping the top of the stack keeps the invariant, with the path counted as popped. */
  lemma PopStep(t0: Tree, t: Tree, pot: set<seq<string>>, dest: Metadata -> seq<string>, o: Options,
                start: seq<string>, stack: seq<seq<string>>,
                popped: set<seq<string>>, listed: set<seq<string>>, removed: set<seq<string>>)
    requires Inv(t0, t, pot, dest, o, start, stack, popped, listed, removed) && stack != []
    ensures var path := stack[|stack| - 1];
            && Inv(t0, t, pot, dest, o, start, stack[..|stack| - 1], popped + {path}, listed, removed)
            && Tracked(path, start, listed) && path !in listed
  {
    var path := stack[|stack| - 1];
    var rest := stack[..|stack| - 1];
    assert forall i :: 0 <= i < |rest| ==> rest[i] == stack[i] && rest[i] != path;
    assert Walk(rest, start, popped + {path}, listed);
    assert Within(t, pot, dest);
  }

  /** Sorting the popped file keeps the invariant. */
  lemma FileStep(t0: Tree, t: Tree, pot: set<seq<string>>, dest: Metadata -> seq<string>, o: Options,
                 start: seq<string>, stack: seq<seq<string>>,
                 popped: set<seq<string>>, listed: set<seq<string>>, removed: set<seq<string>>,
                 cwd: seq<string>, root: Path, path: seq<string>)
    requires forall m :: dest(m) == Dest(cwd, root, o, m)
    requires Inv(t0, t, pot, dest, o, start, stack, popped, listed, removed) && path in popped
    ensures Inv(t0, SortFileEffect(t, cwd, root, Path(true, path), o).1, pot, dest, o, start, stack, popped, listed, removed)
  {
    SortFileWithin(t, pot, dest, cwd, root, Path(true, path), o);
    SortFileResult(t, cwd, root, Path(true, path), o);
    SortFileKeeps(t, cwd, root, Path(true, path), o);
  }

  /** When a directory not listed before is listed, none of its original entries has gone. */
  lemma {:induction false} ChildrenKept(t0: Tree, t: Tree, path: seq<string>, start: seq<string>,
                                        popped: set<seq<string>>, listed: set<seq<string>>)
    requires Inside(path, start) && path !in listed
    requires forall x :: x in popped ==> Tracked(x, start, listed)
    requires forall k :: k in t0 && k !in t ==> k in popped
    ensures Children(t0, path) <= Children(t, path)
  {
    forall k | k in Children(t0, path)
      ensures k in Children(t, path)
    {
      assert k[..|k| - 1] == path;
    }
  }

  /** Listing a directory not listed before and pushing its entries keeps the invariant. */
  lemma {:induction false} ListStep(t0: Tree, t: Tree, pot: set<seq<string>>, dest: Metadata -> seq<string>, o: Options,
                                    start: seq<string>, stack: seq<seq<string>>,
                                    popped: set<seq<string>>, listed: set<seq<string>>, removed: set<seq<string>>,
                                    path: seq<string>, pushed: seq<seq<string>>)
    requires Inv(t0, t, pot, dest, o, start, stack, popped, listed, removed)
    requires path in popped && path in t && Tracked(path, start, listed) && path !in listed
    requires forall i :: 0 <= i < |pushed| ==> pushed[i] in Children(t, path)
    requires forall i, j :: 0 <= i < j < |pushed| ==> pushed[i] != pushed[j]
    ensures Inv(t0, t, pot, dest, o, start, stack + pushed, popped, listed + {path}, removed)
  {
    var listed' := listed + {path};
    var s := stack + pushed;
    forall k | k in Children(t, path)
      ensures k !in popped && Tracked(k, start, listed') && forall i :: 0 <= i < |stack| ==> stack[i] != k
    {
      assert k[..|k| - 1] == path;
      assert k[..|start|] == path[..|start|];
    }
    assert forall i :: 0 <= i < |s| ==> s[i] == if i < |stack| then stack[i] else pushed[i - |stack|];
    assert Walk(s, start, popped, listed');
    assert Within(t, pot, dest) && path in pot;
  }

  /** Removing a listed directory that has no entries now keeps the invariant, with the directory
      counted as removed. */
  lemma {:induction false} RemoveStep(t0: Tree, t: Tree, pot: set<seq<string>>, dest: Metadata -> seq<string>, o: Options,
                                      start: seq<string>, stack: seq<seq<string>>,
                                      popped: set<seq<string>>, listed: set<seq<string>>, removed: set<seq<string>>,
                                      path: seq<string>)
    requires Inv(t0, t, pot, dest, o, start, stack, popped, listed, removed)
    requires o.removeEmpty && path in listed && Tracked(path, start, listed)
    requires Children(t0, path) <= Children(t, path) && Children(t, path) == {}
    requires RemoveDir(t, path).Done?
    ensures Inv(t0, RemoveDir(t, path).tree, pot, dest, o, start, stack, popped, listed, removed + {path})
  {
    RemoveDirWithin(t, pot, dest, path);
    RemoveDirSpec(t, path);
    if o.dryrun {
      assert (t0 - removed) - {path} == t0 - (removed + {path});
    }
  }

  /** Pushes every entry of `dir` onto the stack, each once, in an unspecified order, and counts
      them. */
  method PushEntries(t: Tree, dir: seq<string>, stack: seq<seq<string>>)
    returns (s: seq<seq<string>>, len: nat, ghost pushed: seq<seq<string>>)
    ensures s == stack + pushed && len == |pushed| == |Children(t, dir)|
    ensures forall i :: 0 <= i < |pushed| ==> pushed[i] in Children(t, dir)
    ensures forall k :: k in Children(t, dir) ==> k in pushed
    ensures forall i, j :: 0 <= i < j < |pushed| ==> pushed[i] != pushed[j]
  {
    var kids := Children(t, dir);
    s := stack;
    pushed := [];
    len := 0;
    while kids != {}
      invariant s == stack + pushed && len == |pushed|
      invariant kids <= Children(t, dir) && |pushed| + |kids| == |Children(t, dir)|
      invariant forall i :: 0 <= i < |pushed| ==> pushed[i] in Children(t, dir) && pushed[i] !in kids
      invariant forall k :: k in Children(t, dir) ==> k in kids || k in pushed
      invariant forall i, j :: 0 <= i < j < |pushed| ==> pushed[i] != pushed[j]
      decreases |kids|
    {
      var k :| k in kids;
      s := s + [k];
      pushed := pushed + [k];
      kids := kids - {k};
      len := len + 1;
    }
  }

  /** A file popped by `sort_folder` is sorted as `sort_file` sorts it; the walk's invariant
      survives, and a success is the path built from some metadata. */
  method VisitFile(fs: FileSystem, root: Path, o: Options, path: seq<string>,
                   ghost t0: Tree, ghost pot: set<seq<string>>, ghost dest: Metadata -> seq<string>,
                   ghost start: seq<string>, ghost stack: seq<seq<string>>, ghost popped: set<seq<string>>,
                   ghost listed: set<seq<string>>, ghost removed: set<seq<string>>)
    returns (res: Result<Path>)
    requires forall m :: dest(m) == Dest(fs.cwd, root, o, m)
    requires Inv(t0, fs.entries, pot, dest, o, start, stack, popped, listed, removed) && path in popped
    modifies fs
    ensures (res, fs.entries) == SortFileEffect(old(fs.entries), fs.cwd, root, Path(true, path), o)
    ensures Inv(t0, fs.entries, pot, dest, o, start, stack, popped, listed, removed)
    ensures res.Success? ==> exists m :: Built(o, m) == res
  {
    FileStep(t0, fs.entries, pot, dest, o, start, stack, popped, listed, removed, fs.cwd, root, path);
    SortFileResult(fs.entries, fs.cwd, root, Path(true, path), o);
    res := SortFile(fs, root, Path(true, path), o);
  }

  /** A readable directory popped by `sort_folder` pushes every entry it holds, each once, and,
      when asked to and it had none, is removed if `remove_dir` lets it; otherwise the tree stays
      as it was. The walk's invariant survives with the directory counted as listed. */
  method VisitDir(fs: FileSystem, o: Options, path: seq<string>, stack: seq<seq<string>>,
                  ghost t0: Tree, ghost pot: set<seq<string>>, ghost dest: Metadata -> seq<string>,
                  ghost start: seq<string>, ghost popped: set<seq<string>>,
                  ghost listed: set<seq<string>>, ghost removed: set<seq<string>>)
    returns (s: seq<seq<string>>, ghost removed': set<seq<string>>, ghost pushed: seq<seq<string>>)
    requires Inv(t0, fs.entries, pot, dest, o, start, stack, popped, listed, removed)
    requires path in popped && path in fs.entries && Tracked(path, start, listed) && path !in listed
    modifies fs
    ensures s == stack + pushed
    ensures forall i :: 0 <= i < |pushed| ==> pushed[i] in Children(old(fs.entries), path)
    ensures forall k :: k in Children(old(fs.entries), path) ==> k in pushed
    ensures forall i, j :: 0 <= i < j < |pushed| ==> pushed[i] != pushed[j]
    ensures fs.entries == if o.removeEmpty && Children(old(fs.entries), path) == {} && RemoveDir(old(fs.entries), path).Done?
                          then RemoveDir(old(fs.entries), path).tree else old(fs.entries)
    ensures Inv(t0, fs.entries, pot, dest, o, start, s, popped, listed + {path}, removed')
  {
    ghost var t := fs.entries;
    ChildrenKept(t0, t, path, start, popped, listed);
    var len;
    s, len, pushed := PushEntries(fs.entries, path, stack);
    ListStep(t0, t, pot, dest, o, start, stack, popped, listed, removed, path, pushed);
    removed' := removed;
    if o.removeEmpty && len == 0 {
      var e := fs.RemoveDirectory(Path(true, path));
      if e.None? {
        RemoveStep(t0, t, pot, dest, o, start, s, popped, listed + {path}, removed, path);
        removed' := removed + {path};
      }
    }
  }

  /** `report` counts `outcomes`: one per file sorted, and the new paths of the successes in
      order. */
  predicate Tallies(report: SortReport, outcomes: seq<Result<Path>>)
  {
    report.total == |outcomes| && report.newPaths == Successes(outcomes) && report.success == |report.newPaths|
  }

  /** The report after one more file. */
  function Count(report: SortReport, res: Result<Path>): SortReport
  {
    if res.Success? then SortReport(report.success + 1, report.total + 1, report.newPaths + [res.value])
    else report.(total := report.total + 1)
  }

  /** Counting one more outcome keeps the report in step with the outcomes. */
  lemma {:induction false} CountStep(report: SortReport, outcomes: seq<Result<Path>>, res: Result<Path>)
    requires Tallies(report, outcomes)
    ensures Tallies(Count(report, res), outcomes + [res])
  {
    assert (outcomes + [res])[..|outcomes|] == outcomes;
  }

  /** Every success among `outcomes` is the path built from some metadata. */
  ghost predicate AllBuilt(o: Options, outcomes: seq<Result<Path>>)
  {
    forall i :: 0 <= i < |outcomes| && outcomes[i].Success? ==> exists m :: Built(o, m) == outcomes[i]
  }

  lemma BuiltStep(o: Options, outcomes: seq<Result<Path>>, res: Result<Path>)
    requires AllBuilt(o, outcomes) && (res.Success? ==> exists m :: Built(o, m) == res)
    ensures AllBuilt(o, outcomes + [res])
  {
    assert forall i :: 0 <= i < |outcomes| ==> (outcomes + [res])[i] == outcomes[i];
  }

  /** `k` is in `t` under `start`, and every directory from `start` down to it is there and can be
      listed: a walk from `start` that lists every readable directory meets it. */
  ghost predicate Reachable(t: Tree, start: seq<string>, k: seq<string>)
  {
    && k in t && Inside(k, start)
    && forall j :: |start| <= j < |k| ==> k[..j] in t && t[k[..j]] == Dir(true)
  }

  /** A file that `sort_folder` started at `start` must sort. */
  ghost predicate Goal(t: Tree, start: seq<string>, f: seq<string>)
  {
    Reachable(t, start, f) && t[f].File?
  }

  /** A directory stays the same directory, and a file stays a file (maybe with other contents). */
  predicate SameKind(a: Node, b: Node)
  {
    (a.Dir? ==> b == a) && (a.File? ==> b.File?)
  }

  /** Every entry of `t` but `p` is still in `t'`, of the same kind. */
  ghost predicate KindsKept(t: Tree, t': Tree, p: seq<string>)
  {
    forall k :: k in t && k != p ==> k in t' && SameKind(t[k], t'[k])
  }

  /** Every entry of the original tree not popped yet is still there, of the same kind. */
  ghost predicate Kept(t0: Tree, t: Tree, popped: set<seq<string>>)
  {
    forall k :: k in t0 && k !in popped ==> k in t && SameKind(t0[k], t[k])
  }

  /** The files sorted so far: one per outcome, distinct, each popped and under `start`. */
  ghost predicate Visited(files: seq<seq<string>>, outcomes: seq<Result<Path>>, popped: set<seq<string>>, start: seq<string>)
  {
    && |files| == |outcomes|
    && (forall i, j :: 0 <= i < j < |files| ==> files[i] != files[j])
    && (forall i :: 0 <= i < |files| ==> files[i] in popped && Inside(files[i], start))
  }

  /** `f` waits on its ancestor (or itself) of length `j`, which is on the stack, and neither that
      path nor any between it and `f` has been popped. */
  ghost predicate Awaits(f: seq<string>, start: seq<string>, stack: seq<seq<string>>, popped: set<seq<string>>, j: int)
  {
    && |start| <= j <= |f| && f[..j] in stack
    && forall j' :: j <= j' <= |f| ==> f[..j'] !in popped
  }

  /** Every file to sort is sorted already or waits on the stack. */
  ghost predicate Pending(t0: Tree, start: seq<string>, stack: seq<seq<string>>, popped: set<seq<string>>, files: seq<seq<string>>)
  {
    forall f :: Goal(t0, start, f) ==> f in files || exists j :: Awaits(f, start, stack, popped, j)
  }

  /** In a dry run: every listed directory is reachable, and every file sorted is a file to sort
      whose outcome is what `sort_file` gives for it on the original tree. */
  ghost predicate DryWalk(t0: Tree, cwd: seq<string>, root: Path, o: Options, start: seq<string>,
                          listed: set<seq<string>>, files: seq<seq<string>>, outcomes: seq<Result<Path>>)
  {
    && (forall d :: d in listed ==> Reachable(t0, start, d) && t0[d] == Dir(true))
    && |files| == |outcomes|
    && (forall i :: 0 <= i < |files| ==>
          Goal(t0, start, files[i]) && outcomes[i] == SortFileEffect(t0, cwd, root, Path(true, files[i]), o).0)
  }

  /** Sorting a file changes the kind of no other entry: a file moved onto a directory fails. */
  lemma {:induction false} SortFileKinds(t: Tree, cwd: seq<string>, root: Path, p: seq<string>, o: Options)
    ensures KindsKept(t, SortFileEffect(t, cwd, root, Path(true, p), o).1, p)
  {
    var tags := TagsAt(t, p);
    if !o.dryrun && tags.Success? && Built(o, tags.value).Success? {
      var dest := Join(root, Built(o, tags.value).value);
      if dest.comps != [] {
        var dst := ResolveIn(cwd, dest);
        RelocateSpec(t, p, dst);
        var t' := Relocate(t, p, dst).1;
        assert Relocate(t, p, dst).0.Some? ==> Grows(t, t', dst[..|dst| - 1]);
      }
    }
  }

  /** Removing a directory changes no other entry. */
  lemma RemoveDirKinds(t: Tree, p: seq<string>)
    requires RemoveDir(t, p).Done?
    ensures KindsKept(t, RemoveDir(t, p).tree, p)
  {
    RemoveDirSpec(t, p);
  }

  /** A change that keeps every entry but a popped one keeps what is not popped. */
  lemma KeptStep(t0: Tree, t: Tree, t': Tree, popped: set<seq<string>>, p: seq<string>)
    requires Kept(t0, t, popped) && KindsKept(t, t', p) && p in popped
    ensures Kept(t0, t', popped)
  {
  }

  /** A path that is the start, or an entry of a reachable listed directory, is reachable. */
  lemma {:induction false} TrackedReachable(t0: Tree, start: seq<string>, listed: set<seq<string>>, p: seq<string>)
    requires forall d :: d in listed ==> Reachable(t0, start, d) && t0[d] == Dir(true)
    requires Tracked(p, start, listed) && p in t0
    ensures Reachable(t0, start, p)
  {
    if p != start {
      var d := p[..|p| - 1];
      assert Reachable(t0, start, d);
      forall j | |start| <= j < |p|
        ensures p[..j] in t0 && t0[p[..j]] == Dir(true)
      {
        if j < |p| - 1 {
          assert p[..j] == d[..j];
        }
      }
    }
  }

  /** Before the first pop every file to sort waits on the start. */
  lemma PendingInit(t0: Tree, start: seq<string>)
    ensures Pending(t0, start, [start], {}, [])
  {
    forall f | Goal(t0, start, f)
      ensures Awaits(f, start, [start], {}, |start|)
    {
    }
  }

  /** Once the stack is empty, every file to sort has been sorted. */
  lemma PendingDone(t0: Tree, start: seq<string>, popped: set<seq<string>>, files: seq<seq<string>>)
    requires Pending(t0, start, [], popped, files)
    ensures forall f :: Goal(t0, start, f) ==> f in files
  {
  }

  /** A file waiting on a path other than the top of the stack still waits once the top is
      popped: a deeper ancestor on the stack would have its parent listed, hence popped. */
  lemma AwaitsOther(f: seq<string>, start: seq<string>, stack: seq<seq<string>>,
                    popped: set<seq<string>>, listed: set<seq<string>>, j: int)
    requires Walk(stack, start, popped, listed) && stack != []
    requires Awaits(f, start, stack, popped, j) && f[..j] != stack[|stack| - 1]
    ensures Awaits(f, start, stack[..|stack| - 1], popped + {stack[|stack| - 1]}, j)
  {
    var p := stack[|stack| - 1];
    assert stack == stack[..|stack| - 1] + [p];
    assert Tracked(p, start, listed);
    forall j' | j < j' <= |f|
      ensures f[..j'] != p
    {
      assert f[..j'][..j' - 1] == f[..j' - 1];
    }
  }

  /** A file waiting on the top of the stack is that file, still a file, or waits on a readable
      directory whose entry on the way to it is still there. */
  lemma AwaitsHit(t0: Tree, t: Tree, f: seq<string>, start: seq<string>, stack: seq<seq<string>>,
                  popped: set<seq<string>>, j: int)
    requires Kept(t0, t, popped) && Goal(t0, start, f)
    requires Awaits(f, start, stack, popped, j)
    ensures j == |f| ==> f[..j] == f && FileAt(t, f)
    ensures j < |f| ==> f[..j] in t && t[f[..j]] == Dir(true) && f[..j + 1] in t
  {
    assert f[..j] !in popped;
    if j == |f| {
      assert f[..j] == f;
    } else {
      assert f[..j + 1] !in popped;
      if j + 1 == |f| {
        assert f[..j + 1] == f;
      }
    }
  }

  /** Popping a file and sorting it keeps every other file to sort waiting. */
  lemma PendingFile(t0: Tree, t: Tree, start: seq<string>, stack: seq<seq<string>>,
                    popped: set<seq<string>>, listed: set<seq<string>>, files: seq<seq<string>>)
    requires Pending(t0, start, stack, popped, files) && Walk(stack, start, popped, listed) && Kept(t0, t, popped)
    requires stack != [] && FileAt(t, stack[|stack| - 1])
    ensures Pending(t0, start, stack[..|stack| - 1], popped + {stack[|stack| - 1]}, files + [stack[|stack| - 1]])
  {
    var p := stack[|stack| - 1];
    var rest, popped' := stack[..|stack| - 1], popped + {p};
    forall f | Goal(t0, start, f) && f !in files
      ensures f in files + [p] || exists j :: Awaits(f, start, rest, popped', j)
    {
      var j :| Awaits(f, start, stack, popped, j);
      if f[..j] == p {
        AwaitsHit(t0, t, f, start, stack, popped, j);
      } else {
        AwaitsOther(f, start, stack, popped, listed, j);
      }
    }
  }

  /** Popping a readable directory and pushing all its entries keeps every file to sort waiting. */
  lemma PendingDir(t0: Tree, t: Tree, start: seq<string>, stack: seq<seq<string>>,
                   popped: set<seq<string>>, listed: set<seq<string>>, files: seq<seq<string>>,
                   pushed: seq<seq<string>>)
    requires Pending(t0, start, stack, popped, files) && Walk(stack, start, popped, listed) && Kept(t0, t, popped)
    requires stack != [] && stack[|stack| - 1] in t && t[stack[|stack| - 1]] == Dir(true)
    requires forall k :: k in Children(t, stack[|stack| - 1]) ==> k in pushed
    ensures Pending(t0, start, stack[..|stack| - 1] + pushed, popped + {stack[|stack| - 1]}, files)
  {
    var p := stack[|stack| - 1];
    var s, popped' := stack[..|stack| - 1] + pushed, popped + {p};
    forall f | Goal(t0, start, f) && f !in files
      ensures exists j :: Awaits(f, start, s, popped', j)
    {
      var j :| Awaits(f, start, stack, popped, j);
      if f[..j] == p {
        AwaitsHit(t0, t, f, start, stack, popped, j);
        var c := f[..j + 1];
        assert c[..|p|] == p;
        assert c in Children(t, p);
        forall j' | j + 1 <= j' <= |f|
          ensures f[..j'] !in popped + {p}
        {
          assert j <= j';
        }
        assert Awaits(f, start, s, popped + {p}, j + 1);
      } else {
        AwaitsOther(f, start, stack, popped, listed, j);
        assert Awaits(f, start, s, popped + {p}, j);
      }
    }
  }

  /** Popping a path that is neither a file nor a readable directory keeps every file to sort
      waiting: none waits on it. */
  lemma PendingSkip(t0: Tree, t: Tree, start: seq<string>, stack: seq<seq<string>>,
                    popped: set<seq<string>>, listed: set<seq<string>>, files: seq<seq<string>>)
    requires Pending(t0, start, stack, popped, files) && Walk(stack, start, popped, listed) && Kept(t0, t, popped)
    requires stack != [] && !FileAt(t, stack[|stack| - 1]) && !(stack[|stack| - 1] in t && t[stack[|stack| - 1]] == Dir(true))
    ensures Pending(t0, start, stack[..|stack| - 1], popped + {stack[|stack| - 1]}, files)
  {
    var p := stack[|stack| - 1];
    var rest, popped' := stack[..|stack| - 1], popped + {p};
    forall f | Goal(t0, start, f) && f !in files
      ensures exists j :: Awaits(f, start, rest, popped', j)
    {
      var j :| Awaits(f, start, stack, popped, j);
      if f[..j] == p {
        AwaitsHit(t0, t, f, start, stack, popped, j);
        assert false;
      }
      AwaitsOther(f, start, stack, popped, listed, j);
    }
  }

  /** Bookkeeping for a popped file: what is not popped keeps its kind, every other file to sort
      still waits, the file joins the sorted ones, and in a dry run its outcome is `sort_file`'s on
      the original tree. */
  lemma {:induction false} FileBook(t0: Tree, t: Tree, cwd: seq<string>, root: Path, o: Options, start: seq<string>,
                                    stack: seq<seq<string>>, popped: set<seq<string>>, listed: set<seq<string>>,
                                    removed: set<seq<string>>, files: seq<seq<string>>, outcomes: seq<Result<Path>>)
    requires Walk(stack, start, popped, listed) && (o.dryrun ==> t == t0 - removed)
    requires Kept(t0, t, popped) && Pending(t0, start, stack, popped, files) && Visited(files, outcomes, popped, start)
    requires o.dryrun ==> DryWalk(t0, cwd, root, o, start, listed, files, outcomes)
    requires stack != [] && FileAt(t, stack[|stack| - 1])
    ensures var p := stack[|stack| - 1];
            var e := SortFileEffect(t, cwd, root, Path(true, p), o);
            && Kept(t0, e.1, popped + {p})
            && Pending(t0, start, stack[..|stack| - 1], popped + {p}, files + [p])
            && Visited(files + [p], outcomes + [e.0], popped + {p}, start)
            && (o.dryrun ==> DryWalk(t0, cwd, root, o, start, listed, files + [p], outcomes + [e.0]))
  {
    var p := stack[|stack| - 1];
    var e := SortFileEffect(t, cwd, root, Path(true, p), o);
    assert Tracked(p, start, listed) && p !in popped;
    SortFileKinds(t, cwd, root, p, o);
    KeptStep(t0, t, e.1, popped + {p}, p);
    PendingFile(t0, t, start, stack, popped, listed, files);
    var files' := files + [p];
    assert forall i :: 0 <= i < |files| ==> files'[i] == files[i];
    assert Visited(files', outcomes + [e.0], popped + {p}, start);
    if o.dryrun {
      TrackedReachable(t0, start, listed, p);
      assert t0[p] == t[p];
      assert e.0 == SortFileEffect(t0, cwd, root, Path(true, p), o).0;
      assert forall i :: 0 <= i < |outcomes| ==> (outcomes + [e.0])[i] == outcomes[i];
    }
  }

  /** Bookkeeping for a popped readable directory, listed with all its entries pushed and maybe
      removed. */
  lemma {:induction false} DirBook(t0: Tree, t: Tree, t': Tree, start: seq<string>, o: Options,
                                   stack: seq<seq<string>>, popped: set<seq<string>>, listed: set<seq<string>>,
                                   removed: set<seq<string>>, files: seq<seq<string>>, outcomes: seq<Result<Path>>,
                                   cwd: seq<string>, root: Path, pushed: seq<seq<string>>)
    requires Walk(stack, start, popped, listed) && (o.dryrun ==> t == t0 - removed)
    requires Kept(t0, t, popped) && Pending(t0, start, stack, popped, files) && Visited(files, outcomes, popped, start)
    requires o.dryrun ==> DryWalk(t0, cwd, root, o, start, listed, files, outcomes)
    requires stack != [] && stack[|stack| - 1] in t && t[stack[|stack| - 1]] == Dir(true)
    requires forall k :: k in Children(t, stack[|stack| - 1]) ==> k in pushed
    requires t' == t || (RemoveDir(t, stack[|stack| - 1]).Done? && t' == RemoveDir(t, stack[|stack| - 1]).tree)
    ensures var p := stack[|stack| - 1];
            && Kept(t0, t', popped + {p})
            && Pending(t0, start, stack[..|stack| - 1] + pushed, popped + {p}, files)
            && Visited(files, outcomes, popped + {p}, start)
            && (o.dryrun ==> DryWalk(t0, cwd, root, o, start, listed + {p}, files, outcomes))
  {
    var p := stack[|stack| - 1];
    assert Tracked(p, start, listed);
    if t' != t {
      RemoveDirKinds(t, p);
      KeptStep(t0, t, t', popped + {p}, p);
    }
    PendingDir(t0, t, start, stack, popped, listed, files, pushed);
    if o.dryrun {
      TrackedReachable(t0, start, listed, p);
    }
  }

  /** Bookkeeping for a popped path that is skipped. */
  lemma {:induction false} SkipBook(t0: Tree, t: Tree, start: seq<string>,
                                    stack: seq<seq<string>>, popped: set<seq<string>>, listed: set<seq<string>>,
                                    files: seq<seq<string>>, outcomes: seq<Result<Path>>)
    requires Walk(stack, start, popped, listed)
    requires Kept(t0, t, popped) && Pending(t0, start, stack, popped, files) && Visited(files, outcomes, popped, start)
    requires stack != [] && !FileAt(t, stack[|stack| - 1]) && !(stack[|stack| - 1] in t && t[stack[|stack| - 1]] == Dir(true))
    ensures var p := stack[|stack| - 1];
            && Kept(t0, t, popped + {p})
            && Pending(t0, start, stack[..|stack| - 1], popped + {p}, files)
            && Visited(files, outcomes, popped + {p}, start)
  {
    PendingSkip(t0, t, start, stack, popped, listed, files);
  }

  /** What a folder sort started at `start` is known to have done in any mode: `files`, one per
      outcome and each once, lie under the start and include every file reachable from it in the
      original tree `t0`; every entry of `t0` outside the start is still there, of the same kind. */
  ghost predicate Covered(t0: Tree, t: Tree, start: seq<string>, files: seq<seq<string>>, outcomes: seq<Result<Path>>)
  {
    && |files| == |outcomes|
    && (forall i, j :: 0 <= i < j < |files| ==> files[i] != files[j])
    && (forall i :: 0 <= i < |files| ==> Inside(files[i], start))
    && (forall f :: Goal(t0, start, f) ==> f in files)
    && (forall k :: k in t0 && !Inside(k, start) ==> k in t && SameKind(t0[k], t[k]))
  }

  /** `sort_folder`: pops paths off a stack until it is empty. A path whose metadata cannot be read
      is skipped; a file is sorted, and counts once in `total` and, if sorting succeeded, once in
      `success` with its new path appended to `newPaths`; a readable directory pushes every entry
      it holds and, when `removeEmpty` holds and it had none, is removed; a directory that cannot
      be listed is skipped. It always succeeds.
      `files` are the files sorted, in order, each once, and `outcomes` their results: every file
      reachable from the start through readable directories is among them (in a real run, files
      moved into a directory not yet listed may be sorted too). In a dry run the files sorted are
      exactly the reachable ones, and each outcome is what `sort_file` gives on the original tree.
      `removed` are the directories removed: each had no entry even before the sort began, so a
      directory emptied by the sort itself stays. Every entry that disappears lies under the start,
      and in a dry run nothing but those directories changes. */
  method SortFolder(fs: FileSystem, root: Path, dir: Path, o: Options)
    returns (r: Result<SortReport>, ghost files: seq<seq<string>>, ghost outcomes: seq<Result<Path>>,
             ghost removed: set<seq<string>>)
    modifies fs
    ensures r.Success?
    ensures r.value.total == |outcomes| && r.value.newPaths == Successes(outcomes) && r.value.success == |r.value.newPaths|
    ensures r.value.success <= r.value.total
    ensures forall i :: 0 <= i < |outcomes| && outcomes[i].Success? ==> exists m :: Built(o, m) == outcomes[i]
    ensures |files| == |outcomes|
    ensures forall i, j :: 0 <= i < j < |files| ==> files[i] != files[j]
    ensures forall i :: 0 <= i < |files| ==> Inside(files[i], fs.Resolve(dir))
    ensures forall f :: Goal(old(fs.entries), fs.Resolve(dir), f) ==> f in files
    ensures o.dryrun ==> forall i :: 0 <= i < |files| ==>
              && Goal(old(fs.entries), fs.Resolve(dir), files[i])
              && outcomes[i] == SortFileEffect(old(fs.entries), fs.cwd, root, Path(true, files[i]), o).0
    ensures forall k :: k in old(fs.entries) && !Inside(k, fs.Resolve(dir)) ==>
              k in fs.entries && SameKind(old(fs.entries)[k], fs.entries[k])
    ensures forall d :: d in removed ==> Children(old(fs.entries), d) == {} && Inside(d, fs.Resolve(dir))
    ensures !o.removeEmpty ==> removed == {}
    ensures o.dryrun ==> fs.entries == old(fs.entries) - removed
  {
    var start := fs.Resolve(dir);
    var report := SortReport(0, 0, []);
    var stack := [start];
    ghost var t0 := fs.entries;
    ghost var cwd := fs.cwd;
    ghost var dest := m => Dest(cwd, root, o, m);
    ghost var pot := Reach(t0, dest);
    ghost var popped: set<seq<string>> := {};
    ghost var listed: set<seq<string>> := {};
    files := [];
    outcomes := [];
    removed := {};
    assert t0 - {} == t0;
    PendingInit(t0, start);
    while stack != []
      invariant Tallies(report, outcomes) && AllBuilt(o, outcomes)
      invariant Inv(t0, fs.entries, pot, dest, o, start, stack, popped, listed, removed)
      invariant Kept(t0, fs.entries, popped) && Visited(files, outcomes, popped, start)
      invariant Pending(t0, start, stack, popped, files)
      invariant o.dryrun ==> DryWalk(t0, cwd, root, o, start, listed, files, outcomes)
      decreases pot - listed, |stack|
    {
      ghost var t := fs.entries;
      ghost var stack0 := stack;
      ghost var popped0 := popped;
      ghost var removed0 := removed;
      PopStep(t0, fs.entries, pot, dest, o, start, stack, popped, listed, removed);
      var path := stack[|stack| - 1];
      stack := stack[..|stack| - 1];
      popped := popped + {path};
      if path in fs.entries && fs.entries[path].File? {
        FileBook(t0, t, cwd, root, o, start, stack0, popped0, listed, removed0, files, outcomes);
        var res := VisitFile(fs, root, o, path, t0, pot, dest, start, stack, popped, listed, removed);
        CountStep(report, outcomes, res);
        BuiltStep(o, outcomes, res);
        report := Count(report, res);
        outcomes := outcomes + [res];
        files := files + [path];
      } else if path in fs.entries && fs.entries[path].readable {
        ghost var pushed;
        stack, removed, pushed := VisitDir(fs, o, path, stack, t0, pot, dest, start, popped, listed, removed);
        DirBook(t0, t, fs.entries, start, o, stack0, popped0, listed, removed0, files, outcomes, cwd, root, pushed);
        listed := listed + {path};
      } else {
        SkipBook(t0, t, start, stack0, popped0, listed, files, outcomes);
      }
    }
    PendingDone(t0, start, popped, files);
    r := Success(report);
  }

  /** The files a sort started at `start` must sort. */
  ghost function Goals(t: Tree, start: seq<string>): set<seq<string>>
  {
    set f | f in t && Goal(t, start, f)
  }

  /** The files to sort whose dry-run sort succeeds. */
  ghost function Sortable(t: Tree, cwd: seq<string>, root: Path, o: Options, start: seq<string>): set<seq<string>>
  {
    set f | f in Goals(t, start) && SortFileEffect(t, cwd, root, Path(true, f), o).0.Success?
  }

  /** The first `n` elements of `s`, as a set. */
  ghost function Elems(s: seq<seq<string>>, n: nat): set<seq<string>>
    requires n <= |s|
  {
    set i | 0 <= i < n :: s[i]
  }

  /** The files among the first `n` whose outcome is a success. */
  ghost function SuccessFiles(files: seq<seq<string>>, outcomes: seq<Result<Path>>, n: nat): set<seq<string>>
    requires n <= |files| && n <= |outcomes|
  {
    set i | 0 <= i < n && outcomes[i].Success? :: files[i]
  }

  /** Distinct elements are as many as the set they form. */
  lemma {:induction false} ElemsCount(files: seq<seq<string>>, n: nat)
    requires n <= |files|
    requires forall i, j :: 0 <= i < j < |files| ==> files[i] != files[j]
    ensures |Elems(files, n)| == n
  {
    if n > 0 {
      ElemsCount(files, n - 1);
      var x := files[n - 1];
      assert x !in Elems(files, n - 1);
      assert Elems(files, n) == Elems(files, n - 1) + {x};
    } else {
      assert Elems(files, 0) == {};
    }
  }

  /** Distinct files with a success are as many as the successes. */
  lemma {:induction false} SuccessCount(files: seq<seq<string>>, outcomes: seq<Result<Path>>, n: nat)
    requires n <= |files| == |outcomes|
    requires forall i, j :: 0 <= i < j < |files| ==> files[i] != files[j]
    ensures |SuccessFiles(files, outcomes, n)| == |Successes(outcomes[..n])|
  {
    if n > 0 {
      SuccessCount(files, outcomes, n - 1);
      var x := files[n - 1];
      var before := SuccessFiles(files, outcomes, n - 1);
      assert x !in before;
      assert outcomes[..n][..n - 1] == outcomes[..n - 1];
      assert |Successes(outcomes[..n])| == |Successes(outcomes[..n - 1])| + (if outcomes[n - 1].Success? then 1 else 0);
      assert SuccessFiles(files, outcomes, n) == before + (if outcomes[n - 1].Success? then {x} else {});
    } else {
      assert SuccessFiles(files, outcomes, 0) == {};
    }
  }

  /** What `sort_folder` reports in a dry run: `total` is the number of files reachable from the
      start through readable directories, and `success` the number of those whose tags can be read
      and whose path can be built, whatever order the directories list their entries in. */
  lemma {:induction false} DryRunCounts(t0: Tree, cwd: seq<string>, root: Path, o: Options, start: seq<string>,
                                        report: SortReport, files: seq<seq<string>>, outcomes: seq<Result<Path>>)
    requires Tallies(report, outcomes) && |files| == |outcomes|
    requires forall i, j :: 0 <= i < j < |files| ==> files[i] != files[j]
    requires forall f :: Goal(t0, start, f) ==> f in files
    requires forall i :: 0 <= i < |files| ==>
               Goal(t0, start, files[i]) && outcomes[i] == SortFileEffect(t0, cwd, root, Path(true, files[i]), o).0
    ensures report.total == |Goals(t0, start)|
    ensures report.success == |Sortable(t0, cwd, root, o, start)|
  {
    ElemsCount(files, |files|);
    SuccessCount(files, outcomes, |files|);
    assert outcomes[..|outcomes|] == outcomes;
    forall f | f in Goals(t0, start)
      ensures f in Elems(files, |files|)
    {
      var i :| 0 <= i < |files| && files[i] == f;
    }
    assert Elems(files, |files|) == Goals(t0, start);
    forall f | f in Sortable(t0, cwd, root, o, start)
      ensures f in SuccessFiles(files, outcomes, |files|)
    {
      var i :| 0 <= i < |files| && files[i] == f;
    }
    assert SuccessFiles(files, outcomes, |files|) == Sortable(t0, cwd, root, o, start);
  }

  /** A directory `in` holding three files: two with tags `ma` and `mb`, and one whose container
      the library does not support. */
  function ThreeFiles(ma: Metadata, mb: Metadata): Tree
  {
    map[["in"] := Dir(true), ["in", "a"] := File(Success(ma)), ["in", "b"] := File(Success(mb)),
        ["in", "c"] := File(Failure(NotSupported))]
  }

  /** The files to sort from `in` are its three files. */
  lemma ThreeFilesGoals(ma: Metadata, mb: Metadata)
    ensures Goals(ThreeFiles(ma, mb), ["in"]) == {["in", "a"], ["in", "b"], ["in", "c"]}
  {
    var t0 := ThreeFiles(ma, mb);
    var a, b, c := ["in", "a"], ["in", "b"], ["in", "c"];
    assert a[..1] == ["in"] && b[..1] == ["in"] && c[..1] == ["in"];
    assert Goal(t0, ["in"], a) && Goal(t0, ["in"], b) && Goal(t0, ["in"], c);
    assert !Goal(t0, ["in"], ["in"]);
  }

  /** A dry run over `in`, with a template that builds a path for both readable files, reports
      three files sorted and two successes, in whatever order the directory lists them. */
  lemma {:induction false} ThreeFilesOneUnsupported(cwd: seq<string>, root: Path, o: Options, ma: Metadata, mb: Metadata,
                                                    report: SortReport, files: seq<seq<string>>, outcomes: seq<Result<Path>>)
    requires o.dryrun && Built(o, ma).Success? && Built(o, mb).Success?
    requires Tallies(report, outcomes) && |files| == |outcomes|
    requires forall i, j :: 0 <= i < j < |files| ==> files[i] != files[j]
    requires forall f :: Goal(ThreeFiles(ma, mb), ["in"], f) ==> f in files
    requires forall i :: 0 <= i < |files| ==>
               && Goal(ThreeFiles(ma, mb), ["in"], files[i])
               && outcomes[i] == SortFileEffect(ThreeFiles(ma, mb), cwd, root, Path(true, files[i]), o).0
    ensures report.total == 3 && report.success == 2
  {
    var t0 := ThreeFiles(ma, mb);
    var a, b, c := ["in", "a"], ["in", "b"], ["in", "c"];
    DryRunCounts(t0, cwd, root, o, ["in"], report, files, outcomes);
    ThreeFilesGoals(ma, mb);
    assert SortFileEffect(t0, cwd, root, Path(true, a), o).0.Success?;
    assert SortFileEffect(t0, cwd, root, Path(true, b), o).0.Success?;
    assert SortFileEffect(t0, cwd, root, Path(true, c), o).0.Failure?;
    assert Sortable(t0, cwd, root, o, ["in"]) == {a, b};
  }
}
