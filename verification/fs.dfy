/** The filesystem the sorter and the watcher act on, as a map from absolute paths (their
    component sequences) to entries, with the few operations the library performs on it:
    `fs::metadata`, `read_dir`, `create_dir_all` behind `maybe_create_dir`, `rename` and
    `remove_dir`. The order in which `read_dir` lists a directory is unspecified, so a listing
    is a set. */
module Fs {
  import opened Errors
  import opened Meta
  import opened Paths

  /** A file carries the tags its container yields (or the error reading them gives); a directory
      may refuse to be listed. */
  datatype Node = File(tags: Result<Metadata>) | Dir(readable: bool)

  type Tree = map<seq<string>, Node>

  /** The outcome of an operation that changes the tree. */
  datatype Outcome = Done(tree: Tree) | Fails(kind: IoKind)

  /** A relative path is taken from the working directory. */
  function ResolveIn(cwd: seq<string>, p: Path): (r: seq<string>)
    ensures p.absolute ==> r == p.comps
    ensures !p.absolute ==> r == cwd + p.comps
  {
    if p.absolute then p.comps else cwd + p.comps
  }

  /** A file is at `p`. */
  predicate FileAt(t: Tree, p: seq<string>)
  {
    p in t && t[p].File?
  }

  /** A directory is at `p`. */
  predicate DirAt(t: Tree, p: seq<string>)
  {
    p in t && t[p].Dir?
  }

  /** The entries directly inside `dir`. */
  function Children(t: Tree, dir: seq<string>): set<seq<string>>
  {
    set k | k in t && |k| == |dir| + 1 && k[..|dir|] == dir
  }

  /** `Metadata::from_path`: the tags of a file; a directory opens but yields no readable header,
      and a missing path cannot be opened. */
  function TagsAt(t: Tree, p: seq<string>): (r: Result<Metadata>)
    ensures r.Success? ==> p in t && t[p] == File(r)
    ensures p !in t ==> r == Failure(IoError(NotFound))
    ensures p in t && t[p].Dir? ==> r == Failure(NotSupported)
  {
    if p !in t then Failure(IoError(NotFound))
    else if t[p].Dir? then Failure(NotSupported)
    else t[p].tags
  }

  /** `fs::create_dir_all`: creates the missing directories on the way to `p`, top down. It fails
      with `AlreadyExists` when `p` itself is a file, and with `NotADirectory` when a directory
      would have to be created inside a file. */
  function CreateDirAll(t: Tree, p: seq<string>): (r: Outcome)
    decreases |p|
  {
    if p == [] then Done(t)
    else if p in t then (if t[p].Dir? then Done(t) else Fails(AlreadyExists))
    else
      var parent := p[..|p| - 1];
      if parent in t && t[parent].File? then Fails(NotADirectory)
      else if parent in t then Done(t[p := Dir(true)])
      else
        match CreateDirAll(t, parent)
        case Fails(k) => Fails(k)
        case Done(t') => Done(t'[p := Dir(true)])
  }

  /** `maybe_create_dir`: `create_dir_all` with `AlreadyExists` taken as success. */
  function MaybeCreateDir(t: Tree, p: seq<string>): Outcome
  {
    match CreateDirAll(t, p)
    case Fails(AlreadyExists) => Done(t)
    case r => r
  }

  /** Some prefix of `p`, the root and `p` included, is a file. */
  predicate FileOnTheWay(t: Tree, p: seq<string>)
  {
    exists i :: 0 <= i <= |p| && p[..i] in t && t[p[..i]].File?
  }

  /** `t'` keeps every entry of `t`, and its other entries are readable directories on the way to
      `p`. */
  predicate Grows(t: Tree, t': Tree, p: seq<string>)
  {
    && (forall k :: k in t ==> k in t' && t'[k] == t[k])
    && (forall k :: k in t' && k !in t ==> |k| <= |p| && k == p[..|k|] && t'[k] == Dir(true))
  }

  /** When `create_dir_all` succeeds the path is a directory, nothing already there changes and
      what is new is a readable directory on the way to the path. It fails only for a file in
      the way: `AlreadyExists` exactly when the path itself is a file, `NotADirectory` when a
      shorter prefix is. */
  lemma {:induction false} CreateDirAllSpec(t: Tree, p: seq<string>)
    ensures var r := CreateDirAll(t, p);
            && (r.Done? ==> Grows(t, r.tree, p) && (p != [] ==> p in r.tree && r.tree[p].Dir?))
            && (r == Fails(AlreadyExists) <==> p != [] && p in t && t[p].File?)
            && (r.Fails? ==> r.kind == AlreadyExists || r.kind == NotADirectory)
            && (r == Fails(NotADirectory) ==> p != [] && FileOnTheWay(t, p[..|p| - 1]))
    decreases |p|
  {
    if p != [] && p !in t {
      var parent := p[..|p| - 1];
      if parent in t && t[parent].File? {
        assert parent[..|parent|] == parent;
      } else if parent !in t {
        CreateDirAllSpec(t, parent);
        match CreateDirAll(t, parent)
        case Fails(k) =>
          if k == NotADirectory {
            var i :| 0 <= i <= |parent[..|parent| - 1]| && parent[..|parent| - 1][..i] in t && t[parent[..|parent| - 1][..i]].File?;
            assert parent[..|parent| - 1][..i] == parent[..i];
          }
        case Done(t') =>
          forall k | k in t'[p := Dir(true)] && k !in t
            ensures |k| <= |p| && k == p[..|k|]
          {
            if k != p {
              assert parent[..|k|] == p[..|k|];
            }
          }
      }
    }
  }

  /** `maybe_create_dir` fails only with `NotADirectory`, for a file above the path; when it
      succeeds the path is there and only directories on the way to it are new. */
  lemma {:induction false} MaybeCreateDirSpec(t: Tree, p: seq<string>)
    ensures var r := MaybeCreateDir(t, p);
            && (r.Done? ==> Grows(t, r.tree, p) && (p != [] ==> p in r.tree))
            && (r.Fails? ==> r.kind == NotADirectory && p != [] && FileOnTheWay(t, p[..|p| - 1]))
  {
    CreateDirAllSpec(t, p);
  }

  /** `fs::rename` of a file: renaming a path onto itself does nothing; otherwise the target's
      directory must exist, a directory is never replaced by a file, and a file already there is. */
  function RenameFile(t: Tree, src: seq<string>, dst: seq<string>): (r: Outcome)
    requires src in t && t[src].File?
  {
    if dst == [] then Fails(ResourceBusy)
    else if src == dst then Done(t)
    else
      var parent := dst[..|dst| - 1];
      if parent !in t then Fails(NotFound)
      else if t[parent].File? then Fails(NotADirectory)
      else if dst in t && t[dst].Dir? then Fails(IsADirectory)
      else Done((t - {src})[dst := t[src]])
  }

  /** The file is at the target and no longer at the source, and every other path is as it was. */
  ghost predicate Moved(t: Tree, t': Tree, src: seq<string>, dst: seq<string>)
    requires src in t
  {
    && dst in t' && t'[dst] == t[src]
    && (src != dst ==> src !in t')
    && (forall k :: k != src && k != dst ==> (k in t' <==> k in t))
    && (forall k :: k != src && k != dst && k in t ==> t'[k] == t[k])
  }

  /** A rename succeeds exactly when the target has a directory to go into and is not a directory
      itself (or is the source), and then it moves the file and nothing else. */
  lemma {:induction false} RenameFileSpec(t: Tree, src: seq<string>, dst: seq<string>)
    requires src in t && t[src].File?
    ensures var r := RenameFile(t, src, dst);
            && (r.Done? <==> dst != [] && (src == dst || (dst[..|dst| - 1] in t && t[dst[..|dst| - 1]].Dir? && !(dst in t && t[dst].Dir?))))
            && (r.Done? ==> Moved(t, r.tree, src, dst))
  {
  }

  /** `fs::remove_dir`: only an empty directory other than the root goes. */
  function RemoveDir(t: Tree, p: seq<string>): (r: Outcome)
  {
    if p == [] then Fails(ResourceBusy)
    else if p !in t then Fails(NotFound)
    else if t[p].File? then Fails(NotADirectory)
    else if Children(t, p) != {} then Fails(DirectoryNotEmpty)
    else Done(t - {p})
  }

  /** Removing a directory succeeds exactly for an empty directory other than the root, and
      removes that path and nothing else. */
  lemma {:induction false} RemoveDirSpec(t: Tree, p: seq<string>)
    ensures var r := RemoveDir(t, p);
            && (r.Done? <==> p != [] && p in t && t[p].Dir? && Children(t, p) == {})
            && (r.Done? ==> p !in r.tree && forall k :: k != p ==> (k in r.tree <==> k in t) && (k in t ==> r.tree[k] == t[k]))
  {
  }

  /** The filesystem the library sees: its entries change in place; the working directory does
      not. */
  class FileSystem {
    var entries: Tree
    const cwd: seq<string>

    constructor (entries: Tree, cwd: seq<string>)
      ensures this.entries == entries && this.cwd == cwd
    {
      this.entries := entries;
      this.cwd := cwd;
    }

    function Resolve(p: Path): seq<string>
    {
      ResolveIn(cwd, p)
    }

    /** `maybe_create_dir(p)`; on failure nothing changes. */
    method MakeDirs(p: Path) returns (err: Option<IoKind>)
      modifies this
      ensures MaybeCreateDir(old(entries), Resolve(p)) == if err.None? then Done(entries) else Fails(err.value)
      ensures err.Some? ==> entries == old(entries)
    {
      var r := MaybeCreateDir(entries, Resolve(p));
      if r.Done? {
        entries := r.tree;
        err := None;
      } else {
        err := Some(r.kind);
      }
    }

    /** `fs::rename(src, dst)` of a file; on failure nothing changes. */
    method Rename(src: Path, dst: Path) returns (err: Option<IoKind>)
      requires Resolve(src) in entries && entries[Resolve(src)].File?
      modifies this
      ensures RenameFile(old(entries), Resolve(src), Resolve(dst)) == if err.None? then Done(entries) else Fails(err.value)
      ensures err.Some? ==> entries == old(entries)
    {
      var r := RenameFile(entries, Resolve(src), Resolve(dst));
      if r.Done? {
        entries := r.tree;
        err := None;
      } else {
        err := Some(r.kind);
      }
    }

    /** `fs::remove_dir(p)`; on failure nothing changes. */
    method RemoveDirectory(p: Path) returns (err: Option<IoKind>)
      modifies this
      ensures RemoveDir(old(entries), Resolve(p)) == if err.None? then Done(entries) else Fails(err.value)
      ensures err.Some? ==> entries == old(entries)
    {
      var r := RemoveDir(entries, Resolve(p));
      if r.Done? {
        entries := r.tree;
        err := None;
      } else {
        err := Some(r.kind);
      }
    }
  }
}
