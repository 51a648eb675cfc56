/** The library configuration: each library's template, its folders and its exFAT flag, the
    check `sanitize_folders` applies to the folders once they are read, and the lookups the
    watcher makes. */
module Configuration {
  import opened Errors
  import opened Paths
  import opened Format
  import opened Fs

  /** `WatchConfig`: the debounce delay in seconds and the libraries to watch. */
  datatype WatchConfig = WatchConfig(every: Option<nat>, libraries: seq<string>)

  /** `LibraryConfig`: a template, the folders that hold the library, and the exFAT flag. */
  datatype LibraryConfig = LibraryConfig(format: ParsedFormat, folders: seq<Path>, exfatCompat: Option<bool>)

  /** The libraries by name. */
  type Libraries = map<string, LibraryConfig>

  /** What the folder check consults: the filesystem, the working directory a relative path is
      taken from, and `shellexpand::full` (the expanded text parsed back into a path; None when
      expansion fails). */
  datatype Host = Host(tree: Tree, cwd: seq<string>, expand: Path -> Option<Path>)

  /** What becomes of one folder: its expansion, when expansion succeeds and gives an absolute
      path that exists. */
  function Keep(h: Host, folder: Path): (r: Option<Path>)
    ensures r.Some? <==> h.expand(folder).Some? && h.expand(folder).value.absolute && h.expand(folder).value.comps in h.tree
    ensures r.Some? ==> r == h.expand(folder)
  {
    match h.expand(folder)
    case None => None
    case Some(full) => if ResolveIn(h.cwd, full) in h.tree && full.absolute then Some(full) else None
  }

  /** The folders that survive the check, expanded, in their original order. */
  function Kept(h: Host, folders: seq<Path>): (r: seq<Path>)
    ensures |r| <= |folders|
  {
    if folders == [] then []
    else Kept(h, folders[..|folders| - 1]) + (match Keep(h, folders[|folders| - 1]) case None => [] case Some(p) => [p])
  }

  /** Keeping distributes over concatenation, so the survivors keep their relative order. */
  lemma {:induction false} KeptAppend(h: Host, a: seq<Path>, b: seq<Path>)
    ensures Kept(h, a + b) == Kept(h, a) + Kept(h, b)
    decreases |b|
  {
    if b != [] {
      var b' := b[..|b| - 1];
      assert (a + b)[..|a + b| - 1] == a + b';
      KeptAppend(h, a, b');
    } else {
      assert a + b == a;
    }
  }

  /** A path survives exactly when it is what some folder keeps as. */
  lemma {:induction false} KeptMembers(h: Host, folders: seq<Path>, p: Path)
    ensures p in Kept(h, folders) <==> exists i :: 0 <= i < |folders| && Keep(h, folders[i]) == Some(p)
  {
    if folders != [] {
      var init := folders[..|folders| - 1];
      KeptMembers(h, init, p);
      if p in Kept(h, init) {
        var i :| 0 <= i < |init| && Keep(h, init[i]) == Some(p);
        assert folders[i] == init[i];
      }
      if exists i :: 0 <= i < |folders| && Keep(h, folders[i]) == Some(p) {
        var i :| 0 <= i < |folders| && Keep(h, folders[i]) == Some(p);
        if i < |init| {
          assert init[i] == folders[i];
        }
      }
    }
  }

  /** The survivors of a prefix of the folders are a prefix of the survivors. */
  lemma {:induction false} KeptPrefix(h: Host, folders: seq<Path>, i: nat)
    requires i <= |folders|
    ensures var k := Kept(h, folders[..i]); |k| <= |Kept(h, folders)| && Kept(h, folders)[..|k|] == k
  {
    KeptAppend(h, folders[..i], folders[i..]);
    assert folders[..i] + folders[i..] == folders;
  }

  /** One more folder adds its survivor, if any, at the end. */
  lemma KeptStep(h: Host, folders: seq<Path>, i: nat)
    requires i < |folders|
    ensures Kept(h, folders[..i + 1]) == Kept(h, folders[..i]) + (match Keep(h, folders[i]) case None => [] case Some(p) => [p])
  {
    assert folders[..i + 1][..i] == folders[..i];
  }

  predicate Distinct(ps: seq<Path>)
  {
    forall i, j :: 0 <= i < j < |ps| ==> ps[i] != ps[j]
  }

  /** No path is in both sequences. */
  predicate Disjoint(x: seq<Path>, y: seq<Path>)
  {
    forall p :: p in x ==> p !in y
  }

  /** No surviving folder of the named libraries repeats, within a library or across two. */
  ghost predicate NoRepeats(h: Host, libs: Libraries, names: set<string>)
    requires names <= libs.Keys
  {
    && (forall n :: n in names ==> Distinct(Kept(h, libs[n].folders)))
    && (forall a, b :: a in names && b in names && a != b ==> Disjoint(Kept(h, libs[a].folders), Kept(h, libs[b].folders)))
  }

  /** The paths the named libraries keep. */
  ghost predicate SeenAre(h: Host, libs: Libraries, names: set<string>, seen: set<Path>)
    requires names <= libs.Keys
  {
    forall p :: p in seen <==> exists n :: n in names && p in Kept(h, libs[n].folders)
  }

  /** No two libraries share a folder. */
  predicate Unique(libs: Libraries)
  {
    forall a, b :: a in libs && b in libs && a != b ==> Disjoint(libs[a].folders, libs[b].folders)
  }

  /** The inner loop of `sanitize_folders`, over one library's folders: each folder is expanded and
      kept if it exists and is absolute; a kept folder already in `seen` (from an earlier library or
      earlier in this one) aborts with `InvalidConfig`. On success it gives the survivors, in order,
      and `seen` with them added. */
  method SanitizeLibrary(h: Host, folders: seq<Path>, seen: set<Path>)
    returns (r: Result<(seq<Path>, set<Path>)>)
    ensures r.Success? <==> Distinct(Kept(h, folders)) && forall p :: p in Kept(h, folders) ==> p !in seen
    ensures r.Success? ==> r.value.0 == Kept(h, folders) && forall p :: p in r.value.1 <==> p in seen || p in Kept(h, folders)
    ensures r.Failure? ==> r.error == InvalidConfig("Repeated folder path in library")
  {
    var sanitized: seq<Path> := [];
    var seen' := seen;
    for i := 0 to |folders|
      invariant sanitized == Kept(h, folders[..i])
      invariant Distinct(sanitized) && forall p :: p in sanitized ==> p !in seen
      invariant forall p :: p in seen' <==> p in seen || p in sanitized
    {
      KeptStep(h, folders, i);
      match h.expand(folders[i])
      case None =>
      case Some(full) =>
        if !(ResolveIn(h.cwd, full) in h.tree) || !full.absolute {
        } else if full in seen' {
          RepeatFound(h, folders, i, seen, full);
          return Failure(InvalidConfig("Repeated folder path in library"));
        } else {
          sanitized := sanitized + [full];
          seen' := seen' + {full};
        }
    }
    assert folders[..|folders|] == folders;
    r := Success((sanitized, seen'));
  }

  /** A survivor already seen, or already kept from the same library, is a repeat. */
  lemma RepeatFound(h: Host, folders: seq<Path>, i: nat, seen: set<Path>, full: Path)
    requires i < |folders| && Keep(h, folders[i]) == Some(full)
    requires full in seen || full in Kept(h, folders[..i])
    ensures !(Distinct(Kept(h, folders)) && forall p :: p in Kept(h, folders) ==> p !in seen)
  {
    var before := Kept(h, folders[..i]);
    KeptStep(h, folders, i);
    KeptPrefix(h, folders, i + 1);
    var all := Kept(h, folders);
    assert all[|before|] == full;
    if full !in seen {
      var j :| 0 <= j < |before| && before[j] == full;
      assert all[j] == full;
    }
  }

  /** Adding a library whose survivors are new and distinct keeps the folders free of repeats,
      and `seen` grows by those survivors. */
  lemma NoRepeatsAdd(h: Host, libs: Libraries, done: set<string>, seen: set<Path>, n: string, seen': set<Path>)
    requires done <= libs.Keys && n in libs
    requires NoRepeats(h, libs, done) && SeenAre(h, libs, done, seen)
    requires Distinct(Kept(h, libs[n].folders)) && forall p :: p in Kept(h, libs[n].folders) ==> p !in seen
    requires forall p :: p in seen' <==> p in seen || p in Kept(h, libs[n].folders)
    ensures NoRepeats(h, libs, done + {n}) && SeenAre(h, libs, done + {n}, seen')
  {
  }

  /** A library outside `done` whose survivors repeat, or meet what `done` kept, makes every set of
      names holding both repeat. */
  lemma {:induction false} RepeatsFound(h: Host, libs: Libraries, done: set<string>, seen: set<Path>, n: string, names: set<string>)
    requires done + {n} <= names <= libs.Keys && n !in done
    requires SeenAre(h, libs, done, seen)
    requires !(Distinct(Kept(h, libs[n].folders)) && forall p :: p in Kept(h, libs[n].folders) ==> p !in seen)
    ensures !NoRepeats(h, libs, names)
  {
    if Distinct(Kept(h, libs[n].folders)) {
      var p :| p in Kept(h, libs[n].folders) && p in seen;
      var m :| m in done && p in Kept(h, libs[m].folders);
      assert m != n;
    }
  }

  /** `cur` is `libs` part-way through the check: the libraries in `done` hold their survivors,
      those in `todo` are untouched, and no template or flag has changed. */
  ghost predicate Progress(h: Host, libs: Libraries, cur: Libraries, done: set<string>, todo: set<string>)
  {
    && todo + done == libs.Keys && todo !! done && cur.Keys == libs.Keys
    && (forall n :: n in cur ==> cur[n].format == libs[n].format && cur[n].exfatCompat == libs[n].exfatCompat)
    && (forall n :: n in done ==> cur[n].folders == Kept(h, libs[n].folders))
    && (forall n :: n in todo ==> cur[n] == libs[n])
  }

  /** Each library holds its original folders, its survivors, or nothing, with template and flag
      unchanged. */
  ghost predicate Settled(h: Host, libs: Libraries, cur: Libraries)
  {
    && cur.Keys == libs.Keys
    && (forall n :: n in cur ==> cur[n].format == libs[n].format && cur[n].exfatCompat == libs[n].exfatCompat)
    && (forall n :: n in cur ==>
          var f := cur[n].folders;
          f == libs[n].folders || f == Kept(h, libs[n].folders) || f == [])
  }

  /** Replacing the folders of a library not yet done by its survivors moves it to `done`. */
  lemma ProgressStep(h: Host, libs: Libraries, cur: Libraries, done: set<string>, todo: set<string>, n: string)
    requires Progress(h, libs, cur, done, todo) && n in todo
    ensures Progress(h, libs, cur[n := cur[n].(folders := Kept(h, libs[n].folders))], done + {n}, todo - {n})
  {
  }

  /** Emptying the library at hand leaves every library settled. */
  lemma ProgressAbort(h: Host, libs: Libraries, cur: Libraries, done: set<string>, todo: set<string>, n: string)
    requires Progress(h, libs, cur, done, todo) && n in todo
    ensures Settled(h, libs, cur[n := cur[n].(folders := [])])
  {
  }

  /** When every library is done and none repeats, each holds its survivors and no two share a
      folder. */
  lemma ProgressDone(h: Host, libs: Libraries, cur: Libraries, done: set<string>)
    requires Progress(h, libs, cur, done, {}) && NoRepeats(h, libs, libs.Keys)
    ensures cur.Keys == libs.Keys && forall n :: n in cur ==> cur[n].folders == Kept(h, libs[n].folders)
    ensures Unique(cur)
  {
  }

  /** The configuration after it was read. */
  class Config {
    var watch: WatchConfig
    var libraries: Libraries

    constructor (watch: WatchConfig, libraries: Libraries)
      ensures this.watch == watch && this.libraries == libraries
    {
      this.watch := watch;
      this.libraries := libraries;
    }

    /** One library of `sanitize_folders`: its folders are checked against `seen` and, when none
        repeats, replaced by the survivors; otherwise the library loses its folders and the check
        fails. */
    method SanitizeNext(h: Host, name: string, seen: set<Path>,
                        ghost libs: Libraries, ghost done: set<string>, ghost todo: set<string>)
      returns (r: Result<set<Path>>)
      requires Progress(h, libs, libraries, done, todo) && name in todo
      requires NoRepeats(h, libs, done) && SeenAre(h, libs, done, seen)
      modifies this
      ensures watch == old(watch)
      ensures r.Failure? ==> r.error == InvalidConfig("Repeated folder path in library")
      ensures r.Failure? ==> !NoRepeats(h, libs, libs.Keys) && Settled(h, libs, libraries)
      ensures r.Success? ==> Progress(h, libs, libraries, done + {name}, todo - {name})
      ensures r.Success? ==> NoRepeats(h, libs, done + {name}) && SeenAre(h, libs, done + {name}, r.value)
    {
      var library := libraries[name];
      assert library.folders == libs[name].folders;
      var res := SanitizeLibrary(h, library.folders, seen);
      if res.Failure? {
        RepeatsFound(h, libs, done, seen, name, libs.Keys);
        ProgressAbort(h, libs, libraries, done, todo, name);
        libraries := libraries[name := library.(folders := [])];
        return Failure(res.error);
      }
      NoRepeatsAdd(h, libs, done, seen, name, res.value.1);
      ProgressStep(h, libs, libraries, done, todo, name);
      libraries := libraries[name := library.(folders := res.value.0)];
      r := Success(res.value.1);
    }

    /** `sanitize_folders`, with the filesystem and shell expansion it consults in `h`: the
        libraries are taken in an unspecified order and each one's folders replaced by its
        survivors, `seen` shared among them. It succeeds exactly when no surviving folder repeats
        anywhere, whatever the order, and then each library holds its survivors and no two
        libraries share a folder. On failure the libraries done before hold their survivors, the
        one at hand has lost its folders and the others are untouched. Templates and flags never
        change. */
    method SanitizeFolders(h: Host) returns (r: Result<()>)
      modifies this
      ensures r.Success? <==> NoRepeats(h, old(libraries), old(libraries).Keys)
      ensures r.Failure? ==> r.error == InvalidConfig("Repeated folder path in library")
      ensures watch == old(watch) && Settled(h, old(libraries), libraries)
      ensures r.Success? ==> forall n :: n in libraries ==> libraries[n].folders == Kept(h, old(libraries)[n].folders)
      ensures r.Success? ==> Unique(libraries)
    {
      ghost var libs := libraries;
      var seen: set<Path> := {};
      var todo := libraries.Keys;
      ghost var done: set<string> := {};
      while todo != {}
        invariant watch == old(watch)
        invariant Progress(h, libs, libraries, done, todo)
        invariant NoRepeats(h, libs, done) && SeenAre(h, libs, done, seen)
        decreases |todo|
      {
        var name :| name in todo;
        var res := SanitizeNext(h, name, seen, libs, done, todo);
        if res.Failure? {
          return Failure(res.error);
        }
        seen := res.value;
        done := done + {name};
        todo := todo - {name};
      }
      ProgressDone(h, libs, libraries, done);
      r := Success(());
    }
  }

  /** `search_format`: the template of the first library, in the map's iteration order `order`,
      whose folders hold `path` exactly. */
  function SearchFormat(libs: Libraries, order: seq<string>, path: Path): (r: Option<ParsedFormat>)
    requires forall i :: 0 <= i < |order| ==> order[i] in libs
    ensures r.Some? <==> exists i :: 0 <= i < |order| && path in libs[order[i]].folders
    ensures r.Some? ==> exists n :: n in libs && path in libs[n].folders && r.value == libs[n].format
  {
    if order == [] then None
    else if path in libs[order[0]].folders then Some(libs[order[0]].format)
    else
      var r := SearchFormat(libs, order[1..], path);
      assert forall i :: 0 <= i < |order[1..]| ==> order[1..][i] == order[i + 1];
      r
  }

  /** With no folder shared, at most one library holds a path, so `search_format` gives that
      library's template whatever the iteration order. */
  lemma {:induction false} SearchFormatUnique(libs: Libraries, order: seq<string>, path: Path, n: string)
    requires Unique(libs) && n in libs && path in libs[n].folders
    requires forall i :: 0 <= i < |order| ==> order[i] in libs
    requires n in order
    ensures SearchFormat(libs, order, path) == Some(libs[n].format)
  {
    if order[0] != n {
      assert order[0] in libs && path !in libs[order[0]].folders;
      SearchFormatUnique(libs, order[1..], path, n);
    }
  }

  /** `format_of`: the named library's template, if there is such a library. */
  function FormatOf(libs: Libraries, library: string): (r: Option<ParsedFormat>)
    ensures r.Some? <==> library in libs
    ensures r.Some? ==> r.value == libs[library].format
  {
    if library in libs then Some(libs[library].format) else None
  }

  /** `is_exfat_compat`: true only for a known library whose flag is set to true; unknown
      libraries and unset flags give false. */
  function IsExfatCompat(libs: Libraries, library: string): (r: bool)
    ensures r <==> library in libs && libs[library].exfatCompat == Some(true)
  {
    match FormatOf(libs, library)
    case None => false
    case Some(_) =>
      match libs[library].exfatCompat
      case None => false
      case Some(b) => b
  }
}
