/** Filesystem paths as Rust's `Path` sees them through `components()`: whether the path starts
    at the root directory, and its sequence of normal components. */
module Paths {
  import opened Errors
  import opened Strings

  datatype Path = Path(absolute: bool, comps: seq<string>)

  /** A component as `components()` yields it: non-empty, without a separator. */
  predicate ValidComp(c: string) { c != "" && '/' !in c }

  predicate ValidPath(p: Path) { forall i :: 0 <= i < |p.comps| ==> ValidComp(p.comps[i]) }

  /** Drops the empty pieces that repeated or trailing separators leave. */
  function NonEmpty(pieces: seq<string>): (r: seq<string>)
    ensures forall i :: 0 <= i < |r| ==> r[i] != ""
    ensures (forall i :: 0 <= i < |pieces| ==> pieces[i] != "") ==> r == pieces
    ensures forall i :: 0 <= i < |r| ==> r[i] in pieces
  {
    if pieces == [] then []
    else if pieces[0] == "" then NonEmpty(pieces[1..])
    else [pieces[0]] + NonEmpty(pieces[1..])
  }

  /** `PathBuf::from(s)`: absolute when it starts with `/`; its components are the non-empty
      pieces between separators. */
  function FromString(s: string): (p: Path)
    ensures ValidPath(p)
  {
    var pieces := Split(s, '/');
    var r := Path(|s| > 0 && s[0] == '/', NonEmpty(pieces));
    assert forall i :: 0 <= i < |r.comps| ==> r.comps[i] in pieces;
    r
  }

  /** The text of a path, as `display()` shows it: of a path with valid components, it starts
      with `/` exactly when the path is absolute. */
  function Display(p: Path): (r: string)
    ensures ValidPath(p) ==> (p.absolute <==> |r| > 0 && r[0] == '/')
  {
    var j := JoinWith(p.comps, '/');
    assert ValidPath(p) && p.comps != [] ==> |j| > 0 && j[0] == p.comps[0][0];
    (if p.absolute then "/" else "") + j
  }

  /** `path.parent()`: None for the root and for the empty path, else the path without its last
      component. */
  function Parent(p: Path): (r: Option<Path>)
    ensures r.None? <==> p.comps == []
    ensures r.Some? ==> r.value.absolute == p.absolute && r.value.comps + [p.comps[|p.comps| - 1]] == p.comps
  {
    if p.comps == [] then None else Some(Path(p.absolute, p.comps[..|p.comps| - 1]))
  }

  /** `base.join(rel)`: an absolute `rel` replaces `base`, a relative one is appended to it. */
  function Join(base: Path, rel: Path): (r: Path)
    ensures rel.absolute ==> r == rel
    ensures !rel.absolute ==> r.absolute == base.absolute && r.comps == base.comps + rel.comps
  {
    if rel.absolute then rel else Path(base.absolute, base.comps + rel.comps)
  }

  /** `p.starts_with(prefix)`: component-wise prefix; an absolute path never starts with a relative
      one and vice versa. */
  predicate StartsWith(p: Path, prefix: Path)
    ensures StartsWith(p, prefix) <==> exists rest :: p == Path(prefix.absolute, prefix.comps + rest)
  {
    var r := p.absolute == prefix.absolute && |prefix.comps| <= |p.comps| && p.comps[..|prefix.comps|] == prefix.comps;
    assert r ==> p == Path(prefix.absolute, prefix.comps + p.comps[|prefix.comps|..]);
    assert forall rest :: p == Path(prefix.absolute, prefix.comps + rest) ==> (prefix.comps + rest)[..|prefix.comps|] == prefix.comps;
    r
  }

  /** Display and parsing are inverse on paths whose components are valid. */
  lemma {:induction false} FromDisplay(p: Path)
    requires ValidPath(p)
    ensures FromString(Display(p)) == p
  {
    var j := JoinWith(p.comps, '/');
    if p.comps == [] {
      assert j == "";
      if p.absolute {
        assert Display(p) == [] + ['/'] + "";
        SplitAt("", "", '/');
        assert NonEmpty(["", ""]) == [] by {
          assert ["", ""][1..] == [""];
          assert [""][1..] == [];
        }
      }
    } else {
      SplitJoin(p.comps);
      if p.absolute {
        assert Display(p) == [] + ['/'] + j;
        SplitAt("", j, '/');
        assert NonEmpty([""] + p.comps) == NonEmpty(p.comps) by {
          assert ([""] + p.comps)[1..] == p.comps;
        }
      } else {
        assert Display(p) == j;
        assert j[0] == p.comps[0][0] by { JoinHead(p.comps); }
      }
    }
  }

  lemma {:induction false} SplitJoin(comps: seq<string>)
    requires |comps| > 0
    requires forall i :: 0 <= i < |comps| ==> '/' !in comps[i]
    ensures Split(JoinWith(comps, '/'), '/') == comps
  {
    if |comps| == 1 {
      SplitNoSep(comps[0], '/');
    } else {
      SplitJoin(comps[1..]);
      SplitAt(comps[0], JoinWith(comps[1..], '/'), '/');
      assert [comps[0]] + comps[1..] == comps;
    }
  }

  lemma {:induction false} JoinHead(comps: seq<string>)
    requires |comps| > 0 && comps[0] != ""
    ensures |JoinWith(comps, '/')| > 0 && JoinWith(comps, '/')[0] == comps[0][0]
  {
  }

  /** Every proper ancestor reached through `parent()` is a prefix of the path. */
  lemma {:induction false} ParentIsPrefix(p: Path)
    requires p.comps != []
    ensures StartsWith(p, Parent(p).value) && p != Parent(p).value
  {
  }
}
