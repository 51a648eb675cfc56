/** A compiled format: the parsed components cut at every `/` of their literals into directory
    segments and at most one trailing file segment, and the path a metadata record fills it into. */
module Format {
  import opened Errors
  import opened Strings
  import opened Decimal
  import opened Paths
  import opened Parser
  import opened Meta

  /** `ParsedFormat`: the segments, and the text they were compiled from. */
  datatype ParsedFormat = ParsedFormat(segments: seq<FsComponent>, orig: string)

  // ---------------------------------------------------------------------------------------
  // Segmentation

  /** Adds a piece of literal text to the open segment unless it is empty. */
  function PushPiece(acc: seq<BasicComponent>, piece: string): (r: seq<BasicComponent>)
    ensures r == acc || r == acc + [Literal(piece)]
  {
    if piece == "" then acc else acc + [Literal(piece)]
  }

  /** The pieces of one literal split at `/`: every piece but the last closes the open segment
      as a directory; the last stays open. Returns the open segment and the closed ones. */
  function CutPieces(pieces: seq<string>, acc: seq<BasicComponent>, done: seq<FsComponent>)
    : (r: (seq<BasicComponent>, seq<FsComponent>))
    requires |pieces| >= 1
    ensures |r.1| == |done| + |pieces| - 1
    decreases |pieces|
  {
    if |pieces| == 1 then (PushPiece(acc, pieces[0]), done)
    else CutPieces(pieces[1..], [], done + [Dir(PushPiece(acc, pieces[0]))])
  }

  /** The segmentation loop from the component `cs[0]` on, with the open segment `acc` and the
      closed segments `done`; what is still open at the end becomes the file segment. */
  function Fold(cs: seq<BasicComponent>, acc: seq<BasicComponent>, done: seq<FsComponent>)
    : seq<FsComponent>
    decreases |cs|
  {
    if cs == [] then (if acc != [] then done + [File(acc)] else done)
    else match cs[0]
      case Literal(t) =>
        var cut := CutPieces(Split(t, '/'), acc, done);
        Fold(cs[1..], cut.0, cut.1)
      case Slot(_) => Fold(cs[1..], acc + [cs[0]], done)
  }

  /** The segments of a component list. */
  function Segments(cs: seq<BasicComponent>): seq<FsComponent>
  {
    Fold(cs, [], [])
  }

  /** What `from_str` produces: the parse error, or the segments with the text kept verbatim. */
  function Compile(s: string): Result<ParsedFormat>
  {
    match ParseFormatString(s)
    case Failure(e) => Failure(e)
    case Success(cs) => Success(ParsedFormat(Segments(cs), s))
  }

  /** `from_str`: parses the text, then walks the components, splitting each literal at `/`. */
  method FromStr(s: string) returns (r: Result<ParsedFormat>)
    ensures r == Compile(s)
    ensures r.Success? ==> Serialize(r.value) == s
  {
    var parsed := ParseFormatString(s);
    if parsed.Failure? {
      return Failure(parsed.error);
    }
    var cs := parsed.value;
    var acc: seq<BasicComponent> := [];
    var done: seq<FsComponent> := [];
    for i := 0 to |cs|
      invariant Fold(cs[i..], acc, done) == Segments(cs)
    {
      assert cs[i..][1..] == cs[i + 1..];
      match cs[i]
      case Literal(t) =>
        var pieces := Split(t, '/');
        ghost var acc0, done0 := acc, done;
        for j := 0 to |pieces| - 1
          invariant CutPieces(pieces[j..], acc, done) == CutPieces(pieces, acc0, done0)
        {
          assert pieces[j..][1..] == pieces[j + 1..];
          if pieces[j] != "" {
            acc := acc + [Literal(pieces[j])];
          }
          done := done + [Dir(acc)];
          acc := [];
        }
        var last := pieces[|pieces| - 1];
        assert pieces[|pieces| - 1..] == [last];
        if last != "" {
          acc := acc + [Literal(last)];
        }
      case Slot(_) =>
        acc := acc + [cs[i]];
    }
    if acc != [] {
      done := done + [File(acc)];
    }
    return Success(ParsedFormat(done, s));
  }

  /** `Serialize`: the text the format was compiled from. */
  function Serialize(f: ParsedFormat): (r: string)
    ensures r == f.orig
  {
    f.orig
  }

  /** `Deserialize`: compiles the text; a parse error becomes the deserialiser's error. */
  method Deserialize(s: string) returns (r: Result<ParsedFormat>)
    ensures r == Compile(s)
    ensures r.Success? ==> Serialize(r.value) == s
  {
    r := FromStr(s);
  }

  /** Serialising a compiled format gives its text back, and compiling that text again gives the
      same format. */
  lemma {:induction false} SerializeRoundTrip(s: string)
    requires Compile(s).Success?
    ensures Serialize(Compile(s).value) == s
    ensures Compile(Serialize(Compile(s).value)) == Compile(s)
  {
  }

  // ---------------------------------------------------------------------------------------
  // What segmentation keeps

  /** The text a segment stands for: a directory is followed by its `/`. */
  function SegmentText(seg: FsComponent): string
  {
    match seg
    case Dir(d) => Render(d) + "/"
    case File(f) => Render(f)
  }

  function SegmentsText(segs: seq<FsComponent>): string
  {
    if segs == [] then "" else SegmentsText(segs[..|segs| - 1]) + SegmentText(segs[|segs| - 1])
  }

  lemma {:induction false} RenderAppend(a: seq<BasicComponent>, b: seq<BasicComponent>)
    ensures Render(a + b) == Render(a) + Render(b)
  {
    if a != [] {
      assert (a + b)[1..] == a[1..] + b;
      RenderAppend(a[1..], b);
    } else {
      assert a + b == b;
    }
  }

  lemma {:induction false} PushPieceText(acc: seq<BasicComponent>, piece: string)
    ensures Render(PushPiece(acc, piece)) == Render(acc) + piece
  {
    RenderAppend(acc, [Literal(piece)]);
    assert Render([Literal(piece)]) == piece + Render([]);
  }

  lemma Regroup(a: string, b: string, c: string, d: string, e: string)
    ensures (a + ((b + c) + d)) + e == (a + b) + ((c + d) + e)
  {
  }

  lemma Regroup3(a: string, b: string, c: string)
    ensures (a + b) + c == a + (b + c)
  {
  }

  lemma {:induction false} CutPiecesText(pieces: seq<string>, acc: seq<BasicComponent>, done: seq<FsComponent>)
    requires |pieces| >= 1
    ensures var r := CutPieces(pieces, acc, done);
            SegmentsText(r.1) + Render(r.0) == SegmentsText(done) + Render(acc) + JoinWith(pieces, '/')
    decreases |pieces|
  {
    var p0 := pieces[0];
    var pushed := PushPiece(acc, p0);
    PushPieceText(acc, p0);
    if |pieces| > 1 {
      var done' := done + [Dir(pushed)];
      assert done'[..|done'| - 1] == done;
      var x := SegmentsText(done');
      assert x == SegmentsText(done) + ((Render(acc) + p0) + "/");
      CutPiecesText(pieces[1..], [], done');
      assert x + Render([]) == x;
      var j := JoinWith(pieces[1..], '/');
      assert JoinWith(pieces, '/') == (p0 + "/") + j;
      Regroup(SegmentsText(done), Render(acc), p0, "/", j);
    } else {
      assert JoinWith(pieces, '/') == p0;
      Regroup3(SegmentsText(done), Render(acc), p0);
    }
  }

  lemma {:induction false} FoldText(cs: seq<BasicComponent>, acc: seq<BasicComponent>, done: seq<FsComponent>)
    ensures SegmentsText(Fold(cs, acc, done)) == SegmentsText(done) + Render(acc) + Render(cs)
    decreases |cs|, 1
  {
    if cs == [] {
      if acc != [] {
        var r := done + [File(acc)];
        assert r[..|r| - 1] == done;
      }
      assert SegmentsText(done) + Render(acc) + "" == SegmentsText(done) + Render(acc);
    } else if cs[0].Literal? {
      FoldTextLiteral(cs, acc, done);
    } else {
      FoldTextSlot(cs, acc, done);
    }
  }

  lemma {:induction false} FoldTextLiteral(cs: seq<BasicComponent>, acc: seq<BasicComponent>, done: seq<FsComponent>)
    requires cs != [] && cs[0].Literal?
    ensures SegmentsText(Fold(cs, acc, done)) == SegmentsText(done) + Render(acc) + Render(cs)
    decreases |cs|, 0
  {
    var t := cs[0].text;
    var rest := Render(cs[1..]);
    assert Render(cs) == t + rest;
    var cut := CutPieces(Split(t, '/'), acc, done);
    CutPiecesText(Split(t, '/'), acc, done);
    assert Fold(cs, acc, done) == Fold(cs[1..], cut.0, cut.1);
    FoldText(cs[1..], cut.0, cut.1);
    Regroup3(SegmentsText(done) + Render(acc), t, rest);
  }

  lemma {:induction false} FoldTextSlot(cs: seq<BasicComponent>, acc: seq<BasicComponent>, done: seq<FsComponent>)
    requires cs != [] && cs[0].Slot?
    ensures SegmentsText(Fold(cs, acc, done)) == SegmentsText(done) + Render(acc) + Render(cs)
    decreases |cs|, 0
  {
    var c := cs[0];
    var rest := Render(cs[1..]);
    var shown := RenderComponent(c);
    assert Render(cs) == shown + rest;
    RenderAppend(acc, [c]);
    assert Render([c]) == shown + Render([]);
    assert shown + [] == shown;
    assert Fold(cs, acc, done) == Fold(cs[1..], acc + [c], done);
    FoldText(cs[1..], acc + [c], done);
    var a, r := SegmentsText(done), Render(acc);
    Regroup3(a, r, shown);
    Regroup3(a + r, shown, rest);
    calc {
      SegmentsText(Fold(cs, acc, done));
      a + Render(acc + [c]) + rest;
      a + (r + shown) + rest;
      (a + r) + (shown + rest);
    }
  }

  /** Nothing is lost or added: the segments, each directory followed by `/`, spell out the
      components' text. */
  lemma {:induction false} SegmentsKeepText(cs: seq<BasicComponent>)
    ensures SegmentsText(Segments(cs)) == Render(cs)
  {
    FoldText(cs, [], []);
  }

  /** Literal parts as segmentation leaves them: non-empty and without `/`. */
  predicate CleanParts(parts: seq<BasicComponent>)
  {
    forall i :: 0 <= i < |parts| ==> parts[i].Literal? ==> parts[i].text != "" && '/' !in parts[i].text
  }

  /** Every segment but the last is a directory, and no segment holds an empty literal or a `/`. */
  predicate WellCut(segs: seq<FsComponent>)
  {
    && (forall i :: 0 <= i < |segs| - 1 ==> segs[i].Dir?)
    && (forall i :: 0 <= i < |segs| ==> CleanParts(segs[i].parts))
  }

  predicate AllDirs(segs: seq<FsComponent>)
  {
    forall i :: 0 <= i < |segs| ==> segs[i].Dir? && CleanParts(segs[i].parts)
  }

  lemma {:induction false} PushPieceClean(acc: seq<BasicComponent>, piece: string)
    requires CleanParts(acc) && '/' !in piece
    ensures CleanParts(PushPiece(acc, piece))
  {
  }

  lemma {:induction false} CutPiecesShape(pieces: seq<string>, acc: seq<BasicComponent>, done: seq<FsComponent>)
    requires |pieces| >= 1 && (forall i :: 0 <= i < |pieces| ==> '/' !in pieces[i])
    requires CleanParts(acc) && AllDirs(done)
    ensures CleanParts(CutPieces(pieces, acc, done).0) && AllDirs(CutPieces(pieces, acc, done).1)
    decreases |pieces|
  {
    PushPieceClean(acc, pieces[0]);
    if |pieces| > 1 {
      CutPiecesShape(pieces[1..], [], done + [Dir(PushPiece(acc, pieces[0]))]);
    }
  }

  lemma {:induction false} FoldShape(cs: seq<BasicComponent>, acc: seq<BasicComponent>, done: seq<FsComponent>)
    requires CleanParts(acc) && AllDirs(done)
    ensures WellCut(Fold(cs, acc, done))
    decreases |cs|
  {
    if cs != [] {
      match cs[0]
      case Literal(t) =>
        CutPiecesShape(Split(t, '/'), acc, done);
        var cut := CutPieces(Split(t, '/'), acc, done);
        FoldShape(cs[1..], cut.0, cut.1);
      case Slot(_) =>
        FoldShape(cs[1..], acc + [cs[0]], done);
    }
  }

  /** Only the last segment can be a file, and the literals of every segment are non-empty
      pieces without `/`: empty pieces around slashes are dropped. */
  lemma {:induction false} SegmentsWellCut(cs: seq<BasicComponent>)
    ensures WellCut(Segments(cs))
  {
    FoldShape(cs, [], []);
  }

  /** The number of `/` in the literals of a component list. */
  function Slashes(cs: seq<BasicComponent>): nat
  {
    if cs == [] then 0
    else (if cs[0].Literal? then Count(cs[0].text, '/') else 0) + Slashes(cs[1..])
  }

  function DirCount(segs: seq<FsComponent>): nat
  {
    if segs == [] then 0 else DirCount(segs[..|segs| - 1]) + (if segs[|segs| - 1].Dir? then 1 else 0)
  }

  lemma {:induction false} CutPiecesDirs(pieces: seq<string>, acc: seq<BasicComponent>, done: seq<FsComponent>)
    requires |pieces| >= 1
    ensures DirCount(CutPieces(pieces, acc, done).1) == DirCount(done) + |pieces| - 1
    decreases |pieces|
  {
    if |pieces| > 1 {
      var done' := done + [Dir(PushPiece(acc, pieces[0]))];
      assert done'[..|done'| - 1] == done;
      CutPiecesDirs(pieces[1..], [], done');
    }
  }

  lemma {:induction false} FoldDirs(cs: seq<BasicComponent>, acc: seq<BasicComponent>, done: seq<FsComponent>)
    ensures DirCount(Fold(cs, acc, done)) == DirCount(done) + Slashes(cs)
    decreases |cs|
  {
    if cs == [] {
      if acc != [] {
        var r := done + [File(acc)];
        assert r[..|r| - 1] == done;
      }
    } else {
      match cs[0]
      case Literal(t) =>
        CutPiecesDirs(Split(t, '/'), acc, done);
        var cut := CutPieces(Split(t, '/'), acc, done);
        FoldDirs(cs[1..], cut.0, cut.1);
      case Slot(_) =>
        FoldDirs(cs[1..], acc + [cs[0]], done);
    }
  }

  /** Every `/` of every literal closes one directory segment, even an empty one. */
  lemma {:induction false} DirPerSlash(cs: seq<BasicComponent>)
    ensures DirCount(Segments(cs)) == Slashes(cs)
  {
    FoldDirs(cs, [], []);
  }

  predicate HasFile(segs: seq<FsComponent>)
  {
    segs != [] && segs[|segs| - 1].File?
  }

  /** The component list ends in a placeholder or in a literal whose last character is not `/`. */
  predicate EndsOpen(cs: seq<BasicComponent>)
  {
    cs != [] &&
    var c := cs[|cs| - 1];
    c.Slot? || (c.text != [] && c.text[|c.text| - 1] != '/')
  }

  lemma {:induction false} CutPiecesOpen(pieces: seq<string>, acc: seq<BasicComponent>, done: seq<FsComponent>)
    requires |pieces| >= 1
    ensures CutPieces(pieces, acc, done).0 != [] <==>
      if |pieces| == 1 then acc != [] || pieces[0] != "" else pieces[|pieces| - 1] != ""
    decreases |pieces|
  {
    if |pieces| > 1 {
      CutPiecesOpen(pieces[1..], [], done + [Dir(PushPiece(acc, pieces[0]))]);
    }
  }

  lemma {:induction false} FoldFile(cs: seq<BasicComponent>, acc: seq<BasicComponent>, done: seq<FsComponent>)
    requires forall i :: 0 <= i < |cs| ==> cs[i].Literal? ==> cs[i].text != ""
    requires !HasFile(done)
    ensures HasFile(Fold(cs, acc, done)) <==> if cs == [] then acc != [] else EndsOpen(cs)
    decreases |cs|
  {
    if cs != [] {
      match cs[0]
      case Literal(t) =>
        var cut := CutPieces(Split(t, '/'), acc, done);
        CutPiecesShapeNoFile(Split(t, '/'), acc, done);
        FoldFile(cs[1..], cut.0, cut.1);
        if |cs| == 1 {
          CutPiecesOpen(Split(t, '/'), acc, done);
          SplitLastEmpty(t, '/');
          if |Split(t, '/')| == 1 {
            assert JoinWith(Split(t, '/'), '/') == Split(t, '/')[0];
          }
        } else {
          assert cs[1..][|cs| - 2] == cs[|cs| - 1];
        }
      case Slot(_) =>
        FoldFile(cs[1..], acc + [cs[0]], done);
        if |cs| > 1 {
          assert cs[1..][|cs| - 2] == cs[|cs| - 1];
        }
    }
  }

  lemma {:induction false} CutPiecesShapeNoFile(pieces: seq<string>, acc: seq<BasicComponent>, done: seq<FsComponent>)
    requires |pieces| >= 1 && !HasFile(done)
    ensures !HasFile(CutPieces(pieces, acc, done).1)
    decreases |pieces|
  {
    if |pieces| > 1 {
      CutPiecesShapeNoFile(pieces[1..], [], done + [Dir(PushPiece(acc, pieces[0]))]);
    }
  }

  /** A file segment exists exactly when something follows the last `/`: the template ends in a
      placeholder or in literal text that does not end with `/`. */
  lemma {:induction false} FileSegmentIff(cs: seq<BasicComponent>)
    requires TailOk(cs)
    ensures HasFile(Segments(cs)) <==> EndsOpen(cs)
  {
    assert forall i :: 0 <= i < |cs| ==> cs[i].Literal? ==> cs[i].text != "" by {
      forall i | 0 <= i < |cs| && cs[i].Literal?
        ensures cs[i].text != ""
      {
        assert ComponentOk(cs[i]);
      }
    }
    FoldFile(cs, [], []);
  }

  // ---------------------------------------------------------------------------------------
  // Filling in values

  /** `s.replace(c, "_")` */
  function ReplaceChar(s: string, c: char): (r: string)
    ensures |r| == |s|
    ensures forall i :: 0 <= i < |s| ==> r[i] == if s[i] == c then '_' else s[i]
  {
    if s == [] then [] else [if s[0] == c then '_' else s[0]] + ReplaceChar(s[1..], c)
  }

  /** The characters a filled-in value may not keep. */
  predicate Forbidden(c: char, exfat: bool)
  {
    c == '/' || (exfat && (c == '"' || c == '*' || c == ':' || c == '<' || c == '>' || c == '\\' || c == '?' || c == '|'))
  }

  /** `replace`: `/` always becomes `_`; for exFAT also `" * : < > \ ? |`. Each character is
      kept, or becomes `_` exactly when it is forbidden. */
  function Replace(s: string, exfat: bool): (r: string)
    ensures |r| == |s|
    ensures forall i :: 0 <= i < |s| ==> r[i] == if Forbidden(s[i], exfat) then '_' else s[i]
  {
    if exfat then
      ReplaceChar(ReplaceChar(ReplaceChar(ReplaceChar(ReplaceChar(ReplaceChar(ReplaceChar(ReplaceChar(
        ReplaceChar(s, '/'), '"'), '*'), ':'), '<'), '>'), '\\'), '?'), '|')
    else ReplaceChar(s, '/')
  }

  /** No forbidden character survives, and replacing again changes nothing. */
  lemma {:induction false} ReplaceClean(s: string, exfat: bool)
    ensures forall i :: 0 <= i < |Replace(s, exfat)| ==> !Forbidden(Replace(s, exfat)[i], exfat)
    ensures '/' !in Replace(s, exfat)
    ensures Replace(Replace(s, exfat), exfat) == Replace(s, exfat)
  {
    var r := Replace(s, exfat);
    assert forall i :: 0 <= i < |r| ==> r[i] != '/';
  }

  /** `add_leading_zeros`: pads with `0` on the left up to `width` characters. */
  function AddLeadingZeros(s: string, width: u8): (r: string)
    ensures |r| == if width > |s| then width else |s|
    ensures r[|r| - |s|..] == s
    ensures forall i :: 0 <= i < |r| - |s| ==> r[i] == '0'
  {
    if width > |s| then seq(width - |s|, _ => '0') + s else s
  }

  lemma {:induction false} ZerosValue(z: string, s: string)
    requires forall i :: 0 <= i < |z| ==> z[i] == '0'
    requires AllDigits(s)
    ensures AllDigits(z + s) && Value(z + s) == Value(s)
    decreases |s|
  {
    if s == [] {
      assert z + s == z;
      ZerosZero(z);
    } else {
      var high := s[..|s| - 1];
      ZerosValue(z, high);
      assert (z + s)[..|z + s| - 1] == z + high;
    }
  }

  lemma {:induction false} ZerosZero(z: string)
    requires forall i :: 0 <= i < |z| ==> z[i] == '0'
    ensures AllDigits(z) && Value(z) == 0
  {
    if z != [] {
      ZerosZero(z[..|z| - 1]);
    }
  }

  /** Padding a number's text keeps the number. */
  lemma {:induction false} PaddingKeepsValue(s: string, width: u8)
    requires AllDigits(s)
    ensures AllDigits(AddLeadingZeros(s, width)) && Value(AddLeadingZeros(s, width)) == Value(s)
  {
    var r := AddLeadingZeros(s, width);
    var z := r[..|r| - |s|];
    assert r == z + s;
    ZerosValue(z, s);
  }

  /** The text a tag fills in, read from the record's fields: numbers in decimal padded to the
      tag's width, the extension always. */
  function TagText(m: Metadata, t: Tag): Option<string>
  {
    match t
    case Artist => m.artist
    case Album => m.album
    case Disc(w) => if m.disc.Some? then Some(AddLeadingZeros(ToDecimal(m.disc.value), w)) else None
    case Track(w) => if m.track.Some? then Some(AddLeadingZeros(ToDecimal(m.track.value), w)) else None
    case Title => m.title
    case Ext => Some(m.ext)
  }

  /** The getter's result as `get_from_metadata` turns it: a missing tag is no value when the
      placeholder is optional and the getter's error otherwise. */
  function Lookup(got: Result<string>, optional: bool): Result<Option<string>>
  {
    match got
    case Success(v) => Success(Some(v))
    case Failure(e) => if optional then Success(None) else Failure(e)
  }

  function Pad(got: Result<string>, width: u8): Result<string>
  {
    match got
    case Success(v) => Success(AddLeadingZeros(v, width))
    case Failure(e) => Failure(e)
  }

  /** `get_from_metadata`: a present tag gives its text; an absent one gives no value when the
      placeholder is optional and `MissingTag` otherwise; the extension is always present. */
  function GetFromMetadata(m: Metadata, p: Placeholder): (r: Result<Option<string>>)
    ensures TagText(m, p.tag).Some? ==> r == Success(TagText(m, p.tag))
    ensures TagText(m, p.tag).None? ==>
      r == if p.IsOptional() then Success(None) else Failure(MissingTag(TagName(p.tag)))
  {
    var optional := p.IsOptional();
    match p.IntoTag()
    case Artist => Lookup(GetArtist(m), optional)
    case Album => Lookup(GetAlbum(m), optional)
    case Disc(w) =>
      NumberGetters(m);
      Lookup(Pad(GetDisc(m), w), optional)
    case Track(w) =>
      NumberGetters(m);
      Lookup(Pad(GetTrack(m), w), optional)
    case Title => Lookup(GetTitle(m), optional)
    case Ext => Success(Some(GetExt(m)))
  }

  // ---------------------------------------------------------------------------------------
  // Building the path

  /** The components of a directory segment from `d[0]` on, appended to `path`; the segment
      ends with `/`. An absent optional tag is `OptionalInDir`. */
  function DirFrom(path: string, d: seq<BasicComponent>, m: Metadata, exfat: bool): Result<string>
    decreases |d|
  {
    if d == [] then Success(path + "/")
    else match d[0]
      case Literal(t) => DirFrom(path + t, d[1..], m, exfat)
      case Slot(p) =>
        match GetFromMetadata(m, p)
        case Failure(e) => Failure(e)
        case Success(None) => Failure(OptionalInDir)
        case Success(Some(v)) => DirFrom(path + Replace(v, exfat), d[1..], m, exfat)
  }

  /** Whether a placeholder counts towards `required_founds`. */
  predicate Counts(p: Placeholder)
  {
    !p.IsOptional() && !p.IsTag(Ext)
  }

  /** The components of the file segment from `f[0]` on, appended to `path`, with `found`
      counting placeholders that are required and not the extension; none at all is
      `RequiredInFile`. */
  function FileFrom(path: string, f: seq<BasicComponent>, found: nat, m: Metadata, exfat: bool): Result<string>
    decreases |f|
  {
    if f == [] then (if found < 1 then Failure(RequiredInFile) else Success(path))
    else match f[0]
      case Literal(t) => FileFrom(path + t, f[1..], found, m, exfat)
      case Slot(p) =>
        var found' := if Counts(p) then found + 1 else found;
        match GetFromMetadata(m, p)
        case Failure(e) => Failure(e)
        case Success(None) => FileFrom(path, f[1..], found', m, exfat)
        case Success(Some(v)) => FileFrom(path + Replace(v, exfat), f[1..], found', m, exfat)
  }

  /** The segments from `segs[0]` on, appended to `path`. */
  function BuildFrom(path: string, segs: seq<FsComponent>, m: Metadata, exfat: bool): Result<string>
    decreases |segs|
  {
    if segs == [] then Success(path)
    else
      var step := match segs[0]
        case Dir(d) => DirFrom(path, d, m, exfat)
        case File(f) => FileFrom(path, f, 0, m, exfat);
      match step
      case Failure(e) => Failure(e)
      case Success(p) => BuildFrom(p, segs[1..], m, exfat)
  }

  /** The text `build_path` assembles before turning it into a path. */
  function BuildText(segs: seq<FsComponent>, m: Metadata, exfat: bool): Result<string>
  {
    BuildFrom("", segs, m, exfat)
  }

  /** `build_path`: fills each segment in turn into one growing string and reads it as a path. */
  method BuildPath(format: ParsedFormat, m: Metadata, exfat: bool) returns (r: Result<Path>)
    ensures BuildText(format.segments, m, exfat).Failure? ==> r == Failure(BuildText(format.segments, m, exfat).error)
    ensures BuildText(format.segments, m, exfat).Success? ==> r == Success(FromString(BuildText(format.segments, m, exfat).value))
  {
    var segs := format.segments;
    var path := "";
    for i := 0 to |segs|
      invariant BuildFrom(path, segs[i..], m, exfat) == BuildText(segs, m, exfat)
    {
      assert segs[i..][1..] == segs[i + 1..];
      ghost var start := path;
      match segs[i]
      case Dir(d) =>
        for j := 0 to |d|
          invariant DirFrom(path, d[j..], m, exfat) == DirFrom(start, d, m, exfat)
        {
          assert d[j..][1..] == d[j + 1..];
          match d[j]
          case Literal(t) =>
            path := path + t;
          case Slot(p) =>
            var got := GetFromMetadata(m, p);
            if got.Failure? {
              return Failure(got.error);
            }
            if got.value.None? {
              return Failure(OptionalInDir);
            }
            path := path + Replace(got.value.value, exfat);
        }
        path := path + "/";
      case File(f) =>
        var found: nat := 0;
        for j := 0 to |f|
          invariant FileFrom(path, f[j..], found, m, exfat) == FileFrom(start, f, 0, m, exfat)
        {
          assert f[j..][1..] == f[j + 1..];
          match f[j]
          case Literal(t) =>
            path := path + t;
          case Slot(p) =>
            if !p.IsOptional() && !p.IsTag(Ext) {
              found := found + 1;
            }
            var got := GetFromMetadata(m, p);
            if got.Failure? {
              return Failure(got.error);
            }
            if got.value.Some? {
              path := path + Replace(got.value.value, exfat);
            }
        }
        if found < 1 {
          return Failure(RequiredInFile);
        }
    }
    return Success(FromString(path));
  }

  // ---------------------------------------------------------------------------------------
  // What building the path does

  predicate Present(m: Metadata, t: Tag)
  {
    TagText(m, t).Some?
  }

  /** The text a component fills in: a literal verbatim, a present tag's text sanitised, an
      absent tag nothing. */
  function Fill(c: BasicComponent, m: Metadata, exfat: bool): string
  {
    match c
    case Literal(t) => t
    case Slot(p) => if Present(m, p.tag) then Replace(TagText(m, p.tag).value, exfat) else ""
  }

  function FillAll(parts: seq<BasicComponent>, m: Metadata, exfat: bool): string
  {
    if parts == [] then "" else Fill(parts[0], m, exfat) + FillAll(parts[1..], m, exfat)
  }

  /** The filled text of the segments, each directory followed by `/`. */
  function Filled(segs: seq<FsComponent>, m: Metadata, exfat: bool): string
  {
    if segs == [] then ""
    else FillAll(segs[0].parts, m, exfat) + (if segs[0].Dir? then "/" else "") + Filled(segs[1..], m, exfat)
  }

  /** The first placeholder of `parts` whose tag is absent, leaving optional ones aside when
      `skipOptional` holds. */
  function FirstAbsent(parts: seq<BasicComponent>, m: Metadata, skipOptional: bool): (r: Option<Placeholder>)
    ensures r.Some? ==> Slot(r.value) in parts && !Present(m, r.value.tag) && !(skipOptional && r.value.Optional?)
    ensures r.None? <==> forall j :: 0 <= j < |parts| && parts[j].Slot? && !(skipOptional && parts[j].placeholder.Optional?) ==>
                          Present(m, parts[j].placeholder.tag)
  {
    if parts == [] then None
    else if parts[0].Slot? && !(skipOptional && parts[0].placeholder.Optional?) && !Present(m, parts[0].placeholder.tag) then
      Some(parts[0].placeholder)
    else
      var r := FirstAbsent(parts[1..], m, skipOptional);
      assert forall j :: 1 <= j < |parts| ==> parts[j] == parts[1..][j - 1];
      assert r.Some? ==> Slot(r.value) in parts[1..];
      r
  }

  /** The placeholders of a file segment that are required and not the extension. */
  function RequiredCount(parts: seq<BasicComponent>): nat
  {
    if parts == [] then 0
    else (if parts[0].Slot? && Counts(parts[0].placeholder) then 1 else 0) + RequiredCount(parts[1..])
  }

  /** What is wrong with one segment, if anything: in a directory the first absent tag, optional
      or not; in the file the first absent required tag, else the lack of a required tag. */
  function SegmentProblem(seg: FsComponent, m: Metadata): Option<Error>
  {
    match seg
    case Dir(d) =>
      var a := FirstAbsent(d, m, false);
      if a.None? then None
      else if a.value.Optional? then Some(OptionalInDir)
      else Some(MissingTag(TagName(a.value.tag)))
    case File(f) =>
      var a := FirstAbsent(f, m, true);
      if a.Some? then Some(MissingTag(TagName(a.value.tag)))
      else if RequiredCount(f) == 0 then Some(RequiredInFile)
      else None
  }

  /** The problem of the first segment that has one. */
  function FirstProblem(segs: seq<FsComponent>, m: Metadata): Option<Error>
  {
    if segs == [] then None
    else if SegmentProblem(segs[0], m).Some? then SegmentProblem(segs[0], m)
    else FirstProblem(segs[1..], m)
  }

  lemma {:induction false} DirFromSpec(path: string, d: seq<BasicComponent>, m: Metadata, exfat: bool)
    ensures var r := DirFrom(path, d, m, exfat);
            var a := FirstAbsent(d, m, false);
            && (r.Success? <==> a.None?)
            && (r.Success? ==> r.value == path + FillAll(d, m, exfat) + "/")
            && (r.Failure? ==> r.error == if a.value.Optional? then OptionalInDir else MissingTag(TagName(a.value.tag)))
    decreases |d|
  {
    if d != [] {
      var c := d[0];
      var rest := FillAll(d[1..], m, exfat);
      match c
      case Literal(t) =>
        DirFromSpec(path + t, d[1..], m, exfat);
        Regroup3(path, t, rest);
      case Slot(p) =>
        if Present(m, p.tag) {
          var v := Replace(TagText(m, p.tag).value, exfat);
          DirFromSpec(path + v, d[1..], m, exfat);
          Regroup3(path, v, rest);
        }
    }
  }

  lemma {:induction false} FileFromSpec(path: string, f: seq<BasicComponent>, found: nat, m: Metadata, exfat: bool)
    ensures var r := FileFrom(path, f, found, m, exfat);
            var a := FirstAbsent(f, m, true);
            && (r.Success? <==> a.None? && found + RequiredCount(f) > 0)
            && (r.Success? ==> r.value == path + FillAll(f, m, exfat))
            && (r.Failure? ==> r.error == if a.Some? then MissingTag(TagName(a.value.tag)) else RequiredInFile)
    decreases |f|
  {
    if f == [] {
      assert path + "" == path;
    } else {
      var c := f[0];
      var rest := FillAll(f[1..], m, exfat);
      match c
      case Literal(t) =>
        FileFromSpec(path + t, f[1..], found, m, exfat);
        Regroup3(path, t, rest);
      case Slot(p) =>
        var found' := if Counts(p) then found + 1 else found;
        if Present(m, p.tag) {
          var v := Replace(TagText(m, p.tag).value, exfat);
          FileFromSpec(path + v, f[1..], found', m, exfat);
          Regroup3(path, v, rest);
        } else if p.Optional? {
          FileFromSpec(path, f[1..], found', m, exfat);
          assert "" + rest == rest;
        }
    }
  }

  /** Building the segments after `path` fails with the problem of the first segment that has
      one, and otherwise appends their filled text. */
  lemma {:induction false} BuildFromSpec(path: string, segs: seq<FsComponent>, m: Metadata, exfat: bool)
    ensures BuildFrom(path, segs, m, exfat) ==
      if FirstProblem(segs, m).Some? then Failure(FirstProblem(segs, m).value)
      else Success(path + Filled(segs, m, exfat))
    decreases |segs|
  {
    if segs == [] {
      assert path + "" == path;
    } else {
      var seg := segs[0];
      var text := FillAll(seg.parts, m, exfat);
      var sep := if seg.Dir? then "/" else "";
      var rest := Filled(segs[1..], m, exfat);
      if seg.Dir? {
        DirFromSpec(path, seg.parts, m, exfat);
      } else {
        FileFromSpec(path, seg.parts, 0, m, exfat);
        assert path + text == path + text + sep;
      }
      if SegmentProblem(seg, m).None? {
        BuildFromSpec(path + text + sep, segs[1..], m, exfat);
        Regroup3(path, text + sep, rest);
        Regroup3(path, text, sep);
      }
    }
  }

  /** `build_path` fails exactly when some segment has a problem, with the first such problem;
      otherwise its text is the filled segments. */
  lemma {:induction false} BuildTextSpec(segs: seq<FsComponent>, m: Metadata, exfat: bool)
    ensures BuildText(segs, m, exfat) ==
      if FirstProblem(segs, m).Some? then Failure(FirstProblem(segs, m).value)
      else Success(Filled(segs, m, exfat))
  {
    BuildFromSpec("", segs, m, exfat);
    assert "" + Filled(segs, m, exfat) == Filled(segs, m, exfat);
  }

  /** Component `j` of segment `i` is a placeholder whose tag the record lacks. */
  predicate AbsentSlot(segs: seq<FsComponent>, m: Metadata, i: int, j: int)
  {
    && 0 <= i < |segs| && 0 <= j < |segs[i].parts|
    && segs[i].parts[j].Slot? && !Present(m, segs[i].parts[j].placeholder.tag)
  }

  /** Every placeholder of every segment has its tag in the record. */
  predicate AllPresent(segs: seq<FsComponent>, m: Metadata)
  {
    forall i, j :: 0 <= i < |segs| && 0 <= j < |segs[i].parts| && segs[i].parts[j].Slot? ==>
      Present(m, segs[i].parts[j].placeholder.tag)
  }

  lemma {:induction false} FirstProblemAt(segs: seq<FsComponent>, m: Metadata)
    requires FirstProblem(segs, m).Some?
    ensures exists i :: 0 <= i < |segs| && SegmentProblem(segs[i], m) == FirstProblem(segs, m)
  {
    if SegmentProblem(segs[0], m).None? {
      FirstProblemAt(segs[1..], m);
      var i :| 0 <= i < |segs[1..]| && SegmentProblem(segs[1..][i], m) == FirstProblem(segs[1..], m);
      assert segs[1..][i] == segs[i + 1];
    }
  }

  /** What each kind of problem says about its segment. */
  lemma {:induction false} SegmentProblemKinds(segs: seq<FsComponent>, m: Metadata, i: int)
    requires 0 <= i < |segs| && SegmentProblem(segs[i], m).Some?
    ensures var e := SegmentProblem(segs[i], m).value;
            && (e.OptionalInDir? || e.MissingTag? || e.RequiredInFile?)
            && (e.OptionalInDir? ==>
                  segs[i].Dir? && exists j :: AbsentSlot(segs, m, i, j) && segs[i].parts[j].placeholder.Optional?)
            && (e.MissingTag? ==>
                  exists j :: AbsentSlot(segs, m, i, j) && segs[i].parts[j].placeholder.Required? &&
                    e.tag == TagName(segs[i].parts[j].placeholder.tag))
            && (e.RequiredInFile? ==> segs[i].File? && RequiredCount(segs[i].parts) == 0)
  {
    var parts := segs[i].parts;
    var a := FirstAbsent(parts, m, segs[i].File?);
    if a.Some? {
      var j :| 0 <= j < |parts| && parts[j] == Slot(a.value);
      assert AbsentSlot(segs, m, i, j);
    }
  }

  /** A failed build names one of three problems, each backed by what the segments hold: an
      absent optional tag in a directory, an absent required tag, or a file segment without a
      required placeholder. */
  lemma {:induction false} BuildErrors(segs: seq<FsComponent>, m: Metadata, exfat: bool)
    requires BuildText(segs, m, exfat).Failure?
    ensures var e := BuildText(segs, m, exfat).error;
            && (e.OptionalInDir? || e.MissingTag? || e.RequiredInFile?)
            && (e.OptionalInDir? ==>
                  exists i, j :: AbsentSlot(segs, m, i, j) && segs[i].Dir? && segs[i].parts[j].placeholder.Optional?)
            && (e.MissingTag? ==>
                  exists i, j :: AbsentSlot(segs, m, i, j) && segs[i].parts[j].placeholder.Required? &&
                    e.tag == TagName(segs[i].parts[j].placeholder.tag))
            && (e.RequiredInFile? ==> exists i :: 0 <= i < |segs| && segs[i].File? && RequiredCount(segs[i].parts) == 0)
  {
    BuildTextSpec(segs, m, exfat);
    FirstProblemAt(segs, m);
    var i :| 0 <= i < |segs| && SegmentProblem(segs[i], m) == FirstProblem(segs, m);
    SegmentProblemKinds(segs, m, i);
  }

  lemma {:induction false} PresentProblem(segs: seq<FsComponent>, m: Metadata)
    requires AllPresent(segs, m)
    ensures FirstProblem(segs, m).Some? <==> exists i :: 0 <= i < |segs| && segs[i].File? && RequiredCount(segs[i].parts) == 0
    ensures FirstProblem(segs, m).Some? ==> FirstProblem(segs, m) == Some(RequiredInFile)
  {
    if segs != [] {
      var parts := segs[0].parts;
      assert forall j :: 0 <= j < |parts| && parts[j].Slot? ==> Present(m, parts[j].placeholder.tag) by {
        forall j | 0 <= j < |parts| && parts[j].Slot?
          ensures Present(m, parts[j].placeholder.tag)
        {
          assert segs[0].parts[j] == parts[j];
        }
      }
      assert FirstAbsent(parts, m, segs[0].File?).None?;
      var tail := segs[1..];
      assert AllPresent(tail, m) by {
        forall i, j | 0 <= i < |tail| && 0 <= j < |tail[i].parts| && tail[i].parts[j].Slot?
          ensures Present(m, tail[i].parts[j].placeholder.tag)
        {
          assert tail[i] == segs[i + 1];
        }
      }
      PresentProblem(tail, m);
      if exists i :: 0 <= i < |tail| && tail[i].File? && RequiredCount(tail[i].parts) == 0 {
        var i :| 0 <= i < |tail| && tail[i].File? && RequiredCount(tail[i].parts) == 0;
        assert segs[i + 1] == tail[i];
      }
      if exists i :: 0 <= i < |segs| && segs[i].File? && RequiredCount(segs[i].parts) == 0 {
        var i :| 0 <= i < |segs| && segs[i].File? && RequiredCount(segs[i].parts) == 0;
        if i > 0 {
          assert tail[i - 1] == segs[i];
        }
      }
    }
  }

  /** When every tag the template names is present, the build fails only for want of a required
      placeholder in the file segment, and then with `RequiredInFile`. */
  lemma {:induction false} PresentTagsRequiredInFile(segs: seq<FsComponent>, m: Metadata, exfat: bool)
    requires AllPresent(segs, m)
    ensures BuildText(segs, m, exfat).Failure? <==>
      exists i :: 0 <= i < |segs| && segs[i].File? && RequiredCount(segs[i].parts) == 0
    ensures BuildText(segs, m, exfat).Failure? ==> BuildText(segs, m, exfat).error == RequiredInFile
  {
    BuildTextSpec(segs, m, exfat);
    PresentProblem(segs, m);
  }

  /** A template that does not end open has no file segment, so its build never reports
      `RequiredInFile`. */
  lemma {:induction false} ClosedTemplateNoRequiredInFile(cs: seq<BasicComponent>, m: Metadata, exfat: bool)
    requires TailOk(cs) && !EndsOpen(cs)
    ensures BuildText(Segments(cs), m, exfat) != Failure(RequiredInFile)
  {
    var segs := Segments(cs);
    FileSegmentIff(cs);
    SegmentsWellCut(cs);
    assert forall i :: 0 <= i < |segs| ==> segs[i].Dir?;
    if BuildText(segs, m, exfat).Failure? {
      BuildErrors(segs, m, exfat);
    }
  }

  lemma SeqRegroup(a: seq<string>, b: seq<string>, c: seq<string>)
    ensures (a + b) + c == a + (b + c)
  {
  }

  /** The filled text of each segment. */
  function SegmentPieces(segs: seq<FsComponent>, m: Metadata, exfat: bool): (r: seq<string>)
    ensures |r| == |segs|
  {
    if segs == [] then [] else [FillAll(segs[0].parts, m, exfat)] + SegmentPieces(segs[1..], m, exfat)
  }

  lemma {:induction false} FillNoSlash(parts: seq<BasicComponent>, m: Metadata, exfat: bool)
    requires CleanParts(parts)
    ensures '/' !in FillAll(parts, m, exfat)
  {
    if parts != [] {
      var c := parts[0];
      if c.Slot? && Present(m, c.placeholder.tag) {
        ReplaceClean(TagText(m, c.placeholder.tag).value, exfat);
      }
      assert CleanParts(parts[1..]) by {
        assert forall i :: 0 <= i < |parts[1..]| ==> parts[1..][i] == parts[i + 1];
      }
      FillNoSlash(parts[1..], m, exfat);
    }
  }

  /** Filled values cannot smuggle in a separator: split at `/`, the built text gives back
      exactly one piece per segment, plus an empty last piece when the template has no file
      segment. */
  lemma {:induction false} FilledSplit(segs: seq<FsComponent>, m: Metadata, exfat: bool)
    requires WellCut(segs)
    ensures Split(Filled(segs, m, exfat), '/') ==
      SegmentPieces(segs, m, exfat) + (if HasFile(segs) then [] else [""])
  {
    if segs == [] {
    } else {
      var a := FillAll(segs[0].parts, m, exfat);
      FillNoSlash(segs[0].parts, m, exfat);
      var rest := segs[1..];
      if segs[0].Dir? {
        assert WellCut(rest) by {
          assert forall i :: 0 <= i < |rest| ==> rest[i] == segs[i + 1];
        }
        FilledSplit(rest, m, exfat);
        SplitAt(a, Filled(rest, m, exfat), '/');
        assert rest != [] ==> rest[|rest| - 1] == segs[|segs| - 1];
        var last: seq<string> := if HasFile(segs) then [] else [""];
        assert HasFile(rest) == HasFile(segs);
        var pieces := SegmentPieces(rest, m, exfat);
        assert SegmentPieces(segs, m, exfat) == [a] + pieces;
        SeqRegroup([a], pieces, last);
        assert Filled(segs, m, exfat) == a + ['/'] + Filled(rest, m, exfat);
      } else {
        assert |segs| == 1;
        SplitNoSep(a, '/');
        assert Filled(segs, m, exfat) == a + "" + "";
        assert a + "" + "" == a;
      }
    }
  }

  /** The built text starts with `/` exactly when the first segment is a directory that fills in
      nothing: the template starts with `/`, or every tag of its first directory is empty. */
  lemma {:induction false} FilledLeadingSlash(segs: seq<FsComponent>, m: Metadata, exfat: bool)
    requires WellCut(segs)
    ensures (|Filled(segs, m, exfat)| > 0 && Filled(segs, m, exfat)[0] == '/') <==>
            (|segs| > 0 && segs[0].Dir? && FillAll(segs[0].parts, m, exfat) == "")
  {
    if segs != [] {
      var a := FillAll(segs[0].parts, m, exfat);
      FillNoSlash(segs[0].parts, m, exfat);
      var rest := Filled(segs[1..], m, exfat);
      assert Filled(segs, m, exfat) == a + (if segs[0].Dir? then "/" else "") + rest;
      if a != "" {
        assert Filled(segs, m, exfat)[0] == a[0];
      } else if segs[0].File? {
        assert |segs| == 1;
        assert rest == "";
      } else {
        assert Filled(segs, m, exfat)[0] == '/';
      }
    }
  }

  /** Text without `/` is kept as it is outside exFAT mode. */
  lemma KeepClean(s: string)
    requires '/' !in s
    ensures Replace(s, false) == s
  {
  }
}
