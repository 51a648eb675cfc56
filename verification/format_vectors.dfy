/** The integration tests of format strings: each template is compiled from its text, as
    `from_str` compiles it, and the path a record fills it into is worked out from there. */
module FormatVectors {
  import opened Errors
  import opened Strings
  import opened Decimal
  import opened Parser
  import opened Meta
  import opened Format
  import opened Paths

  // ---------------------------------------------------------------------------------------
  // Compiling a template one component at a time

  /** Text that renders a well-formed component list compiles to that list's segments. */
  lemma CompileRendered(cs: seq<BasicComponent>, text: string)
    requires WellFormed(cs) && Render(cs) == text
    ensures Compile(text) == Success(ParsedFormat(Segments(cs), text))
  {
    RoundTrip(cs);
  }

  lemma NoTail(s: string)
    ensures s + "" == s
  {
  }

  lemma RenderFront(c: BasicComponent, cs: seq<BasicComponent>, front: string, back: string)
    requires RenderComponent(c) == front && Render(cs) == back
    ensures Render([c] + cs) == front + back
  {
    RenderPrepend(c, cs);
  }

  /** A placeholder joins the open segment. */
  lemma FoldSlotStep(p: Placeholder, cs: seq<BasicComponent>, acc: seq<BasicComponent>, done: seq<FsComponent>)
    ensures Fold([Slot(p)] + cs, acc, done) == Fold(cs, acc + [Slot(p)], done)
  {
    assert ([Slot(p)] + cs)[1..] == cs;
  }

  /** Literal text without `/` joins the open segment. */
  lemma FoldWordStep(t: string, cs: seq<BasicComponent>, acc: seq<BasicComponent>, done: seq<FsComponent>)
    requires t != "" && '/' !in t
    ensures Fold([Literal(t)] + cs, acc, done) == Fold(cs, acc + [Literal(t)], done)
  {
    assert ([Literal(t)] + cs)[1..] == cs;
    SplitNoSep(t, '/');
  }

  lemma SplitSlash(t: string)
    requires '/' !in t
    ensures Split("/" + t, '/') == ["", t]
  {
    SplitAt("", t, '/');
    assert "" + ['/'] + t == "/" + t;
    SplitNoSep(t, '/');
  }

  lemma CutSlash(t: string, acc: seq<BasicComponent>, done: seq<FsComponent>)
    ensures CutPieces(["", t], acc, done) == (PushPiece([], t), done + [Dir(acc)])
  {
    assert ["", t][1..] == [t];
    assert PushPiece(acc, "") == acc;
  }

  /** A `/` closes the open segment as a directory; the text after it opens the next one. */
  lemma FoldSlashStep(t: string, cs: seq<BasicComponent>, acc: seq<BasicComponent>, done: seq<FsComponent>)
    requires '/' !in t
    ensures Fold([Literal("/" + t)] + cs, acc, done) == Fold(cs, PushPiece([], t), done + [Dir(acc)])
  {
    assert ([Literal("/" + t)] + cs)[1..] == cs;
    SplitSlash(t);
    CutSlash(t, acc, done);
  }

  /** A placeholder followed by `/` is a directory of its own. */
  lemma DirStep(p: Placeholder, cs: seq<BasicComponent>, done: seq<FsComponent>)
    ensures Fold([Slot(p)] + ([Literal("/")] + cs), [], done) == Fold(cs, [], done + [Dir([Slot(p)])])
  {
    FoldSlotStep(p, [Literal("/")] + cs, [], done);
    assert [] + [Slot(p)] == [Slot(p)];
    assert "/" + "" == "/";
    FoldSlashStep("", cs, [Slot(p)], done);
    assert PushPiece([], "") == [];
  }

  /** What is still open at the end is the file segment. */
  lemma FoldEndStep(acc: seq<BasicComponent>, done: seq<FsComponent>)
    requires acc != []
    ensures Fold([], acc, done) == done + [File(acc)]
  {
  }

  // ---------------------------------------------------------------------------------------
  // Filling segments one at a time

  lemma FillAllFront(c: BasicComponent, cs: seq<BasicComponent>, m: Metadata, exfat: bool)
    ensures FillAll([c] + cs, m, exfat) == Fill(c, m, exfat) + FillAll(cs, m, exfat)
  {
    assert ([c] + cs)[1..] == cs;
  }

  lemma FilledFront(seg: FsComponent, segs: seq<FsComponent>, m: Metadata, exfat: bool)
    ensures Filled([seg] + segs, m, exfat) ==
            FillAll(seg.parts, m, exfat) + (if seg.Dir? then "/" else "") + Filled(segs, m, exfat)
  {
    assert ([seg] + segs)[1..] == segs;
  }

  lemma FirstProblemFront(seg: FsComponent, segs: seq<FsComponent>, m: Metadata)
    requires SegmentProblem(seg, m).None?
    ensures FirstProblem([seg] + segs, m) == FirstProblem(segs, m)
  {
    assert ([seg] + segs)[1..] == segs;
  }

  lemma ProblemFront(seg: FsComponent, segs: seq<FsComponent>, m: Metadata)
    requires SegmentProblem(seg, m).Some?
    ensures FirstProblem([seg] + segs, m) == SegmentProblem(seg, m)
  {
  }

  lemma FillAllOne(c: BasicComponent, m: Metadata, exfat: bool)
    ensures FillAll([c], m, exfat) == Fill(c, m, exfat)
  {
    assert [c][1..] == [];
    assert Fill(c, m, exfat) + "" == Fill(c, m, exfat);
  }

  lemma FilledLast(seg: FsComponent, m: Metadata, exfat: bool)
    requires seg.File?
    ensures Filled([seg], m, exfat) == FillAll(seg.parts, m, exfat)
  {
    assert [seg][1..] == [];
    assert FillAll(seg.parts, m, exfat) + "" + "" == FillAll(seg.parts, m, exfat);
  }

  lemma FirstProblemLast(seg: FsComponent, m: Metadata)
    ensures FirstProblem([seg], m) == SegmentProblem(seg, m)
  {
    assert [seg][1..] == [];
  }

  /** A present tag fills in its text as it is when that text has no `/`. */
  lemma FillTag(p: Placeholder, m: Metadata, v: string)
    requires TagText(m, p.tag) == Some(v) && '/' !in v
    ensures Fill(Slot(p), m, false) == v
  {
    KeepClean(v);
  }

  /** Disc and track 1 at width 0 fill in `1`. */
  lemma FillOne(t: Tag, m: Metadata)
    requires t == Disc(0) || t == Track(0)
    requires t.Disc? ==> m.disc == Some(1)
    requires t.Track? ==> m.track == Some(1)
    ensures TagText(m, t) == Some("1")
  {
    assert ToDecimal(1) == "1";
  }

  // ---------------------------------------------------------------------------------------
  // The pieces of text the templates are made of

  lemma Shown(p: Placeholder, shown: string)
    requires (p, shown) in {(Required(Artist), "{artist}"), (Required(Album), "{album}"), (Optional(Album), "{album?}"),
                            (Required(Title), "{title}"), (Optional(Title), "{title?}"), (Required(Ext), "{ext}")}
    ensures RenderComponent(Slot(p)) == shown
  {
  }

  lemma NumberShown(p: Placeholder, shown: string)
    requires (p, shown) in {(Required(Disc(0)), "{disc}"), (Required(Track(0)), "{track}")}
    ensures RenderComponent(Slot(p)) == shown
  {
  }

  // The texts of runs of components, joined.

  lemma SlashGlue(r: string)
    ensures "{artist}" + ("/" + r) == "{artist}/" + r
    ensures "{album}" + ("/" + r) == "{album}/" + r
    ensures "{album?}" + ("/" + r) == "{album?}/" + r
  {
  }

  lemma DiscTrackGlue(r: string)
    ensures "{disc}" + ("." + ("{track}" + (" - " + r))) == "{disc}.{track} - " + r
  {
  }

  lemma AlbumDashGlue(r: string)
    ensures "{album?}" + (" - " + r) == "{album?} - " + r
  {
  }

  lemma TitleExtGlue()
    ensures "{title?}" + ("." + ("{ext}" + "")) == "{title?}.{ext}"
    ensures "{title}" + ("." + ("{ext}" + "")) == "{title}.{ext}"
  {
  }

  lemma ArtistFooGlue()
    ensures "{artist}" + ("/foo." + ("{ext}" + "")) == "{artist}/foo.{ext}"
  {
  }

  // ---------------------------------------------------------------------------------------
  // The templates of the tests, built from named runs of components

  /** `{tag}/` in front of `rest`: a directory named by one placeholder. */
  function DirSlot(p: Placeholder, rest: seq<BasicComponent>): seq<BasicComponent>
  {
    [Slot(p)] + ([Literal("/")] + rest)
  }

  /** `{disc}.{track} - ` in front of `rest`. */
  function DiscTrack(rest: seq<BasicComponent>): seq<BasicComponent>
  {
    [Slot(Required(Disc(0)))] + ([Literal(".")] + ([Slot(Required(Track(0)))] + ([Literal(" - ")] + rest)))
  }

  /** `{album?} - ` in front of `rest`. */
  function AlbumDash(rest: seq<BasicComponent>): seq<BasicComponent>
  {
    [Slot(Optional(Album))] + ([Literal(" - ")] + rest)
  }

  /** `{title}.{ext}`, or `{title?}.{ext}` when the title is optional. */
  function TitleExt(optional: bool): seq<BasicComponent>
  {
    [Slot(if optional then Optional(Title) else Required(Title))] + ([Literal(".")] + ([Slot(Required(Ext))] + []))
  }

  /** `{album}`. */
  function AlbumOnly(): seq<BasicComponent>
  {
    [Slot(Required(Album))] + []
  }

  /** `{artist}/foo.{ext}`. */
  function ArtistFoo(): seq<BasicComponent>
  {
    [Slot(Required(Artist))] + ([Literal("/foo.")] + ([Slot(Required(Ext))] + []))
  }

  lemma DirSlotText(p: Placeholder, shown: string, rest: seq<BasicComponent>)
    requires (p, shown) in {(Required(Artist), "{artist}/"), (Required(Album), "{album}/"), (Optional(Album), "{album?}/")}
    requires TailOk(rest) && rest != [] && rest[0].Slot?
    ensures TailOk(DirSlot(p, rest)) && Render(DirSlot(p, rest)) == shown + Render(rest)
  {
    var slash := [Literal("/")] + rest;
    TailOkCons(Literal("/"), rest);
    TailOkCons(Slot(p), slash);
    RenderPrepend(Literal("/"), rest);
    RenderPrepend(Slot(p), slash);
    var name := if p == Required(Artist) then "{artist}" else if p == Required(Album) then "{album}" else "{album?}";
    Shown(p, name);
    SlashGlue(Render(rest));
  }

  lemma DiscTrackText(rest: seq<BasicComponent>)
    requires TailOk(rest) && rest != [] && rest[0].Slot?
    ensures TailOk(DiscTrack(rest)) && Render(DiscTrack(rest)) == "{disc}.{track} - " + Render(rest)
  {
    var disc, track := Slot(Required(Disc(0))), Slot(Required(Track(0)));
    var c3 := [Literal(" - ")] + rest;
    var c2 := [track] + c3;
    var c1 := [Literal(".")] + c2;
    TailOkCons(Literal(" - "), rest);
    TailOkCons(track, c3);
    TailOkCons(Literal("."), c2);
    TailOkCons(disc, c1);
    NumberShown(Required(Disc(0)), "{disc}");
    NumberShown(Required(Track(0)), "{track}");
    RenderPrepend(Literal(" - "), rest);
    RenderPrepend(track, c3);
    RenderPrepend(Literal("."), c2);
    RenderPrepend(disc, c1);
    DiscTrackGlue(Render(rest));
  }

  lemma DiscTrackFold(rest: seq<BasicComponent>, acc: seq<BasicComponent>, done: seq<FsComponent>)
    ensures Fold(DiscTrack(rest), acc, done) ==
            Fold(rest, acc + [Slot(Required(Disc(0))), Literal("."), Slot(Required(Track(0))), Literal(" - ")], done)
  {
    var disc, track := Slot(Required(Disc(0))), Slot(Required(Track(0)));
    var c3 := [Literal(" - ")] + rest;
    var c2 := [track] + c3;
    var c1 := [Literal(".")] + c2;
    FoldSlotStep(Required(Disc(0)), c1, acc, done);
    FoldWordStep(".", c2, acc + [disc], done);
    FoldSlotStep(Required(Track(0)), c3, acc + [disc] + [Literal(".")], done);
    FoldWordStep(" - ", rest, acc + [disc] + [Literal(".")] + [track], done);
    assert acc + [disc] + [Literal(".")] + [track] + [Literal(" - ")] == acc + [disc, Literal("."), track, Literal(" - ")];
  }

  lemma AlbumDashText(rest: seq<BasicComponent>)
    requires TailOk(rest) && rest != [] && rest[0].Slot?
    ensures TailOk(AlbumDash(rest)) && Render(AlbumDash(rest)) == "{album?} - " + Render(rest)
  {
    var album := Slot(Optional(Album));
    var c1 := [Literal(" - ")] + rest;
    TailOkCons(Literal(" - "), rest);
    TailOkCons(album, c1);
    Shown(Optional(Album), "{album?}");
    RenderPrepend(Literal(" - "), rest);
    RenderPrepend(album, c1);
    AlbumDashGlue(Render(rest));
  }

  lemma AlbumDashFold(rest: seq<BasicComponent>, acc: seq<BasicComponent>, done: seq<FsComponent>)
    ensures Fold(AlbumDash(rest), acc, done) == Fold(rest, acc + [Slot(Optional(Album)), Literal(" - ")], done)
  {
    var album := Slot(Optional(Album));
    var c1 := [Literal(" - ")] + rest;
    FoldSlotStep(Optional(Album), c1, acc, done);
    FoldWordStep(" - ", rest, acc + [album], done);
    assert acc + [album] + [Literal(" - ")] == acc + [album, Literal(" - ")];
  }

  lemma TitleExtText(optional: bool)
    ensures TailOk(TitleExt(optional)) && TitleExt(optional)[0].Slot?
    ensures Render(TitleExt(optional)) == if optional then "{title?}.{ext}" else "{title}.{ext}"
  {
    var p := if optional then Optional(Title) else Required(Title);
    var title, ext := Slot(p), Slot(Required(Ext));
    var c2: seq<BasicComponent> := [ext] + [];
    var c1 := [Literal(".")] + c2;
    TailOkCons(ext, []);
    TailOkCons(Literal("."), c2);
    TailOkCons(title, c1);
    Shown(p, if optional then "{title?}" else "{title}");
    Shown(Required(Ext), "{ext}");
    RenderPrepend(ext, []);
    RenderPrepend(Literal("."), c2);
    RenderPrepend(title, c1);
    TitleExtGlue();
  }

  lemma TitleExtFold(optional: bool, acc: seq<BasicComponent>, done: seq<FsComponent>)
    ensures Fold(TitleExt(optional), acc, done) ==
            done + [File(acc + [Slot(if optional then Optional(Title) else Required(Title)), Literal("."), Slot(Required(Ext))])]
  {
    var p := if optional then Optional(Title) else Required(Title);
    var title, ext := Slot(p), Slot(Required(Ext));
    var c2: seq<BasicComponent> := [ext] + [];
    var c1 := [Literal(".")] + c2;
    FoldSlotStep(p, c1, acc, done);
    FoldWordStep(".", c2, acc + [title], done);
    FoldSlotStep(Required(Ext), [], acc + [title] + [Literal(".")], done);
    FoldEndStep(acc + [title] + [Literal(".")] + [ext], done);
    assert acc + [title] + [Literal(".")] + [ext] == acc + [title, Literal("."), ext];
  }

  lemma AlbumOnlyFacts(acc: seq<BasicComponent>, done: seq<FsComponent>)
    ensures TailOk(AlbumOnly()) && AlbumOnly()[0].Slot? && Render(AlbumOnly()) == "{album}"
    ensures Fold(AlbumOnly(), acc, done) == done + [File(acc + [Slot(Required(Album))])]
  {
    TailOkCons(Slot(Required(Album)), []);
    Shown(Required(Album), "{album}");
    RenderPrepend(Slot(Required(Album)), []);
    FoldSlotStep(Required(Album), [], acc, done);
    FoldEndStep(acc + [Slot(Required(Album))], done);
  }

  lemma ArtistFooText()
    ensures WellFormed(ArtistFoo()) && Render(ArtistFoo()) == "{artist}/foo.{ext}"
  {
    var artist, ext := Slot(Required(Artist)), Slot(Required(Ext));
    var c2: seq<BasicComponent> := [ext] + [];
    var c1 := [Literal("/foo.")] + c2;
    TailOkCons(ext, []);
    TailOkCons(Literal("/foo."), c2);
    TailOkCons(artist, c1);
    Shown(Required(Artist), "{artist}");
    Shown(Required(Ext), "{ext}");
    RenderPrepend(ext, []);
    RenderPrepend(Literal("/foo."), c2);
    RenderPrepend(artist, c1);
    ArtistFooGlue();
  }

  lemma ArtistFooSegments()
    ensures Segments(ArtistFoo()) == [Dir([Slot(Required(Artist))]), File([Literal("foo."), Slot(Required(Ext))])]
  {
    var artist, ext := Slot(Required(Artist)), Slot(Required(Ext));
    var c2: seq<BasicComponent> := [ext] + [];
    var c1 := [Literal("/foo.")] + c2;
    FoldSlotStep(Required(Artist), c1, [], []);
    assert "/" + "foo." == "/foo.";
    FoldSlashStep("foo.", c2, [] + [artist], []);
    assert PushPiece([], "foo.") == [Literal("foo.")];
    FoldSlotStep(Required(Ext), [], [Literal("foo.")], [] + [Dir([] + [artist])]);
    FoldEndStep([Literal("foo.")] + [ext], [] + [Dir([] + [artist])]);
    assert [] + [artist] == [artist];
    assert [Literal("foo.")] + [ext] == [Literal("foo."), ext];
    assert [] + [Dir([artist])] + [File([Literal("foo."), ext])] == [Dir([artist]), File([Literal("foo."), ext])];
  }

  // ---------------------------------------------------------------------------------------
  // The templates, compiled

  lemma CompleteGlue(x: string)
    ensures "{artist}/" + ("{album}/" + ("{disc}.{track} - " + ("{title}.{ext}" + x))) ==
            "{artist}/{album}/{disc}.{track} - {title}.{ext}" + x
  {
    DirsGlue("{disc}.{track} - " + ("{title}.{ext}" + x));
    FileGlue(x);
    CompleteJoin(x);
  }

  lemma DirsGlue(y: string)
    ensures "{artist}/" + ("{album}/" + y) == "{artist}/{album}/" + y
  {
  }

  lemma FileGlue(x: string)
    ensures "{disc}.{track} - " + ("{title}.{ext}" + x) == "{disc}.{track} - {title}.{ext}" + x
  {
  }

  lemma CompleteJoin(x: string)
    ensures "{artist}/{album}/" + ("{disc}.{track} - {title}.{ext}" + x) ==
            "{artist}/{album}/{disc}.{track} - {title}.{ext}" + x
  {
  }

  lemma PartialGlue(x: string)
    ensures "{artist}/" + ("{disc}.{track} - " + ("{title}.{ext}" + x)) == "{artist}/{disc}.{track} - {title}.{ext}" + x
  {
  }

  lemma ArtistAlbumGlue(x: string)
    ensures "{artist}/" + ("{album}" + x) == "{artist}/{album}" + x
  {
  }

  lemma AlbumInFileGlue(x: string)
    ensures "{artist}/" + ("{album?} - " + ("{title}.{ext}" + x)) == "{artist}/{album?} - {title}.{ext}" + x
  {
  }

  lemma AlbumInDirGlue(x: string)
    ensures "{artist}/" + ("{album?}/" + ("{title}.{ext}" + x)) == "{artist}/{album?}/{title}.{ext}" + x
  {
  }

  lemma OptionalTitleGlue(x: string)
    ensures "{artist}/" + ("{title?}.{ext}" + x) == "{artist}/{title?}.{ext}" + x
  {
  }

  /** `{artist}/{album}`. */
  const ArtistAlbum := DirSlot(Required(Artist), AlbumOnly())

  /** `{artist}/{album}/{disc}.{track} - {title}.{ext}`. */
  const Complete := DirSlot(Required(Artist), DirSlot(Required(Album), DiscTrack(TitleExt(false))))

  /** `{artist}/{disc}.{track} - {title}.{ext}`. */
  const Partial := DirSlot(Required(Artist), DiscTrack(TitleExt(false)))

  /** `{artist}/{album?} - {title}.{ext}`. */
  const AlbumInFile := DirSlot(Required(Artist), AlbumDash(TitleExt(false)))

  /** `{artist}/{album?}/{title}.{ext}`. */
  const AlbumInDir := DirSlot(Required(Artist), DirSlot(Optional(Album), TitleExt(false)))

  /** `{artist}/{title?}.{ext}`. */
  const OptionalTitle := DirSlot(Required(Artist), TitleExt(true))

  lemma ArtistAlbumText()
    ensures WellFormed(ArtistAlbum) && Render(ArtistAlbum) == "{artist}/" + "{album}"
  {
    AlbumOnlyFacts([], []);
    DirSlotText(Required(Artist), "{artist}/", AlbumOnly());
  }

  lemma ArtistAlbumSegments()
    ensures Segments(ArtistAlbum) == [Dir([Slot(Required(Artist))]), File([Slot(Required(Album))])]
  {
    var dirs := [Dir([Slot(Required(Artist))])];
    DirStep(Required(Artist), AlbumOnly(), []);
    assert [] + dirs == dirs;
    AlbumOnlyFacts([], dirs);
    assert [] + [Slot(Required(Album))] == [Slot(Required(Album))];
  }

  /** `from_str` on `{artist}/{album}`: the artist directory and a file named by the album. */
  lemma ArtistAlbumCompiles(text: string)
    requires text == "{artist}/{album}"
    ensures Compile(text) == Success(ParsedFormat([Dir([Slot(Required(Artist))]), File([Slot(Required(Album))])], text))
  {
    ArtistAlbumText();
    ArtistAlbumGlue("");
    NoTail("{album}");
    NoTail(text);
    ArtistAlbumSegments();
    CompileRendered(ArtistAlbum, text);
  }

  lemma CompleteText()
    ensures WellFormed(Complete) && Render(Complete) == "{artist}/" + ("{album}/" + ("{disc}.{track} - " + "{title}.{ext}"))
  {
    var file := DiscTrack(TitleExt(false));
    TitleExtText(false);
    DiscTrackText(TitleExt(false));
    DirSlotText(Required(Album), "{album}/", file);
    DirSlotText(Required(Artist), "{artist}/", DirSlot(Required(Album), file));
  }

  /** The file `{disc}.{track} - {title}.{ext}` closes the segments after `done`. */
  lemma NumberFileFold(done: seq<FsComponent>)
    ensures Fold(DiscTrack(TitleExt(false)), [], done) ==
      done + [File([Slot(Required(Disc(0))), Literal("."), Slot(Required(Track(0))), Literal(" - "),
                    Slot(Required(Title)), Literal("."), Slot(Required(Ext))])]
  {
    var front := [Slot(Required(Disc(0))), Literal("."), Slot(Required(Track(0))), Literal(" - ")];
    DiscTrackFold(TitleExt(false), [], done);
    assert [] + front == front;
    TitleExtFold(false, front, done);
    assert front + [Slot(Required(Title)), Literal("."), Slot(Required(Ext))] ==
      [Slot(Required(Disc(0))), Literal("."), Slot(Required(Track(0))), Literal(" - "),
       Slot(Required(Title)), Literal("."), Slot(Required(Ext))];
  }

  /** Two directory placeholders in a row open two directory segments. */
  lemma TwoDirsFold(p: Placeholder, q: Placeholder, cs: seq<BasicComponent>)
    ensures Fold(DirSlot(p, DirSlot(q, cs)), [], []) == Fold(cs, [], [Dir([Slot(p)]), Dir([Slot(q)])])
  {
    DirStep(p, DirSlot(q, cs), []);
    DirStep(q, cs, [] + [Dir([Slot(p)])]);
    assert [] + [Dir([Slot(p)])] + [Dir([Slot(q)])] == [Dir([Slot(p)]), Dir([Slot(q)])];
  }

  lemma CompleteSegments()
    ensures Segments(Complete) ==
      [Dir([Slot(Required(Artist))]), Dir([Slot(Required(Album))]),
       File([Slot(Required(Disc(0))), Literal("."), Slot(Required(Track(0))), Literal(" - "),
             Slot(Required(Title)), Literal("."), Slot(Required(Ext))])]
  {
    TwoDirsFold(Required(Artist), Required(Album), DiscTrack(TitleExt(false)));
    NumberFileFold([Dir([Slot(Required(Artist))]), Dir([Slot(Required(Album))])]);
  }

  /** `from_str` on `{artist}/{album}/{disc}.{track} - {title}.{ext}`: the artist and album
      directories and a file named by disc, track and title. */
  lemma CompleteCompiles(text: string)
    requires text == "{artist}/{album}/{disc}.{track} - {title}.{ext}"
    ensures Compile(text) == Success(ParsedFormat(
      [Dir([Slot(Required(Artist))]), Dir([Slot(Required(Album))]),
       File([Slot(Required(Disc(0))), Literal("."), Slot(Required(Track(0))), Literal(" - "),
             Slot(Required(Title)), Literal("."), Slot(Required(Ext))])],
      text))
  {
    CompleteText();
    CompleteGlue("");
    NoTail("{title}.{ext}");
    NoTail(text);
    CompleteSegments();
    CompileRendered(Complete, text);
  }

  lemma PartialText()
    ensures WellFormed(Partial) && Render(Partial) == "{artist}/" + ("{disc}.{track} - " + "{title}.{ext}")
  {
    TitleExtText(false);
    DiscTrackText(TitleExt(false));
    DirSlotText(Required(Artist), "{artist}/", DiscTrack(TitleExt(false)));
  }

  lemma PartialSegments()
    ensures Segments(Partial) ==
      [Dir([Slot(Required(Artist))]),
       File([Slot(Required(Disc(0))), Literal("."), Slot(Required(Track(0))), Literal(" - "),
             Slot(Required(Title)), Literal("."), Slot(Required(Ext))])]
  {
    var dirs := [Dir([Slot(Required(Artist))])];
    DirStep(Required(Artist), DiscTrack(TitleExt(false)), []);
    assert [] + dirs == dirs;
    NumberFileFold(dirs);
  }

  /** `from_str` on `{artist}/{disc}.{track} - {title}.{ext}`: the artist directory and a file
      named by disc, track and title. */
  lemma PartialCompiles(text: string)
    requires text == "{artist}/{disc}.{track} - {title}.{ext}"
    ensures Compile(text) == Success(ParsedFormat(
      [Dir([Slot(Required(Artist))]),
       File([Slot(Required(Disc(0))), Literal("."), Slot(Required(Track(0))), Literal(" - "),
             Slot(Required(Title)), Literal("."), Slot(Required(Ext))])],
      text))
  {
    PartialText();
    PartialGlue("");
    NoTail("{title}.{ext}");
    NoTail(text);
    PartialSegments();
    CompileRendered(Partial, text);
  }

  lemma AlbumInFileText()
    ensures WellFormed(AlbumInFile) && Render(AlbumInFile) == "{artist}/" + ("{album?} - " + "{title}.{ext}")
  {
    TitleExtText(false);
    AlbumDashText(TitleExt(false));
    DirSlotText(Required(Artist), "{artist}/", AlbumDash(TitleExt(false)));
  }

  lemma AlbumInFileSegments()
    ensures Segments(AlbumInFile) ==
      [Dir([Slot(Required(Artist))]),
       File([Slot(Optional(Album)), Literal(" - "), Slot(Required(Title)), Literal("."), Slot(Required(Ext))])]
  {
    var dirs := [Dir([Slot(Required(Artist))])];
    var front := [Slot(Optional(Album)), Literal(" - ")];
    DirStep(Required(Artist), AlbumDash(TitleExt(false)), []);
    assert [] + dirs == dirs;
    AlbumDashFold(TitleExt(false), [], dirs);
    assert [] + front == front;
    TitleExtFold(false, front, dirs);
    assert front + [Slot(Required(Title)), Literal("."), Slot(Required(Ext))] ==
      [Slot(Optional(Album)), Literal(" - "), Slot(Required(Title)), Literal("."), Slot(Required(Ext))];
  }

  /** `from_str` on `{artist}/{album?} - {title}.{ext}`: the artist directory and a file named
      by the optional album and the title. */
  lemma AlbumInFileCompiles(text: string)
    requires text == "{artist}/{album?} - {title}.{ext}"
    ensures Compile(text) == Success(ParsedFormat(
      [Dir([Slot(Required(Artist))]),
       File([Slot(Optional(Album)), Literal(" - "), Slot(Required(Title)), Literal("."), Slot(Required(Ext))])],
      text))
  {
    AlbumInFileText();
    AlbumInFileGlue("");
    NoTail("{title}.{ext}");
    NoTail(text);
    AlbumInFileSegments();
    CompileRendered(AlbumInFile, text);
  }

  lemma AlbumInDirText()
    ensures WellFormed(AlbumInDir) && Render(AlbumInDir) == "{artist}/" + ("{album?}/" + "{title}.{ext}")
  {
    TitleExtText(false);
    DirSlotText(Optional(Album), "{album?}/", TitleExt(false));
    DirSlotText(Required(Artist), "{artist}/", DirSlot(Optional(Album), TitleExt(false)));
  }

  lemma AlbumInDirSegments()
    ensures Segments(AlbumInDir) ==
      [Dir([Slot(Required(Artist))]), Dir([Slot(Optional(Album))]),
       File([Slot(Required(Title)), Literal("."), Slot(Required(Ext))])]
  {
    var file := TitleExt(false);
    var dirs := [Dir([Slot(Required(Artist))]), Dir([Slot(Optional(Album))])];
    DirStep(Required(Artist), DirSlot(Optional(Album), file), []);
    DirStep(Optional(Album), file, [] + [Dir([Slot(Required(Artist))])]);
    assert [] + [Dir([Slot(Required(Artist))])] + [Dir([Slot(Optional(Album))])] == dirs;
    TitleExtFold(false, [], dirs);
    assert [] + [Slot(Required(Title)), Literal("."), Slot(Required(Ext))] ==
      [Slot(Required(Title)), Literal("."), Slot(Required(Ext))];
  }

  /** `from_str` on `{artist}/{album?}/{title}.{ext}`: the artist directory, a directory named
      by the optional album and a file named by the title. */
  lemma AlbumInDirCompiles(text: string)
    requires text == "{artist}/{album?}/{title}.{ext}"
    ensures Compile(text) == Success(ParsedFormat(
      [Dir([Slot(Required(Artist))]), Dir([Slot(Optional(Album))]),
       File([Slot(Required(Title)), Literal("."), Slot(Required(Ext))])],
      text))
  {
    AlbumInDirText();
    AlbumInDirGlue("");
    NoTail("{title}.{ext}");
    NoTail(text);
    AlbumInDirSegments();
    CompileRendered(AlbumInDir, text);
  }

  lemma OptionalTitleText()
    ensures WellFormed(OptionalTitle) && Render(OptionalTitle) == "{artist}/" + "{title?}.{ext}"
  {
    TitleExtText(true);
    DirSlotText(Required(Artist), "{artist}/", TitleExt(true));
  }

  lemma OptionalTitleSegments()
    ensures Segments(OptionalTitle) ==
      [Dir([Slot(Required(Artist))]), File([Slot(Optional(Title)), Literal("."), Slot(Required(Ext))])]
  {
    var dirs := [Dir([Slot(Required(Artist))])];
    DirStep(Required(Artist), TitleExt(true), []);
    assert [] + dirs == dirs;
    TitleExtFold(true, [], dirs);
    assert [] + [Slot(Optional(Title)), Literal("."), Slot(Required(Ext))] ==
      [Slot(Optional(Title)), Literal("."), Slot(Required(Ext))];
  }

  /** `from_str` on `{artist}/{title?}.{ext}`: the artist directory and a file named by the
      optional title. */
  lemma OptionalTitleCompiles(text: string)
    requires text == "{artist}/{title?}.{ext}"
    ensures Compile(text) == Success(ParsedFormat(
      [Dir([Slot(Required(Artist))]), File([Slot(Optional(Title)), Literal("."), Slot(Required(Ext))])],
      text))
  {
    OptionalTitleText();
    OptionalTitleGlue("");
    NoTail("{title?}.{ext}");
    NoTail(text);
    OptionalTitleSegments();
    CompileRendered(OptionalTitle, text);
  }

  /** `from_str` on `{artist}/foo.{ext}`: the artist directory and a file of literal text and
      the extension. */
  lemma LiteralFileCompiles(text: string)
    requires text == "{artist}/foo.{ext}"
    ensures Compile(text) == Success(ParsedFormat([Dir([Slot(Required(Artist))]), File([Literal("foo."), Slot(Required(Ext))])], text))
  {
    ArtistFooText();
    ArtistFooSegments();
    CompileRendered(ArtistFoo(), text);
  }

  // ---------------------------------------------------------------------------------------
  // Checking and filling the compiled segments

  /** A directory of one placeholder whose tag is present has no problem. */
  lemma DirOk(p: Placeholder, m: Metadata)
    requires Present(m, p.tag)
    ensures SegmentProblem(Dir([Slot(p)]), m).None?
  {
    var d := [Slot(p)];
    forall j | 0 <= j < |d| && d[j].Slot?
      ensures Present(m, d[j].placeholder.tag)
    {
      assert j == 0;
    }
  }

  /** One required placeholder other than the extension is enough for a file segment. */
  lemma RequiredAt(f: seq<BasicComponent>, j: int)
    requires 0 <= j < |f| && f[j].Slot? && Counts(f[j].placeholder)
    ensures RequiredCount(f) > 0
    decreases j
  {
    if j > 0 && !(f[0].Slot? && Counts(f[0].placeholder)) {
      assert f[1..][j - 1] == f[j];
      RequiredAt(f[1..], j - 1);
    }
  }

  /** A file segment whose required tags are present and which has a required placeholder
      other than the extension has no problem. */
  lemma FileOk(f: seq<BasicComponent>, m: Metadata, j: int)
    requires forall i :: 0 <= i < |f| && f[i].Slot? && f[i].placeholder.Required? ==> Present(m, f[i].placeholder.tag)
    requires 0 <= j < |f| && f[j].Slot? && Counts(f[j].placeholder)
    ensures SegmentProblem(File(f), m).None?
  {
    RequiredAt(f, j);
  }

  lemma FillAllAt(parts: seq<BasicComponent>, k: int, m: Metadata, exfat: bool)
    requires 0 <= k < |parts|
    ensures FillAll(parts[k..], m, exfat) == Fill(parts[k], m, exfat) + FillAll(parts[k + 1..], m, exfat)
  {
    assert parts[k..][1..] == parts[k + 1..];
  }

  /** `{title}.{ext}`, or `.{ext}` when the title is absent, filled from a record. */
  lemma TitleExtFill(f: seq<BasicComponent>, m: Metadata, title: string)
    requires |f| >= 3 && f[|f| - 3].Slot? && f[|f| - 3].placeholder.tag == Title
    requires f[|f| - 2] == Literal(".") && f[|f| - 1] == Slot(Required(Ext))
    requires (if m.title.Some? then m.title.value else "") == title
    requires '/' !in title && '/' !in m.ext
    ensures FillAll(f[|f| - 3..], m, false) == title + ("." + m.ext)
  {
    var n := |f|;
    if m.title.Some? {
      FillTag(f[n - 3].placeholder, m, title);
    }
    FillTag(Required(Ext), m, m.ext);
    FillAllAt(f, n - 1, m, false);
    assert f[n..] == [];
    NoTail(m.ext);
    FillAllAt(f, n - 2, m, false);
    FillAllAt(f, n - 3, m, false);
  }

  lemma FilledTwo(d: FsComponent, f: FsComponent, m: Metadata, exfat: bool)
    requires d.Dir? && f.File?
    ensures Filled([d, f], m, exfat) == FillAll(d.parts, m, exfat) + "/" + FillAll(f.parts, m, exfat)
  {
    FilledFront(d, [f], m, exfat);
    assert [d, f] == [d] + [f];
    FilledLast(f, m, exfat);
  }

  lemma FirstProblemTwo(d: FsComponent, f: FsComponent, m: Metadata)
    requires SegmentProblem(d, m).None?
    ensures FirstProblem([d, f], m) == SegmentProblem(f, m)
  {
    FirstProblemFront(d, [f], m);
    assert [d, f] == [d] + [f];
    FirstProblemLast(f, m);
  }

  lemma FilledThree(d: FsComponent, e: FsComponent, f: FsComponent, m: Metadata, exfat: bool)
    requires d.Dir? && e.Dir? && f.File?
    ensures Filled([d, e, f], m, exfat) ==
            FillAll(d.parts, m, exfat) + "/" + (FillAll(e.parts, m, exfat) + "/" + FillAll(f.parts, m, exfat))
  {
    FilledFront(d, [e, f], m, exfat);
    assert [d, e, f] == [d] + [e, f];
    FilledTwo(e, f, m, exfat);
  }

  lemma FirstProblemThree(d: FsComponent, e: FsComponent, f: FsComponent, m: Metadata)
    requires SegmentProblem(d, m).None?
    ensures FirstProblem([d, e, f], m) == FirstProblem([e, f], m)
  {
    FirstProblemFront(d, [e, f], m);
    assert [d, e, f] == [d] + [e, f];
  }

  // ---------------------------------------------------------------------------------------
  // Building from the compiled segments

  lemma AlbumInDirBuild(m: Metadata, exfat: bool)
    requires m.artist.Some? && m.album.None?
    ensures BuildText([Dir([Slot(Required(Artist))]), Dir([Slot(Optional(Album))]),
                       File([Slot(Required(Title)), Literal("."), Slot(Required(Ext))])], m, exfat) ==
            Failure(OptionalInDir)
  {
    var d, e := Dir([Slot(Required(Artist))]), Dir([Slot(Optional(Album))]);
    var f := File([Slot(Required(Title)), Literal("."), Slot(Required(Ext))]);
    BuildTextSpec([d, e, f], m, exfat);
    DirOk(Required(Artist), m);
    FirstProblemThree(d, e, f, m);
    assert FirstAbsent(e.parts, m, false) == Some(Optional(Album));
    ProblemFront(e, [f], m);
    assert [e, f] == [e] + [f];
  }

  lemma OptionalTitleBuild(m: Metadata, exfat: bool)
    requires m.artist.Some?
    ensures BuildText([Dir([Slot(Required(Artist))]),
                       File([Slot(Optional(Title)), Literal("."), Slot(Required(Ext))])], m, exfat) ==
            Failure(RequiredInFile)
  {
    var d := Dir([Slot(Required(Artist))]);
    var f := [Slot(Optional(Title)), Literal("."), Slot(Required(Ext))];
    BuildTextSpec([d, File(f)], m, exfat);
    DirOk(Required(Artist), m);
    FirstProblemTwo(d, File(f), m);
    NoRequiredTitle(f, m);
  }

  lemma NoRequiredTitle(f: seq<BasicComponent>, m: Metadata)
    requires f == [Slot(Optional(Title)), Literal("."), Slot(Required(Ext))]
    ensures SegmentProblem(File(f), m) == Some(RequiredInFile)
  {
    assert FirstAbsent(f, m, true).None?;
    assert f[1..][1..] == [Slot(Required(Ext))];
    assert f[1..][1..][1..] == [];
    assert !Counts(Required(Ext)) && !Counts(Optional(Title));
    assert RequiredCount(f[1..][1..]) == 0;
    assert RequiredCount(f[1..]) == 0;
    assert RequiredCount(f) == 0;
  }

  lemma LiteralFileBuild(m: Metadata, exfat: bool)
    requires m.artist.Some?
    ensures BuildText([Dir([Slot(Required(Artist))]), File([Literal("foo."), Slot(Required(Ext))])], m, exfat) ==
            Failure(RequiredInFile)
  {
    var d := Dir([Slot(Required(Artist))]);
    var f := [Literal("foo."), Slot(Required(Ext))];
    BuildTextSpec([d, File(f)], m, exfat);
    DirOk(Required(Artist), m);
    FirstProblemTwo(d, File(f), m);
    assert FirstAbsent(f, m, true).None?;
    assert f[1..][1..] == [];
    assert RequiredCount(f) == 0;
  }

  lemma ArtistAlbumBuild(m: Metadata, exfat: bool)
    requires m.artist.Some? && m.album.None?
    ensures BuildText([Dir([Slot(Required(Artist))]), File([Slot(Required(Album))])], m, exfat) ==
            Failure(MissingTag("album"))
  {
    var d, f := Dir([Slot(Required(Artist))]), File([Slot(Required(Album))]);
    BuildTextSpec([d, f], m, exfat);
    DirOk(Required(Artist), m);
    FirstProblemTwo(d, f, m);
    assert FirstAbsent(f.parts, m, true) == Some(Required(Album));
  }

  /** The file name `{album?} - {title}.{ext}`. */
  lemma AlbumDashFill(f: seq<BasicComponent>, m: Metadata, album: string, title: string)
    requires f == [Slot(Optional(Album)), Literal(" - "), Slot(Required(Title)), Literal("."), Slot(Required(Ext))]
    requires m.title == Some(title) && (if m.album.Some? then m.album.value else "") == album
    requires '/' !in album && '/' !in title && '/' !in m.ext
    ensures SegmentProblem(File(f), m).None?
    ensures FillAll(f, m, false) == album + (" - " + (title + ("." + m.ext)))
  {
    FileOk(f, m, 2);
    TitleExtFill(f, m, title);
    assert f[|f| - 3..] == f[2..];
    FillAllAt(f, 1, m, false);
    FillAllAt(f, 0, m, false);
    if m.album.Some? {
      FillTag(Optional(Album), m, album);
    }
    assert Fill(f[0], m, false) == album;
    assert f[0..] == f;
  }

  lemma AlbumInFileBuild(m: Metadata, artist: string, album: string, title: string)
    requires m.artist == Some(artist) && m.title == Some(title) && (if m.album.Some? then m.album.value else "") == album
    requires '/' !in artist && '/' !in album && '/' !in title && '/' !in m.ext
    ensures BuildText([Dir([Slot(Required(Artist))]),
                       File([Slot(Optional(Album)), Literal(" - "), Slot(Required(Title)), Literal("."), Slot(Required(Ext))])],
                      m, false) ==
            Success(artist + "/" + (album + (" - " + (title + ("." + m.ext)))))
  {
    var a := Slot(Required(Artist));
    var f := [Slot(Optional(Album)), Literal(" - "), Slot(Required(Title)), Literal("."), Slot(Required(Ext))];
    BuildTextSpec([Dir([a]), File(f)], m, false);
    DirOk(Required(Artist), m);
    FirstProblemTwo(Dir([a]), File(f), m);
    AlbumDashFill(f, m, album, title);
    FilledTwo(Dir([a]), File(f), m, false);
    FillTag(Required(Artist), m, artist);
    FillAllOne(a, m, false);
  }

  /** The file name `{disc}.{track} - {title}.{ext}` on a record with these tags. */
  lemma NumberFill(f: seq<BasicComponent>, m: Metadata, disc: string, track: string, title: string)
    requires |f| == 7 && f[0] == Slot(Required(Disc(0))) && f[1] == Literal(".") && f[2] == Slot(Required(Track(0)))
    requires f[3] == Literal(" - ") && f[4] == Slot(Required(Title)) && f[5] == Literal(".") && f[6] == Slot(Required(Ext))
    requires TagText(m, Disc(0)) == Some(disc) && TagText(m, Track(0)) == Some(track) && m.title == Some(title)
    requires '/' !in disc && '/' !in track && '/' !in title && '/' !in m.ext
    ensures SegmentProblem(File(f), m).None?
    ensures FillAll(f, m, false) == disc + ("." + (track + (" - " + (title + ("." + m.ext)))))
  {
    NumberOk(f, m);
    NumberFillText(f, m, disc, track, title);
  }

  lemma NumberOk(f: seq<BasicComponent>, m: Metadata)
    requires |f| == 7 && f[0] == Slot(Required(Disc(0))) && f[1] == Literal(".") && f[2] == Slot(Required(Track(0)))
    requires f[3] == Literal(" - ") && f[4] == Slot(Required(Title)) && f[5] == Literal(".") && f[6] == Slot(Required(Ext))
    requires m.disc.Some? && m.track.Some? && m.title.Some?
    ensures SegmentProblem(File(f), m).None?
  {
    FileOk(f, m, 0);
  }

  lemma NumberFillText(f: seq<BasicComponent>, m: Metadata, disc: string, track: string, title: string)
    requires |f| == 7 && f[0] == Slot(Required(Disc(0))) && f[1] == Literal(".") && f[2] == Slot(Required(Track(0)))
    requires f[3] == Literal(" - ") && f[4] == Slot(Required(Title)) && f[5] == Literal(".") && f[6] == Slot(Required(Ext))
    requires TagText(m, Disc(0)) == Some(disc) && TagText(m, Track(0)) == Some(track) && m.title == Some(title)
    requires '/' !in disc && '/' !in track && '/' !in title && '/' !in m.ext
    ensures FillAll(f, m, false) == disc + ("." + (track + (" - " + (title + ("." + m.ext)))))
  {
    assert f == f[..4] + f[4..];
    FillAllConcat(f[..4], f[4..], m, false);
    NumberHead(f[..4], m, disc, track);
    TitleExtFill(f, m, title);
    assert f[|f| - 3..] == f[4..];
    NumberGlue(disc, track, title + ("." + m.ext));
  }

  lemma {:induction false} FillAllConcat(a: seq<BasicComponent>, b: seq<BasicComponent>, m: Metadata, exfat: bool)
    ensures FillAll(a + b, m, exfat) == FillAll(a, m, exfat) + FillAll(b, m, exfat)
    decreases |a|
  {
    if a == [] {
      assert a + b == b;
    } else {
      assert (a + b)[0] == a[0] && (a + b)[1..] == a[1..] + b;
      FillAllConcat(a[1..], b, m, exfat);
    }
  }

  /** `{disc}.{track} - ` filled from a record. */
  lemma NumberHead(f: seq<BasicComponent>, m: Metadata, disc: string, track: string)
    requires |f| == 4 && f[0] == Slot(Required(Disc(0))) && f[1] == Literal(".") && f[2] == Slot(Required(Track(0)))
    requires f[3] == Literal(" - ")
    requires TagText(m, Disc(0)) == Some(disc) && TagText(m, Track(0)) == Some(track)
    requires '/' !in disc && '/' !in track
    ensures FillAll(f, m, false) == disc + ("." + (track + " - "))
  {
    FillTag(Required(Disc(0)), m, disc);
    FillTag(Required(Track(0)), m, track);
    assert f[4..] == [];
    NoTail(" - ");
    FillAllAt(f, 3, m, false);
    FillAllAt(f, 2, m, false);
    FillAllAt(f, 1, m, false);
    FillAllAt(f, 0, m, false);
    assert f[0..] == f;
  }

  lemma NumberGlue(disc: string, track: string, rest: string)
    ensures disc + ("." + (track + " - ")) + rest == disc + ("." + (track + (" - " + rest)))
  {
  }

  /** The complete template on a record with every tag. */
  lemma CompleteBuild(m: Metadata, artist: string, album: string, disc: string, track: string, title: string)
    requires m.artist == Some(artist) && m.album == Some(album) && m.title == Some(title)
    requires TagText(m, Disc(0)) == Some(disc) && TagText(m, Track(0)) == Some(track)
    requires '/' !in artist && '/' !in album && '/' !in disc && '/' !in track && '/' !in title && '/' !in m.ext
    ensures BuildText([Dir([Slot(Required(Artist))]), Dir([Slot(Required(Album))]),
                       File([Slot(Required(Disc(0))), Literal("."), Slot(Required(Track(0))), Literal(" - "),
                             Slot(Required(Title)), Literal("."), Slot(Required(Ext))])], m, false) ==
            Success(artist + "/" + (album + "/" + (disc + ("." + (track + (" - " + (title + ("." + m.ext))))))))
  {
    var a, al := Slot(Required(Artist)), Slot(Required(Album));
    var f := [Slot(Required(Disc(0))), Literal("."), Slot(Required(Track(0))), Literal(" - "),
              Slot(Required(Title)), Literal("."), Slot(Required(Ext))];
    BuildTextSpec([Dir([a]), Dir([al]), File(f)], m, false);
    DirOk(Required(Artist), m);
    DirOk(Required(Album), m);
    FirstProblemThree(Dir([a]), Dir([al]), File(f), m);
    FirstProblemTwo(Dir([al]), File(f), m);
    NumberFill(f, m, disc, track, title);
    FilledThree(Dir([a]), Dir([al]), File(f), m, false);
    FillTag(Required(Artist), m, artist);
    FillAllOne(a, m, false);
    FillTag(Required(Album), m, album);
    FillAllOne(al, m, false);
  }

  /** The partial template on a record with these tags. */
  lemma PartialBuild(m: Metadata, artist: string, disc: string, track: string, title: string)
    requires m.artist == Some(artist) && m.title == Some(title)
    requires TagText(m, Disc(0)) == Some(disc) && TagText(m, Track(0)) == Some(track)
    requires '/' !in artist && '/' !in disc && '/' !in track && '/' !in title && '/' !in m.ext
    ensures BuildText([Dir([Slot(Required(Artist))]),
                       File([Slot(Required(Disc(0))), Literal("."), Slot(Required(Track(0))), Literal(" - "),
                             Slot(Required(Title)), Literal("."), Slot(Required(Ext))])], m, false) ==
            Success(artist + "/" + (disc + ("." + (track + (" - " + (title + ("." + m.ext)))))))
  {
    var a := Slot(Required(Artist));
    var f := [Slot(Required(Disc(0))), Literal("."), Slot(Required(Track(0))), Literal(" - "),
              Slot(Required(Title)), Literal("."), Slot(Required(Ext))];
    BuildTextSpec([Dir([a]), File(f)], m, false);
    DirOk(Required(Artist), m);
    FirstProblemTwo(Dir([a]), File(f), m);
    NumberFill(f, m, disc, track, title);
    FilledTwo(Dir([a]), File(f), m, false);
    FillTag(Required(Artist), m, artist);
    FillAllOne(a, m, false);
  }

  /** The tag values of the integration tests have no `/`. */
  lemma CleanValues()
    ensures '/' !in "Album Artist" && '/' !in "Album" && '/' !in "Artist" && '/' !in "1" && '/' !in "Title"
  {
  }

  lemma CompleteFillGlue(ext: string)
    ensures "Album Artist" + "/" + ("Album" + "/" + ("1" + ("." + ("1" + (" - " + ("Title" + ("." + ext))))))) ==
            "Album Artist/Album/1.1 - Title." + ext
  {
  }

  lemma PartialFillGlue(ext: string)
    ensures "Artist" + "/" + ("1" + ("." + ("1" + (" - " + ("Title" + ("." + ext)))))) == "Artist/1.1 - Title." + ext
  {
  }

  // ---------------------------------------------------------------------------------------
  // The integration tests

  /** `{artist}/{album?}/{title}.{ext}` without an album: an optional tag in a directory. */
  lemma OptionalInDirExample(text: string, m: Metadata, exfat: bool)
    requires text == "{artist}/{album?}/{title}.{ext}"
    requires m.artist.Some? && m.album.None?
    ensures Compile(text).Success? && BuildText(Compile(text).value.segments, m, exfat) == Failure(OptionalInDir)
  {
    AlbumInDirCompiles(text);
    AlbumInDirBuild(m, exfat);
  }

  /** `{artist}/{title?}.{ext}`: the only tag of the file name is optional. */
  lemma OptionalOnlyInFileExample(text: string, m: Metadata, exfat: bool)
    requires text == "{artist}/{title?}.{ext}"
    requires m.artist.Some?
    ensures Compile(text).Success? && BuildText(Compile(text).value.segments, m, exfat) == Failure(RequiredInFile)
  {
    OptionalTitleCompiles(text);
    OptionalTitleBuild(m, exfat);
  }

  /** `{artist}/foo.{ext}`: a file name of literal text and the extension only. */
  lemma LiteralFileExample(text: string, m: Metadata, exfat: bool)
    requires text == "{artist}/foo.{ext}"
    requires m.artist.Some?
    ensures Compile(text).Success? && BuildText(Compile(text).value.segments, m, exfat) == Failure(RequiredInFile)
  {
    LiteralFileCompiles(text);
    LiteralFileBuild(m, exfat);
  }

  /** `{artist}/{album}` without an album: a required tag is missing. */
  lemma MissingAlbumExample(text: string, m: Metadata, exfat: bool)
    requires text == "{artist}/{album}"
    requires m.artist.Some? && m.album.None?
    ensures Compile(text).Success? && BuildText(Compile(text).value.segments, m, exfat) == Failure(MissingTag("album"))
  {
    ArtistAlbumCompiles(text);
    ArtistAlbumBuild(m, exfat);
  }

  /** `{artist}/{album?} - {title}.{ext}`: the optional album fills in its text when present
      and nothing when absent. */
  lemma OptionalInFileExample(text: string, m: Metadata, artist: string, title: string)
    requires text == "{artist}/{album?} - {title}.{ext}"
    requires m.artist == Some(artist) && m.title == Some(title)
    requires '/' !in artist && '/' !in title && '/' !in m.ext
    requires m.album.Some? ==> '/' !in m.album.value
    ensures Compile(text).Success?
    ensures var album := if m.album.Some? then m.album.value else "";
            BuildText(Compile(text).value.segments, m, false) ==
            Success(artist + "/" + (album + (" - " + (title + ("." + m.ext)))))
  {
    AlbumInFileCompiles(text);
    AlbumInFileBuild(m, artist, if m.album.Some? then m.album.value else "", title);
  }

  /** `{artist}/{album}/{disc}.{track} - {title}.{ext}` on a record with every tag. */
  lemma CompleteExample(text: string, m: Metadata)
    requires text == "{artist}/{album}/{disc}.{track} - {title}.{ext}"
    requires m.artist == Some("Album Artist") && m.album == Some("Album")
    requires m.disc == Some(1) && m.track == Some(1) && m.title == Some("Title") && '/' !in m.ext
    ensures Compile(text).Success?
    ensures BuildText(Compile(text).value.segments, m, false) == Success("Album Artist/Album/1.1 - Title." + m.ext)
  {
    CompleteCompiles(text);
    FillOne(Disc(0), m);
    FillOne(Track(0), m);
    CleanValues();
    CompleteBuild(m, "Album Artist", "Album", "1", "1", "Title");
    CompleteFillGlue(m.ext);
  }

  /** `{artist}/{disc}.{track} - {title}.{ext}` on a record without an album. */
  lemma PartialExample(text: string, m: Metadata)
    requires text == "{artist}/{disc}.{track} - {title}.{ext}"
    requires m.artist == Some("Artist") && m.disc == Some(1) && m.track == Some(1) && m.title == Some("Title")
    requires '/' !in m.ext
    ensures Compile(text).Success?
    ensures BuildText(Compile(text).value.segments, m, false) == Success("Artist/1.1 - Title." + m.ext)
  {
    PartialCompiles(text);
    FillOne(Disc(0), m);
    FillOne(Track(0), m);
    CleanValues();
    PartialBuild(m, "Artist", "1", "1", "Title");
    PartialFillGlue(m.ext);
  }

  /** `{artist}/{album?} - {title}.{ext}` on the partial record: the absent album leaves an
      empty name before ` - `. */
  lemma OptionalAbsentExample(text: string, m: Metadata)
    requires text == "{artist}/{album?} - {title}.{ext}"
    requires m.artist == Some("Artist") && m.album.None? && m.title == Some("Title") && '/' !in m.ext
    ensures Compile(text).Success?
    ensures BuildText(Compile(text).value.segments, m, false) == Success("Artist/ - Title." + m.ext)
  {
    CleanValues();
    OptionalInFileExample(text, m, "Artist", "Title");
    OptionalAbsentGlue(m.ext);
  }

  /** `{artist}/{album?} - {title}.{ext}` on the complete record. */
  lemma OptionalPresentExample(text: string, m: Metadata)
    requires text == "{artist}/{album?} - {title}.{ext}"
    requires m.artist == Some("Album Artist") && m.album == Some("Album") && m.title == Some("Title") && '/' !in m.ext
    ensures Compile(text).Success?
    ensures BuildText(Compile(text).value.segments, m, false) == Success("Album Artist/Album - Title." + m.ext)
  {
    CleanValues();
    OptionalInFileExample(text, m, "Album Artist", "Title");
    OptionalPresentGlue(m.ext);
  }

  lemma OptionalAbsentGlue(ext: string)
    ensures "Artist" + "/" + ("" + (" - " + ("Title" + ("." + ext)))) == "Artist/ - Title." + ext
  {
  }

  lemma OptionalPresentGlue(ext: string)
    ensures "Album Artist" + "/" + ("Album" + (" - " + ("Title" + ("." + ext)))) == "Album Artist/Album - Title." + ext
  {
  }

  /** `{artist}/{album}` with an empty artist: the first directory fills in nothing, so the built
      text starts with `/` and reads as an absolute path, which `join` puts in place of the
      library root. */
  lemma EmptyArtistExample(text: string, m: Metadata, album: string)
    requires text == "{artist}/{album}"
    requires m.artist == Some("") && m.album == Some(album) && '/' !in album
    ensures Compile(text).Success?
    ensures BuildText(Compile(text).value.segments, m, false) == Success("/" + album)
    ensures FromString("/" + album).absolute
  {
    ArtistAlbumCompiles(text);
    EmptyArtistBuild(m, album);
  }

  lemma EmptyArtistBuild(m: Metadata, album: string)
    requires m.artist == Some("") && m.album == Some(album) && '/' !in album
    ensures BuildText([Dir([Slot(Required(Artist))]), File([Slot(Required(Album))])], m, false) == Success("/" + album)
  {
    var a, al := Slot(Required(Artist)), Slot(Required(Album));
    var d, f := Dir([a]), File([al]);
    BuildTextSpec([d, f], m, false);
    DirOk(Required(Artist), m);
    FirstProblemTwo(d, f, m);
    FileOk([al], m, 0);
    FilledTwo(d, f, m, false);
    FillTag(Required(Artist), m, "");
    FillAllOne(a, m, false);
    FillTag(Required(Album), m, album);
    FillAllOne(al, m, false);
    assert "" + "/" + album == "/" + album;
  }
}
