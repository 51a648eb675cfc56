/** The tag record read from an audio file, its getters, and the selection of fields from
    vorbis comments. */
module Meta {
  import opened Errors
  import opened Decimal

  type u32 = x: nat | x < 0x1_0000_0000

  const U32Limit: nat := 0x1_0000_0000

  /** The tags of one file; every tag but the extension may be absent. */
  datatype Metadata = Metadata(
    artist: Option<string>,
    album: Option<string>,
    disc: Option<u32>,
    track: Option<u32>,
    title: Option<string>,
    ext: string)

  /** The getter shape shared by every optional tag: its text, or `MissingTag` naming the field. */
  function Field(value: Option<string>, name: string): (r: Result<string>)
    ensures r.Success? <==> value.Some?
    ensures r.Success? ==> r.value == value.value
    ensures r.Failure? ==> r.error == MissingTag(name)
  {
    if value.Some? then Success(value.value) else Failure(MissingTag(name))
  }

  /** A number tag as text: its decimal form. */
  function NumberText(value: Option<u32>): (r: Option<string>)
    ensures r.Some? <==> value.Some?
    ensures r.Some? ==> AllDigits(r.value) && ParseUnsigned(r.value, U32Limit) == Some(value.value as nat)
  {
    if value.Some? then
      ParseToDecimal(value.value, U32Limit);
      Some(ToDecimal(value.value))
    else None
  }

  function GetArtist(m: Metadata): (r: Result<string>)
    ensures r.Success? <==> m.artist.Some?
    ensures r.Success? ==> r.value == m.artist.value
    ensures r.Failure? ==> r.error == MissingTag("artist")
  {
    Field(m.artist, "artist")
  }

  function GetAlbum(m: Metadata): (r: Result<string>)
    ensures r.Success? <==> m.album.Some?
    ensures r.Success? ==> r.value == m.album.value
    ensures r.Failure? ==> r.error == MissingTag("album")
  {
    Field(m.album, "album")
  }

  /** The disc number as decimal text; parsing the text gives the number back. */
  function GetDisc(m: Metadata): (r: Result<string>)
    ensures r.Success? <==> m.disc.Some?
    ensures r.Success? ==> ParseUnsigned(r.value, U32Limit) == Some(m.disc.value as nat)
    ensures r.Failure? ==> r.error == MissingTag("disc")
  {
    Field(NumberText(m.disc), "disc")
  }

  /** The track number as decimal text; parsing the text gives the number back. */
  function GetTrack(m: Metadata): (r: Result<string>)
    ensures r.Success? <==> m.track.Some?
    ensures r.Success? ==> ParseUnsigned(r.value, U32Limit) == Some(m.track.value as nat)
    ensures r.Failure? ==> r.error == MissingTag("track")
  {
    Field(NumberText(m.track), "track")
  }

  function GetTitle(m: Metadata): (r: Result<string>)
    ensures r.Success? <==> m.title.Some?
    ensures r.Success? ==> r.value == m.title.value
    ensures r.Failure? ==> r.error == MissingTag("title")
  {
    Field(m.title, "title")
  }

  /** The extension is always there. */
  function GetExt(m: Metadata): (r: string)
    ensures r == m.ext
  {
    m.ext
  }

  /** The two getters of number tags render the number in decimal without leading zeros. */
  lemma {:induction false} NumberGetters(m: Metadata)
    ensures m.disc.Some? ==> GetDisc(m) == Success(ToDecimal(m.disc.value))
    ensures m.track.Some? ==> GetTrack(m) == Success(ToDecimal(m.track.value))
    ensures m.disc == Some(1) ==> GetDisc(m) == Success("1")
  {
    if m.disc == Some(1) {
      assert ToDecimal(1) == "1";
    }
  }

  /** Vorbis comments: each field name with its values in the order they were read. */
  type Comments = map<string, seq<string>>

  /** The first value stored under `key`, if there is one. */
  function First(c: Comments, key: string): (r: Option<string>)
    ensures r.Some? <==> key in c && |c[key]| > 0
    ensures r.Some? ==> r.value == c[key][0]
  {
    if key in c && |c[key]| > 0 then Some(c[key][0]) else None
  }

  /** A number field: its first value read as a u32; text that is not a u32 counts as absent. */
  function FirstNumber(c: Comments, key: string): (r: Option<u32>)
    ensures r.Some? <==> First(c, key).Some? && ParseUnsigned(First(c, key).value, U32Limit).Some?
    ensures r.Some? ==> Some(r.value as nat) == ParseUnsigned(First(c, key).value, U32Limit)
  {
    match First(c, key)
    case None => None
    case Some(s) =>
      match ParseUnsigned(s, U32Limit)
      case None => None
      case Some(n) => Some(n)
  }

  /** `from_vorbis_comments`: the artist is the first album artist, failing that the first artist;
      album and title are their first values; disc and track their first values as numbers; the
      extension is the one given. It never fails. */
  function FromVorbisComments(c: Comments, ext: string): (r: Result<Metadata>)
    ensures r.Success?
    ensures r.value.artist == if First(c, "ALBUMARTIST").Some? then First(c, "ALBUMARTIST") else First(c, "ARTIST")
    ensures r.value.album == First(c, "ALBUM") && r.value.title == First(c, "TITLE")
    ensures r.value.disc == FirstNumber(c, "DISCNUMBER") && r.value.track == FirstNumber(c, "TRACKNUMBER")
    ensures r.value.ext == ext
  {
    var artist := if First(c, "ALBUMARTIST").Some? then First(c, "ALBUMARTIST") else First(c, "ARTIST");
    Success(Metadata(artist, First(c, "ALBUM"), FirstNumber(c, "DISCNUMBER"),
                     FirstNumber(c, "TRACKNUMBER"), First(c, "TITLE"), ext))
  }

  /** A disc or track field that is not a number leaves the tag absent instead of failing. */
  lemma {:induction false} NonNumericDisc(c: Comments, ext: string)
    requires "DISCNUMBER" in c && |c["DISCNUMBER"]| > 0 && !UnsignedText(c["DISCNUMBER"][0])
    ensures FromVorbisComments(c, ext).Success?
    ensures FromVorbisComments(c, ext).value.disc.None?
    ensures GetDisc(FromVorbisComments(c, ext).value) == Failure(MissingTag("disc"))
  {
  }

  /** The values stored under `key` in a list of pairs, in list order. */
  function ValuesOf(list: seq<(string, string)>, key: string): (r: seq<string>)
    ensures |r| <= |list|
  {
    if list == [] then []
    else ValuesOf(list[..|list| - 1], key) + (if list[|list| - 1].0 == key then [list[|list| - 1].1] else [])
  }

  /** The sum of the lengths of the lists stored under `keys`. */
  ghost function SumOver(m: Comments, keys: set<string>): nat
    requires keys <= m.Keys
    decreases keys
  {
    if keys == {} then 0
    else
      var k :| k in keys;
      |m[k]| + SumOver(m, keys - {k})
  }

  /** The number of values a comment map holds. */
  ghost function Total(m: Comments): nat
  {
    SumOver(m, m.Keys)
  }

  /** The sum does not depend on the order in which the keys are taken. */
  lemma {:induction false} SumRemove(m: Comments, keys: set<string>, k: string)
    requires keys <= m.Keys && k in keys
    ensures SumOver(m, keys) == |m[k]| + SumOver(m, keys - {k})
    decreases keys
  {
    var j :| j in keys && SumOver(m, keys) == |m[j]| + SumOver(m, keys - {j});
    if j != k {
      SumRemove(m, keys - {j}, k);
      SumRemove(m, keys - {k}, j);
      assert keys - {j} - {k} == keys - {k} - {j};
    }
  }

  /** Changing the list under a key outside `keys` leaves their sum alone. */
  lemma {:induction false} SumUpdateOther(m: Comments, keys: set<string>, k: string, v: seq<string>)
    requires keys <= m.Keys && k !in keys
    ensures SumOver(m[k := v], keys) == SumOver(m, keys)
    decreases keys
  {
    if keys != {} {
      var j :| j in keys && SumOver(m, keys) == |m[j]| + SumOver(m, keys - {j});
      SumRemove(m[k := v], keys, j);
      SumUpdateOther(m, keys - {j}, k, v);
    }
  }

  /** Appending one value under a key adds one to the total. */
  lemma {:induction false} TotalPush(m: Comments, k: string, v: string)
    ensures var prior := if k in m then m[k] else [];
            Total(m[k := prior + [v]]) == Total(m) + 1
  {
    var prior := if k in m then m[k] else [];
    var m' := m[k := prior + [v]];
    SumRemove(m', m'.Keys, k);
    SumUpdateOther(m, m.Keys - {k}, k, prior + [v]);
    assert m'.Keys - {k} == m.Keys - {k};
    if k in m {
      SumRemove(m, m.Keys, k);
    } else {
      assert m.Keys - {k} == m.Keys;
    }
  }

  /** `m` groups the pairs of `list`: a key is present exactly when some pair has it, and its
      values are those of its pairs in list order. */
  predicate Grouped(m: Comments, list: seq<(string, string)>)
  {
    && (forall i :: 0 <= i < |list| ==> list[i].0 in m)
    && (forall k :: k in m ==> (exists i :: 0 <= i < |list| && list[i].0 == k) && m[k] == ValuesOf(list, k))
  }

  /** Appending a pair to the list and its value under its key keeps the grouping. */
  lemma {:induction false} GroupedPush(m: Comments, all: seq<(string, string)>, n: nat)
    requires n < |all| && Grouped(m, all[..n])
    ensures Grouped(m[all[n].0 := (if all[n].0 in m then m[all[n].0] else []) + [all[n].1]], all[..n + 1])
  {
    var list := all[..n];
    var key := all[n].0;
    var value := all[n].1;
    var list' := all[..n + 1];
    assert list' == list + [(key, value)];
    var m' := m[key := (if key in m then m[key] else []) + [value]];
    assert list'[..|list'| - 1] == list;
    forall k | k in m'
      ensures exists i :: 0 <= i < |list'| && list'[i].0 == k
    {
      if k != key {
        var i :| 0 <= i < |list| && list[i].0 == k;
        assert list'[i].0 == k;
      } else {
        assert list'[|list|].0 == k;
      }
    }
    if key !in m {
      ValuesAbsent(list, key);
    }
  }

  /** `ogg_comment_map`: groups the pairs by key. A key is present exactly when some pair has it,
      its values are those of its pairs in list order, and no pair is lost. */
  method OggCommentMap(list: seq<(string, string)>) returns (m: Comments)
    ensures Grouped(m, list)
    ensures Total(m) == |list|
  {
    m := map[];
    for i := 0 to |list|
      invariant Grouped(m, list[..i])
      invariant Total(m) == i
    {
      var key := list[i].0;
      var entry := if key in m then m[key] else [];
      TotalPush(m, key, list[i].1);
      GroupedPush(m, list, i);
      m := m[key := entry + [list[i].1]];
    }
    assert list[..|list|] == list;
  }

  /** A key no pair carries has no values. */
  lemma {:induction false} ValuesAbsent(list: seq<(string, string)>, key: string)
    requires forall j :: 0 <= j < |list| ==> list[j].0 != key
    ensures ValuesOf(list, key) == []
  {
    if list != [] {
      ValuesAbsent(list[..|list| - 1], key);
    }
  }
}
