/** Splitting text at a separator character, as Rust's `str::split(char)` does, and joining it back. */
module Strings {

  /** The pieces joined with the separator between each two. */
  function JoinWith(pieces: seq<string>, sep: char): string
  {
    if pieces == [] then ""
    else if |pieces| == 1 then pieces[0]
    else pieces[0] + [sep] + JoinWith(pieces[1..], sep)
  }

  function Count(s: string, c: char): nat
  {
    if s == [] then 0 else (if s[0] == c then 1 else 0) + Count(s[1..], c)
  }

  /** `s.split(sep)`: always at least one piece, no piece holds the separator, joining the
      pieces gives `s` back, and there is one more piece than separators. */
  function Split(s: string, sep: char): (r: seq<string>)
    ensures |r| >= 1
    ensures forall i :: 0 <= i < |r| ==> sep !in r[i]
    ensures JoinWith(r, sep) == s
    ensures |r| == Count(s, sep) + 1
  {
    if s == [] then [""]
    else
      var rest := Split(s[1..], sep);
      if s[0] == sep then
        var r := [""] + rest;
        assert r[1..] == rest;
        r
      else
        var r := [[s[0]] + rest[0]] + rest[1..];
        assert |r| > 1 ==> r[1..] == rest[1..];
        assert |rest| > 1 ==> rest[1..][0] == rest[1];
        JoinFirst(rest, [s[0]], sep);
        r
  }

  /** Prepending to the first piece prepends to the joined text. */
  lemma {:induction false} JoinFirst(pieces: seq<string>, pre: string, sep: char)
    requires |pieces| >= 1
    ensures JoinWith([pre + pieces[0]] + pieces[1..], sep) == pre + JoinWith(pieces, sep)
  {
    var q := [pre + pieces[0]] + pieces[1..];
    if |pieces| > 1 {
      assert q[1..] == pieces[1..];
    }
  }

  /** Text without the separator is a single piece. */
  lemma {:induction false} SplitNoSep(s: string, sep: char)
    requires sep !in s
    ensures Split(s, sep) == [s]
  {
    CountAbsent(s, sep);
  }

  /** The pieces of `a + [sep] + b` when `a` has no separator. */
  lemma {:induction false} SplitAt(a: string, b: string, sep: char)
    requires sep !in a
    ensures Split(a + [sep] + b, sep) == [a] + Split(b, sep)
  {
    if a == [] {
      assert a + [sep] + b == [sep] + b;
      assert ([sep] + b)[1..] == b;
    } else {
      var s := a + [sep] + b;
      assert s[1..] == a[1..] + [sep] + b;
      SplitAt(a[1..], b, sep);
      assert [a[0]] + a[1..] == a;
    }
  }

  lemma {:induction false} CountAppend(a: string, b: string, c: char)
    ensures Count(a + b, c) == Count(a, c) + Count(b, c)
  {
    if a == [] {
      assert a + b == b;
    } else {
      assert (a + b)[1..] == a[1..] + b;
      CountAppend(a[1..], b, c);
    }
  }

  lemma {:induction false} CountAbsent(s: string, c: char)
    requires c !in s
    ensures Count(s, c) == 0
  {
    if s != [] {
      CountAbsent(s[1..], c);
    }
  }

  /** The last piece is empty exactly when the text is empty or ends with the separator. */
  lemma {:induction false} SplitLastEmpty(s: string, sep: char)
    ensures var r := Split(s, sep); r[|r| - 1] == "" <==> s == [] || s[|s| - 1] == sep
  {
    if s != [] {
      var rest := Split(s[1..], sep);
      SplitLastEmpty(s[1..], sep);
      if s[0] != sep && |rest| == 1 {
        assert rest[0] == s[1..];
        if s[1..] != [] {
          assert s[|s| - 1] == s[1..][|s[1..]| - 1];
          assert s[|s| - 1] in rest[0];
        }
      }
    }
  }
}
