/** Slash-separated text: how the program turns a repository's relative path
    into the alias string and takes it apart again (`split('/')`,
    `contains('/')`, `Path::parent`, path components). */
module Segments {

  /** `s.split('/')`: the pieces between slashes; never empty, and "" gives [""]. */
  function Split(s: string): (r: seq<string>)
    ensures |r| >= 1
    ensures forall k :: 0 <= k < |r| ==> '/' !in r[k]
    decreases |s|
  {
    if s == [] then
      [""]
    else
      var rest := Split(s[1..]);
      if s[0] == '/' then [""] + rest else [[s[0]] + rest[0]] + rest[1..]
  }

  /** The pieces joined with '/', as a relative path prints. */
  function Join(parts: seq<string>): string
    decreases |parts|
  {
    if parts == [] then ""
    else if |parts| == 1 then parts[0]
    else parts[0] + "/" + Join(parts[1..])
  }

  /** True when no piece holds a slash: the pieces of a real path. */
  predicate SlashFree(parts: seq<string>) {
    forall k :: 0 <= k < |parts| ==> '/' !in parts[k]
  }

  /** `split('/').next().unwrap()`: the text before the first slash. */
  function FirstSegment(s: string): string {
    Split(s)[0]
  }

  /** `split('/').last()`: the text after the last slash. */
  function LastSegment(s: string): string {
    var parts := Split(s);
    parts[|parts| - 1]
  }

  /** The text before the last slash: the parent of a relative path. */
  function ParentName(s: string): string {
    var parts := Split(s);
    Join(parts[..|parts| - 1])
  }

  /** The non-empty pieces: the components of a path, as a directory walk sees them. */
  function Components(s: string): seq<string> {
    NonEmpty(Split(s))
  }

  function NonEmpty(parts: seq<string>): (r: seq<string>)
    ensures forall k :: 0 <= k < |r| ==> r[k] != "" && r[k] in parts
    decreases |parts|
  {
    if parts == [] then []
    else if parts[0] == "" then NonEmpty(parts[1..])
    else [parts[0]] + NonEmpty(parts[1..])
  }

  /** A slash-free text is a single piece. */
  lemma {:induction false} SplitSlashFree(s: string)
    requires '/' !in s
    ensures Split(s) == [s]
    decreases |s|
  {
    if s != [] {
      SplitSlashFree(s[1..]);
      assert s == [s[0]] + s[1..];
    }
  }

  /** Splitting at a slash that follows a slash-free head. */
  lemma {:induction false} SplitAfterHead(a: string, b: string)
    requires '/' !in a
    ensures Split(a + "/" + b) == [a] + Split(b)
    decreases |a|
  {
    if a == [] {
      assert a + "/" + b == "/" + b;
      assert ("/" + b)[1..] == b;
    } else {
      assert (a + "/" + b)[1..] == a[1..] + "/" + b;
      SplitAfterHead(a[1..], b);
      assert [a[0]] + a[1..] == a;
    }
  }

  /** Round trip: joining the pieces of a text gives the text back. */
  lemma {:induction false} JoinSplit(s: string)
    ensures Join(Split(s)) == s
    decreases |s|
  {
    if s != [] {
      var rest := Split(s[1..]);
      JoinSplit(s[1..]);
      if s[0] == '/' {
        assert Split(s) == [""] + rest;
        assert ([""] + rest)[1..] == rest;
        assert s == "" + "/" + s[1..];
      } else {
        var r := Split(s);
        assert r == [[s[0]] + rest[0]] + rest[1..];
        if |rest| == 1 {
          assert s == [s[0]] + s[1..];
        } else {
          assert r[1..] == rest[1..];
          assert Join(rest) == rest[0] + "/" + Join(rest[1..]);
          assert s == [s[0]] + s[1..];
        }
      }
    }
  }

  /** Round trip: splitting the join of slash-free pieces gives the pieces back. */
  lemma {:induction false} SplitJoin(parts: seq<string>)
    requires |parts| >= 1 && SlashFree(parts)
    ensures Split(Join(parts)) == parts
    decreases |parts|
  {
    if |parts| == 1 {
      SplitSlashFree(parts[0]);
    } else {
      SplitJoin(parts[1..]);
      SplitAfterHead(parts[0], Join(parts[1..]));
      assert parts == [parts[0]] + parts[1..];
    }
  }

  /** A text holds a slash exactly when it splits into more than one piece. */
  lemma {:induction false} SlashIffSeveralPieces(s: string)
    ensures '/' in s <==> |Split(s)| > 1
    decreases |s|
  {
    if s != [] {
      SlashIffSeveralPieces(s[1..]);
      assert '/' in s <==> s[0] == '/' || '/' in s[1..] by {
        assert s == [s[0]] + s[1..];
      }
    }
  }

  /** The alias's first segment is the first component of the relative path,
      and it holds a slash exactly when the path has several components. */
  lemma AliasPieces(parts: seq<string>)
    requires |parts| >= 1 && SlashFree(parts)
    ensures FirstSegment(Join(parts)) == parts[0]
    ensures LastSegment(Join(parts)) == parts[|parts| - 1]
    ensures ParentName(Join(parts)) == Join(parts[..|parts| - 1])
    ensures '/' in Join(parts) <==> |parts| > 1
  {
    SplitJoin(parts);
    SlashIffSeveralPieces(Join(parts));
  }

  /** Dropping empty pieces keeps a list whose pieces are all non-empty. */
  lemma {:induction false} NonEmptyKeeps(parts: seq<string>)
    requires forall k :: 0 <= k < |parts| ==> parts[k] != ""
    ensures NonEmpty(parts) == parts
    decreases |parts|
  {
    if parts != [] {
      NonEmptyKeeps(parts[1..]);
      assert parts == [parts[0]] + parts[1..];
    }
  }

  /** The components of the alias are the relative path it was printed from. */
  lemma ComponentsOfJoin(parts: seq<string>)
    requires |parts| >= 1 && SlashFree(parts)
    requires forall k :: 0 <= k < |parts| ==> parts[k] != ""
    ensures Components(Join(parts)) == parts
  {
    SplitJoin(parts);
    NonEmptyKeeps(parts);
  }

  /** `LastSegment` is the part after the last slash: a slash-free suffix that
      is either the whole text or preceded by a slash, with `ParentName` before
      that slash. */
  lemma {:induction false} LastSegmentIsSuffix(s: string)
    ensures '/' !in LastSegment(s)
    ensures '/' !in s ==> LastSegment(s) == s
    ensures '/' in s ==> s == ParentName(s) + "/" + LastSegment(s)
  {
    var parts := Split(s);
    JoinSplit(s);
    SlashIffSeveralPieces(s);
    if '/' !in s {
      SplitSlashFree(s);
    } else {
      JoinLast(parts);
    }
  }

  /** A join of several pieces is the join of all but the last, a slash, and the last. */
  lemma {:induction false} JoinLast(parts: seq<string>)
    requires |parts| > 1
    ensures Join(parts) == Join(parts[..|parts| - 1]) + "/" + parts[|parts| - 1]
    decreases |parts|
  {
    if |parts| > 2 {
      JoinLast(parts[1..]);
      assert parts[1..][..|parts| - 2] == parts[..|parts| - 1][1..];
      assert parts[..|parts| - 1][0] == parts[0];
    }
  }

  /** Splitting at a slash splits both sides. */
  lemma {:induction false} SplitAtSlash(a: string, b: string)
    ensures Split(a + "/" + b) == Split(a) + Split(b)
    decreases |a|
  {
    var t := a + "/" + b;
    if a == [] {
      assert t == "/" + b;
      assert t[1..] == b;
    } else {
      assert t[0] == a[0];
      assert t[1..] == a[1..] + "/" + b;
      SplitAtSlash(a[1..], b);
      var p, q := Split(a[1..]), Split(b);
      if a[0] == '/' {
        assert Split(t) == [""] + (p + q);
        assert Split(a) == [""] + p;
      } else {
        assert Split(t) == [[a[0]] + (p + q)[0]] + (p + q)[1..];
        assert Split(a) == [[a[0]] + p[0]] + p[1..];
        ConcatHead(p, q, [a[0]]);
      }
    }
  }

  /** Extending the first piece of a concatenation extends the first piece of
      its left part. */
  lemma ConcatHead<T>(p: seq<seq<T>>, q: seq<seq<T>>, x: seq<T>)
    requires |p| >= 1
    ensures [x + (p + q)[0]] + (p + q)[1..] == ([x + p[0]] + p[1..]) + q
  {
    assert (p + q)[0] == p[0];
    assert (p + q)[1..] == p[1..] + q;
  }
}
