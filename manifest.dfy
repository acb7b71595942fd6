/** The manifest pointer: the fixed pattern `m\/\S* -> (\S*)` searched for in
    the output of `git branch -r`, and the decision taken on what it captures. */
module Manifest {
  import opened Segments

  datatype Option<+T> = None | Some(value: T)

  /** `\s` of the regex crate: a character with the Unicode White_Space property. */
  predicate IsWhitespace(c: char) {
    c == ' ' || ('\t' <= c <= '\r') || c == '\U{85}' || c == '\U{A0}' || c == '\U{1680}'
    || ('\U{2000}' <= c <= '\U{200A}') || c == '\U{2028}' || c == '\U{2029}'
    || c == '\U{202F}' || c == '\U{205F}' || c == '\U{3000}'
  }

  /** The end of the longest run of non-whitespace characters starting at `k`:
      what a greedy `\S*` consumes. */
  function RunEnd(s: string, k: nat): (e: nat)
    requires k <= |s|
    ensures k <= e <= |s|
    ensures forall i :: k <= i < e ==> !IsWhitespace(s[i])
    ensures e == |s| || IsWhitespace(s[e])
    decreases |s| - k
  {
    if k == |s| || IsWhitespace(s[k]) then k else RunEnd(s, k + 1)
  }

  const Arrow := " -> "

  /** The pattern matches at `i` in the leftmost-first sense: `m/`, the greedy
      `\S*`, which must be followed by ` -> `. */
  predicate MatchesAt(s: string, i: nat) {
    i + 2 <= |s| && s[i] == 'm' && s[i + 1] == '/' &&
    var j := RunEnd(s, i + 2);
    j + 4 <= |s| && s[j..j + 4] == Arrow
  }

  /** Capture group 1 of the match at `i`: the greedy `\S*` after the arrow. */
  function CaptureAt(s: string, i: nat): string
    requires MatchesAt(s, i)
  {
    var j := RunEnd(s, i + 2);
    s[j + 4..RunEnd(s, j + 4)]
  }

  /** The first position at or after `i` where the pattern matches. */
  function FindFrom(s: string, i: nat): (r: Option<nat>)
    requires i <= |s|
    ensures r.Some? ==> i <= r.value < |s| && MatchesAt(s, r.value)
    ensures r.Some? ==> forall k: nat :: i <= k < r.value ==> !MatchesAt(s, k)
    ensures r.None? ==> forall k: nat :: i <= k ==> !MatchesAt(s, k)
    decreases |s| - i
  {
    if i == |s| then None
    else if MatchesAt(s, i) then Some(i)
    else FindFrom(s, i + 1)
  }

  /** `re.captures(text)` followed by `&caps[1]`. */
  function Captures(s: string): Option<string> {
    match FindFrom(s, 0)
    case None => None
    case Some(i) => Some(CaptureAt(s, i))
  }

  /** A match, stated the way the pattern reads: "m/", then some stretch of
      non-whitespace, then " -> ", starting at `i` and with the stretch ending at `j`. */
  ghost predicate PatternAt(s: string, i: nat, j: nat) {
    i + 2 <= j && j + 4 <= |s| && s[i..i + 2] == "m/" &&
    (forall k :: i + 2 <= k < j ==> !IsWhitespace(s[k])) &&
    s[j..j + 4] == Arrow
  }

  /** The scan agrees with the pattern: there is a way to match at `i` exactly
      when `MatchesAt` holds, and then the stretch is the greedy one. */
  lemma MatchesAtIffPattern(s: string, i: nat)
    ensures MatchesAt(s, i) <==> exists j: nat :: PatternAt(s, i, j)
    ensures forall j: nat :: PatternAt(s, i, j) ==> j == RunEnd(s, i + 2)
  {
    if MatchesAt(s, i) {
      assert PatternAt(s, i, RunEnd(s, i + 2));
    }
    forall j: nat | PatternAt(s, i, j) ensures j == RunEnd(s, i + 2) {
      var e := RunEnd(s, i + 2);
      assert s[j] == ' ';
      assert IsWhitespace(s[j]);
    }
  }

  /** The capture is the whole run of non-whitespace after the arrow. */
  lemma CaptureIsGreedy(s: string, i: nat)
    requires MatchesAt(s, i)
    ensures var j := RunEnd(s, i + 2); var c := CaptureAt(s, i);
            j + 4 + |c| <= |s| && s[j + 4..j + 4 + |c|] == c &&
            (forall k :: 0 <= k < |c| ==> !IsWhitespace(c[k])) &&
            (j + 4 + |c| == |s| || IsWhitespace(s[j + 4 + |c|]))
  {
  }

  /** `Captures` finds the leftmost match: it answers with the capture of the
      first position where the pattern matches, and with nothing exactly when
      the pattern matches nowhere. */
  lemma CapturesIsLeftmost(s: string)
    ensures Captures(s).None? <==> forall i: nat :: !MatchesAt(s, i)
    ensures Captures(s).Some? ==>
              exists i: nat :: MatchesAt(s, i) && (forall k: nat :: k < i ==> !MatchesAt(s, k)) &&
                          Captures(s).value == CaptureAt(s, i)
  {
    match FindFrom(s, 0)
    case None =>
    case Some(i) =>
      assert MatchesAt(s, i) && (forall k: nat :: k < i ==> !MatchesAt(s, k));
  }

  /** What the captured target denotes. */
  datatype Target = Branch(name: string) | Tag(name: string)

  /** A target with a slash is a remote branch, named by its last segment; one
      without is a tag. */
  function Classify(capture: string): (t: Target)
    ensures t.Branch? <==> '/' in capture
    ensures t.Branch? ==> '/' !in t.name && capture == ParentName(capture) + "/" + t.name
    ensures t.Tag? ==> t.name == capture
  {
    LastSegmentIsSuffix(capture);
    if '/' in capture then Branch(LastSegment(capture)) else Tag(capture)
  }

  /** A text without whitespace. */
  predicate NoWhitespace(w: string) {
    forall k :: 0 <= k < |w| ==> !IsWhitespace(w[k])
  }

  /** `RunEnd` is the first whitespace position at or after `k` (or the end). */
  lemma RunEndIsFirstWhitespace(s: string, k: nat, e: nat)
    requires k <= e <= |s|
    requires forall i :: k <= i < e ==> !IsWhitespace(s[i])
    requires e == |s| || IsWhitespace(s[e])
    ensures RunEnd(s, k) == e
  {
  }

  /** A text made of whitespace only, such as the indentation `git branch -r`
      puts before every line. */
  predicate Blank(w: string) {
    forall k :: 0 <= k < |w| ==> IsWhitespace(w[k])
  }

  /** A listing that starts with a pointer line `m/<name> -> <target>`, after
      any indentation and with the target followed by whitespace or the end,
      yields that target. */
  lemma PointerLineCaptured(ind: string, name: string, target: string, rest: string)
    requires Blank(ind) && NoWhitespace(name) && NoWhitespace(target)
    requires rest == [] || IsWhitespace(rest[0])
    ensures Captures(ind + "m/" + name + Arrow + target + rest) == Some(target)
  {
    var s := ind + "m/" + name + Arrow + target + rest;
    LineSlices(ind, name, target, rest);
    LineMatchesAt(s, |ind|, name, target);
    IndentNoMatch(s, ind);
    LeftmostIsFound(s, |ind|);
  }

  /** Where the pieces of an indented pointer line sit. */
  lemma LineSlices(ind: string, name: string, target: string, rest: string)
    requires rest == [] || IsWhitespace(rest[0])
    ensures var s := ind + "m/" + name + Arrow + target + rest;
            var i := |ind|;
            var e := i + 2 + |name| + 4 + |target|;
            e <= |s| && s[..i] == ind && s[i..i + 2] == "m/" && s[i + 2..i + 2 + |name|] == name &&
            s[i + 2 + |name|..i + 2 + |name| + 4] == Arrow && s[i + 2 + |name| + 4..e] == target &&
            (e == |s| || IsWhitespace(s[e]))
  {
    var s := ind + "m/" + name + Arrow + target + rest;
    var e := |ind| + 2 + |name| + 4 + |target|;
    Middle(ind, "m/", name + Arrow + target + rest);
    Middle(ind + "m/", name, Arrow + target + rest);
    Middle(ind + "m/" + name, Arrow, target + rest);
    Middle(ind + "m/" + name + Arrow, target, rest);
    assert e < |s| ==> s[e] == rest[0];
  }

  /** `q` sits in `p + q + r` right after `p`. */
  lemma Middle<T>(p: seq<T>, q: seq<T>, r: seq<T>)
    ensures |p + q + r| == |p| + |q| + |r|
    ensures (p + q + r)[|p|..|p| + |q|] == q
    ensures (p + q + r)[..|p|] == p
  {
  }

  /** A pointer line starting at `i`, its target followed by whitespace or the
      end, matches there and captures the target. */
  lemma LineMatchesAt(s: string, i: nat, name: string, target: string)
    requires NoWhitespace(name) && NoWhitespace(target)
    requires i + 2 + |name| + 4 + |target| <= |s|
    requires s[i..i + 2] == "m/" && s[i + 2..i + 2 + |name|] == name
    requires s[i + 2 + |name|..i + 2 + |name| + 4] == Arrow
    requires s[i + 2 + |name| + 4..i + 2 + |name| + 4 + |target|] == target
    requires i + 2 + |name| + 4 + |target| == |s| || IsWhitespace(s[i + 2 + |name| + 4 + |target|])
    ensures MatchesAt(s, i) && CaptureAt(s, i) == target
  {
    var j := i + 2 + |name|;
    var e := j + 4 + |target|;
    assert s[i] == 'm' && s[i + 1] == '/';
    forall k | i + 2 <= k < j ensures !IsWhitespace(s[k]) {
      assert s[k] == name[k - (i + 2)];
    }
    assert s[j] == ' ';
    RunEndIsFirstWhitespace(s, i + 2, j);
    forall k | j + 4 <= k < e ensures !IsWhitespace(s[k]) {
      assert s[k] == target[k - (j + 4)];
    }
    RunEndIsFirstWhitespace(s, j + 4, e);
  }

  /** The pattern cannot match inside blank indentation. */
  lemma IndentNoMatch(s: string, ind: string)
    requires Blank(ind) && |ind| <= |s| && s[..|ind|] == ind
    ensures forall k: nat :: k < |ind| ==> !MatchesAt(s, k)
  {
    forall k: nat | k < |ind| ensures !MatchesAt(s, k) {
      assert s[k] == ind[k];
    }
  }

  /** The scan stops at the first position where the pattern matches. */
  lemma LeftmostIsFound(s: string, i: nat)
    requires MatchesAt(s, i)
    requires forall k: nat :: k < i ==> !MatchesAt(s, k)
    ensures FindFrom(s, 0) == Some(i)
  {
  }

  /** A listing in which no 'm' is followed by '/' has no manifest pointer. */
  lemma NoPointerNoCapture(s: string)
    requires forall i :: 0 <= i < |s| - 1 ==> !(s[i] == 'm' && s[i + 1] == '/')
    ensures Captures(s) == None
  {
    CapturesIsLeftmost(s);
  }

  /** A target `<remote path>/<name>` denotes the branch `<name>`. */
  lemma BranchTarget(prefix: string, name: string)
    requires '/' !in name
    ensures Classify(prefix + "/" + name) == Branch(name)
  {
    SplitAtSlash(prefix, name);
    SplitSlashFree(name);
    assert '/' in prefix + "/" + name by {
      assert (prefix + "/" + name)[|prefix|] == '/';
    }
  }

  /** The indented manifest line `  m/main -> origin/release-1.0`, as `git branch -r`
      prints it, points at `origin/release-1.0`... */
  lemma ReleaseLineExample()
    ensures Captures("  m/main -> origin/release-1.0\n") == Some("origin/release-1.0")
  {
    ReleaseWords();
    assert "  m/main -> origin/release-1.0\n" == "  " + "m/" + "main" + Arrow + "origin/release-1.0" + "\n";
    PointerLineCaptured("  ", "main", "origin/release-1.0", "\n");
  }

  /** The pieces of the release line: blank indentation, then words without whitespace. */
  lemma ReleaseWords()
    ensures Blank("  ") && NoWhitespace("main") && NoWhitespace("origin/release-1.0")
  {
    assert Blank("  ");
    assert NoWhitespace("main");
    assert NoWhitespace("origin/release-1.0");
  }

  /** ... which names the branch `release-1.0`. */
  lemma ReleaseBranchExample()
    ensures Classify("origin/release-1.0") == Branch("release-1.0")
  {
    assert "origin/release-1.0" == "origin" + "/" + "release-1.0";
    BranchTarget("origin", "release-1.0");
  }

  /** The indented manifest line `  m/main -> v1.2` names the tag `v1.2`. */
  lemma TagExample()
    ensures Captures("  m/main -> v1.2") == Some("v1.2")
    ensures Classify("v1.2") == Tag("v1.2")
  {
    TagWords();
    assert "  m/main -> v1.2" == "  " + "m/" + "main" + Arrow + "v1.2" + "";
    PointerLineCaptured("  ", "main", "v1.2", "");
    assert '/' !in "v1.2";
  }

  /** The pieces of the tag line: blank indentation, then words without whitespace. */
  lemma TagWords()
    ensures Blank("  ") && NoWhitespace("main") && NoWhitespace("v1.2")
  {
    assert Blank("  ");
    assert NoWhitespace("main");
    assert NoWhitespace("v1.2");
  }
}
