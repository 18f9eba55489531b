/** Normalisation of configured paths and of the base URL, over Go's `path.Clean`. */
module Paths {
  import opened GoStrings

  datatype PathError = PathTraversal | InvalidPath | PathTooLong
  datatype PathAnswer = Path(text: string) | Refused(error: PathError)

  const SLASH: char := '/'

  /** One segment of `path.Clean`: empty and "." vanish, ".." removes the segment before it if there is
      one to remove, stays in a relative path otherwise, and vanishes at the root. */
  function CleanStep(rooted: bool, stack: seq<string>, segment: string): seq<string> {
    if segment == "" || segment == "." then stack
    else if segment == ".." then
      if stack != [] && stack[|stack| - 1] != ".." then stack[..|stack| - 1]
      else if rooted then stack
      else stack + [segment]
    else stack + [segment]
  }

  function CleanFold(rooted: bool, stack: seq<string>, segments: seq<string>): seq<string>
    decreases |segments|
  {
    if segments == [] then stack
    else CleanFold(rooted, CleanStep(rooted, stack, segments[0]), segments[1..])
  }

  /** `path.Clean`. */
  function Clean(path: string): string {
    if path == "" then "."
    else
      var rooted := path[0] == SLASH;
      var segments := CleanFold(rooted, [], Split(path, SLASH));
      if rooted then [SLASH] + Join(segments, SLASH)
      else if segments == [] then "."
      else Join(segments, SLASH)
  }

  function SkipSlashes(s: string, i: nat): (r: nat)
    requires i <= |s|
    ensures i <= r <= |s|
    ensures forall k :: i <= k < r ==> s[k] == SLASH
    ensures r < |s| ==> s[r] != SLASH
    decreases |s| - i
  {
    if i < |s| && s[i] == SLASH then SkipSlashes(s, i + 1) else i
  }

  function DropSlashes(s: string, lo: nat, hi: nat): (r: nat)
    requires lo <= hi <= |s|
    ensures lo <= r <= hi
    ensures forall k :: r <= k < hi ==> s[k] == SLASH
    ensures r > lo ==> s[r - 1] != SLASH
    decreases hi
  {
    if hi > lo && s[hi - 1] == SLASH then DropSlashes(s, lo, hi - 1) else hi
  }

  /** `strings.Trim(s, "/")`. */
  function TrimSlashes(s: string): string {
    var lo := SkipSlashes(s, 0);
    s[lo..DropSlashes(s, lo, |s|)]
  }

  predicate IsPathChar(c: char) {
    'a' <= c <= 'z' || '0' <= c <= '9' || c == '_' || c == '-'
  }

  function ValidatePathSegment(segment: string): (e: seq<PathError>)
    ensures |e| <= 1
  {
    if segment == "" then [InvalidPath]
    else if |segment| > 64 then [PathTooLong]
    else if segment == "." || segment == ".." then [PathTraversal]
    else if exists i :: 0 <= i < |segment| && !IsPathChar(segment[i]) then [InvalidPath]
    else []
  }

  /** One to 64 lower-case letters, digits, underscores or hyphens. */
  predicate ValidSegment(segment: string) {
    1 <= |segment| <= 64 && forall i :: 0 <= i < |segment| ==> IsPathChar(segment[i])
  }

  lemma ValidSegmentMatchesPattern(segment: string)
    ensures ValidSegment(segment) <==> 0 < |segment| < 65 && forall c :: c in segment ==> c in LOWER_CASE + DIGITS + "_-"
  {
    forall c: char ensures IsPathChar(c) <==> c in LOWER_CASE + DIGITS + "_-" { TablesAre(c); }
  }

  lemma SegmentCheck(segment: string)
    ensures ValidatePathSegment(segment) == [] <==> ValidSegment(segment)
  {
    if ValidSegment(segment) { assert IsPathChar(segment[0]); }
  }

  /** The error of the first bad segment, or nothing; `skipEmpty` passes over empty segments. */
  function FirstError(segments: seq<string>, skipEmpty: bool): (e: seq<PathError>)
    ensures |e| <= 1
  {
    if segments == [] then []
    else if skipEmpty && segments[0] == "" then FirstError(segments[1..], skipEmpty)
    else
      var e := ValidatePathSegment(segments[0]);
      if e != [] then e else FirstError(segments[1..], skipEmpty)
  }

  function ValidatePath(input: string): (e: seq<PathError>)
    ensures |e| <= 1
  {
    if |input| > 2048 then [PathTooLong]
    else if Contains(input, "..") then [PathTraversal]
    else FirstError(Split(TrimSlashes(input), SLASH), true)
  }

  function NormalizePath(input: string): string {
    if input == "" then ""
    else
      var cleaned := TrimSlashes(Clean(input));
      if Contains(cleaned, "..") then "" else cleaned
  }

  function SafePath(input: string): PathAnswer {
    var e := ValidatePath(input);
    if e != [] then Refused(e[0]) else Path(NormalizePath(input))
  }

  function NormalizeBaseURL(input: string): PathAnswer {
    var trimmed := TrimSpace(input);
    if trimmed == "" || trimmed == "/" then Path("/")
    else if Contains(input, "..") then Refused(PathTraversal)
    else
      var cleaned := Clean([SLASH] + trimmed);
      var e := FirstError(Split(TrimSlashes(cleaned), SLASH), false);
      if e != [] then Refused(e[0]) else Path(cleaned)
  }

  /** The segments that name something. */
  function RealSegments(parts: seq<string>): (r: seq<string>)
    ensures forall s :: s in r <==> s in parts && s != "" && s != "."
  {
    if parts == [] then []
    else if parts[0] == "" || parts[0] == "." then RealSegments(parts[1..])
    else [parts[0]] + RealSegments(parts[1..])
  }

  lemma {:induction false} RealSegmentsConcat(a: seq<string>, b: seq<string>)
    ensures RealSegments(a + b) == RealSegments(a) + RealSegments(b)
  {
    hide ValidSegment;
    if a == [] {
      assert a + b == b;
    } else {
      RealSegmentsConcat(a[1..], b);
      assert (a + b)[1..] == a[1..] + b;
    }
  }

  lemma {:induction false} FoldWithoutDotDot(rooted: bool, stack: seq<string>, parts: seq<string>)
    requires ".." !in parts
    ensures CleanFold(rooted, stack, parts) == stack + RealSegments(parts)
    decreases |parts|
  {
    if parts != [] {
      FoldWithoutDotDot(rooted, CleanStep(rooted, stack, parts[0]), parts[1..]);
      assert stack + [parts[0]] + RealSegments(parts[1..]) == stack + ([parts[0]] + RealSegments(parts[1..]));
    }
  }

  lemma {:induction false} FirstPartIsPrefix(s: string)
    ensures OccursAt(s, Split(s, SLASH)[0], 0)
  {
    if s != "" && s[0] != SLASH {
      FirstPartIsPrefix(s[1..]);
      var rest := Split(s[1..], SLASH)[0];
      assert s[..|rest| + 1] == [s[0]] + s[1..][..|rest|];
    }
  }

  lemma {:induction false} PartOccurs(s: string, part: string)
    requires part in Split(s, SLASH)
    ensures Contains(s, part)
  {
    var parts := Split(s, SLASH);
    FirstPartIsPrefix(s);
    if part != parts[0] {
      assert s != "";
      var rest := Split(s[1..], SLASH);
      assert part in rest;
      PartOccurs(s[1..], part);
      var i :| 0 <= i <= |s[1..]| && OccursAt(s[1..], part, i);
      assert s[i + 1..i + 1 + |part|] == s[1..][i..i + |part|];
      assert OccursAt(s, part, i + 1);
    }
  }

  /** The branch of `path.Clean` for ".." is never taken on input that contains no "..". */
  lemma NoDotDotSegment(s: string)
    requires !Contains(s, "..")
    ensures ".." !in Split(s, SLASH)
  {
    if ".." in Split(s, SLASH) {
      PartOccurs(s, "..");
      assert false;
    }
  }

  /** Trimming slashes does not change which segments name something. */
  lemma {:induction false} LeadingSlashes(s: string, lo: nat)
    requires lo <= |s| && forall k :: 0 <= k < lo ==> s[k] == SLASH
    ensures RealSegments(Split(s, SLASH)) == RealSegments(Split(s[lo..], SLASH))
    decreases lo
  {
    if lo > 0 {
      LeadingSlashes(s[1..], lo - 1);
      assert s[1..][lo - 1..] == s[lo..];
      RealSegmentsConcat([""], Split(s[1..], SLASH));
    } else {
      assert s[lo..] == s;
    }
  }

  lemma {:induction false} TrailingSlashes(s: string, hi: nat)
    requires hi <= |s| && forall k :: hi <= k < |s| ==> s[k] == SLASH
    ensures RealSegments(Split(s, SLASH)) == RealSegments(Split(s[..hi], SLASH))
    decreases |s| - hi
  {
    if hi < |s| {
      var init := s[..|s| - 1];
      TrailingSlashes(init, hi);
      assert init[..hi] == s[..hi];
      assert s == init + [SLASH] + "";
      SplitConcat(init, "", SLASH);
      RealSegmentsConcat(Split(init, SLASH), [""]);
    } else {
      assert s[..hi] == s;
    }
  }

  lemma TrimKeepsSegments(s: string)
    ensures RealSegments(Split(TrimSlashes(s), SLASH)) == RealSegments(Split(s, SLASH))
  {
    var lo := SkipSlashes(s, 0);
    var hi := DropSlashes(s, lo, |s|);
    LeadingSlashes(s, lo);
    assert s[lo..][..hi - lo] == s[lo..hi];
    TrailingSlashes(s[lo..], hi - lo);
  }

  lemma {:induction false} FirstErrorIff(parts: seq<string>, skipEmpty: bool)
    ensures FirstError(parts, skipEmpty) == [] <==> forall s :: s in parts && !(skipEmpty && s == "") ==> ValidSegment(s)
  {
    if parts != [] {
      FirstErrorIff(parts[1..], skipEmpty);
      SegmentCheck(parts[0]);
      assert forall s :: s in parts <==> s == parts[0] || s in parts[1..];
    }
  }

  /** What is wrong with a segment: too long, dots, or blank or with a character out of place. */
  lemma SegmentErrorIs(segment: string)
    ensures ValidatePathSegment(segment) == [PathTooLong] <==> |segment| > 64
    ensures ValidatePathSegment(segment) == [PathTraversal] <==> segment == "." || segment == ".."
    ensures ValidatePathSegment(segment) == [InvalidPath] <==>
              !ValidSegment(segment) && |segment| <= 64 && segment != "." && segment != ".."
  {
    SegmentCheck(segment);
    if segment == "." || segment == ".." { assert !IsPathChar(segment[0]); }
  }

  ghost predicate FirstBadAt(parts: seq<string>, skipEmpty: bool, k: int) {
    && 0 <= k < |parts| && !ValidSegment(parts[k]) && !(skipEmpty && parts[k] == "")
    && forall i :: 0 <= i < k ==> ValidSegment(parts[i]) || (skipEmpty && parts[i] == "")
  }

  /** The error reported is that of the first bad segment. */
  lemma {:induction false} FirstErrorIs(parts: seq<string>, skipEmpty: bool, k: int)
    requires FirstBadAt(parts, skipEmpty, k)
    ensures FirstError(parts, skipEmpty) == ValidatePathSegment(parts[k]) != []
  {
    hide ValidSegment;
    SegmentCheck(parts[0]);
    SegmentCheck(parts[k]);
    if k > 0 { FirstErrorIs(parts[1..], skipEmpty, k - 1); }
  }

  /** Why `SafePath` refuses: length first, then "..", then the first non-empty segment that is no name. */
  lemma SafePathRefusalIs(input: string, k: int)
    ensures |input| > 2048 ==> SafePath(input) == Refused(PathTooLong)
    ensures |input| <= 2048 && Contains(input, "..") ==> SafePath(input) == Refused(PathTraversal)
    ensures var parts := Split(TrimSlashes(input), SLASH);
            |input| <= 2048 && !Contains(input, "..") && FirstBadAt(parts, true, k) ==>
              SafePath(input).Refused? && ValidatePathSegment(parts[k]) == [SafePath(input).error]
  {
    hide ValidSegment, Contains, TrimSlashes, Split, ValidatePathSegment, NormalizePath;
    var parts := Split(TrimSlashes(input), SLASH);
    if FirstBadAt(parts, true, k) { FirstErrorIs(parts, true, k); }
  }

  predicate AllValid(parts: seq<string>) {
    forall i :: 0 <= i < |parts| ==> ValidSegment(parts[i])
  }

  /** What a joined list of valid segments looks like. */
  lemma {:induction false} JoinOfValid(parts: seq<string>)
    requires AllValid(parts)
    ensures var r := Join(parts, SLASH);
            && (forall i :: 0 <= i < |r| ==> IsPathChar(r[i]) || r[i] == SLASH)
            && (parts != [] ==> r != "" && r[0] != SLASH && r[|r| - 1] != SLASH)
            && (parts == [] ==> r == "")
            && RealSegments(parts) == parts && NoneContain(parts, SLASH)
  {
    if parts != [] {
      assert IsPathChar(parts[0][0]) && IsPathChar(parts[0][|parts[0]| - 1]);
      assert parts == [parts[0]] + parts[1..];
      JoinOfValid(parts[1..]);
    }
  }

  lemma JoinHasNoDotDot(parts: seq<string>)
    requires AllValid(parts)
    ensures !Contains(Join(parts, SLASH), "..")
    ensures !Contains([SLASH] + Join(parts, SLASH), "..")
  {
    JoinOfValid(parts);
    NoDotNoDotDot(Join(parts, SLASH));
    NoDotNoDotDot([SLASH] + Join(parts, SLASH));
  }

  lemma NoDotNoDotDot(s: string)
    requires forall i :: 0 <= i < |s| ==> s[i] != '.'
    ensures !Contains(s, "..")
  {
    forall i | 0 <= i <= |s| ensures !OccursAt(s, "..", i) {
      if i + 2 <= |s| { assert s[i..i + 2][0] == s[i]; }
    }
  }

  lemma TrimSlashesOf(r: string)
    requires r == "" || (r[0] != SLASH && r[|r| - 1] != SLASH)
    ensures TrimSlashes(r) == r && TrimSlashes([SLASH] + r) == r
  {
    assert SkipSlashes(r, 0) == 0;
    assert SkipSlashes([SLASH] + r, 0) == 1;
  }

  /** The segments of an input, as both normalisers see them. */
  function Segments(input: string): seq<string> { RealSegments(Split(input, SLASH)) }

  /** `path.Clean` on input without "..": the real segments, joined. */
  lemma CleanWithoutDotDot(path: string)
    requires path != "" && ".." !in Split(path, SLASH)
    ensures Clean(path) == if path[0] == SLASH then [SLASH] + Join(Segments(path), SLASH)
                           else if Segments(path) == [] then "." else Join(Segments(path), SLASH)
  {
    var parts, rooted := Split(path, SLASH), path[0] == SLASH;
    FoldWithoutDotDot(rooted, [], parts);
    assert CleanFold(rooted, [], parts) == RealSegments(parts);
  }

  lemma RelativeHasSegment(path: string)
    requires path != "" && path[0] != SLASH && "." !in Split(path, SLASH)
    ensures Segments(path) != []
  {
    var parts := Split(path, SLASH);
    assert parts[0] != "" && parts[0] in parts;
    assert parts[0] in Segments(path);
  }

  lemma ValidIsNoDots(s: string)
    requires ValidSegment(s)
    ensures s != "." && s != ".."
  {
    assert IsPathChar(s[0]);
  }

  lemma AllValidIff(parts: seq<string>)
    ensures (forall s :: s in parts && s != "" ==> ValidSegment(s)) <==> AllValid(RealSegments(parts)) && "." !in parts
  {
    hide ValidSegment;
    if AllValid(RealSegments(parts)) && "." !in parts {
      forall s | s in parts && s != "" ensures ValidSegment(s) {
        assert s in RealSegments(parts);
      }
    }
    forall s | s in parts && ValidSegment(s) ensures s != "." { ValidIsNoDots(s); }
    assert forall i :: 0 <= i < |RealSegments(parts)| ==> RealSegments(parts)[i] in RealSegments(parts);
  }

  lemma ValidateIff(input: string)
    ensures ValidatePath(input) == [] <==>
              |input| <= 2048 && !Contains(input, "..") && AllValid(Segments(input)) && "." !in Split(input, SLASH)
  {
    hide ValidSegment, Contains, TrimSlashes, AllValid, FirstError, RealSegments, Split;
    var trimmed := Split(TrimSlashes(input), SLASH);
    FirstErrorIff(trimmed, true);
    TrimKeepsSegments(input);
    DotSurvivesTrim(input);
    AllValidIff(trimmed);
  }

  /** A "." segment is there before trimming exactly when it is there after. */
  lemma DotSurvivesTrim(s: string)
    ensures "." in Split(s, SLASH) <==> "." in Split(TrimSlashes(s), SLASH)
  {
    var lo := SkipSlashes(s, 0);
    var hi := DropSlashes(s, lo, |s|);
    DotAfterSlashes(s, lo);
    assert s[lo..][..hi - lo] == s[lo..hi];
    DotBeforeSlashes(s[lo..], hi - lo);
  }

  lemma {:induction false} DotAfterSlashes(s: string, lo: nat)
    requires lo <= |s| && forall k :: 0 <= k < lo ==> s[k] == SLASH
    ensures "." in Split(s, SLASH) <==> "." in Split(s[lo..], SLASH)
    decreases lo
  {
    if lo > 0 {
      DotAfterSlashes(s[1..], lo - 1);
      assert s[1..][lo - 1..] == s[lo..];
    } else {
      assert s[lo..] == s;
    }
  }

  lemma {:induction false} DotBeforeSlashes(s: string, hi: nat)
    requires hi <= |s| && forall k :: hi <= k < |s| ==> s[k] == SLASH
    ensures "." in Split(s, SLASH) <==> "." in Split(s[..hi], SLASH)
    decreases |s| - hi
  {
    if hi < |s| {
      var init := s[..|s| - 1];
      DotBeforeSlashes(init, hi);
      assert init[..hi] == s[..hi];
      assert s == init + [SLASH] + "";
      SplitConcat(init, "", SLASH);
    } else {
      assert s[..hi] == s;
    }
  }

  /** `SafePath` accepts exactly the inputs of at most 2048 characters without ".." whose non-empty
      segments are all valid, and returns those segments joined by single slashes. */
  lemma SafePathIsCanonical(input: string)
    ensures SafePath(input).Path? <==>
              |input| <= 2048 && !Contains(input, "..") && AllValid(Segments(input)) && "." !in Split(input, SLASH)
    ensures SafePath(input).Path? ==> SafePath(input).text == Join(Segments(input), SLASH)
  {
    ValidateIff(input);
    if SafePath(input).Path? { NormalizePathIs(input); }
  }

  lemma NormalizePathIs(input: string)
    requires !Contains(input, "..") && AllValid(Segments(input)) && "." !in Split(input, SLASH)
    ensures NormalizePath(input) == Join(Segments(input), SLASH)
  {
    var names := Segments(input);
    JoinOfValid(names);
    JoinHasNoDotDot(names);
    TrimSlashesOf(Join(names, SLASH));
    if input == "" {
      assert Split(input, SLASH) == [""] && RealSegments([""]) == RealSegments([""][1..]);
    } else {
      NoDotDotSegment(input);
      CleanWithoutDotDot(input);
      if input[0] != SLASH { RelativeHasSegment(input); }
      assert TrimSlashes(Clean(input)) == Join(names, SLASH);
    }
  }

  lemma {:induction false} JoinRealIsShorter(parts: seq<string>)
    ensures |Join(RealSegments(parts), SLASH)| <= |Join(parts, SLASH)|
    ensures RealSegments(parts) != [] && |parts| > 0 && (parts[0] == "" || parts[0] == ".") ==>
              |Join(RealSegments(parts), SLASH)| < |Join(parts, SLASH)|
  {
    if |parts| > 1 {
      JoinRealIsShorter(parts[1..]);
      var rest := RealSegments(parts[1..]);
      if parts[0] != "" && parts[0] != "." {
        assert RealSegments(parts)[1..] == rest;
      }
    } else if |parts| == 1 {
      assert parts[1..] == [];
    }
  }

  lemma SegmentsOfJoin(parts: seq<string>)
    requires AllValid(parts)
    ensures Segments(Join(parts, SLASH)) == parts
    ensures Segments([SLASH] + Join(parts, SLASH)) == parts
    ensures "." !in Split(Join(parts, SLASH), SLASH) && ".." !in Split([SLASH] + Join(parts, SLASH), SLASH)
  {
    JoinOfValid(parts);
    var r := Join(parts, SLASH);
    SplitOfValid(parts);
    assert ([SLASH] + r)[1..] == r;
    assert Split([SLASH] + r, SLASH) == [""] + Split(r, SLASH);
    RealSegmentsConcat([""], Split(r, SLASH));
    assert RealSegments([""]) == RealSegments([""][1..]);
  }

  lemma SplitOfValid(parts: seq<string>)
    requires AllValid(parts)
    ensures var split := Split(Join(parts, SLASH), SLASH);
            RealSegments(split) == parts && "." !in split && ".." !in split
  {
    JoinOfValid(parts);
    if parts == [] {
      assert RealSegments([""]) == RealSegments([""][1..]);
    } else {
      JoinSplits(parts, SLASH);
      forall s | s in parts ensures s != "." && s != ".." { ValidIsNoDots(s); }
    }
  }

  /** Normalising an accepted path again changes nothing. */
  lemma SafePathIsIdempotent(input: string)
    requires SafePath(input).Path?
    ensures SafePath(SafePath(input).text) == SafePath(input)
  {
    SafePathIsCanonical(input);
    var names := Segments(input);
    var r := Join(names, SLASH);
    SplitJoins(input, SLASH);
    JoinRealIsShorter(Split(input, SLASH));
    SegmentsOfJoin(names);
    JoinHasNoDotDot(names);
    SafePathIsCanonical(r);
  }

  /** `NormalizeBaseURL` returns "/" for a blank or single-slash input and otherwise accepts exactly the
      inputs without ".." that have at least one segment and only valid ones, returning "/" and those. */
  lemma BaseURLIsCanonical(input: string)
    ensures var t := TrimSpace(input);
            && (t == "" || t == "/" ==> NormalizeBaseURL(input) == Path("/"))
            && (t != "" && t != "/" ==>
                  (NormalizeBaseURL(input).Path? <==> !Contains(input, "..") && Segments(t) != [] && AllValid(Segments(t))))
            && (t != "" && t != "/" && NormalizeBaseURL(input).Path? ==>
                  NormalizeBaseURL(input).text == [SLASH] + Join(Segments(t), SLASH))
  {
    var t := TrimSpace(input);
    if t != "" && t != "/" && !Contains(input, "..") {
      var names := Segments(t);
      BaseURLChecks(input);
      FirstErrorIff(if names == [] then [""] else names, false);
      assert names == [] ==> "" in [""] && !ValidSegment("");
      assert forall i :: 0 <= i < |names| ==> names[i] in names;
    }
  }

  /** Past the trivial inputs and the test for "..", the loop checks exactly the real segments. */
  lemma BaseURLChecks(input: string)
    requires var t := TrimSpace(input); t != "" && t != "/" && !Contains(input, "..")
    ensures var names := Segments(TrimSpace(input));
            var e := FirstError(if names == [] then [""] else names, false);
            NormalizeBaseURL(input) == if e != [] then Refused(e[0]) else Path([SLASH] + Join(names, SLASH))
  {
    var t := TrimSpace(input);
    TrimmedHasNoDotDot(input);
    NoDotDotSegment(t);
    var path := [SLASH] + t;
    assert path[1..] == t;
    assert Split(path, SLASH) == [""] + Split(t, SLASH);
    RealSegmentsConcat([""], Split(t, SLASH));
    CleanWithoutDotDot(path);
    SegmentsAreNames(t);
    BaseSegments(Segments(t));
  }

  /** Why `NormalizeBaseURL` refuses: "..", then no segment at all, then the first segment that is no name. */
  lemma BaseURLRefusalIs(input: string, k: int)
    requires var t := TrimSpace(input); t != "" && t != "/"
    ensures Contains(input, "..") ==> NormalizeBaseURL(input) == Refused(PathTraversal)
    ensures var names := Segments(TrimSpace(input));
            !Contains(input, "..") && names == [] ==> NormalizeBaseURL(input) == Refused(InvalidPath)
    ensures var names := Segments(TrimSpace(input));
            !Contains(input, "..") && FirstBadAt(names, false, k) ==>
              NormalizeBaseURL(input).Refused? && ValidatePathSegment(names[k]) == [NormalizeBaseURL(input).error]
  {
    if !Contains(input, "..") {
      var names := Segments(TrimSpace(input));
      BaseURLChecks(input);
      if FirstBadAt(names, false, k) { FirstErrorIs(names, false, k); }
    }
  }

  lemma PieceContains(s: string, lo: nat, hi: nat, part: string)
    requires lo <= hi <= |s| && Contains(s[lo..hi], part)
    ensures Contains(s, part)
  {
    var piece := s[lo..hi];
    var i :| 0 <= i <= |piece| && OccursAt(piece, part, i);
    var n := |part|;
    forall k | 0 <= k < n ensures s[lo + i..lo + i + n][k] == part[k] {
      assert piece[i..i + n][k] == part[k] && piece[i + k] == s[lo + i + k];
    }
    assert OccursAt(s, part, lo + i);
  }

  lemma TrimmedHasNoDotDot(input: string)
    requires !Contains(input, "..")
    ensures !Contains(TrimSpace(input), "..")
  {
    var lo := SkipSpace(input, 0);
    var hi := DropSpace(input, lo, |input|);
    if Contains(TrimSpace(input), "..") { PieceContains(input, lo, hi, ".."); }
  }

  lemma SegmentsAreNames(t: string)
    ensures forall i :: 0 <= i < |Segments(t)| ==> SLASH !in Segments(t)[i] && Segments(t)[i] != ""
  {
    SplitJoins(t, SLASH);
    var names, parts := Segments(t), Split(t, SLASH);
    forall i | 0 <= i < |names| ensures SLASH !in names[i] && names[i] != "" {
      assert names[i] in names;
      assert names[i] in parts;
    }
  }

  /** The cleaned path splits into the real segments again, or into one empty one when there are none. */
  lemma BaseSegments(names: seq<string>)
    requires forall i :: 0 <= i < |names| ==> SLASH !in names[i] && names[i] != ""
    ensures Split(TrimSlashes([SLASH] + Join(names, SLASH)), SLASH) == if names == [] then [""] else names
  {
    hide ValidSegment, RealSegments;
    JoinEnds(names);
    TrimSlashesOf(Join(names, SLASH));
    if names == [] {
      assert Split("", SLASH) == [""];
    } else {
      JoinSplits(names, SLASH);
    }
  }

  lemma {:induction false} JoinEnds(parts: seq<string>)
    requires forall i :: 0 <= i < |parts| ==> SLASH !in parts[i] && parts[i] != ""
    ensures var r := Join(parts, SLASH);
            if parts == [] then r == "" else r != "" && r[0] != SLASH && r[|r| - 1] != SLASH
  {
    if parts != [] {
      assert parts[0][0] in parts[0] && parts[0][|parts[0]| - 1] in parts[0];
      JoinEnds(parts[1..]);
    }
  }

  /** Normalising an accepted base URL again changes nothing. */
  lemma BaseURLIsIdempotent(input: string)
    requires NormalizeBaseURL(input).Path?
    ensures NormalizeBaseURL(NormalizeBaseURL(input).text) == NormalizeBaseURL(input)
  {
    BaseURLIsCanonical(input);
    var t := TrimSpace(input);
    if t != "" && t != "/" {
      CanonicalURLIsFixed(Segments(t));
    } else {
      assert TrimSpace("/") == "/";
    }
  }

  lemma CanonicalURLIsFixed(names: seq<string>)
    requires names != [] && AllValid(names)
    ensures NormalizeBaseURL([SLASH] + Join(names, SLASH)) == Path([SLASH] + Join(names, SLASH))
  {
    var r := [SLASH] + Join(names, SLASH);
    JoinOfValid(names);
    SegmentsOfJoin(names);
    JoinHasNoDotDot(names);
    assert r[|r| - 1] == Join(names, SLASH)[|r| - 2];
    assert Trimmed(r) && TrimSpace(r) == r && r != "" && r != "/";
    BaseURLIsCanonical(r);
  }
}
