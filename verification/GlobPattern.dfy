/** Whole path patterns: case folding, the substring fallback, and `**`, which is matched by
    cutting the pattern at every `**` and placing the pieces from left to right. */
module GlobPattern {
  import opened Wrappers
  import opened GlobSegment

  // ----- Text helpers -----

  /** ASCII lower case. */
  function LowerChar(c: char): char {
    if 'A' <= c <= 'Z' then (c as int + 32) as char else c
  }

  function Lower(s: string): (r: string)
    ensures |r| == |s|
  {
    seq(|s|, i requires 0 <= i < |s| => LowerChar(s[i]))
  }

  predicate HasSubstring(text: string, part: string) {
    part <= text || (text != [] && HasSubstring(text[1..], part))
  }

  /** `part` stands in `text` at `i`. */
  predicate FoundAt(text: string, part: string, i: nat) {
    i + |part| <= |text| && text[i..i + |part|] == part
  }

  lemma {:induction false} SubstringIff(text: string, part: string)
    ensures HasSubstring(text, part) <==> exists i :: FoundAt(text, part, i)
  {
    if HasSubstring(text, part) {
      var i := SubstringStands(text, part);
    }
    if i :| FoundAt(text, part, i) {
      StandingIsSubstring(text, part, i);
    }
  }

  lemma {:induction false} SubstringStands(text: string, part: string) returns (i: nat)
    requires HasSubstring(text, part)
    ensures FoundAt(text, part, i)
  {
    if part <= text {
      i := 0;
    } else {
      i := SubstringStands(text[1..], part);
      assert text[1..][i..i + |part|] == text[i + 1..i + 1 + |part|];
      i := i + 1;
    }
  }

  lemma {:induction false} StandingIsSubstring(text: string, part: string, i: nat)
    requires FoundAt(text, part, i)
    ensures HasSubstring(text, part)
    decreases i
  {
    if i == 0 {
      assert text[..|part|] == part;
    } else {
      assert text[1..][i - 1..i - 1 + |part|] == text[i..i + |part|];
      StandingIsSubstring(text[1..], part, i - 1);
    }
  }

  /** Cuts a pattern at every `**`, left to right. */
  function SplitDoubleStar(pat: string): (segments: seq<string>)
    ensures |segments| >= 1
  {
    if |pat| < 2 then [pat]
    else if pat[0] == '*' && pat[1] == '*' then [""] + SplitDoubleStar(pat[2..])
    else
      var rest := SplitDoubleStar(pat[1..]);
      [[pat[0]] + rest[0]] + rest[1..]
  }

  function JoinDoubleStar(segments: seq<string>): string
    requires |segments| >= 1
  {
    if |segments| == 1 then segments[0] else segments[0] + "**" + JoinDoubleStar(segments[1..])
  }

  lemma {:induction false} SplitsIfDoubleStar(pat: string)
    ensures |SplitDoubleStar(pat)| == 1 <==> !HasSubstring(pat, "**")
  {
    StartsWithDoubleStar(pat);
    if |pat| >= 2 && !(pat[0] == '*' && pat[1] == '*') {
      SplitsIfDoubleStar(pat[1..]);
    } else if |pat| >= 2 {
      assert pat == "**" + pat[2..];
    } else if |pat| == 1 {
      assert !HasSubstring(pat[1..], "**");
    }
  }

  /** Only the last segment may end in a star: every `**` is cut where it starts first. */
  predicate CutFromTheLeft(segments: seq<string>) {
    forall i :: 0 <= i < |segments| - 1 ==> segments[i] == "" || segments[i][|segments[i]| - 1] != '*'
  }

  lemma {:induction false} SplitCutsFromTheLeft(pat: string)
    ensures CutFromTheLeft(SplitDoubleStar(pat))
  {
    if |pat| >= 2 && !(pat[0] == '*' && pat[1] == '*') {
      SplitCutsFromTheLeft(pat[1..]);
      var rest := SplitDoubleStar(pat[1..]);
      if |rest| > 1 && rest[0] == "" {
        SplitStartsWithStars(pat[1..]);
      }
    } else if |pat| >= 2 {
      SplitCutsFromTheLeft(pat[2..]);
    }
  }

  lemma {:induction false} SplitStartsWithStars(pat: string)
    requires |SplitDoubleStar(pat)| > 1 && SplitDoubleStar(pat)[0] == ""
    ensures |pat| >= 2 && pat[0] == '*' && pat[1] == '*'
  {
  }

  /** There is only one way to cut a pattern so that nothing is lost, no `**` is left and every one is cut from
      the left. */
  lemma {:induction false} CutIsUnique(a: seq<string>, b: seq<string>)
    requires a != [] && b != [] && JoinDoubleStar(a) == JoinDoubleStar(b)
    requires forall seg :: seg in a + b ==> !HasSubstring(seg, "**")
    requires CutFromTheLeft(a) && CutFromTheLeft(b)
    ensures a == b
  {
    assert a[0] in a + b && b[0] in a + b;
    if |a| > 1 && |b| > 1 {
      FirstCutsAgree(a, b);
      assert JoinDoubleStar(a)[|a[0]| + 2..] == JoinDoubleStar(a[1..]);
      assert JoinDoubleStar(b)[|b[0]| + 2..] == JoinDoubleStar(b[1..]);
      assert forall seg :: seg in a[1..] + b[1..] ==> seg in a + b;
      CutIsUnique(a[1..], b[1..]);
      assert a == [a[0]] + a[1..] && b == [b[0]] + b[1..];
    } else if |a| > 1 {
      JoinedHasDoubleStar(a);
    } else if |b| > 1 {
      JoinedHasDoubleStar(b);
    }
  }

  lemma {:induction false} JoinedHasDoubleStar(segments: seq<string>)
    requires |segments| > 1
    ensures var pat, n := JoinDoubleStar(segments), |segments[0]|;
            && HasSubstring(pat, "**") && pat[..n] == segments[0]
            && n + 2 <= |pat| && pat[n] == '*' && pat[n + 1] == '*'
  {
    var pat, n := JoinDoubleStar(segments), |segments[0]|;
    assert pat[n..n + 2] == "**";
    StandingIsSubstring(pat, "**", n);
    assert pat[n] == "**"[0] && pat[n + 1] == "**"[1];
  }

  lemma {:induction false} FirstCutsAgree(a: seq<string>, b: seq<string>)
    requires |a| > 1 && |b| > 1 && JoinDoubleStar(a) == JoinDoubleStar(b)
    requires !HasSubstring(a[0], "**") && !HasSubstring(b[0], "**")
    requires CutFromTheLeft(a) && CutFromTheLeft(b)
    ensures a[0] == b[0]
  {
    JoinedHasDoubleStar(a);
    JoinedHasDoubleStar(b);
    CutNotLater(JoinDoubleStar(a), a[0], |b[0]|);
    CutNotLater(JoinDoubleStar(a), b[0], |a[0]|);
  }

  /** What stands before a first cut ends where the first two stars start. */
  lemma {:induction false} CutNotLater(pat: string, head: string, n: nat)
    requires head <= pat && !HasSubstring(head, "**") && (head == "" || head[|head| - 1] != '*')
    requires n + 2 <= |pat| && pat[n] == '*' && pat[n + 1] == '*'
    ensures |head| <= n
  {
    if n + 2 <= |head| {
      assert head[n] == pat[n] && head[n + 1] == pat[n + 1];
      assert head[n..n + 2] == "**";
      StandingIsSubstring(head, "**", n);
    }
  }

  /** Cutting loses nothing, cuts exactly when a `**` occurs, and cuts every `**` from the left, which
      leaves one way to do it (`CutIsUnique`). */
  lemma {:induction false} SplitThenJoin(pat: string)
    ensures JoinDoubleStar(SplitDoubleStar(pat)) == pat
    ensures |SplitDoubleStar(pat)| == 1 <==> !HasSubstring(pat, "**")
    ensures forall seg :: seg in SplitDoubleStar(pat) ==> !HasSubstring(seg, "**")
    ensures CutFromTheLeft(SplitDoubleStar(pat))
  {
    SplitsIfDoubleStar(pat);
    SplitCutsFromTheLeft(pat);
    if |pat| >= 2 && !(pat[0] == '*' && pat[1] == '*') {
      SplitThenJoin(pat[1..]);
      HeadOfSplitIsPrefix(pat[1..]);
      LetterThenSegments(pat[0], pat[1..], SplitDoubleStar(pat[1..]));
      assert [pat[0]] + pat[1..] == pat;
    } else if |pat| >= 2 {
      SplitThenJoin(pat[2..]);
      assert ([""] + SplitDoubleStar(pat[2..]))[1..] == SplitDoubleStar(pat[2..]);
      assert pat == "**" + pat[2..];
      assert !HasSubstring("", "**");
    }
  }

  /** Putting a letter in front of the first segment puts it in front of the pattern. */
  lemma {:induction false} LetterThenSegments(letter: char, pat: string, segments: seq<string>)
    requires segments != [] && segments[0] <= pat && JoinDoubleStar(segments) == pat
    requires !(letter == '*' && pat != "" && pat[0] == '*')
    requires forall seg :: seg in segments ==> !HasSubstring(seg, "**")
    ensures var more := [[letter] + segments[0]] + segments[1..];
            && JoinDoubleStar(more) == [letter] + pat
            && forall seg :: seg in more ==> !HasSubstring(seg, "**")
  {
    var more := [[letter] + segments[0]] + segments[1..];
    JoinLetter(letter, segments);
    LetterMakesNoDoubleStar(letter, segments[0]);
    forall seg | seg in more ensures !HasSubstring(seg, "**") {
      assert seg == more[0] || seg in segments[1..];
    }
  }

  lemma {:induction false} JoinLetter(letter: char, segments: seq<string>)
    requires segments != []
    ensures JoinDoubleStar([[letter] + segments[0]] + segments[1..]) == [letter] + JoinDoubleStar(segments)
  {
    var more := [[letter] + segments[0]] + segments[1..];
    assert more[1..] == segments[1..];
    if |segments| > 1 {
      var rest := JoinDoubleStar(segments[1..]);
      assert [letter] + segments[0] + "**" + rest == [letter] + (segments[0] + "**" + rest);
    }
  }

  lemma {:induction false} LetterMakesNoDoubleStar(letter: char, text: string)
    requires !HasSubstring(text, "**") && !(letter == '*' && text != "" && text[0] == '*')
    ensures !HasSubstring([letter] + text, "**")
  {
    assert ([letter] + text)[1..] == text;
    StartsWithDoubleStar([letter] + text);
  }

  lemma StartsWithDoubleStar(text: string)
    ensures "**" <= text ==> |text| >= 2 && text[0] == '*' && text[1] == '*'
  {
    if "**" <= text {
      assert text[0] == "**"[0] && text[1] == "**"[1];
    }
  }

  lemma {:induction false} HeadOfSplitIsPrefix(pat: string)
    ensures SplitDoubleStar(pat)[0] <= pat
  {
    if |pat| >= 2 && !(pat[0] == '*' && pat[1] == '*') {
      HeadOfSplitIsPrefix(pat[1..]);
      assert pat == [pat[0]] + pat[1..];
    }
  }

  function SkipSlashes(s: string): (r: string) {
    if s != [] && s[0] == '/' then SkipSlashes(s[1..]) else s
  }

  function DropTrailingSlashes(s: string): string {
    if s != [] && s[|s| - 1] == '/' then DropTrailingSlashes(s[..|s| - 1]) else s
  }

  function TrimSlashes(s: string): string {
    DropTrailingSlashes(SkipSlashes(s))
  }

  predicate OnlySlashes(s: string) {
    forall i :: 0 <= i < |s| ==> s[i] == '/'
  }

  /** Trimming takes slashes off both ends, and all of them. */
  lemma {:induction false} TrimmedOfSlashes(s: string) returns (front: string, back: string)
    ensures s == front + TrimSlashes(s) + back && OnlySlashes(front) && OnlySlashes(back)
    ensures var t := TrimSlashes(s); t != "" ==> t[0] != '/' && t[|t| - 1] != '/'
  {
    front := SkippedSlashes(s);
    back := DroppedSlashes(SkipSlashes(s));
  }

  lemma {:induction false} SkippedSlashes(s: string) returns (front: string)
    ensures s == front + SkipSlashes(s) && OnlySlashes(front)
    ensures SkipSlashes(s) != "" ==> SkipSlashes(s)[0] != '/'
  {
    if s != [] && s[0] == '/' {
      front := SkippedSlashes(s[1..]);
      front := "/" + front;
      assert s == "/" + s[1..];
    } else {
      front := "";
    }
  }

  lemma {:induction false} DroppedSlashes(s: string) returns (back: string)
    ensures s == DropTrailingSlashes(s) + back && OnlySlashes(back)
    ensures var t := DropTrailingSlashes(s); t <= s && (t != "" ==> t[|t| - 1] != '/')
  {
    if s != [] && s[|s| - 1] == '/' {
      back := DroppedSlashes(s[..|s| - 1]);
      back := back + "/";
      assert s == s[..|s| - 1] + "/";
    } else {
      back := "";
    }
  }

  /** The first slash at or after `from`. */
  function NextSlash(s: string, from: nat): (r: Option<nat>)
    requires from <= |s|
    ensures r.None? ==> forall q :: from <= q < |s| ==> s[q] != '/'
    ensures r.Some? ==>
              && from <= r.value < |s| && s[r.value] == '/'
              && forall q :: from <= q < r.value ==> s[q] != '/'
    decreases |s| - from
  {
    if from == |s| then None
    else if s[from] == '/' then Some(from)
    else NextSlash(s, from + 1)
  }

  // ----- The shortest matching prefix -----

  /** `len` is the length of the shortest prefix of `text` that matches, or says there is none. */
  ghost predicate IsShortestPrefix(pat: string, text: string, allowSlash: bool, len: Option<nat>) {
    match len
    case None => forall n: nat :: n <= |text| ==> !Matches(pat, text[..n], allowSlash)
    case Some(end) =>
      && end <= |text| && Matches(pat, text[..end], allowSlash)
      && forall n: nat :: n < end ==> !Matches(pat, text[..n], allowSlash)
  }

  function ShortestPrefix(pat: string, text: string, allowSlash: bool, from: nat := 0): Option<nat>
    requires from <= |text| + 1
    decreases |text| + 1 - from
  {
    if from > |text| then None
    else if Matches(pat, text[..from], allowSlash) then Some(from)
    else ShortestPrefix(pat, text, allowSlash, from + 1)
  }

  lemma {:induction false} ShortestPrefixIsShortest(pat: string, text: string, allowSlash: bool, from: nat)
    requires from <= |text| + 1
    requires forall n: nat :: n < from ==> !Matches(pat, text[..n], allowSlash)
    ensures IsShortestPrefix(pat, text, allowSlash, ShortestPrefix(pat, text, allowSlash, from))
    decreases |text| + 1 - from
  {
    if from <= |text| && !Matches(pat, text[..from], allowSlash) {
      ShortestPrefixIsShortest(pat, text, allowSlash, from + 1);
    }
  }

  method FindSegmentMatch(pat: string, text: string, allowSlash: bool) returns (len: Option<nat>)
    ensures IsShortestPrefix(pat, text, allowSlash, len)
    ensures len == ShortestPrefix(pat, text, allowSlash)
  {
    for end := 0 to |text| + 1
      invariant forall n: nat :: n < end ==> !Matches(pat, text[..n], allowSlash)
      invariant ShortestPrefix(pat, text, allowSlash) == ShortestPrefix(pat, text, allowSlash, end)
    {
      var matched := WildcardMatchSegment(pat, text[..end], allowSlash);
      if matched {
        return Some(end);
      }
      // never taken: `end` is at most the length of the text
      if end > |pat| * 2 + |text| {
        break;
      }
    }
    return None;
  }

  // ----- Placing the segments of a `**` pattern -----

  /** Where a segment was found in the rest of the text. */
  datatype Span = Span(start: nat, end: nat)

  /** Searches for a segment at `pos` and then after each later slash. */
  function Locate(seg: string, rest: string, pos: nat): Option<Span>
    requires pos <= |rest|
    decreases |rest| - pos
  {
    match ShortestPrefix(seg, rest[pos..], false)
    case Some(len) => Some(Span(pos, pos + len))
    case None =>
      match NextSlash(rest, pos)
      case Some(slash) => Locate(seg, rest, slash + 1)
      case None => None
  }

  /** What is located is a match inside the text, at `pos` or just after a slash. */
  lemma {:induction false} LocateFinds(seg: string, rest: string, pos: nat)
    requires pos <= |rest| && Locate(seg, rest, pos).Some?
    ensures var Span(start, end) := Locate(seg, rest, pos).value;
            && pos <= start <= end <= |rest|
            && Matches(seg, rest[start..end], false)
            && (start == pos || rest[start - 1] == '/')
    decreases |rest| - pos
  {
    var len := ShortestPrefix(seg, rest[pos..], false);
    ShortestPrefixIsShortest(seg, rest[pos..], false, 0);
    if len.Some? {
      assert rest[pos..][..len.value] == rest[pos..pos + len.value];
    } else {
      LocateFinds(seg, rest, NextSlash(rest, pos).value + 1);
    }
  }

  /** The text left after placing segment `i` and skipping the slashes after it, if it can be placed.
      A segment of slashes only asks for nothing. */
  function PlaceAt(segments: seq<string>, i: nat, rest: string): Option<string>
    requires i < |segments|
  {
    var seg := TrimSlashes(segments[i]);
    if seg == "" then Some(rest)
    else if i == 0 then
      ShortestPrefixIsShortest(seg, rest, false, 0);
      match ShortestPrefix(seg, rest, false)
      case None => None
      case Some(len) => Some(SkipSlashes(rest[len..]))
    else
      match Locate(seg, rest, 0)
      case None => None
      case Some(span) =>
        LocateFinds(seg, rest, 0);
        Some(SkipSlashes(rest[span.end..]))
  }

  /** The text left after placing the segments from index `i` on, if they can all be placed. */
  function PlaceFrom(segments: seq<string>, i: nat, rest: string): Option<string>
    requires i <= |segments|
    decreases |segments| - i
  {
    if i == |segments| then Some(rest)
    else
      match PlaceAt(segments, i, rest)
      case None => None
      case Some(left) => PlaceFrom(segments, i + 1, left)
  }

  /** What `wildcard_match` answers for a pattern and a text. */
  predicate GlobMatches(pattern: string, text: string) {
    var pat, txt := Lower(pattern), Lower(text);
    if '*' !in pat && '?' !in pat then HasSubstring(txt, pat)
    else
      var segments := SplitDoubleStar(pat);
      if |segments| == 1 then Matches(pat, txt, true) else AllPlaced(segments, txt)
  }

  /** All segments can be placed, with only slashes left over unless the pattern ends in `**`. */
  predicate AllPlaced(segments: seq<string>, txt: string)
    requires segments != []
  {
    match PlaceFrom(segments, 0, txt)
    case None => false
    case Some(rest) => segments[|segments| - 1] == "" || OnlySlashes(rest)
  }

  method LocateSegment(seg: string, remaining: string) returns (span: Option<Span>)
    ensures span == Locate(seg, remaining, 0)
  {
    var searchPos := 0;
    while true
      invariant searchPos <= |remaining|
      invariant Locate(seg, remaining, 0) == Locate(seg, remaining, searchPos)
      decreases |remaining| - searchPos
    {
      var len := FindSegmentMatch(seg, remaining[searchPos..], false);
      if len.Some? {
        return Some(Span(searchPos, searchPos + len.value));
      }
      match NextSlash(remaining, searchPos)
      case Some(slash) => searchPos := slash + 1;
      case None => return None;
    }
  }

  /** Places segment `i` and skips the slashes after it; says what is left, or that it does not fit. */
  method PlaceSegment(segments: seq<string>, i: nat, remaining: string) returns (rest: Option<string>)
    requires i < |segments|
    ensures rest == PlaceAt(segments, i, remaining)
  {
    var seg := TrimSlashes(segments[i]);
    if segments[i] == "" || seg == "" {
      return Some(remaining);
    }
    if i == 0 {
      var len := FindSegmentMatch(seg, remaining, false);
      if len == None {
        return None;
      }
      return Some(SkipSlashes(remaining[len.value..]));
    }
    var span := LocateSegment(seg, remaining);
    if span == None {
      return None;
    }
    LocateFinds(seg, remaining, 0);
    return Some(SkipSlashes(remaining[span.value.end..]));
  }

  method PlaceSegments(segments: seq<string>, txt: string) returns (placed: bool)
    requires segments != []
    ensures placed <==> AllPlaced(segments, txt)
  {
    var remaining := txt;
    for i := 0 to |segments|
      invariant PlaceFrom(segments, 0, txt) == PlaceFrom(segments, i, remaining)
    {
      var rest := PlaceSegment(segments, i, remaining);
      if rest == None {
        return false;
      }
      remaining := rest.value;
    }
    if segments[|segments| - 1] != "" {
      return remaining == "" || OnlySlashes(remaining);
    }
    return true;
  }

  method WildcardMatch(pattern: string, text: string) returns (matched: bool)
    ensures matched <==> GlobMatches(pattern, text)
  {
    var pat, txt := Lower(pattern), Lower(text);
    if '*' !in pat && '?' !in pat {
      return HasSubstring(txt, pat);
    }
    var segments := SplitDoubleStar(pat);
    if |segments| == 1 {
      matched := WildcardMatchSegment(pat, txt, true);
    } else {
      matched := PlaceSegments(segments, txt);
    }
  }

  // ----- Soundness of `**`: an accepted text has a placement of every segment -----

  /** Segment `index` of the pattern stands at `text[start..end]`. */
  datatype Placement = Placement(index: nat, start: nat, end: nat)

  ghost function EndBefore(places: seq<Placement>, k: nat): nat
    requires k <= |places|
  {
    if k == 0 then 0 else places[k - 1].end
  }

  /** The k-th placement is a slash-free-wildcard match of its trimmed segment, after the one
      before it, at the text's start for the first segment and otherwise directly after the one
      before it or just after a slash. */
  ghost predicate LegalPlace(segments: seq<string>, txt: string, places: seq<Placement>, k: nat)
    requires k < |places|
  {
    var p := places[k];
    && p.index < |segments| && TrimSlashes(segments[p.index]) != ""
    && (k > 0 ==> places[k - 1].index < p.index)
    && EndBefore(places, k) <= p.start <= p.end <= |txt|
    && Matches(TrimSlashes(segments[p.index]), txt[p.start..p.end], false)
    && (if p.index == 0 then p.start == 0
        else p.start == EndBefore(places, k) || txt[p.start - 1] == '/')
  }

  ghost predicate PlacesSegment(places: seq<Placement>, index: nat) {
    exists k :: 0 <= k < |places| && places[k].index == index
  }

  /** Every segment below `i` that is not just slashes is placed legally, and no other. */
  ghost predicate PlacesBelow(segments: seq<string>, txt: string, i: nat, places: seq<Placement>) {
    && i <= |segments|
    && (forall k {:trigger LegalPlace(segments, txt, places, k)} ::
          0 <= k < |places| ==> LegalPlace(segments, txt, places, k) && places[k].index < i)
    && (forall index: nat :: index < i && TrimSlashes(segments[index]) != "" ==> PlacesSegment(places, index))
  }

  /** The evidence for a `**` match: all segments placed in order without overlap, and nothing but
      slashes left over unless the pattern ends in `**`. */
  ghost predicate Witness(segments: seq<string>, txt: string, places: seq<Placement>) {
    && segments != []
    && PlacesBelow(segments, txt, |segments|, places)
    && EndBefore(places, |places|) <= |txt|
    && (segments[|segments| - 1] != "" ==> OnlySlashes(txt[EndBefore(places, |places|)..]))
  }

  ghost predicate SlashesBetween(txt: string, from: nat, to: nat) {
    from <= to <= |txt| && forall q :: from <= q < to ==> txt[q] == '/'
  }

  lemma SkipSlashesIsSuffix(txt: string, at: nat) returns (off: nat)
    requires at <= |txt|
    ensures at <= off <= |txt| && SkipSlashes(txt[at..]) == txt[off..]
    ensures SlashesBetween(txt, at, off)
    decreases |txt| - at
  {
    off := at;
    if at < |txt| && txt[at] == '/' {
      assert txt[at..][1..] == txt[at + 1..];
      off := SkipSlashesIsSuffix(txt, at + 1);
    }
  }

  lemma ExtendPlaces(segments: seq<string>, txt: string, i: nat, places: seq<Placement>, p: Placement)
    requires PlacesBelow(segments, txt, i, places) && i < |segments| && p.index == i
    requires LegalPlace(segments, txt, places + [p], |places|)
    ensures PlacesBelow(segments, txt, i + 1, places + [p])
  {
    var more := places + [p];
    forall k | 0 <= k < |more| ensures LegalPlace(segments, txt, more, k) && more[k].index < i + 1 {
      if k < |places| {
        assert LegalPlace(segments, txt, places, k);
        assert EndBefore(more, k) == EndBefore(places, k);
      }
    }
    forall index: nat | index < i + 1 && TrimSlashes(segments[index]) != "" ensures PlacesSegment(more, index) {
      if index < i {
        assert PlacesSegment(places, index);
        var k :| 0 <= k < |places| && places[k].index == index;
        assert more[k].index == index;
      } else {
        assert more[|places|].index == index;
      }
    }
  }

  /** One step of the placement: where segment `i` lands and what is left after it. */
  lemma PlaceOne(segments: seq<string>, txt: string, i: nat, off: nat) returns (p: Placement, next: nat)
    requires i < |segments| && TrimSlashes(segments[i]) != "" && off <= |txt|
    requires PlaceAt(segments, i, txt[off..]).Some?
    ensures p.index == i && off <= p.start <= p.end <= next <= |txt|
    ensures Matches(TrimSlashes(segments[i]), txt[p.start..p.end], false)
    ensures p.start == off || (i > 0 && txt[p.start - 1] == '/')
    ensures SlashesBetween(txt, p.end, next)
    ensures PlaceAt(segments, i, txt[off..]) == Some(txt[next..])
  {
    var span := SpanOf(segments, txt[off..], i);
    p := Placement(i, off + span.start, off + span.end);
    SliceOfSuffix(txt, off, span.start, span.end);
    next := SkipSlashesIsSuffix(txt, p.end);
    assert SkipSlashes(txt[off..][span.end..]) == txt[next..];
  }

  lemma SpanOf(segments: seq<string>, rest: string, i: nat) returns (span: Span)
    requires i < |segments| && TrimSlashes(segments[i]) != "" && PlaceAt(segments, i, rest).Some?
    ensures span.start <= span.end <= |rest|
    ensures Matches(TrimSlashes(segments[i]), rest[span.start..span.end], false)
    ensures span.start == 0 || (i > 0 && rest[span.start - 1] == '/')
    ensures PlaceAt(segments, i, rest) == Some(SkipSlashes(rest[span.end..]))
  {
    var seg := TrimSlashes(segments[i]);
    if i == 0 {
      ShortestPrefixIsShortest(seg, rest, false, 0);
      span := Span(0, ShortestPrefix(seg, rest, false).value);
      assert rest[0..span.end] == rest[..span.end];
    } else {
      LocateFinds(seg, rest, 0);
      span := Locate(seg, rest, 0).value;
    }
  }

  lemma SliceOfSuffix(txt: string, off: nat, start: nat, end: nat)
    requires off <= |txt| && start <= end <= |txt| - off
    ensures txt[off..][start..end] == txt[off + start..off + end]
    ensures txt[off..][end..] == txt[off + end..]
    ensures start > 0 ==> txt[off..][start - 1] == txt[off + start - 1]
  {
  }

  /** The segments below `i` are placed and the rest of the text starts at `off`. */
  ghost predicate PlacedUpTo(segments: seq<string>, txt: string, i: nat, off: nat, places: seq<Placement>) {
    && PlacesBelow(segments, txt, i, places)
    && SlashesBetween(txt, EndBefore(places, |places|), off)
    && (i == 0 ==> off == 0)
  }

  lemma PlaceNext(segments: seq<string>, txt: string, i: nat, off: nat, places: seq<Placement>)
    returns (more: seq<Placement>, next: nat)
    requires PlacedUpTo(segments, txt, i, off, places) && i < |segments| && off <= |txt|
    requires PlaceAt(segments, i, txt[off..]).Some?
    ensures PlacedUpTo(segments, txt, i + 1, next, more) && next <= |txt|
    ensures PlaceAt(segments, i, txt[off..]) == Some(txt[next..])
  {
    if TrimSlashes(segments[i]) == "" {
      more, next := places, off;
    } else {
      var p: Placement;
      p, next := PlaceOne(segments, txt, i, off);
      AfterGapIsLegal(segments, txt, i, off, places, p);
      ExtendPlaces(segments, txt, i, places, p);
      more := places + [p];
    }
  }

  /** Follows the placement from segment `i` with `off` as the start of the rest. */
  lemma {:induction false} PlaceWitness(segments: seq<string>, txt: string, i: nat, off: nat, places: seq<Placement>)
    returns (all: seq<Placement>, end: nat)
    requires PlacedUpTo(segments, txt, i, off, places) && i <= |segments| && off <= |txt|
    requires PlaceFrom(segments, i, txt[off..]).Some?
    ensures PlacedUpTo(segments, txt, |segments|, end, all) && end <= |txt|
    ensures PlaceFrom(segments, i, txt[off..]) == Some(txt[end..])
    decreases |segments| - i
  {
    if i == |segments| {
      all, end := places, off;
    } else {
      var more, next := PlaceNext(segments, txt, i, off, places);
      all, end := PlaceWitness(segments, txt, i + 1, next, more);
    }
  }

  /** Starting where only slashes were skipped is starting directly after, or just after a slash. */
  lemma AfterGapIsLegal(segments: seq<string>, txt: string, i: nat, off: nat, places: seq<Placement>, p: Placement)
    requires PlacesBelow(segments, txt, i, places) && i < |segments| && p.index == i
    requires TrimSlashes(segments[i]) != ""
    requires SlashesBetween(txt, EndBefore(places, |places|), off) && (i == 0 ==> off == 0)
    requires off <= p.start <= p.end <= |txt|
    requires Matches(TrimSlashes(segments[i]), txt[p.start..p.end], false)
    requires p.start == off || (i > 0 && txt[p.start - 1] == '/')
    ensures LegalPlace(segments, txt, places + [p], |places|)
  {
    var more := places + [p];
    assert more[|places|] == p;
    assert EndBefore(more, |places|) == EndBefore(places, |places|);
    if places != [] {
      assert LegalPlace(segments, txt, places, |places| - 1);
      assert more[|places| - 1] == places[|places| - 1];
    }
  }

  /** Soundness of `**`: whatever `wildcard_match` accepts has a witness. */
  lemma DoubleStarIsSound(pattern: string, text: string)
    requires HasSubstring(Lower(pattern), "**")
    requires GlobMatches(pattern, text)
    ensures exists places :: Witness(SplitDoubleStar(Lower(pattern)), Lower(text), places)
  {
    var pat, txt := Lower(pattern), Lower(text);
    var segments := SplitDoubleStar(pat);
    SplitThenJoin(pat);
    StarInDoubleStar(pat);
    assert txt[0..] == txt;
    var places, end := PlaceWitness(segments, txt, 0, 0, []);
    var last := EndBefore(places, |places|);
    if segments[|segments| - 1] != "" {
      forall i | 0 <= i < |txt[last..]| ensures txt[last..][i] == '/' {
        if last + i >= end {
          assert txt[end..][last + i - end] == '/';
        }
      }
    }
    assert Witness(segments, txt, places);
  }

  lemma {:induction false} StarInDoubleStar(pat: string)
    requires HasSubstring(pat, "**")
    ensures '*' in pat
  {
    if "**" <= pat {
      assert pat[0] == '*';
    } else {
      StarInDoubleStar(pat[1..]);
    }
  }

  // ----- Completeness for patterns that end in `**` -----

  /** A path as the listings produce it: no leading slash and no empty component. */
  ghost predicate PlainPath(txt: string) {
    && (txt != "" ==> txt[0] != '/')
    && forall q :: 0 < q < |txt| && txt[q] == '/' ==> txt[q - 1] != '/'
  }

  /** The segments from `i` on placed after `prevEnd`, each at the start of a path component. */
  ghost predicate ComponentWitness(segments: seq<string>, i: nat, prevEnd: nat, txt: string, places: seq<Span>)
    requires i <= |segments|
    decreases |segments| - i
  {
    if i == |segments| then places == []
    else
      var seg := TrimSlashes(segments[i]);
      if seg == "" then ComponentWitness(segments, i + 1, prevEnd, txt, places)
      else
        && places != []
        && prevEnd <= places[0].start <= places[0].end <= |txt|
        && (if i == 0 then places[0].start == 0 else AtComponentStart(txt, places[0].start))
        && Matches(seg, txt[places[0].start..places[0].end], false)
        && ComponentWitness(segments, i + 1, places[0].end, txt, places[1..])
  }

  ghost predicate AtComponentStart(txt: string, at: nat)
    requires at <= |txt|
  {
    at == 0 || txt[at - 1] == '/'
  }

  ghost function Slashes(s: string): nat {
    if s == "" then 0 else (if s[0] == '/' then 1 else 0) + Slashes(s[1..])
  }

  lemma {:induction false} SlashesConcat(a: string, b: string)
    ensures Slashes(a + b) == Slashes(a) + Slashes(b)
  {
    if a == "" {
      assert a + b == b;
    } else {
      assert (a + b)[1..] == a[1..] + b;
      SlashesConcat(a[1..], b);
    }
  }

  lemma SlashesOfSlice(txt: string, from: nat, mid: nat, to: nat)
    requires from <= mid <= to <= |txt|
    ensures Slashes(txt[from..to]) == Slashes(txt[from..mid]) + Slashes(txt[mid..to])
  {
    assert txt[from..to] == txt[from..mid] + txt[mid..to];
    SlashesConcat(txt[from..mid], txt[mid..to]);
  }

  /** When wildcards stop at slashes, a match has exactly the slashes of its pattern. */
  lemma {:induction false} MatchKeepsSlashes(pat: string, txt: string)
    requires Matches(pat, txt, false)
    ensures Slashes(txt) == Slashes(pat)
    decreases |pat| + |txt|
  {
    if pat != "" {
      if pat[0] == '*' && !Matches(pat[1..], txt, false) {
        MatchKeepsSlashes(pat, txt[1..]);
      } else if pat[0] == '*' {
        MatchKeepsSlashes(pat[1..], txt);
      } else {
        MatchKeepsSlashes(pat[1..], txt[1..]);
      }
    }
  }

  /** A stretch that reaches back over a slash, and on to at least the same end, has more slashes. */
  lemma LongerHasMoreSlashes(txt: string, c: nat, e: nat, s: nat, w: nat)
    requires c < s <= w <= e <= |txt| && txt[s - 1] == '/'
    ensures Slashes(txt[c..e]) > Slashes(txt[s..w])
  {
    SlashesOfSlice(txt, c, s - 1, e);
    SlashesOfSlice(txt, s - 1, s, e);
    SlashesOfSlice(txt, s, w, e);
    assert Slashes([txt[s - 1]]) == 1 && txt[s - 1..s] == [txt[s - 1]];
  }

  /** A match that starts before a slash ends no later than one that starts after that slash. */
  lemma {:induction false} EarlierMatchEndsFirst(seg: string, txt: string, c: nat, e: nat, s: nat, w: nat)
    requires c < s <= w <= |txt| && c <= e <= |txt| && txt[s - 1] == '/'
    requires Matches(seg, txt[c..e], false) && Matches(seg, txt[s..w], false)
    ensures e <= w
  {
    MatchKeepsSlashes(seg, txt[c..e]);
    MatchKeepsSlashes(seg, txt[s..w]);
    if e > w {
      LongerHasMoreSlashes(txt, c, e, s, w);
    }
  }

  /** If a segment can be placed at `s`, the search finds it there or earlier, ending no later. */
  lemma {:induction false} LocateIsEarliest(seg: string, rest: string, pos: nat, s: nat, w: nat)
    requires pos <= s <= w <= |rest| && Matches(seg, rest[s..w], false)
    requires s == pos || rest[s - 1] == '/'
    ensures Locate(seg, rest, pos).Some? && Locate(seg, rest, pos).value.end <= w
    decreases |rest| - pos
  {
    var len := ShortestPrefix(seg, rest[pos..], false);
    ShortestPrefixIsShortest(seg, rest[pos..], false, 0);
    if s == pos {
      assert rest[pos..][..w - pos] == rest[s..w];
    } else if len.Some? {
      assert rest[pos..][..len.value] == rest[pos..pos + len.value];
      EarlierMatchEndsFirst(seg, rest, pos, pos + len.value, s, w);
    } else {
      LocateIsEarliest(seg, rest, NextSlash(rest, pos).value + 1, s, w);
    }
  }

  /** The position after the slash at `at`, if there is one. */
  ghost function AfterSlash(txt: string, at: nat): nat {
    if at < |txt| && txt[at] == '/' then at + 1 else at
  }

  lemma PlainSkip(txt: string, at: nat)
    requires PlainPath(txt) && at <= |txt|
    ensures AfterSlash(txt, at) <= |txt| && SkipSlashes(txt[at..]) == txt[AfterSlash(txt, at)..]
  {
    var off := SkipSlashesIsSuffix(txt, at);
    assert !(at + 1 < |txt| && txt[at] == '/' && txt[at + 1] == '/');
  }

  /** The first segment lands no further than in any witness. */
  lemma FirstStep(seg: string, txt: string, w: nat) returns (end: nat)
    requires w <= |txt| && Matches(seg, txt[..w], false)
    ensures ShortestPrefix(seg, txt, false) == Some(end) && end <= w
  {
    ShortestPrefixIsShortest(seg, txt, false, 0);
    end := ShortestPrefix(seg, txt, false).value;
  }

  /** A later segment lands no further than in a witness that starts at or after the rest. */
  lemma LaterStep(seg: string, txt: string, off: nat, s: nat, w: nat) returns (end: nat)
    requires off <= s <= w <= |txt| && AtComponentStart(txt, s)
    requires Matches(seg, txt[s..w], false)
    ensures off <= end <= w
    ensures Locate(seg, txt[off..], 0).Some? && Locate(seg, txt[off..], 0).value.end == end - off
  {
    var rest := txt[off..];
    assert rest[s - off..w - off] == txt[s..w];
    if s > off {
      assert rest[s - off - 1] == txt[s - 1];
    }
    LocateIsEarliest(seg, rest, 0, s - off, w - off);
    LocateFinds(seg, rest, 0);
    end := off + Locate(seg, rest, 0).value.end;
  }

  /** One greedy step against one step of a witness: it lands, and ends no later. */
  lemma GreedyStep(segments: seq<string>, i: nat, prevEnd: nat, off: nat, txt: string, s: nat, w: nat)
    returns (end: nat)
    requires i < |segments| && PlainPath(txt) && TrimSlashes(segments[i]) != ""
    requires prevEnd <= s <= w <= |txt| && off <= AfterSlash(txt, prevEnd) && off <= |txt|
    requires if i == 0 then off == 0 && s == 0 else AtComponentStart(txt, s)
    requires Matches(TrimSlashes(segments[i]), txt[s..w], false)
    ensures off <= end <= w
    ensures PlaceAt(segments, i, txt[off..]) == Some(SkipSlashes(txt[end..]))
  {
    if i == 0 {
      assert txt[s..w] == txt[..w] && txt[off..] == txt;
      end := FirstStep(TrimSlashes(segments[i]), txt, w);
    } else {
      end := LaterStep(TrimSlashes(segments[i]), txt, off, s, w);
    }
    assert txt[off..][end - off..] == txt[end..];
  }

  /** The greedy placement never falls behind a witness, so it cannot fail where one exists. */
  lemma {:induction false} GreedyKeepsUp(segments: seq<string>, i: nat, prevEnd: nat, off: nat, txt: string,
                                         places: seq<Span>)
    requires i <= |segments| && PlainPath(txt)
    requires ComponentWitness(segments, i, prevEnd, txt, places)
    requires prevEnd <= |txt| && off <= AfterSlash(txt, prevEnd) && off <= |txt|
    requires i == 0 ==> off == 0
    ensures PlaceFrom(segments, i, txt[off..]).Some?
    decreases |segments| - i
  {
    if i < |segments| && TrimSlashes(segments[i]) == "" {
      GreedyKeepsUp(segments, i + 1, prevEnd, off, txt, places);
    } else if i < |segments| {
      var end := GreedyStep(segments, i, prevEnd, off, txt, places[0].start, places[0].end);
      PlainSkip(txt, end);
      GreedyKeepsUp(segments, i + 1, places[0].end, AfterSlash(txt, end), txt, places[1..]);
    }
  }

  /** A pattern that ends in `**` misses no plain path: if the segments can be placed in order, each
      at the start of a path component, the pattern accepts the path. */
  lemma {:induction false} TrailingDoubleStarIsComplete(pattern: string, text: string, places: seq<Span>)
    requires HasSubstring(Lower(pattern), "**")
    requires var segments := SplitDoubleStar(Lower(pattern));
             segments[|segments| - 1] == "" && ComponentWitness(segments, 0, 0, Lower(text), places)
    requires PlainPath(Lower(text))
    ensures GlobMatches(pattern, text)
  {
    var pat, txt := Lower(pattern), Lower(text);
    SplitThenJoin(pat);
    StarInDoubleStar(pat);
    assert txt[0..] == txt;
    GreedyKeepsUp(SplitDoubleStar(pat), 0, 0, 0, txt, places);
  }
}
