/** Which `**` patterns lose matches by committing to the shortest prefix, and which lose none. */
module GlobLoss {
  import opened Wrappers
  import opened GlobSegment
  import opened GlobPattern

  // ----- A text made from a pattern -----

  /** The pattern with every wildcard filled in by a letter. */
  function Filled(seg: string): (r: string)
    ensures |r| == |seg|
  {
    seq(|seg|, i requires 0 <= i < |seg| => if seg[i] == '*' || seg[i] == '?' then 'a' else seg[i])
  }

  lemma {:induction false} FilledMatches(seg: string)
    ensures Matches(seg, Filled(seg), false)
  {
    if seg != "" {
      assert Filled(seg)[1..] == Filled(seg[1..]);
      FilledMatches(seg[1..]);
    }
  }

  lemma TrimmedEnds(s: string)
    ensures TrimSlashes(s) != "" ==> TrimSlashes(s)[0] != '/'
  {
    SkippedStart(s);
    DroppedIsPrefix(SkipSlashes(s));
  }

  lemma {:induction false} SkippedStart(s: string)
    ensures SkipSlashes(s) != "" ==> SkipSlashes(s)[0] != '/'
  {
    if s != "" && s[0] == '/' {
      SkippedStart(s[1..]);
    }
  }

  lemma {:induction false} DroppedIsPrefix(s: string)
    ensures DropTrailingSlashes(s) <= s
  {
    if s != "" && s[|s| - 1] == '/' {
      DroppedIsPrefix(s[..|s| - 1]);
    }
  }

  /** Does some segment from index `i` on ask for anything but slashes? */
  predicate AsksFrom(segments: seq<string>, i: nat)
    requires i <= |segments|
    decreases |segments| - i
  {
    i < |segments| && (TrimSlashes(segments[i]) != "" || AsksFrom(segments, i + 1))
  }

  /** A text for the segments from index `i` on: each that asks for anything filled in, with slashes
      between, and the last one twice. */
  function Sample(segments: seq<string>, i: nat): (r: string)
    requires i <= |segments| && AsksFrom(segments, i)
    ensures r != "" && r[0] != '/'
    decreases |segments| - i
  {
    TrimmedEnds(segments[i]);
    var filled := Filled(TrimSlashes(segments[i]));
    if filled == "" then Sample(segments, i + 1)
    else if AsksFrom(segments, i + 1) then filled + "/" + Sample(segments, i + 1)
    else filled + "/" + filled
  }

  // ----- The matcher stops at the first copy -----

  /** Skipping slashes inside `z` and a slash leaves a start of a component, if no slash follows. */
  lemma {:induction false} SkipToBoundary(z: string, rest: string) returns (y: string)
    requires rest != "" && rest[0] != '/'
    ensures SkipSlashes(z + "/" + rest) == y + rest
    ensures y == "" || y[|y| - 1] == '/'
  {
    var txt := z + "/" + rest;
    if z == "" {
      assert txt[1..] == rest;
      y := "";
    } else if z[0] == '/' {
      assert txt[1..] == z[1..] + "/" + rest;
      y := SkipToBoundary(z[1..], rest);
    } else {
      y := z + "/";
    }
  }

  lemma {:induction false} NothingMoreAsked(segments: seq<string>, i: nat, rest: string)
    requires i <= |segments| && !AsksFrom(segments, i)
    ensures PlaceFrom(segments, i, rest) == Some(rest)
    decreases |segments| - i
  {
    if i < |segments| {
      NothingMoreAsked(segments, i + 1, rest);
    }
  }

  /** A segment that stands at the start of a component of the rest is placed there or earlier. */
  lemma PlacedByThere(segments: seq<string>, i: nat, y: string, filled: string, more: string) returns (end: nat)
    requires i < |segments| && TrimSlashes(segments[i]) != "" && filled == Filled(TrimSlashes(segments[i]))
    requires y == "" || (i > 0 && y[|y| - 1] == '/')
    ensures end <= |y + filled|
    ensures PlaceAt(segments, i, y + filled + more) == Some(SkipSlashes((y + filled)[end..] + more))
  {
    SlicesOf(y, filled, more);
    end := FoundByThere(segments, i, y + filled + more, |y|, filled);
    assert (y + filled + more)[end..] == (y + filled)[end..] + more;
  }

  lemma FoundByThere(segments: seq<string>, i: nat, rest: string, at: nat, filled: string) returns (end: nat)
    requires i < |segments| && TrimSlashes(segments[i]) != "" && filled == Filled(TrimSlashes(segments[i]))
    requires at + |filled| <= |rest| && rest[at..at + |filled|] == filled
    requires at == 0 || (i > 0 && rest[at - 1] == '/')
    ensures end <= at + |filled| && PlaceAt(segments, i, rest) == Some(SkipSlashes(rest[end..]))
  {
    var seg := TrimSlashes(segments[i]);
    FilledMatches(seg);
    if i == 0 {
      assert rest[..|filled|] == filled;
      end := FirstStep(seg, rest, |filled|);
    } else {
      LocateIsEarliest(seg, rest, 0, at, at + |filled|);
      LocateFinds(seg, rest, 0);
      end := Locate(seg, rest, 0).value.end;
    }
  }

  lemma SlicesOf(y: string, filled: string, more: string)
    ensures var rest := y + filled + more;
            && rest[|y|..|y| + |filled|] == filled
            && (y != "" ==> rest[|y| - 1] == y[|y| - 1])
  {
  }

  /** So what is left is a start of a component and then what follows the segment's slash. */
  lemma PlacedAndSkipped(segments: seq<string>, i: nat, y: string, filled: string, next: string) returns (y': string)
    requires i < |segments| && TrimSlashes(segments[i]) != "" && filled == Filled(TrimSlashes(segments[i]))
    requires y == "" || (i > 0 && y[|y| - 1] == '/')
    requires next != "" && next[0] != '/'
    ensures y' == "" || y'[|y'| - 1] == '/'
    ensures PlaceAt(segments, i, y + filled + ("/" + next)) == Some(y' + next)
  {
    var end := PlacedByThere(segments, i, y, filled, "/" + next);
    var z := (y + filled)[end..];
    assert z + ("/" + next) == z + "/" + next;
    y' := SkipToBoundary(z, next);
  }

  /** Whatever is left over after the segments from index `i` on, it is not only slashes. */
  ghost predicate LeavesText(segments: seq<string>, i: nat, rest: string)
    requires i <= |segments|
  {
    PlaceFrom(segments, i, rest).Some? ==> !OnlySlashes(PlaceFrom(segments, i, rest).value)
  }

  lemma LeavesAfterOne(segments: seq<string>, i: nat, rest: string, left: string)
    requires i < |segments| && PlaceAt(segments, i, rest) == Some(left) && LeavesText(segments, i + 1, left)
    ensures LeavesText(segments, i, rest)
  {
  }

  lemma {:induction false} LeavesAtEnd(segments: seq<string>, i: nat, y: string, next: string)
    requires i <= |segments| && !AsksFrom(segments, i) && next != "" && next[0] != '/'
    ensures LeavesText(segments, i, y + next)
  {
    NothingMoreAsked(segments, i, y + next);
    assert (y + next)[|y|] == next[0];
  }

  lemma SampleOf(segments: seq<string>, i: nat, y: string) returns (filled: string, next: string)
    requires i < |segments| && AsksFrom(segments, i) && TrimSlashes(segments[i]) != ""
    ensures filled == Filled(TrimSlashes(segments[i])) && next != "" && next[0] != '/'
    ensures y + Sample(segments, i) == y + filled + ("/" + next)
    ensures next == if AsksFrom(segments, i + 1) then Sample(segments, i + 1) else filled
  {
    TrimmedEnds(segments[i]);
    filled := Filled(TrimSlashes(segments[i]));
    next := if AsksFrom(segments, i + 1) then Sample(segments, i + 1) else filled;
    assert Sample(segments, i) == filled + "/" + next;
    assert y + (filled + "/" + next) == y + filled + ("/" + next);
  }

  /** The last segment that asks for anything, given twice, leaves its second copy. */
  lemma {:induction false} LastCopyIsLeft(segments: seq<string>, i: nat, y: string)
    requires 0 < i < |segments| && TrimSlashes(segments[i]) != "" && !AsksFrom(segments, i + 1)
    requires y == "" || y[|y| - 1] == '/'
    ensures LeavesText(segments, i, y + Sample(segments, i))
  {
    var filled, next := SampleOf(segments, i, y);
    var y' := PlacedAndSkipped(segments, i, y, filled, next);
    LeavesAtEnd(segments, i + 1, y', next);
    LeavesAfterOne(segments, i, y + Sample(segments, i), y' + next);
  }

  /** Placing a segment at its place or before leaves a start of a component before the rest of the
      sample. */
  lemma SampleIsPlaced(segments: seq<string>, i: nat, y: string) returns (y': string)
    requires i < |segments| && TrimSlashes(segments[i]) != "" && AsksFrom(segments, i + 1)
    requires y == "" || (i > 0 && y[|y| - 1] == '/')
    ensures y' == "" || y'[|y'| - 1] == '/'
    ensures PlaceAt(segments, i, y + Sample(segments, i)) == Some(y' + Sample(segments, i + 1))
  {
    var filled, next := SampleOf(segments, i, y);
    y' := PlacedAndSkipped(segments, i, y, filled, next);
  }

  lemma SampleGoesOn(segments: seq<string>, i: nat, y: string) returns (y': string)
    requires i < |segments| && AsksFrom(segments, i + 1)
    requires y == "" || (i > 0 && y[|y| - 1] == '/')
    ensures y' == "" || y'[|y'| - 1] == '/'
    ensures PlaceAt(segments, i, y + Sample(segments, i)) == Some(y' + Sample(segments, i + 1))
  {
    if TrimSlashes(segments[i]) != "" {
      y' := SampleIsPlaced(segments, i, y);
    } else {
      y' := y;
    }
  }

  lemma {:induction false} GreedyFallsShort(segments: seq<string>, i: nat, y: string)
    requires i <= |segments| && AsksFrom(segments, i) && (i == 0 ==> AsksFrom(segments, 1))
    requires y == "" || (i > 0 && y[|y| - 1] == '/')
    ensures LeavesText(segments, i, y + Sample(segments, i))
    decreases |segments| - i
  {
    if !AsksFrom(segments, i + 1) {
      LastCopyIsLeft(segments, i, y);
    } else {
      var y' := SampleGoesOn(segments, i, y);
      GreedyFallsShort(segments, i + 1, y');
      LeavesAfterOne(segments, i, y + Sample(segments, i), y' + Sample(segments, i + 1));
    }
  }

  // ----- The witness that is lost -----

  lemma PlaceFilled(segments: seq<string>, txt: string, i: nat, at: nat, filled: string, places: seq<Placement>)
    returns (more: seq<Placement>)
    requires i < |segments| && filled == Filled(TrimSlashes(segments[i])) && filled != ""
    requires PlacesBelow(segments, txt, i, places) && EndBefore(places, |places|) <= at
    requires at + |filled| <= |txt| && txt[at..at + |filled|] == filled
    requires at == 0 || (i > 0 && txt[at - 1] == '/')
    ensures PlacesBelow(segments, txt, i + 1, more) && EndBefore(more, |more|) == at + |filled|
  {
    var p := Placement(i, at, at + |filled|);
    FilledMatches(TrimSlashes(segments[i]));
    more := places + [p];
    assert more[|places|] == p && EndBefore(more, |places|) == EndBefore(places, |places|);
    if places != [] {
      assert LegalPlace(segments, txt, places, |places| - 1);
      assert more[|places| - 1] == places[|places| - 1];
    }
    assert LegalPlace(segments, txt, more, |places|);
    ExtendPlaces(segments, txt, i, places, p);
  }

  lemma SkipEmptySegment(segments: seq<string>, txt: string, i: nat, places: seq<Placement>)
    requires i < |segments| && TrimSlashes(segments[i]) == "" && PlacesBelow(segments, txt, i, places)
    ensures PlacesBelow(segments, txt, i + 1, places)
  {
  }

  lemma {:induction false} SkipEmptySegments(segments: seq<string>, txt: string, i: nat, places: seq<Placement>)
    requires i <= |segments| && !AsksFrom(segments, i) && PlacesBelow(segments, txt, i, places)
    ensures PlacesBelow(segments, txt, |segments|, places)
    decreases |segments| - i
  {
    if i < |segments| {
      SkipEmptySegment(segments, txt, i, places);
      SkipEmptySegments(segments, txt, i + 1, places);
    }
  }

  /** The sample's segments stand where they were filled in, the last at its second copy. */
  lemma {:induction false} SampleWitness(segments: seq<string>, txt: string, i: nat, at: nat, places: seq<Placement>)
    returns (all: seq<Placement>)
    requires i <= |segments| && AsksFrom(segments, i) && (i == 0 ==> AsksFrom(segments, 1))
    requires at <= |txt| && txt[at..] == Sample(segments, i)
    requires PlacesBelow(segments, txt, i, places) && EndBefore(places, |places|) <= at
    requires at == 0 || (i > 0 && txt[at - 1] == '/')
    ensures PlacesBelow(segments, txt, |segments|, all) && EndBefore(all, |all|) == |txt|
    decreases |segments| - i
  {
    var filled := Filled(TrimSlashes(segments[i]));
    if filled == "" {
      SkipEmptySegment(segments, txt, i, places);
      all := SampleWitness(segments, txt, i + 1, at, places);
    } else if AsksFrom(segments, i + 1) {
      var rest := Sample(segments, i + 1);
      assert txt[at..] == filled + "/" + rest;
      StandsAt(txt, at, filled, rest);
      var more := PlaceFilled(segments, txt, i, at, filled, places);
      all := SampleWitness(segments, txt, i + 1, at + |filled| + 1, more);
    } else {
      assert txt[at..] == filled + "/" + filled;
      StandsAt(txt, at, filled, filled);
      assert txt[at + |filled| + 1..|txt|] == txt[at + |filled| + 1..];
      all := PlaceFilled(segments, txt, i, at + |filled| + 1, filled, places);
      SkipEmptySegments(segments, txt, i + 1, all);
    }
  }

  lemma StandsAt(txt: string, at: nat, first: string, rest: string)
    requires at <= |txt| && txt[at..] == first + "/" + rest
    ensures at + |first| + 1 + |rest| == |txt|
    ensures txt[at..at + |first|] == first && txt[at + |first|] == '/' && txt[at + |first| + 1..] == rest
  {
    assert txt[at..at + |first|] == txt[at..][..|first|];
    assert txt[at + |first|] == txt[at..][|first|];
    assert txt[at + |first| + 1..] == txt[at..][|first| + 1..];
  }

  // ----- A first segment with an open end -----

  /** Is there a star after the last slash of the segment? */
  predicate OpenEnd(seg: string) {
    seg != "" && seg[|seg| - 1] != '/' && (seg[|seg| - 1] == '*' || OpenEnd(seg[..|seg| - 1]))
  }

  lemma OneSlashMore(txt: string, a: nat, b: nat)
    requires a < b <= |txt| && txt[b - 1] == '/'
    ensures Slashes(txt[..b]) > Slashes(txt[..a])
  {
    SlashesOfSlice(txt, 0, a, b);
    SlashesOfSlice(txt, a, b - 1, b);
    assert txt[b - 1..b] == ['/'] && Slashes(['/']) == 1;
    assert txt[0..a] == txt[..a] && txt[0..b] == txt[..b];
  }

  /** A segment without one ends where it ends: no two prefixes of a text can both match it. */
  lemma {:induction false} FixedEnd(seg: string, txt: string, a: nat, b: nat)
    requires !OpenEnd(seg) && a <= b <= |txt|
    requires Matches(seg, txt[..a], false) && Matches(seg, txt[..b], false)
    ensures a == b
  {
    if seg != "" {
      var front, last := seg[..|seg| - 1], seg[|seg| - 1];
      assert seg == front + [last];
      if last == '/' {
        MatchKeepsSlashes(seg, txt[..a]);
        MatchKeepsSlashes(seg, txt[..b]);
        LastFits(front, last, txt[..b]);
        LastFits(front, last, txt[..a]);
        if a < b {
          OneSlashMore(txt, a, b);
        }
      } else {
        LastFits(front, last, txt[..a]);
        LastFits(front, last, txt[..b]);
        assert txt[..a][..a - 1] == txt[..a - 1] && txt[..b][..b - 1] == txt[..b - 1];
        FixedEnd(front, txt, a - 1, b - 1);
      }
    }
  }

  /** A pattern that ends in a character other than a star fixes the last character of the text. */
  lemma {:induction false} LastFits(front: string, last: char, txt: string)
    requires last != '*' && Matches(front + [last], txt, false)
    ensures txt != "" && Fits(last, txt[|txt| - 1], false) && Matches(front, txt[..|txt| - 1], false)
    decreases |front| + |txt|
  {
    var pat := front + [last];
    if front == "" {
      assert pat[1..] == "" && txt[1..] == "" && txt[..|txt| - 1] == "";
    } else {
      assert pat[1..] == front[1..] + [last];
      if pat[0] == '*' && Matches(pat[1..], txt, false) {
        LastFits(front[1..], last, txt);
      } else if pat[0] == '*' {
        LastFits(front, last, txt[1..]);
        assert txt[1..][..|txt| - 2] == txt[..|txt| - 1][1..];
      } else {
        LastFits(front[1..], last, txt[1..]);
        assert txt[1..][..|txt| - 2] == txt[..|txt| - 1][1..];
      }
    }
  }

  /** Where the open end begins: a star with no slash after it. */
  lemma {:induction false} OpenStar(seg: string) returns (u: string, v: string)
    requires OpenEnd(seg)
    ensures seg == u + "*" + v && forall i :: 0 <= i < |v| ==> v[i] != '/'
  {
    var front, last := seg[..|seg| - 1], seg[|seg| - 1];
    if last == '*' {
      u, v := front, "";
    } else {
      u, v := OpenStar(front);
      v := v + [last];
    }
  }

  /** Matches of two patterns one after the other. */
  lemma {:induction false} MatchesConcat(p: string, s: string, q: string, t: string)
    requires Matches(p, s, false) && Matches(q, t, false)
    ensures Matches(p + q, s + t, false)
    decreases |p| + |s|
  {
    if p == "" {
      assert p + q == q && s + t == t;
    } else {
      assert (p + q)[1..] == p[1..] + q;
      if p[0] == '*' && Matches(p[1..], s, false) {
        MatchesConcat(p[1..], s, q, t);
      } else {
        assert (s + t)[1..] == s[1..] + t;
        MatchesConcat(if p[0] == '*' then p else p[1..], s[1..], q, t);
      }
    }
  }

  lemma {:induction false} StarTakesAny(txt: string)
    requires forall i :: 0 <= i < |txt| ==> txt[i] != '/'
    ensures Matches("*", txt, false)
  {
    if txt != "" {
      StarTakesAny(txt[1..]);
    } else {
      assert Matches("*"[1..], "", false);
    }
  }

  /** A text that such a segment matches as a whole and also by a proper prefix, after which it goes on
      with something else than slashes. */
  lemma OpenEndSample(seg: string) returns (txt: string, shorter: nat)
    requires OpenEnd(seg)
    ensures shorter < |txt| && txt[|txt| - 1] != '/'
    ensures Matches(seg, txt, false) && Matches(seg, txt[..shorter], false)
    ensures forall c :: c in txt ==> c in seg || c == 'a'
  {
    var u, v := OpenStar(seg);
    var gap := if v == "" then "a" else Filled(v);
    FilledMatches(u);
    FilledMatches(v);
    StarTakesAny(gap);
    StarTakesAny("");
    MatchesConcat(u, Filled(u), "*", gap);
    MatchesConcat(u, Filled(u), "*", "");
    MatchesConcat(u + "*", Filled(u) + gap, v, Filled(v));
    MatchesConcat(u + "*", Filled(u) + "", v, Filled(v));
    txt, shorter := Filled(u) + gap + Filled(v), |u| + |v|;
    if v == "" {
      assert txt[..shorter] == Filled(u) + "" + Filled(v);
    } else {
      assert gap == Filled(v);
      assert txt[..shorter] == Filled(u) + "" + Filled(v);
    }
  }

  // ----- Losing matches -----

  /** Some text has a witness and is rejected. */
  ghost predicate LosesMatches(pattern: string) {
    exists text, places ::
      Witness(SplitDoubleStar(Lower(pattern)), Lower(text), places) && !GlobMatches(pattern, text)
  }

  /** A text in lower case, of characters of the pattern, is its own lower case. */
  lemma LowerOfOwn(pattern: string, txt: string)
    requires forall c :: c in txt ==> c in Lower(pattern) || c == 'a' || c == '/'
    ensures Lower(txt) == txt
  {
    forall i | 0 <= i < |txt| ensures LowerChar(txt[i]) == txt[i] {
      if txt[i] in Lower(pattern) {
        var j :| 0 <= j < |pattern| && LowerChar(pattern[j]) == txt[i];
      }
    }
  }

  lemma {:induction false} SegmentChars(pat: string)
    ensures forall seg, c :: seg in SplitDoubleStar(pat) && c in seg ==> c in pat
  {
    if |pat| >= 2 && pat[0] == '*' && pat[1] == '*' {
      SegmentChars(pat[2..]);
    } else if |pat| >= 2 {
      SegmentChars(pat[1..]);
      var rest := SplitDoubleStar(pat[1..]);
      forall seg, c | seg in SplitDoubleStar(pat) && c in seg ensures c in pat {
        if seg in rest[1..] {
          assert seg in rest;
        } else {
          assert seg == [pat[0]] + rest[0];
          assert rest[0] in rest;
        }
      }
    }
  }

  lemma TrimmedChars(s: string)
    ensures forall c :: c in TrimSlashes(s) ==> c in s
  {
    SkippedChars(s);
    DroppedIsPrefix(SkipSlashes(s));
  }

  lemma {:induction false} SkippedChars(s: string)
    ensures forall c :: c in SkipSlashes(s) ==> c in s
  {
    if s != "" && s[0] == '/' {
      SkippedChars(s[1..]);
    }
  }

  lemma {:induction false} SampleChars(segments: seq<string>, i: nat)
    requires i <= |segments| && AsksFrom(segments, i)
    ensures forall c :: c in Sample(segments, i) ==>
              c == 'a' || c == '/' || exists seg :: seg in segments && c in seg
    decreases |segments| - i
  {
    TrimmedChars(segments[i]);
    var filled := Filled(TrimSlashes(segments[i]));
    forall c | c in filled ensures c == 'a' || c in segments[i] {
    }
    if AsksFrom(segments, i + 1) {
      SampleChars(segments, i + 1);
    }
  }

  /** If a segment after the first asks for anything, the last one that does can be given twice. */
  lemma DoubledSegmentIsLost(pattern: string)
    requires HasSubstring(Lower(pattern), "**")
    requires var segments := SplitDoubleStar(Lower(pattern)); segments[|segments| - 1] != "" && AsksFrom(segments, 1)
    ensures LosesMatches(pattern)
  {
    var pat := Lower(pattern);
    var segments := SplitDoubleStar(pat);
    SplitThenJoin(pat);
    StarInDoubleStar(pat);
    var txt := Sample(segments, 0);
    SampleChars(segments, 0);
    SegmentChars(pat);
    LowerOfOwn(pattern, txt);
    assert txt[0..] == txt && "" + txt == txt;
    var places := SampleWitness(segments, txt, 0, 0, []);
    GreedyFallsShort(segments, 0, "");
    assert Witness(segments, Lower(txt), places) && !GlobMatches(pattern, txt);
  }

  /** If only the first segment asks for anything, an open end makes the difference. */
  lemma OpenFirstSegmentIsLost(pattern: string)
    requires HasSubstring(Lower(pattern), "**")
    requires var segments := SplitDoubleStar(Lower(pattern));
             segments[|segments| - 1] != "" && !AsksFrom(segments, 1) && OpenEnd(TrimSlashes(segments[0]))
    ensures LosesMatches(pattern)
  {
    var pat := Lower(pattern);
    var segments := SplitDoubleStar(pat);
    var seg := TrimSlashes(segments[0]);
    SplitThenJoin(pat);
    StarInDoubleStar(pat);
    var txt, shorter := OpenEndSample(seg);
    FirstSegmentChars(pat);
    LowerOfOwn(pattern, txt);
    OpenEndWitness(segments, txt);
    ShorterLeavesText(segments, txt, shorter);
    assert Witness(segments, Lower(txt), [Placement(0, 0, |txt|)]) && !GlobMatches(pattern, txt);
  }

  lemma {:induction false} FirstSegmentChars(pat: string)
    ensures forall c :: c in TrimSlashes(SplitDoubleStar(pat)[0]) ==> c in pat
  {
    SegmentChars(pat);
    TrimmedChars(SplitDoubleStar(pat)[0]);
    assert SplitDoubleStar(pat)[0] in SplitDoubleStar(pat);
  }

  lemma {:induction false} ShorterLeavesText(segments: seq<string>, txt: string, shorter: nat)
    requires segments != [] && !AsksFrom(segments, 1) && TrimSlashes(segments[0]) != ""
    requires shorter < |txt| && txt[|txt| - 1] != '/' && Matches(TrimSlashes(segments[0]), txt[..shorter], false)
    ensures LeavesText(segments, 0, txt)
  {
    var end := FirstStep(TrimSlashes(segments[0]), txt, shorter);
    LastIsLeft(txt[end..]);
    NothingMoreAsked(segments, 1, SkipSlashes(txt[end..]));
    assert PlaceAt(segments, 0, txt) == Some(SkipSlashes(txt[end..]));
    LeavesAfterOne(segments, 0, txt, SkipSlashes(txt[end..]));
  }

  lemma {:induction false} OpenEndWitness(segments: seq<string>, txt: string)
    requires segments != [] && !AsksFrom(segments, 1)
    requires TrimSlashes(segments[0]) != "" && Matches(TrimSlashes(segments[0]), txt, false)
    ensures Witness(segments, txt, [Placement(0, 0, |txt|)])
  {
    var places := [Placement(0, 0, |txt|)];
    assert txt[0..|txt|] == txt;
    assert LegalPlace(segments, txt, places, 0);
    assert places[0].index == 0 && PlacesSegment(places, 0);
    assert PlacesBelow(segments, txt, 1, places);
    SkipEmptySegments(segments, txt, 1, places);
    assert txt[|txt|..] == "";
  }

  lemma {:induction false} LastIsLeft(s: string)
    requires s != "" && s[|s| - 1] != '/'
    ensures !OnlySlashes(SkipSlashes(s))
  {
    if s[0] == '/' {
      LastIsLeft(s[1..]);
    } else {
      assert s[0] != '/';
    }
  }

  // ----- Losing none -----

  /** With nothing asked after the first segment, a witness places that one or nothing. */
  lemma WitnessOfFirst(segments: seq<string>, txt: string, places: seq<Placement>) returns (end: nat)
    requires Witness(segments, txt, places) && !AsksFrom(segments, 1) && segments[|segments| - 1] != ""
    ensures end <= |txt| && OnlySlashes(txt[end..])
    ensures if TrimSlashes(segments[0]) == "" then end == 0
            else Matches(TrimSlashes(segments[0]), txt[..end], false)
  {
    end := EndBefore(places, |places|);
    OnlyFirstPlaced(segments, txt, places);
    if TrimSlashes(segments[0]) != "" {
      assert PlacesSegment(places, 0);
      assert LegalPlace(segments, txt, places, 0);
      assert txt[..end] == txt[0..end];
    }
  }

  lemma {:induction false} OnlyFirstPlaced(segments: seq<string>, txt: string, places: seq<Placement>)
    requires PlacesBelow(segments, txt, |segments|, places) && segments != [] && !AsksFrom(segments, 1)
    ensures |places| <= 1 && (places != [] ==> TrimSlashes(segments[0]) != "")
  {
    forall k | 0 <= k < |places| ensures IsFirst(segments, places, k) {
      assert LegalPlace(segments, txt, places, k);
      NotAsked(segments, 1, places[k].index);
    }
    assert forall k :: 0 <= k < |places| ==> IsFirst(segments, places, k);
    assert |places| > 1 ==> IsFirst(segments, places, 1);
    assert places != [] ==> IsFirst(segments, places, 0);
  }

  predicate IsFirst(segments: seq<string>, places: seq<Placement>, k: int)
    requires segments != []
  {
    k == 0 && TrimSlashes(segments[0]) != ""
  }

  lemma {:induction false} NotAsked(segments: seq<string>, i: nat, index: nat)
    requires i <= |segments| && !AsksFrom(segments, i) && index < |segments|
    ensures TrimSlashes(segments[index]) != "" ==> index < i
    decreases |segments| - i
  {
    if i < |segments| {
      NotAsked(segments, i + 1, index);
    }
  }

  lemma {:induction false} OnlySlashesSkipped(s: string)
    requires OnlySlashes(s)
    ensures OnlySlashes(SkipSlashes(s))
  {
    if s != "" {
      assert s[0] == '/';
      OnlySlashesSkipped(s[1..]);
    }
  }

  lemma ClosedFirstSegmentIsKept(pattern: string, text: string, places: seq<Placement>)
    requires HasSubstring(Lower(pattern), "**")
    requires var segments := SplitDoubleStar(Lower(pattern));
             && segments[|segments| - 1] != "" && !AsksFrom(segments, 1) && !OpenEnd(TrimSlashes(segments[0]))
             && Witness(segments, Lower(text), places)
    ensures GlobMatches(pattern, text)
  {
    var pat, txt := Lower(pattern), Lower(text);
    var segments := SplitDoubleStar(pat);
    var seg := TrimSlashes(segments[0]);
    SplitThenJoin(pat);
    StarInDoubleStar(pat);
    var end := WitnessOfFirst(segments, txt, places);
    if seg == "" {
      NothingMoreAsked(segments, 0, txt);
      assert txt[0..] == txt;
    } else {
      var len := FirstStep(seg, txt, end);
      ShortestPrefixIsShortest(seg, txt, false, 0);
      FixedEnd(seg, txt, len, end);
      OnlySlashesSkipped(txt[end..]);
      NothingMoreAsked(segments, 1, SkipSlashes(txt[end..]));
    }
  }

  /** Exactly which patterns lose matches, of those with a `**` that do not end in one: the ones in which
      a segment after the first asks for anything but slashes, and the ones whose first segment has a star
      after its last slash. So every pattern that names a file below a `**` does, and of those whose last
      segment is slashes only, the ones left without loss select by a first segment with a fixed end. */
  lemma DoubleStarLosesMatchesIff(pattern: string)
    requires HasSubstring(Lower(pattern), "**")
    requires var segments := SplitDoubleStar(Lower(pattern)); segments[|segments| - 1] != ""
    ensures LosesMatches(pattern) <==>
            var segments := SplitDoubleStar(Lower(pattern));
            AsksFrom(segments, 1) || OpenEnd(TrimSlashes(segments[0]))
  {
    var segments := SplitDoubleStar(Lower(pattern));
    SplitThenJoin(Lower(pattern));
    if AsksFrom(segments, 1) {
      DoubledSegmentIsLost(pattern);
    } else if OpenEnd(TrimSlashes(segments[0])) {
      OpenFirstSegmentIsLost(pattern);
    } else {
      forall text, places | Witness(segments, Lower(text), places) ensures GlobMatches(pattern, text) {
        ClosedFirstSegmentIsKept(pattern, text, places);
      }
    }
  }

  /** In particular a pattern with a `**` and a last segment that asks for anything always loses some. */
  lemma {:induction false} NamedLastSegmentLosesMatches(pattern: string)
    requires HasSubstring(Lower(pattern), "**")
    requires var segments := SplitDoubleStar(Lower(pattern)); TrimSlashes(segments[|segments| - 1]) != ""
    ensures LosesMatches(pattern)
  {
    var segments := SplitDoubleStar(Lower(pattern));
    SplitThenJoin(Lower(pattern));
    assert TrimSlashes("") == "";
    if !AsksFrom(segments, 1) {
      NotAsked(segments, 1, |segments| - 1);
    }
    DoubledSegmentIsLost(pattern);
  }

  /** The plainest such pattern, `**` and then a slash and a star, accepts nothing but slashes. */
  lemma AnyFileBelowTakesNone(text: string)
    ensures GlobMatches("**" + "/*", text) <==> OnlySlashes(Lower(text))
  {
    var pat, txt := "**" + "/*", Lower(text);
    assert Lower(pat) == pat && pat[0] == '*';
    AnyFileSegments();
    var segments := ["", "/*"];
    assert txt[0..] == txt && txt[..0] == "";
    StarTakesAny("");
    ShortestPrefixIsShortest("*", txt, false, 0);
    assert ShortestPrefix("*", txt, false) == Some(0);
    assert Locate("*", txt, 0) == Some(Span(0, 0));
    assert PlaceAt(segments, 1, txt) == Some(SkipSlashes(txt));
    assert PlaceFrom(segments, 2, SkipSlashes(txt)) == Some(SkipSlashes(txt));
    assert PlaceFrom(segments, 1, txt) == Some(SkipSlashes(txt));
    assert PlaceAt(segments, 0, txt) == Some(txt);
    SkippedStart(txt);
    if OnlySlashes(txt) {
      OnlySlashesSkipped(txt);
    } else {
      NotOnlySlashes(txt);
    }
  }

  lemma {:induction false} NotOnlySlashes(s: string)
    requires !OnlySlashes(s)
    ensures !OnlySlashes(SkipSlashes(s))
  {
    if s != "" && s[0] == '/' {
      var i :| 0 <= i < |s| && s[i] != '/';
      assert s[1..][i - 1] != '/';
      NotOnlySlashes(s[1..]);
    }
  }

  lemma AnyFileSegments()
    ensures SplitDoubleStar("**" + "/*") == ["", "/*"]
    ensures TrimSlashes("") == "" && TrimSlashes("/*") == "*"
  {
    var pat := "**" + "/*";
    assert pat[2..] == "/*" && "/*"[1..] == "*";
    assert SplitDoubleStar("*") == ["*"];
    assert SplitDoubleStar("/*") == ["/*"] by {
      assert ['/'] + "*" == "/*";
    }
    assert SkipSlashes("/*") == "*" && DropTrailingSlashes("*") == "*";
  }
}
