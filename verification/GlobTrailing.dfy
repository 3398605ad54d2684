/** Patterns that end in a double star: exactly which of them accept every text they stand for, whatever
    empty components the text has. */
module GlobTrailing {
  import opened Wrappers
  import opened GlobSegment
  import opened GlobPattern
  import opened GlobLoss

  /** No two stars stand side by side. */
  predicate NoPair(s: string) {
    forall i :: 0 <= i < |s| - 1 ==> !(s[i] == '*' && s[i + 1] == '*')
  }

  lemma {:induction false} NoDoubleStarNoPair(s: string)
    requires !HasSubstring(s, "**")
    ensures NoPair(s)
  {
    if s != "" {
      NoDoubleStarNoPair(s[1..]);
      forall i | 0 <= i < |s| - 1 ensures !(s[i] == '*' && s[i + 1] == '*') {
        if i == 0 {
          assert s[..2] == [s[0], s[1]];
        } else {
          assert s[1..][i - 1] == s[i] && s[1..][i] == s[i + 1];
        }
      }
    }
  }

  lemma TrimKeepsNoPair(s: string)
    requires NoPair(s)
    ensures NoPair(TrimSlashes(s))
  {
    var skipped := SkipSlashes(s);
    assert s[0..] == s;
    var off := SkipSlashesIsSuffix(s, 0);
    DroppedIsPrefix(skipped);
    var trimmed := TrimSlashes(s);
    forall i | 0 <= i < |trimmed| - 1 ensures !(trimmed[i] == '*' && trimmed[i + 1] == '*') {
      assert trimmed[i] == s[off + i] && trimmed[i + 1] == s[off + i + 1];
    }
  }

  ghost predicate AllSingle(segments: seq<string>) {
    forall i :: 0 <= i < |segments| ==> NoPair(TrimSlashes(segments[i]))
  }

  lemma {:induction false} SplitIsSingle(pat: string)
    ensures AllSingle(SplitDoubleStar(pat))
  {
    var segments := SplitDoubleStar(pat);
    SplitThenJoin(pat);
    forall i | 0 <= i < |segments| ensures NoPair(TrimSlashes(segments[i])) {
      assert segments[i] in segments;
      NoDoubleStarNoPair(segments[i]);
      TrimKeepsNoPair(segments[i]);
    }
  }

  /** A segment that can stand for an empty component and what is below it: a star and then a slash. */
  predicate StartsEmpty(seg: string) {
    |seg| >= 2 && seg[0] == '*' && seg[1] == '/'
  }

  /** Past the first segment that asks for anything, none that does starts with a star and then a slash. */
  predicate Closed(segments: seq<string>, i: nat, asked: bool)
    requires i <= |segments|
    decreases |segments| - i
  {
    i == |segments| ||
    (var seg := TrimSlashes(segments[i]);
     if seg == "" then Closed(segments, i + 1, asked)
     else !(asked && StartsEmpty(seg)) && Closed(segments, i + 1, true))
  }

  // ----- Closed patterns miss nothing -----

  /** The greedy rest starts no later than after the slashes that follow the end of the witness. */
  ghost predicate Reaches(txt: string, prevEnd: nat, off: nat) {
    off <= prevEnd || SlashesBetween(txt, prevEnd, off)
  }

  /** Only a segment that starts with a star and then a slash matches a text that starts with a slash. */
  lemma {:induction false} SlashMeansStartsEmpty(seg: string, txt: string)
    requires seg != "" && seg[0] != '/' && NoPair(seg)
    requires txt != "" && txt[0] == '/' && Matches(seg, txt, false)
    ensures StartsEmpty(seg)
  {
    assert seg[0] == '*';
    assert Matches(seg[1..], txt, false);
    if |seg| >= 2 {
      assert seg[1..][0] == seg[1] && seg[1] != '*';
    }
  }

  lemma ReachesOn(txt: string, w: nat, end: nat, next: nat)
    requires end <= w <= |txt| && SlashesBetween(txt, end, next)
    ensures Reaches(txt, w, next)
  {
  }

  /** A later segment whose witness starts inside the slashes the greedy search has skipped is empty there,
      and the search places it empty too. */
  lemma EmptyPlace(segments: seq<string>, i: nat, txt: string, off: nat, s: nat)
    requires 0 < i < |segments| && TrimSlashes(segments[i]) != "" && s <= off <= |txt|
    requires Matches(TrimSlashes(segments[i]), txt[s..s], false)
    ensures PlaceAt(segments, i, txt[off..]) == Some(SkipSlashes(txt[off..]))
  {
    var seg, rest := TrimSlashes(segments[i]), txt[off..];
    assert txt[s..s] == rest[0..0] == "";
    LocateIsEarliest(seg, rest, 0, 0, 0);
    LocateFinds(seg, rest, 0);
    assert rest[0..] == rest;
  }

  lemma StepReaches(segments: seq<string>, i: nat, prevEnd: nat, off: nat, txt: string, s: nat, w: nat, asked: bool)
    returns (next: nat)
    requires i < |segments| && TrimSlashes(segments[i]) != "" && NoPair(TrimSlashes(segments[i]))
    requires !(asked && StartsEmpty(TrimSlashes(segments[i])))
    requires prevEnd <= s <= w <= |txt| && off <= |txt| && Reaches(txt, prevEnd, off) && (!asked ==> off == 0)
    requires if i == 0 then off == 0 && s == 0 else AtComponentStart(txt, s)
    requires Matches(TrimSlashes(segments[i]), txt[s..w], false)
    ensures next <= |txt| && Reaches(txt, w, next)
    ensures PlaceAt(segments, i, txt[off..]) == Some(txt[next..])
  {
    var seg := TrimSlashes(segments[i]);
    TrimmedEnds(segments[i]);
    if off <= s {
      var end := PlacedInTime(segments, i, off, txt, s, w);
      next := SkipSlashesIsSuffix(txt, end);
      ReachesOn(txt, w, end, next);
    } else {
      assert txt[s] == '/';
      if w > s {
        assert txt[s..w][0] == '/';
        SlashMeansStartsEmpty(seg, txt[s..w]);
      }
      EmptyPlace(segments, i, txt, off, s);
      next := SkipSlashesIsSuffix(txt, off);
    }
  }

  lemma PlacedInTime(segments: seq<string>, i: nat, off: nat, txt: string, s: nat, w: nat) returns (end: nat)
    requires i < |segments| && TrimSlashes(segments[i]) != "" && off <= s <= w <= |txt|
    requires if i == 0 then off == 0 && s == 0 else AtComponentStart(txt, s)
    requires Matches(TrimSlashes(segments[i]), txt[s..w], false)
    ensures end <= w && PlaceAt(segments, i, txt[off..]) == Some(SkipSlashes(txt[end..]))
  {
    if i == 0 {
      assert txt[s..w] == txt[..w] && txt[off..] == txt;
      end := FirstStep(TrimSlashes(segments[i]), txt, w);
    } else {
      end := LaterStep(TrimSlashes(segments[i]), txt, off, s, w);
    }
    assert txt[off..][end - off..] == txt[end..];
  }

  lemma {:induction false} ClosedKeepsUp(segments: seq<string>, i: nat, prevEnd: nat, off: nat, txt: string,
                                         places: seq<Span>, asked: bool)
    requires i <= |segments| && AllSingle(segments) && Closed(segments, i, asked)
    requires ComponentWitness(segments, i, prevEnd, txt, places)
    requires prevEnd <= |txt| && off <= |txt| && Reaches(txt, prevEnd, off)
    requires (!asked ==> off == 0) && (i == 0 ==> off == 0)
    ensures PlaceFrom(segments, i, txt[off..]).Some?
    decreases |segments| - i
  {
    if i < |segments| && TrimSlashes(segments[i]) == "" {
      ClosedKeepsUp(segments, i + 1, prevEnd, off, txt, places, asked);
    } else if i < |segments| {
      var next := StepReaches(segments, i, prevEnd, off, txt, places[0].start, places[0].end, asked);
      ClosedKeepsUp(segments, i + 1, places[0].end, next, txt, places[1..], true);
    }
  }

  // ----- The thinnest text of a pattern -----

  /** The pattern with its stars left out and a letter for each question mark. */
  function Bare(seg: string): string {
    if seg == "" then ""
    else (if seg[0] == '*' then "" else if seg[0] == '?' then "a" else [seg[0]]) + Bare(seg[1..])
  }

  function NonSlashes(s: string): nat {
    if s == "" then 0 else (if s[0] == '/' then 0 else 1) + NonSlashes(s[1..])
  }

  lemma {:induction false} NonSlashesConcat(a: string, b: string)
    ensures NonSlashes(a + b) == NonSlashes(a) + NonSlashes(b)
  {
    if a == "" {
      assert a + b == b;
    } else {
      assert (a + b)[1..] == a[1..] + b;
      NonSlashesConcat(a[1..], b);
    }
  }

  lemma {:induction false} SkipKeepsNonSlashes(s: string)
    ensures NonSlashes(SkipSlashes(s)) == NonSlashes(s)
  {
    if s != "" && s[0] == '/' {
      SkipKeepsNonSlashes(s[1..]);
    }
  }

  lemma {:induction false} BareMatches(seg: string)
    ensures Matches(seg, Bare(seg), false)
  {
    if seg != "" {
      BareMatches(seg[1..]);
      if seg[0] == '*' {
        assert "" + Bare(seg[1..]) == Bare(seg[1..]);
      } else {
        assert Bare(seg)[1..] == Bare(seg[1..]);
      }
    }
  }

  /** A match is no shorter and has no fewer characters other than slashes. */
  lemma {:induction false} BareIsThinnest(seg: string, txt: string)
    requires Matches(seg, txt, false)
    ensures |txt| >= |Bare(seg)| && NonSlashes(txt) >= NonSlashes(Bare(seg))
    decreases |seg| + |txt|
  {
    if seg != "" {
      if seg[0] == '*' {
        assert "" + Bare(seg[1..]) == Bare(seg[1..]);
        if Matches(seg[1..], txt, false) {
          BareIsThinnest(seg[1..], txt);
        } else {
          BareIsThinnest(seg, txt[1..]);
        }
      } else {
        assert Bare(seg)[1..] == Bare(seg[1..]);
        BareIsThinnest(seg[1..], txt[1..]);
      }
    }
  }

  lemma {:induction false} BareIsShortest(seg: string, rest: string)
    ensures ShortestPrefix(seg, Bare(seg) + rest, false) == Some(|Bare(seg)|)
  {
    var txt, n := Bare(seg) + rest, |Bare(seg)|;
    BareMatches(seg);
    assert txt[..n] == Bare(seg);
    ShortestPrefixIsShortest(seg, txt, false, 0);
    var len := ShortestPrefix(seg, txt, false).value;
    BareIsThinnest(seg, txt[..len]);
  }

  lemma {:induction false} BareIsPlaced(segments: seq<string>, i: nat, rest: string)
    requires i < |segments| && TrimSlashes(segments[i]) != ""
    ensures PlaceAt(segments, i, Bare(TrimSlashes(segments[i])) + rest) == Some(SkipSlashes(rest))
  {
    var seg := TrimSlashes(segments[i]);
    var txt := Bare(seg) + rest;
    BareIsShortest(seg, rest);
    assert txt[0..] == txt && txt[|Bare(seg)|..] == rest;
    if i > 0 {
      assert Locate(seg, txt, 0) == Some(Span(0, |Bare(seg)|));
    }
  }

  /** The bare segments from index `i` on, with slashes between. */
  function Thin(segments: seq<string>, i: nat): string
    requires i <= |segments|
    decreases |segments| - i
  {
    if i == |segments| then ""
    else
      var seg := TrimSlashes(segments[i]);
      if seg == "" then Thin(segments, i + 1)
      else if AsksFrom(segments, i + 1) then Bare(seg) + "/" + Thin(segments, i + 1)
      else Bare(seg)
  }

  /** What the greedy search has of it: all, or what comes after the slashes it skips. */
  function ThinRest(segments: seq<string>, i: nat, asked: bool): string
    requires i <= |segments|
  {
    if asked then SkipSlashes(Thin(segments, i)) else Thin(segments, i)
  }

  // ----- How the search goes on it -----

  /** A bare segment starts with a slash only if the segment starts with a star and then one. */
  lemma {:induction false} BareStart(seg: string)
    requires seg != "" && seg[0] != '/' && NoPair(seg) && !StartsEmpty(seg)
    ensures Bare(seg) != "" ==> Bare(seg)[0] != '/'
    ensures Bare(seg) == "" ==> seg == "*"
  {
    if seg[0] == '*' && |seg| >= 2 {
      assert seg[1..][0] == seg[1];
      assert Bare(seg) == "" + Bare(seg[1..]) == Bare(seg[1..]);
    } else if seg[0] == '*' {
      assert seg == "*" && seg[1..] == "";
    }
  }

  lemma {:induction false} SkipOneSlash(rest: string)
    ensures SkipSlashes("/" + rest) == SkipSlashes(rest)
  {
    assert ("/" + rest)[1..] == rest;
  }

  lemma {:induction false} SkipJoined(bare: string, more: string)
    requires bare == ""
    ensures SkipSlashes(bare + "/" + more) == SkipSlashes(more)
  {
    assert bare + "/" + more == "/" + more;
    SkipOneSlash(more);
  }

  lemma {:induction false} SkipTwice(s: string)
    ensures SkipSlashes(SkipSlashes(s)) == SkipSlashes(s)
  {
    if s != "" && s[0] == '/' {
      SkipTwice(s[1..]);
    }
  }

  /** As long as no segment starts empty after something was asked, the search takes exactly the bare
      segments. */
  lemma {:induction false} ThinStep(segments: seq<string>, i: nat, asked: bool)
    requires i < |segments| && AllSingle(segments) && TrimSlashes(segments[i]) != "" && AsksFrom(segments, i + 1)
    requires !(asked && StartsEmpty(TrimSlashes(segments[i])))
    ensures PlaceAt(segments, i, ThinRest(segments, i, asked)) == Some(ThinRest(segments, i + 1, true))
  {
    var seg, more := TrimSlashes(segments[i]), Thin(segments, i + 1);
    TrimmedEnds(segments[i]);
    SkipOneSlash(more);
    if asked {
      BareStart(seg);
    }
    if asked && Bare(seg) == "" {
      EmptyThinStep(segments, i);
    } else {
      BareRest(segments, i, asked);
      BareIsPlaced(segments, i, "/" + more);
    }
  }

  /** A bare segment that does not start with a slash stands at the start of the rest. */
  lemma {:induction false} BareRest(segments: seq<string>, i: nat, asked: bool)
    requires i < |segments| && TrimSlashes(segments[i]) != "" && AsksFrom(segments, i + 1)
    requires asked ==> Bare(TrimSlashes(segments[i])) != "" && Bare(TrimSlashes(segments[i]))[0] != '/'
    ensures ThinRest(segments, i, asked) == Bare(TrimSlashes(segments[i])) + ("/" + Thin(segments, i + 1))
  {
    var bare, more := Bare(TrimSlashes(segments[i])), Thin(segments, i + 1);
    assert bare + "/" + more == bare + ("/" + more);
    if asked {
      assert Thin(segments, i)[0] == bare[0];
    }
  }

  /** A lone star is placed empty. */
  lemma EmptyThinStep(segments: seq<string>, i: nat)
    requires i < |segments| && TrimSlashes(segments[i]) != "" && AsksFrom(segments, i + 1)
    requires Bare(TrimSlashes(segments[i])) == ""
    ensures PlaceAt(segments, i, ThinRest(segments, i, true)) == Some(ThinRest(segments, i + 1, true))
  {
    var more := Thin(segments, i + 1);
    EmptyBareRest(segments, i);
    SkipTwice(more);
    EmptyIsPlaced(segments, i, SkipSlashes(more));
  }

  lemma {:induction false} EmptyBareRest(segments: seq<string>, i: nat)
    requires i < |segments| && TrimSlashes(segments[i]) != "" && AsksFrom(segments, i + 1)
    requires Bare(TrimSlashes(segments[i])) == ""
    ensures ThinRest(segments, i, true) == SkipSlashes(Thin(segments, i + 1))
  {
    SkipJoined(Bare(TrimSlashes(segments[i])), Thin(segments, i + 1));
  }

  lemma {:induction false} EmptyIsPlaced(segments: seq<string>, i: nat, rest: string)
    requires i < |segments| && TrimSlashes(segments[i]) != "" && Bare(TrimSlashes(segments[i])) == ""
    ensures PlaceAt(segments, i, rest) == Some(SkipSlashes(rest))
  {
    BareIsPlaced(segments, i, rest);
    assert "" + rest == rest;
  }

  /** What the segments from index `i` on need at least. */
  function Need(segments: seq<string>, i: nat): nat
    requires i <= |segments|
    decreases |segments| - i
  {
    if i == |segments| then 0 else NonSlashes(Bare(TrimSlashes(segments[i]))) + Need(segments, i + 1)
  }

  lemma {:induction false} ThinHasJustEnough(segments: seq<string>, i: nat)
    requires i <= |segments|
    ensures NonSlashes(Thin(segments, i)) == Need(segments, i)
    decreases |segments| - i
  {
    if i < |segments| {
      var seg := TrimSlashes(segments[i]);
      ThinHasJustEnough(segments, i + 1);
      if seg == "" {
        assert Bare("") == "";
      } else if AsksFrom(segments, i + 1) {
        NonSlashesJoined(Bare(seg), Thin(segments, i + 1));
      } else {
        NothingNeeded(segments, i + 1);
      }
    }
  }

  lemma {:induction false} NonSlashesJoined(a: string, b: string)
    ensures NonSlashes(a + "/" + b) == NonSlashes(a) + NonSlashes(b)
  {
    NonSlashesConcat(a, "/" + b);
    assert a + "/" + b == a + ("/" + b) && ("/" + b)[1..] == b;
  }

  lemma {:induction false} NothingNeeded(segments: seq<string>, i: nat)
    requires i <= |segments| && !AsksFrom(segments, i)
    ensures Need(segments, i) == 0
    decreases |segments| - i
  {
    if i < |segments| {
      NothingNeeded(segments, i + 1);
    }
  }

  /** Placing a segment uses up at least what it needs. */
  lemma {:induction false} PlaceUsesUp(segments: seq<string>, i: nat, rest: string)
    requires i < |segments| && PlaceAt(segments, i, rest).Some?
    ensures NonSlashes(rest) >= NonSlashes(Bare(TrimSlashes(segments[i])))
        + NonSlashes(PlaceAt(segments, i, rest).value)
  {
    if TrimSlashes(segments[i]) != "" {
      var span := SpanOf(segments, rest, i);
      BareIsThinnest(TrimSlashes(segments[i]), rest[span.start..span.end]);
      SkipKeepsNonSlashes(rest[span.end..]);
      ThreeParts(rest, span.start, span.end);
    }
  }

  lemma {:induction false} ThreeParts(s: string, a: nat, b: nat)
    requires a <= b <= |s|
    ensures NonSlashes(s) == NonSlashes(s[..a]) + NonSlashes(s[a..b]) + NonSlashes(s[b..])
  {
    assert s == s[..a] + (s[a..b] + s[b..]);
    NonSlashesConcat(s[..a], s[a..b] + s[b..]);
    NonSlashesConcat(s[a..b], s[b..]);
  }

  lemma {:induction false} AllUseUp(segments: seq<string>, i: nat, rest: string)
    requires i <= |segments| && PlaceFrom(segments, i, rest).Some?
    ensures NonSlashes(rest) >= Need(segments, i)
    decreases |segments| - i
  {
    if i < |segments| {
      PlaceUsesUp(segments, i, rest);
      AllUseUp(segments, i + 1, PlaceAt(segments, i, rest).value);
    }
  }

  /** A segment that starts empty uses up one character more on a rest that starts with none of the slashes. */
  lemma {:induction false} StartsEmptyUsesMore(segments: seq<string>, i: nat, rest: string)
    requires 0 < i < |segments| && StartsEmpty(TrimSlashes(segments[i]))
    requires (rest != "" ==> rest[0] != '/') && PlaceAt(segments, i, rest).Some?
    ensures NonSlashes(rest) > NonSlashes(Bare(TrimSlashes(segments[i]))) + NonSlashes(PlaceAt(segments, i, rest).value)
  {
    var seg := TrimSlashes(segments[i]);
    var span := SpanOf(segments, rest, i);
    var match_ := rest[span.start..span.end];
    SkipKeepsNonSlashes(rest[span.end..]);
    ThreeParts(rest, span.start, span.end);
    BareIsThinnest(seg, match_);
    if match_ == "" {
      EmptyHasNoSlash(seg);
    }
    if span.start == 0 {
      assert match_[0] == rest[0];
      StarTakesFirst(seg, match_);
    } else {
      assert rest[..span.start][0] == rest[0];
    }
  }

  lemma {:induction false} EmptyHasNoSlash(seg: string)
    requires StartsEmpty(seg)
    ensures !Matches(seg, "", false)
  {
    assert seg[1..][0] == '/';
  }

  lemma {:induction false} StarTakesFirst(seg: string, txt: string)
    requires StartsEmpty(seg) && txt != "" && txt[0] != '/' && Matches(seg, txt, false)
    ensures NonSlashes(txt) >= 1 + NonSlashes(Bare(seg))
  {
    assert seg[1..][0] == '/';
    assert Matches(seg, txt[1..], false);
    BareIsThinnest(seg, txt[1..]);
  }

  /** So on the thinnest text it cannot be placed together with what follows. */
  lemma {:induction false} StartsEmptyFails(segments: seq<string>, i: nat)
    requires 0 < i < |segments| && StartsEmpty(TrimSlashes(segments[i]))
    ensures PlaceFrom(segments, i, ThinRest(segments, i, true)) == None
  {
    var rest := ThinRest(segments, i, true);
    SkippedStart(Thin(segments, i));
    SkipKeepsNonSlashes(Thin(segments, i));
    ThinHasJustEnough(segments, i);
    if PlaceFrom(segments, i, rest).Some? {
      StartsEmptyUsesMore(segments, i, rest);
      AllUseUp(segments, i + 1, PlaceAt(segments, i, rest).value);
    }
  }

  lemma {:induction false} OpenFails(segments: seq<string>, i: nat, asked: bool)
    requires i <= |segments| && AllSingle(segments) && !Closed(segments, i, asked) && (asked ==> i > 0)
    ensures AsksFrom(segments, i) && PlaceFrom(segments, i, ThinRest(segments, i, asked)) == None
    decreases |segments| - i
  {
    var seg := TrimSlashes(segments[i]);
    if seg == "" {
      OpenFails(segments, i + 1, asked);
    } else if asked && StartsEmpty(seg) {
      StartsEmptyFails(segments, i);
    } else {
      OpenFails(segments, i + 1, true);
      ThinStep(segments, i, asked);
    }
  }

  // ----- The witness that is missed -----

  lemma {:induction false} NothingMoreWitnessed(segments: seq<string>, i: nat, prevEnd: nat, txt: string)
    requires i <= |segments| && !AsksFrom(segments, i)
    ensures ComponentWitness(segments, i, prevEnd, txt, [])
    decreases |segments| - i
  {
    if i < |segments| {
      NothingMoreWitnessed(segments, i + 1, prevEnd, txt);
    }
  }

  lemma {:induction false} ThinWitness(segments: seq<string>, i: nat, prevEnd: nat, at: nat, txt: string)
    returns (places: seq<Span>)
    requires i <= |segments| && AsksFrom(segments, i)
    requires prevEnd <= at <= |txt| && txt[at..] == Thin(segments, i)
    requires AtComponentStart(txt, at) && (i == 0 ==> at == 0)
    ensures ComponentWitness(segments, i, prevEnd, txt, places)
    decreases |segments| - i
  {
    var seg := TrimSlashes(segments[i]);
    if seg == "" {
      places := ThinWitness(segments, i + 1, prevEnd, at, txt);
    } else {
      var end := ThinHere(segments, i, at, txt);
      var rest: seq<Span> := [];
      if AsksFrom(segments, i + 1) {
        rest := ThinWitness(segments, i + 1, end, end + 1, txt);
      } else {
        NothingMoreWitnessed(segments, i + 1, end, txt);
      }
      places := WitnessOne(segments, i, prevEnd, at, end, txt, rest);
    }
  }

  /** Where the bare segment stands in the text, and what comes after it. */
  lemma {:induction false} ThinHere(segments: seq<string>, i: nat, at: nat, txt: string) returns (end: nat)
    requires i < |segments| && TrimSlashes(segments[i]) != "" && at <= |txt| && txt[at..] == Thin(segments, i)
    ensures at <= end <= |txt| && Matches(TrimSlashes(segments[i]), txt[at..end], false)
    ensures AsksFrom(segments, i + 1) ==>
              end < |txt| && txt[end] == '/' && txt[end + 1..] == Thin(segments, i + 1)
  {
    var bare := Bare(TrimSlashes(segments[i]));
    BareMatches(TrimSlashes(segments[i]));
    end := at + |bare|;
    if AsksFrom(segments, i + 1) {
      assert txt[at..] == bare + "/" + Thin(segments, i + 1);
      StandsAt(txt, at, bare, Thin(segments, i + 1));
    } else {
      assert txt[at..] == bare;
      EndsThere(txt, at, bare);
    }
  }

  lemma EndsThere(txt: string, at: nat, last: string)
    requires at <= |txt| && txt[at..] == last
    ensures |txt| == at + |last| && txt[at..at + |last|] == last
  {
    assert txt[at..at + |last|] == txt[at..];
  }

  lemma {:induction false} WitnessOne(segments: seq<string>, i: nat, prevEnd: nat, at: nat, end: nat, txt: string,
                                      rest: seq<Span>)
    returns (places: seq<Span>)
    requires i < |segments| && TrimSlashes(segments[i]) != "" && prevEnd <= at <= end <= |txt|
    requires AtComponentStart(txt, at) && (i == 0 ==> at == 0)
    requires Matches(TrimSlashes(segments[i]), txt[at..end], false)
    requires ComponentWitness(segments, i + 1, end, txt, rest)
    ensures ComponentWitness(segments, i, prevEnd, txt, places)
  {
    places := [Span(at, end)] + rest;
    assert places[1..] == rest;
  }

  lemma {:induction false} BareChars(seg: string)
    ensures forall c :: c in Bare(seg) ==> c in seg || c == 'a'
  {
    if seg != "" {
      BareChars(seg[1..]);
    }
  }

  lemma {:induction false} ThinChars(segments: seq<string>, i: nat)
    requires i <= |segments|
    ensures forall c :: c in Thin(segments, i) ==>
              c == 'a' || c == '/' || exists seg :: seg in segments && c in seg
    decreases |segments| - i
  {
    if i < |segments| {
      TrimmedChars(segments[i]);
      BareChars(TrimSlashes(segments[i]));
      assert segments[i] in segments;
      ThinChars(segments, i + 1);
    }
  }

  // ----- The class -----

  /** Some text in which all segments can be placed in order, each at the start of a component, is
      rejected. */
  ghost predicate MissesSome(pattern: string) {
    exists text, places ::
      ComponentWitness(SplitDoubleStar(Lower(pattern)), 0, 0, Lower(text), places) && !GlobMatches(pattern, text)
  }

  lemma OpenMissesSome(pattern: string)
    requires HasSubstring(Lower(pattern), "**") && !Closed(SplitDoubleStar(Lower(pattern)), 0, false)
    ensures MissesSome(pattern)
  {
    var pat := Lower(pattern);
    var segments := SplitDoubleStar(pat);
    SplitThenJoin(pat);
    StarInDoubleStar(pat);
    SplitIsSingle(pat);
    OpenFails(segments, 0, false);
    var txt := Thin(segments, 0);
    ThinChars(segments, 0);
    SegmentChars(pat);
    LowerOfOwn(pattern, txt);
    assert txt[0..] == txt;
    var places := ThinWitness(segments, 0, 0, 0, txt);
    assert ComponentWitness(segments, 0, 0, Lower(txt), places) && !GlobMatches(pattern, txt);
  }

  lemma {:induction false} ClosedMissesNone(pattern: string, text: string, places: seq<Span>)
    requires HasSubstring(Lower(pattern), "**") && Closed(SplitDoubleStar(Lower(pattern)), 0, false)
    requires var segments := SplitDoubleStar(Lower(pattern));
             segments[|segments| - 1] == "" && ComponentWitness(segments, 0, 0, Lower(text), places)
    ensures GlobMatches(pattern, text)
  {
    var pat, txt := Lower(pattern), Lower(text);
    SplitThenJoin(pat);
    StarInDoubleStar(pat);
    SplitIsSingle(pat);
    assert txt[0..] == txt;
    ClosedKeepsUp(SplitDoubleStar(pat), 0, 0, 0, txt, places, false);
  }

  /** Exactly which patterns ending in a double star accept every text they stand for, with empty components
      or without: those in which no segment past the first that asks for anything starts with a star and
      then a slash. */
  lemma TrailingDoubleStarMissesIff(pattern: string)
    requires HasSubstring(Lower(pattern), "**")
    requires var segments := SplitDoubleStar(Lower(pattern)); segments[|segments| - 1] == ""
    ensures MissesSome(pattern) <==> !Closed(SplitDoubleStar(Lower(pattern)), 0, false)
  {
    if !Closed(SplitDoubleStar(Lower(pattern)), 0, false) {
      OpenMissesSome(pattern);
    } else {
      forall text, places | ComponentWitness(SplitDoubleStar(Lower(pattern)), 0, 0, Lower(text), places)
        ensures GlobMatches(pattern, text)
      {
        ClosedMissesNone(pattern, text, places);
      }
    }
  }

  // ----- An input -----

  /** For instance: `a`, any directories, then any directory with a `b` in it. The text `a//b` has the empty
      directory between its slashes, and is not found. */
  lemma EmptyDirectoryIsMissed()
    ensures var segments := ["a/", "/*/b/", ""];
            && PlaceFrom(segments, 0, "a//b") == None
            && exists places :: ComponentWitness(segments, 0, 0, "a//b", places)
  {
    var segments := ["a/", "/*/b/", ""];
    ExampleSegmentsTrimmed();
    ExampleThin(segments);
    forall i | 0 <= i < |segments| ensures NoPair(TrimSlashes(segments[i])) {
    }
    assert !Closed(segments, 1, true);
    OpenFails(segments, 0, false);
    assert "a//b"[0..] == "a//b";
    var places := ThinWitness(segments, 0, 0, 0, "a//b");
  }

  lemma ExampleSegmentsTrimmed()
    ensures TrimSlashes("a/") == "a" && TrimSlashes("/*/b/") == "*/b" && TrimSlashes("") == ""
  {
    assert "a/"[..1] == "a" && DropTrailingSlashes("a") == "a";
    assert "/*/b/"[1..] == "*/b/" && SkipSlashes("*/b/") == "*/b/";
    assert "*/b/"[..3] == "*/b" && DropTrailingSlashes("*/b") == "*/b";
  }

  lemma {:induction false} ExampleThin(segments: seq<string>)
    requires segments == ["a/", "/*/b/", ""]
    requires TrimSlashes("a/") == "a" && TrimSlashes("/*/b/") == "*/b" && TrimSlashes("") == ""
    ensures AsksFrom(segments, 0) && AsksFrom(segments, 1) && !AsksFrom(segments, 2) && Thin(segments, 0) == "a//b"
  {
    assert !AsksFrom(segments, 3) && !AsksFrom(segments, 2);
    assert "*/b"[1..] == "/b" && "/b"[1..] == "b" && "b"[1..] == "" && "a"[1..] == "";
    assert Bare("b") == "b" && Bare("/b") == "/b" && Bare("*/b") == "/b" && Bare("a") == "a";
    assert Thin(segments, 1) == "/b";
    assert Thin(segments, 0) == "a" + "/" + "/b" == "a//b";
  }
}
