/** Where the `**` matcher departs from the glob semantics its documentation names, and exactly what the
    commonest pattern, `dir/` and then two stars, accepts. */
module GlobLaws {
  import opened Wrappers
  import opened GlobSegment
  import opened GlobPattern

  predicate IsLiteral(s: string) {
    '*' !in s && '?' !in s
  }

  /** The same character, or the two cases of one ASCII letter. */
  predicate SameLetter(a: char, b: char) {
    || a == b
    || ('A' <= a <= 'Z' && b as int == a as int + 32)
    || ('A' <= b <= 'Z' && a as int == b as int + 32)
  }

  /** The letters of `part` stand in `text` at `i`, in either case. */
  predicate OccursAt(part: string, text: string, i: nat) {
    i + |part| <= |text| && forall k :: 0 <= k < |part| ==> SameLetter(part[k], text[i + k])
  }

  predicate Occurs(part: string, text: string) {
    exists i | 0 <= i <= |text| :: OccursAt(part, text, i)
  }

  /** A pattern without wildcards accepts exactly the texts it occurs in, anywhere, whatever the case. */
  lemma LiteralAcceptsIff(pattern: string, text: string)
    requires IsLiteral(pattern)
    ensures GlobMatches(pattern, text) <==> Occurs(pattern, text)
  {
    var pat, txt := Lower(pattern), Lower(text);
    LowerKeepsShape(pattern);
    SubstringIff(txt, pat);
    forall i: nat ensures FoundAt(txt, pat, i) <==> OccursAt(pattern, text, i) {
      FoldedStands(pattern, text, i);
    }
    if i :| FoundAt(txt, pat, i) {
      assert OccursAt(pattern, text, i);
    }
    if i :| 0 <= i <= |text| && OccursAt(pattern, text, i) {
      assert FoundAt(txt, pat, i);
    }
  }

  lemma FoldedStands(pattern: string, text: string, i: nat)
    ensures FoundAt(Lower(text), Lower(pattern), i) <==> OccursAt(pattern, text, i)
  {
    var pat, txt := Lower(pattern), Lower(text);
    if i + |pattern| <= |text| {
      var slice := txt[i..i + |pat|];
      assert forall k :: 0 <= k < |pattern| ==> (pat[k] == slice[k] <==> SameLetter(pattern[k], text[i + k]));
    }
  }

  /** A literal pattern matches itself and nothing else. */
  lemma {:induction false} LiteralMatchesItself(pat: string, txt: string, allowSlash: bool)
    requires IsLiteral(pat)
    ensures Matches(pat, txt, allowSlash) <==> txt == pat
  {
    if pat != "" {
      assert pat[0] in pat;
      assert forall c :: c in pat[1..] ==> c in pat;
      if txt != "" {
        LiteralMatchesItself(pat[1..], txt[1..], allowSlash);
        assert txt == [txt[0]] + txt[1..] && pat == [pat[0]] + pat[1..];
      }
    }
  }

  /** A literal segment is found as a prefix exactly when it is one, and ends where it does. */
  lemma {:induction false} LiteralPrefix(seg: string, text: string)
    requires IsLiteral(seg)
    ensures ShortestPrefix(seg, text, false) == if seg <= text then Some(|seg|) else None
  {
    var len := ShortestPrefix(seg, text, false);
    ShortestPrefixIsShortest(seg, text, false, 0);
    if len.Some? {
      LiteralMatchesItself(seg, text[..len.value], false);
    } else if seg <= text {
      assert text[..|seg|] == seg;
      LiteralMatchesItself(seg, text[..|seg|], false);
      assert false;
    }
  }

  lemma {:induction false} SplitTrailingDoubleStar(dir: string)
    requires IsLiteral(dir)
    ensures SplitDoubleStar(dir + "**") == [dir, ""]
  {
    var pat := dir + "**";
    if dir == "" {
      assert pat == "**";
      assert pat[2..] == "";
    } else {
      assert dir[0] in dir;
      assert forall c :: c in dir[1..] ==> c in dir;
      assert pat[1..] == dir[1..] + "**";
      SplitTrailingDoubleStar(dir[1..]);
      assert [dir[0]] + dir[1..] == dir;
    }
  }

  lemma TrimOneSlash(dir: string)
    requires dir != "" && dir[0] != '/' && dir[|dir| - 1] != '/'
    ensures TrimSlashes(dir + "/") == dir
  {
    assert SkipSlashes(dir + "/") == dir + "/";
    assert (dir + "/")[..|dir|] == dir;
    assert DropTrailingSlashes(dir) == dir;
  }

  lemma LowerKeepsShape(dir: string)
    ensures IsLiteral(dir) ==> IsLiteral(Lower(dir))
    ensures dir != "" && dir[0] != '/' ==> Lower(dir)[0] != '/'
    ensures dir != "" && dir[|dir| - 1] != '/' ==> Lower(dir)[|dir| - 1] != '/'
  {
    if IsLiteral(dir) {
      forall c | c in Lower(dir) ensures c != '*' && c != '?' {
        var i :| 0 <= i < |dir| && Lower(dir)[i] == c;
        assert dir[i] in dir;
      }
    }
  }

  /** `dir/` and then two stars accepts exactly the texts that start with `dir`, case folded. */
  lemma DirDoubleStarIsPrefix(dir: string, text: string)
    requires IsLiteral(dir) && dir != "" && dir[0] != '/' && dir[|dir| - 1] != '/'
    ensures GlobMatches(dir + "/" + "**", text) <==> Lower(dir) <= Lower(text)
  {
    var d, txt := Lower(dir), Lower(text);
    LowerKeepsShape(dir);
    assert Lower(dir + "/" + "**") == (d + "/") + "**";
    var pat := (d + "/") + "**";
    assert pat[|d| + 1] == '*';
    assert '*' in pat;
    assert IsLiteral(d + "/");
    SplitTrailingDoubleStar(d + "/");
    TrimOneSlash(d);
    LiteralPrefix(d, txt);
    var segments := SplitDoubleStar(pat);
    assert segments == [d + "/", ""] && TrimSlashes("") == "";
    if d <= txt {
      var rest := SkipSlashes(txt[|d|..]);
      assert PlaceFrom(segments, 2, rest) == Some(rest);
      assert PlaceFrom(segments, 1, rest) == Some(rest);
      assert PlaceFrom(segments, 0, txt) == Some(rest);
    } else {
      assert PlaceFrom(segments, 0, txt) == None;
    }
  }

  /** The files below a directory, which is what `dir/` and then two stars stands for in a glob. */
  predicate Below(dir: string, text: string) {
    dir + "/" <= text
  }

  /** So it selects the files below `dir`, and besides them a file of that very name and every text that
      goes on after the name with another character than a slash. */
  lemma DirDoubleStarVersusBelow(dir: string, text: string)
    requires IsLiteral(dir) && dir != "" && dir[0] != '/' && dir[|dir| - 1] != '/'
    ensures (GlobMatches(dir + "/" + "**", text) <==> Below(Lower(dir), Lower(text)))
            <==> !(Lower(dir) <= Lower(text) && (Lower(text) == Lower(dir) || Lower(text)[|dir|] != '/'))
  {
    var d, txt := Lower(dir), Lower(text);
    DirDoubleStarIsPrefix(dir, text);
    if d + "/" <= txt {
      assert txt[|d|] == (d + "/")[|d|];
      assert txt[..|d|] == (d + "/")[..|d|] == d;
    }
    if d <= txt && txt != d {
      assert |txt| > |d|;
      if txt[|d|] == '/' {
        assert txt[..|d| + 1] == d + "/";
      }
    }
  }

  /** A file whose name is the directory's is taken, though it is not below it. */
  lemma DirDoubleStarTakesItself(dir: string)
    requires IsLiteral(dir) && dir != "" && dir[0] != '/' && dir[|dir| - 1] != '/'
    ensures GlobMatches(dir + "/" + "**", dir) && !Below(Lower(dir), Lower(dir))
  {
    DirDoubleStarIsPrefix(dir, dir);
  }

  // ----- One star and slashes -----

  /** Stopping wildcards at slashes is the same as asking the text for as many slashes as the pattern. */
  lemma {:induction false} SlashCountDecides(pat: string, txt: string)
    ensures Matches(pat, txt, false) <==> Matches(pat, txt, true) && Slashes(txt) == Slashes(pat)
    decreases |pat| + |txt|
  {
    if Matches(pat, txt, true) {
      SlashesAtLeast(pat, txt);
    }
    if pat != "" {
      SlashCountDecides(pat[1..], if pat[0] == '*' || txt == "" then txt else txt[1..]);
      if pat[0] == '*' && txt != "" {
        SlashCountDecides(pat, txt[1..]);
        if Matches(pat, txt[1..], true) {
          SlashesAtLeast(pat, txt[1..]);
        }
      } else if txt != "" && Matches(pat[1..], txt[1..], true) {
        SlashesAtLeast(pat[1..], txt[1..]);
      }
    }
  }

  /** A match has at least the slashes of its pattern. */
  lemma {:induction false} SlashesAtLeast(pat: string, txt: string)
    requires Matches(pat, txt, true)
    ensures Slashes(txt) >= Slashes(pat)
    decreases |pat| + |txt|
  {
    if pat != "" {
      if pat[0] == '*' && Matches(pat[1..], txt, true) {
        SlashesAtLeast(pat[1..], txt);
      } else if pat[0] == '*' {
        SlashesAtLeast(pat, txt[1..]);
      } else {
        SlashesAtLeast(pat[1..], txt[1..]);
      }
    }
  }

  /** What the documentation says of a pattern with wildcards: no wildcard matches a slash. */
  predicate DocumentedMatch(pattern: string, text: string) {
    Matches(Lower(pattern), Lower(text), false)
  }

  /** Without two stars in a row the code lets wildcards cross slashes. It departs from its documentation
      on exactly the texts it accepts that have not as many slashes as the pattern. */
  lemma SingleStarDepartsIff(pattern: string, text: string)
    requires '*' in Lower(pattern) || '?' in Lower(pattern)
    requires !HasSubstring(Lower(pattern), "**")
    ensures (GlobMatches(pattern, text) <==> DocumentedMatch(pattern, text))
            <==> !(GlobMatches(pattern, text) && Slashes(Lower(text)) != Slashes(Lower(pattern)))
  {
    SplitThenJoin(Lower(pattern));
    SlashCountDecides(Lower(pattern), Lower(text));
  }

  /** For instance `*.txt` accepts `dir/file.txt`. */
  lemma SingleStarCrossesSlash()
    ensures GlobMatches("*.txt", "dir/file.txt") && !DocumentedMatch("*.txt", "dir/file.txt")
  {
    var pat, txt := "*.txt", "dir/file.txt";
    LowerExample();
    TextFilePattern();
    DirFileMatches();
    SplitThenJoin(pat);
    SlashCountDecides(pat, txt);
  }

  lemma LowerExample()
    ensures Lower("*.txt") == "*.txt" && Lower("dir/file.txt") == "dir/file.txt"
  {
  }

  lemma TextFilePattern()
    ensures '*' in "*.txt" && !HasSubstring("*.txt", "**") && Slashes("*.txt") == 0
  {
    assert "*.txt"[0] == '*';
    NoDoubleStarAfter(".txt");
    assert "*" + ".txt" == "*.txt";
    NoSlashCount("*.txt");
  }

  lemma DirFileMatches()
    ensures Matches("*.txt", "dir/file.txt", true) && Slashes("dir/file.txt") >= 1
  {
    var pat, txt := "*.txt", "dir/file.txt";
    assert pat[1..] == ".txt" && txt[8..] == ".txt";
    StarTakes(pat, txt, 8);
    SlashesOfSlice(txt, 0, 3, |txt|);
    assert txt[0..|txt|] == txt && txt[3..|txt|][0] == '/';
  }

  lemma {:induction false} NoSlashCount(s: string)
    requires forall i :: 0 <= i < |s| ==> s[i] != '/'
    ensures Slashes(s) == 0
  {
    if s != "" {
      NoSlashCount(s[1..]);
    }
  }

  /** A leading star takes any first part when slashes are allowed. */
  lemma {:induction false} StarTakes(pat: string, txt: string, n: nat)
    requires pat != "" && pat[0] == '*' && n <= |txt| && txt[n..] == pat[1..] && IsLiteral(pat[1..])
    ensures Matches(pat, txt, true)
    decreases n
  {
    if n == 0 {
      LiteralMatchesItself(pat[1..], txt, true);
    } else {
      assert txt[1..][n - 1..] == txt[n..];
      StarTakes(pat, txt[1..], n - 1);
    }
  }

  lemma {:induction false} NoDoubleStarAfter(rest: string)
    requires IsLiteral(rest)
    ensures !HasSubstring(rest, "**") && !HasSubstring("*" + rest, "**")
  {
    StartsWithDoubleStar(rest);
    StartsWithDoubleStar("*" + rest);
    assert ("*" + rest)[1..] == rest;
    if rest != "" {
      assert rest[0] in rest;
      assert forall c :: c in rest[1..] ==> c in rest;
      NoDoubleStarAfter(rest[1..]);
    }
  }

  /** For instance `dir/` and then two stars accepts `dirx`. */
  lemma DirDoubleStarTakesLongerName()
    ensures GlobMatches("dir/" + "**", "dirx") && !Below("dir", "dirx")
  {
    assert "dir" + "/" + "**" == "dir/" + "**";
    assert IsLiteral("dir");
    DirDoubleStarIsPrefix("dir", "dirx");
    assert Lower("dir") == "dir" && Lower("dirx") == "dirx";
    assert "dirx"[..3] == "dir" && "dirx"[3] == 'x';
    assert ("dir" + "/")[3] == '/';
  }

  /** Committing to the shortest prefix loses matches: for `**` and then `a*`, the text `abc` has a
      witness, but the matcher stops after `a` and rejects what is left. */
  lemma ShortestPrefixLosesMatches()
    ensures !GlobMatches("**" + "/a*", "abc")
    ensures exists places :: Witness(SplitDoubleStar("**" + "/a*"), "abc", places)
  {
    var pat := "**" + "/a*";
    assert Lower(pat) == pat && Lower("abc") == "abc";
    assert pat[0] == '*';
    ExampleSegments();
    ExampleStopsEarly();
    assert "bc"[0] == 'b';
    ExampleWitness();
  }

  lemma ExampleSegments()
    ensures SplitDoubleStar("**" + "/a*") == ["", "/a*"]
  {
    var pat := "**" + "/a*";
    assert pat[2..] == "/a*" && "/a*"[1..] == "a*" && "a*"[1..] == "*";
    assert SplitDoubleStar("*") == ["*"];
    assert SplitDoubleStar("a*") == ["a*"] by {
      assert ['a'] + "*" == "a*";
    }
    assert SplitDoubleStar("/a*") == ["/a*"] by {
      assert ['/'] + "a*" == "/a*";
    }
  }

  lemma ExampleTrim()
    ensures TrimSlashes("/a*") == "a*" && TrimSlashes("") == ""
  {
    assert "/a*"[1..] == "a*" && SkipSlashes("a*") == "a*";
    assert DropTrailingSlashes("a*") == "a*";
  }

  lemma ExampleStopsEarly()
    ensures PlaceFrom(["", "/a*"], 0, "abc") == Some("bc")
  {
    var segments, txt := ["", "/a*"], "abc";
    ExampleTrim();
    ExampleShortest();
    assert txt[0..] == txt && txt[1..] == "bc";
    assert Locate("a*", txt, 0) == Some(Span(0, 1));
    assert PlaceAt(segments, 1, txt) == Some("bc");
    assert PlaceAt(segments, 0, txt) == Some(txt);
    assert PlaceFrom(segments, 2, "bc") == Some("bc");
    assert PlaceFrom(segments, 1, txt) == Some("bc");
  }

  lemma ExampleShortest()
    ensures ShortestPrefix("a*", "abc", false) == Some(1)
  {
    var txt := "abc";
    assert Matches("a*", txt[..1], false) by {
      assert txt[..1] == "a" && "a"[1..] == "" && "a*"[1..] == "*" && "*"[1..] == "";
    }
    assert txt[..0] == "";
    ShortestPrefixIsShortest("a*", txt, false, 0);
  }

  lemma ExampleWitness()
    ensures Witness(["", "/a*"], "abc", [Placement(1, 0, 3)])
  {
    var segments, txt, places := ["", "/a*"], "abc", [Placement(1, 0, 3)];
    ExampleTrim();
    assert Matches("a*", txt, false) by {
      assert "a*"[1..] == "*" && txt[1..] == "bc" && "bc"[1..] == "c" && "c"[1..] == "";
      assert Matches("*", "c", false);
      assert Matches("*", "bc", false);
    }
    assert txt[0..3] == txt && txt[3..] == "";
    assert LegalPlace(segments, txt, places, 0);
    assert places[0].index == 1;
    assert PlacesSegment(places, 1);
  }
}
