/** Single-segment glob matching: `*` and `?`, with or without crossing `/`.

    `Matches` is the meaning of a pattern, `Covered` restates it as a cut of the text into one
    piece per pattern character, and `WildcardMatchSegment` is the two-pointer matcher that keeps
    only the most recent star. */
module GlobSegment {

  /** May one wildcard character stand for `c`? */
  predicate Wild(c: char, allowSlash: bool) {
    allowSlash || c != '/'
  }

  /** Does the single, non-star pattern character `p` stand for `c`? */
  predicate Fits(p: char, c: char, allowSlash: bool) {
    if p == '?' then Wild(c, allowSlash) else p == c
  }

  /** The meaning of a pattern, by cases on its first character. */
  predicate Matches(pat: string, txt: string, allowSlash: bool)
    decreases |pat| + |txt|
  {
    if pat == [] then txt == []
    else if pat[0] == '*' then
      Matches(pat[1..], txt, allowSlash)
      || (txt != [] && Wild(txt[0], allowSlash) && Matches(pat, txt[1..], allowSlash))
    else
      txt != [] && Fits(pat[0], txt[0], allowSlash) && Matches(pat[1..], txt[1..], allowSlash)
  }

  // ----- An independent reading: one piece of text per pattern character -----

  /** The piece a pattern character may cover: a star any run and a question mark one character, without a
      slash unless that is allowed, and any other character itself. */
  ghost predicate PieceOk(p: char, piece: string, allowSlash: bool) {
    && (p == '*' || p == '?' ==> allowSlash || forall i :: 0 <= i < |piece| ==> piece[i] != '/')
    && (p == '?' ==> |piece| == 1)
    && (p != '*' && p != '?' ==> piece == [p])
  }

  /** `pieces` cuts `txt` into one legal piece per pattern character. */
  ghost predicate Covers(pat: string, txt: string, allowSlash: bool, pieces: seq<string>) {
    && |pieces| == |pat|
    && Concat(pieces) == txt
    && forall k :: 0 <= k < |pat| ==> PieceOk(pat[k], pieces[k], allowSlash)
  }

  ghost function Concat(pieces: seq<string>): string {
    if pieces == [] then [] else pieces[0] + Concat(pieces[1..])
  }

  /** A pattern matches exactly when the text can be cut into legal pieces. */
  lemma {:induction false} MatchesIffCovered(pat: string, txt: string, allowSlash: bool)
    ensures Matches(pat, txt, allowSlash) <==> exists pieces :: Covers(pat, txt, allowSlash, pieces)
  {
    if Matches(pat, txt, allowSlash) {
      var pieces := CutFor(pat, txt, allowSlash);
    }
    if pieces :| Covers(pat, txt, allowSlash, pieces) {
      CoverMatches(pat, txt, allowSlash, pieces);
    }
  }

  lemma {:induction false} CutFor(pat: string, txt: string, allowSlash: bool) returns (pieces: seq<string>)
    requires Matches(pat, txt, allowSlash)
    ensures Covers(pat, txt, allowSlash, pieces)
    decreases |pat| + |txt|
  {
    if pat == [] {
      pieces := [];
    } else if pat[0] == '*' {
      if Matches(pat[1..], txt, allowSlash) {
        var rest := CutFor(pat[1..], txt, allowSlash);
        pieces := [""] + rest;
      } else {
        var rest := CutFor(pat, txt[1..], allowSlash);
        pieces := [[txt[0]] + rest[0]] + rest[1..];
        assert pieces[1..] == rest[1..];
        assert Concat(pieces) == [txt[0]] + (rest[0] + Concat(rest[1..]));
      }
    } else {
      var rest := CutFor(pat[1..], txt[1..], allowSlash);
      pieces := [[txt[0]]] + rest;
      assert pieces[1..] == rest;
    }
  }

  lemma {:induction false} CoverMatches(pat: string, txt: string, allowSlash: bool, pieces: seq<string>)
    requires Covers(pat, txt, allowSlash, pieces)
    ensures Matches(pat, txt, allowSlash)
    decreases |pat| + |txt|
  {
    if pat != [] {
      assert PieceOk(pat[0], pieces[0], allowSlash);
      if pat[0] == '*' && pieces[0] != [] {
        var fewer := [pieces[0][1..]] + pieces[1..];
        assert fewer[1..] == pieces[1..];
        assert txt == [pieces[0][0]] + Concat(fewer);
        assert Wild(pieces[0][0], allowSlash);
        forall i | 0 <= i < |fewer[0]| ensures Wild(fewer[0][i], allowSlash) {
          assert fewer[0][i] == pieces[0][i + 1];
        }
        CoverMatches(pat, txt[1..], allowSlash, fewer);
      } else {
        assert txt == pieces[0] + Concat(pieces[1..]);
        CoverMatches(pat[1..], txt[|pieces[0]|..], allowSlash, pieces[1..]);
      }
    }
  }

  // ----- Facts the matcher rests on -----

  /** The match problem that is left at pattern index `i` and text index `j`. */
  predicate From(pat: string, txt: string, allowSlash: bool, i: nat, j: nat)
    requires i <= |pat| && j <= |txt|
  {
    Matches(pat[i..], txt[j..], allowSlash)
  }

  /** `From`, unfolded once in terms of indices. */
  lemma FromStep(pat: string, txt: string, allowSlash: bool, i: nat, j: nat)
    requires i <= |pat| && j <= |txt|
    ensures i == |pat| ==> (From(pat, txt, allowSlash, i, j) <==> j == |txt|)
    ensures i < |pat| && pat[i] == '*' ==>
              (From(pat, txt, allowSlash, i, j) <==>
               From(pat, txt, allowSlash, i + 1, j)
               || (j < |txt| && Wild(txt[j], allowSlash) && From(pat, txt, allowSlash, i, j + 1)))
    ensures i < |pat| && pat[i] != '*' ==>
              (From(pat, txt, allowSlash, i, j) <==>
               j < |txt| && Fits(pat[i], txt[j], allowSlash) && From(pat, txt, allowSlash, i + 1, j + 1))
  {
    if i < |pat| {
      assert pat[i..][1..] == pat[i + 1..];
    }
    if j < |txt| {
      assert txt[j..][1..] == txt[j + 1..];
    }
  }

  /** The star-free block `pat[i..i + n]` fits the text at `j`. */
  ghost predicate BlockFits(pat: string, txt: string, allowSlash: bool, i: nat, n: nat, j: nat) {
    && i + n <= |pat|
    && j + n <= |txt|
    && (forall k :: i <= k < i + n ==> pat[k] != '*')
    && (forall q :: j <= q < j + n ==> Fits(pat[i + (q - j)], txt[q], allowSlash))
  }

  /** A match that starts with a star-free block must fit that block and then go on after it. */
  lemma {:induction false} SplitBlock(pat: string, txt: string, allowSlash: bool, i: nat, n: nat, j: nat)
    requires i + n <= |pat| && j <= |txt|
    requires forall k :: i <= k < i + n ==> pat[k] != '*'
    requires From(pat, txt, allowSlash, i, j)
    ensures BlockFits(pat, txt, allowSlash, i, n, j)
    ensures From(pat, txt, allowSlash, i + n, j + n)
    decreases n
  {
    if n > 0 {
      FromStep(pat, txt, allowSlash, i, j);
      SplitBlock(pat, txt, allowSlash, i + 1, n - 1, j + 1);
      forall q | j <= q < j + n ensures Fits(pat[i + (q - j)], txt[q], allowSlash) {
        if q > j {
          assert Fits(pat[i + 1 + (q - (j + 1))], txt[q], allowSlash);
        }
      }
    }
  }

  /** A star at `i` reaches any later position whose gap it may cover. */
  lemma {:induction false} StarSkips(pat: string, txt: string, allowSlash: bool, i: nat, j: nat, k: nat)
    requires i < |pat| && pat[i] == '*' && j <= k <= |txt|
    requires forall q :: j <= q < k ==> Wild(txt[q], allowSlash)
    requires From(pat, txt, allowSlash, i, k)
    ensures From(pat, txt, allowSlash, i, j)
    decreases k - j
  {
    if j < k {
      StarSkips(pat, txt, allowSlash, i, j + 1, k);
      FromStep(pat, txt, allowSlash, i, j);
    }
  }

  /** What a match at a star means: some stretch the star may cover, then the rest of the pattern. */
  lemma {:induction false} StarReach(pat: string, txt: string, allowSlash: bool, i: nat, j: nat) returns (k: nat)
    requires i < |pat| && pat[i] == '*' && j <= |txt|
    requires From(pat, txt, allowSlash, i, j)
    ensures j <= k <= |txt| && From(pat, txt, allowSlash, i + 1, k)
    ensures forall q :: j <= q < k ==> Wild(txt[q], allowSlash)
    decreases |txt| - j
  {
    FromStep(pat, txt, allowSlash, i, j);
    if From(pat, txt, allowSlash, i + 1, j) {
      k := j;
    } else {
      k := StarReach(pat, txt, allowSlash, i, j + 1);
    }
  }

  /** The no-slash half of the greedy argument. If a star-free block fits at `a` and fits again at a
      later `b` that a star can reach from `a`, then the block holds no slash: a first slash in it
      would sit at a smaller block offset of the later placement. */
  lemma ReplacedBlockHasNoSlash(pat: string, txt: string, i: nat, n: nat, a: nat, b: nat)
    requires a < b
    requires BlockFits(pat, txt, false, i, n, a)
    requires BlockFits(pat, txt, false, i, n, b)
    requires forall q :: a <= q < b ==> txt[q] != '/'
    ensures forall q :: b <= q < b + n ==> txt[q] != '/'
  {
    NoSlashUpTo(pat, txt, i, n, a, b, n);
  }

  lemma {:induction false} NoSlashUpTo(pat: string, txt: string, i: nat, n: nat, a: nat, b: nat, m: nat)
    requires a < b && m <= n
    requires BlockFits(pat, txt, false, i, n, a)
    requires BlockFits(pat, txt, false, i, n, b)
    requires forall q :: a <= q < b ==> txt[q] != '/'
    ensures forall q :: b <= q < b + m ==> txt[q] != '/'
    decreases m
  {
    if m > 0 {
      NoSlashUpTo(pat, txt, i, n, a, b, m - 1);
      var o := m - 1;
      assert Fits(pat[i + (b + o - b)], txt[b + o], false);
      assert Fits(pat[i + (a + o - a)], txt[a + o], false);
      assert txt[a + o] != '/';
    }
  }

  /** Once a later star is reached, an earlier star never needs to give more: if letting the star
      at `s` swallow at least one more character leads to a match, then so does staying at the
      star at `i`, with the block between them left where it is. */
  lemma EarlierStarNeverNeedsMore(pat: string, txt: string, allowSlash: bool, s: nat, a: nat, i: nat, j: nat)
    requires s < i < |pat| && pat[s] == '*' && pat[i] == '*'
    requires a < |txt| && Wild(txt[a], allowSlash)
    requires j == a + (i - s - 1)
    requires BlockFits(pat, txt, allowSlash, s + 1, i - s - 1, a)
    requires From(pat, txt, allowSlash, s, a + 1)
    ensures From(pat, txt, allowSlash, i, j)
  {
    var n := i - s - 1;
    var k := StarReach(pat, txt, allowSlash, s, a + 1);
    SplitBlock(pat, txt, allowSlash, s + 1, n, k);
    assert s + 1 + n == i;
    if !allowSlash {
      assert forall q :: a <= q < k ==> txt[q] != '/';
      ReplacedBlockHasNoSlash(pat, txt, s + 1, n, a, k);
      forall q | j <= q < k + n ensures Wild(txt[q], allowSlash) {
        assert txt[q] != '/';
      }
    }
    StarSkips(pat, txt, allowSlash, i, j, k + n);
  }

  /** At the end of the text an earlier star cannot help either: the block after it would run out. */
  lemma NoTextLeftForBlock(pat: string, txt: string, allowSlash: bool, s: nat, a: nat, i: nat)
    requires s < i <= |pat| && pat[s] == '*'
    requires a < |txt| && a + (i - s - 1) == |txt|
    requires forall k :: s + 1 <= k < i ==> pat[k] != '*'
    ensures !From(pat, txt, allowSlash, s, a + 1)
  {
    if From(pat, txt, allowSlash, s, a + 1) {
      var k := StarReach(pat, txt, allowSlash, s, a + 1);
      SplitBlock(pat, txt, allowSlash, s + 1, i - s - 1, k);
    }
  }

  // ----- The matcher -----

  /** "No star seen yet". */
  const NO_STAR := -1

  /** The alternative the matcher still holds back: the last star swallows one more character. */
  predicate HeldBack(pat: string, txt: string, allowSlash: bool, starPi: int, starTi: nat) {
    && 0 <= starPi < |pat| && starTi < |txt|
    && Wild(txt[starTi], allowSlash)
    && From(pat, txt, allowSlash, starPi, starTi + 1)
  }

  /** The matcher's state is exact: the block since the last star fits where it stands, and the text
      matches just when the rest matches from here or the held-back alternative does. */
  ghost predicate Exact(pat: string, txt: string, allowSlash: bool, pi: nat, ti: nat, starPi: int, starTi: nat) {
    && pi <= |pat| && ti <= |txt| && starTi <= ti
    && (starPi == NO_STAR || 0 <= starPi < pi)
    && (starPi != NO_STAR ==>
          && pat[starPi] == '*'
          && ti == starTi + (pi - starPi - 1)
          && BlockFits(pat, txt, allowSlash, starPi + 1, pi - starPi - 1, starTi))
    && (Matches(pat, txt, allowSlash) <==>
        From(pat, txt, allowSlash, pi, ti) || HeldBack(pat, txt, allowSlash, starPi, starTi))
  }

  lemma AdvanceKeepsExact(pat: string, txt: string, allowSlash: bool, pi: nat, ti: nat, starPi: int, starTi: nat)
    requires Exact(pat, txt, allowSlash, pi, ti, starPi, starTi)
    requires pi < |pat| && ti < |txt| && pat[pi] != '*' && Fits(pat[pi], txt[ti], allowSlash)
    ensures Exact(pat, txt, allowSlash, pi + 1, ti + 1, starPi, starTi)
  {
    FromStep(pat, txt, allowSlash, pi, ti);
  }

  lemma NewStarKeepsExact(pat: string, txt: string, allowSlash: bool, pi: nat, ti: nat, starPi: int, starTi: nat)
    requires Exact(pat, txt, allowSlash, pi, ti, starPi, starTi)
    requires pi < |pat| && ti < |txt| && pat[pi] == '*'
    ensures Exact(pat, txt, allowSlash, pi + 1, ti, pi, ti)
  {
    FromStep(pat, txt, allowSlash, pi, ti);
    if HeldBack(pat, txt, allowSlash, starPi, starTi) {
      EarlierStarNeverNeedsMore(pat, txt, allowSlash, starPi, starTi, pi, ti);
    }
  }

  lemma {:induction false} BacktrackKeepsExact(pat: string, txt: string, allowSlash: bool, pi: nat, ti: nat,
                                               starPi: int, starTi: nat)
    requires Exact(pat, txt, allowSlash, pi, ti, starPi, starTi)
    requires starPi != NO_STAR && ti < |txt| && !From(pat, txt, allowSlash, pi, ti)
    ensures Wild(txt[starTi], allowSlash) ==>
              Exact(pat, txt, allowSlash, starPi + 1, starTi + 1, starPi, starTi + 1)
    ensures !Wild(txt[starTi], allowSlash) ==> !Matches(pat, txt, allowSlash)
  {
    FromStep(pat, txt, allowSlash, starPi, starTi + 1);
  }

  lemma {:induction false} AtTextEnd(pat: string, txt: string, allowSlash: bool, pi: nat, starPi: int, starTi: nat)
    requires Exact(pat, txt, allowSlash, pi, |txt|, starPi, starTi)
    ensures Matches(pat, txt, allowSlash) <==> From(pat, txt, allowSlash, pi, |txt|)
  {
    if HeldBack(pat, txt, allowSlash, starPi, starTi) {
      NoTextLeftForBlock(pat, txt, allowSlash, starPi, starTi, pi);
    }
  }

  /** Two-pointer matching with backtracking to the last star only; without `allowSlash` it gives
      up as soon as that star would have to swallow a slash. It decides `Matches` exactly. */
  method WildcardMatchSegment(pat: string, txt: string, allowSlash: bool) returns (matched: bool)
    ensures matched <==> Matches(pat, txt, allowSlash)
  {
    var pi: nat, ti: nat := 0, 0;
    var starPi: int, starTi: nat := NO_STAR, 0;
    assert pat[0..] == pat && txt[0..] == txt;

    while ti < |txt|
      invariant Exact(pat, txt, allowSlash, pi, ti, starPi, starTi)
      decreases |pat| - starPi, |txt| - starTi, |txt| - ti
    {
      if pi < |pat| && pat[pi] == '?' && (allowSlash || txt[ti] != '/') {
        AdvanceKeepsExact(pat, txt, allowSlash, pi, ti, starPi, starTi);
        pi := pi + 1;
        ti := ti + 1;
      } else if pi < |pat| && pat[pi] != '*' && pat[pi] != '?' && pat[pi] == txt[ti] {
        AdvanceKeepsExact(pat, txt, allowSlash, pi, ti, starPi, starTi);
        pi := pi + 1;
        ti := ti + 1;
      } else if pi < |pat| && pat[pi] == '*' {
        NewStarKeepsExact(pat, txt, allowSlash, pi, ti, starPi, starTi);
        starPi := pi;
        starTi := ti;
        pi := pi + 1;
      } else if starPi != NO_STAR {
        // backtrack: the star swallows one more character
        FromStep(pat, txt, allowSlash, pi, ti);
        BacktrackKeepsExact(pat, txt, allowSlash, pi, ti, starPi, starTi);
        starTi := starTi + 1;
        if !allowSlash && starTi <= |txt| && starTi > 0 && txt[starTi - 1] == '/' {
          return false;
        }
        pi := starPi + 1;
        ti := starTi;
      } else {
        FromStep(pat, txt, allowSlash, pi, ti);
        return false;
      }
    }

    AtTextEnd(pat, txt, allowSlash, pi, starPi, starTi);
    while pi < |pat| && pat[pi] == '*'
      invariant pi <= |pat|
      invariant Matches(pat, txt, allowSlash) <==> From(pat, txt, allowSlash, pi, |txt|)
    {
      FromStep(pat, txt, allowSlash, pi, |txt|);
      pi := pi + 1;
    }
    FromStep(pat, txt, allowSlash, pi, |txt|);
    return pi == |pat|;
  }
}
