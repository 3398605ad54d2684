/** Include and exclude patterns, and why filtering the listings is filtering the plan. */
module SyncFilters {
  import opened Wrappers
  import opened SyncTypes
  import opened PathOrder
  import opened SyncPlanner
  import GlobLaws
  import GlobPattern

  /** The include and exclude patterns, one per line of the filter form. */
  datatype PatternFilter = PatternFilter(includes: seq<string>, excludes: seq<string>)

  predicate AnyMatches(patterns: seq<string>, path: string) {
    exists pattern :: pattern in patterns && GlobPattern.GlobMatches(pattern, path)
  }

  /** A path passes when some include pattern takes it, or there are none, and no exclude does. */
  predicate Passes(filter: PatternFilter, path: string) {
    && (filter.includes == [] || AnyMatches(filter.includes, path))
    && !AnyMatches(filter.excludes, path)
  }

  method AnyPatternMatches(patterns: seq<string>, path: string) returns (any: bool)
    ensures any <==> AnyMatches(patterns, path)
  {
    for i := 0 to |patterns|
      invariant !AnyMatches(patterns[..i], path)
    {
      var matched := GlobPattern.WildcardMatch(patterns[i], path);
      if matched {
        assert patterns[i] in patterns;
        return true;
      }
      assert patterns[..i + 1] == patterns[..i] + [patterns[i]];
    }
    assert patterns[..|patterns|] == patterns;
    return false;
  }

  method ApplyPatternFilter(filter: PatternFilter, path: string) returns (passes: bool)
    ensures passes <==> Passes(filter, path)
  {
    if filter.includes != [] {
      var included := AnyPatternMatches(filter.includes, path);
      if !included {
        return false;
      }
    }
    var excluded := AnyPatternMatches(filter.excludes, path);
    return !excluded;
  }

  predicate AllLiteral(patterns: seq<string>) {
    forall pattern :: pattern in patterns ==> GlobLaws.IsLiteral(pattern)
  }

  predicate AnyOccurs(words: seq<string>, path: string) {
    exists word :: word in words && GlobLaws.Occurs(word, path)
  }

  /** With plain words as patterns a path passes exactly when one of the words to include occurs in it, if there
      are any, and none of the words to exclude does; in either case of their letters. */
  lemma WordsPassIff(filter: PatternFilter, path: string)
    requires AllLiteral(filter.includes) && AllLiteral(filter.excludes)
    ensures Passes(filter, path) <==>
            && (filter.includes != [] ==> AnyOccurs(filter.includes, path))
            && !AnyOccurs(filter.excludes, path)
  {
    forall word | word in filter.includes || word in filter.excludes
      ensures GlobPattern.GlobMatches(word, path) <==> GlobLaws.Occurs(word, path)
    {
      GlobLaws.LiteralAcceptsIff(word, path);
    }
  }

  /** One more pattern to exclude takes away exactly the paths it matches; one more to include, where there are
      some, adds exactly those it matches and nothing excludes; and with no pattern everything passes. */
  lemma OneMorePattern(filter: PatternFilter, pattern: string, path: string)
    ensures Passes(filter.(excludes := filter.excludes + [pattern]), path)
            <==> Passes(filter, path) && !GlobPattern.GlobMatches(pattern, path)
    ensures filter.includes != [] ==>
              (Passes(filter.(includes := filter.includes + [pattern]), path)
               <==> Passes(filter, path)
                    || (GlobPattern.GlobMatches(pattern, path) && Passes(filter.(includes := []), path)))
    ensures Passes(PatternFilter([], []), path)
    ensures Passes(PatternFilter([pattern], []), path) <==> GlobPattern.GlobMatches(pattern, path)
  {
    OneMoreMatches(filter.excludes, pattern, path);
    OneMoreMatches(filter.includes, pattern, path);
    OneMoreMatches([], pattern, path);
    assert [] + [pattern] == [pattern];
  }

  lemma OneMoreMatches(patterns: seq<string>, pattern: string, path: string)
    ensures AnyMatches(patterns + [pattern], path)
            <==> AnyMatches(patterns, path) || GlobPattern.GlobMatches(pattern, path)
  {
    assert forall p :: p in patterns + [pattern] <==> p in patterns || p == pattern;
  }

  /** A listing with the objects that do not pass left out. */
  function FilterListing(filter: PatternFilter, objects: seq<SyncObject>): seq<SyncObject> {
    if objects == [] then []
    else
      var last := objects[|objects| - 1];
      FilterListing(filter, objects[..|objects| - 1]) + if Passes(filter, last.relativePath) then [last] else []
  }

  function FilterMap(filter: PatternFilter, objects: map<string, SyncObject>): map<string, SyncObject> {
    map p | p in objects && Passes(filter, p) :: objects[p]
  }

  lemma {:induction false} FilterThenIndex(filter: PatternFilter, objects: seq<SyncObject>)
    ensures ByPath(FilterListing(filter, objects)) == FilterMap(filter, ByPath(objects))
  {
    if objects != [] {
      var front, last := objects[..|objects| - 1], objects[|objects| - 1];
      FilterThenIndex(filter, front);
      var kept := FilterListing(filter, front);
      if Passes(filter, last.relativePath) {
        assert (kept + [last])[..|kept|] == kept;
      } else {
        assert kept + [] == kept;
      }
    }
  }

  /** The plan items whose path passes. */
  function FilterItems(filter: PatternFilter, items: seq<PlanItem>): seq<PlanItem> {
    if items == [] then []
    else (if Passes(filter, items[0].relativePath) then [items[0]] else []) + FilterItems(filter, items[1..])
  }

  /** Planning two filtered listings gives the full plan restricted to the passing paths: nothing
      that passes is decided differently, and a path that does not pass is in no item at all. */
  lemma {:induction false} FilteringCommutesWithPlanning(filter: PatternFilter, source: seq<SyncObject>,
                                                         destination: seq<SyncObject>, mode: SyncMode,
                                                         policy: SyncPolicy, compare: CompareMode)
    ensures PlanItems(ByPath(FilterListing(filter, source)), ByPath(FilterListing(filter, destination)),
                      mode, policy, compare)
            == FilterItems(filter, PlanItems(ByPath(source), ByPath(destination), mode, policy, compare))
  {
    FilterThenIndex(filter, source);
    FilterThenIndex(filter, destination);
    var s, d := ByPath(source), ByPath(destination);
    FilteredPaths(filter, s, d);
    var paths := AllPaths(s, d);
    SortedPathsIsSorted(s.Keys + d.Keys);
    assert forall p :: p in paths ==> p in Elements(paths);
    FilterItemsFor(filter, paths, s, d, mode, policy, compare);
  }

  lemma FilteredPaths(filter: PatternFilter, s: map<string, SyncObject>, d: map<string, SyncObject>)
    ensures AllPaths(FilterMap(filter, s), FilterMap(filter, d)) == Keep(AllPaths(s, d), p => Passes(filter, p))
  {
    var keep := p => Passes(filter, p);
    assert FilterMap(filter, s).Keys + FilterMap(filter, d).Keys == set p | p in s.Keys + d.Keys && keep(p);
    SortedPathsOfKept(s.Keys + d.Keys, keep);
  }

  predicate Known(paths: seq<string>, s: map<string, SyncObject>, d: map<string, SyncObject>) {
    forall p :: p in paths ==> p in s || p in d
  }

  lemma ItemsForCons(paths: seq<string>, s: map<string, SyncObject>, d: map<string, SyncObject>,
                     mode: SyncMode, policy: SyncPolicy, compare: CompareMode)
    requires paths != [] && Known(paths, s, d)
    ensures paths[0] in s || paths[0] in d
    ensures Known(paths[1..], s, d)
    ensures ItemsFor(paths, s, d, mode, policy, compare)
            == [ItemFor(paths[0], s, d, mode, policy, compare)] + ItemsFor(paths[1..], s, d, mode, policy, compare)
  {
    assert paths[0] in paths;
  }

  /** A path that passes has the same item in the filtered listings. */
  lemma SameItem(filter: PatternFilter, path: string, s: map<string, SyncObject>, d: map<string, SyncObject>,
                 mode: SyncMode, policy: SyncPolicy, compare: CompareMode)
    requires (path in s || path in d) && Passes(filter, path)
    ensures path in FilterMap(filter, s) || path in FilterMap(filter, d)
    ensures ItemFor(path, FilterMap(filter, s), FilterMap(filter, d), mode, policy, compare)
            == ItemFor(path, s, d, mode, policy, compare)
  {
  }

  lemma {:induction false} FilterItemsFor(filter: PatternFilter, paths: seq<string>,
                                          s: map<string, SyncObject>, d: map<string, SyncObject>,
                                          mode: SyncMode, policy: SyncPolicy, compare: CompareMode)
    requires Known(paths, s, d)
    ensures var kept := Keep(paths, p => Passes(filter, p));
            var fs, fd := FilterMap(filter, s), FilterMap(filter, d);
            && Known(kept, fs, fd)
            && ItemsFor(kept, fs, fd, mode, policy, compare)
               == FilterItems(filter, ItemsFor(paths, s, d, mode, policy, compare))
  {
    if paths != [] {
      ItemsForCons(paths, s, d, mode, policy, compare);
      var head := ItemFor(paths[0], s, d, mode, policy, compare);
      var rest := ItemsFor(paths[1..], s, d, mode, policy, compare);
      assert ([head] + rest)[1..] == rest;
      var kept, keptRest := Keep(paths, p => Passes(filter, p)), Keep(paths[1..], p => Passes(filter, p));
      FilterItemsFor(filter, paths[1..], s, d, mode, policy, compare);
      if Passes(filter, paths[0]) {
        SameItem(filter, paths[0], s, d, mode, policy, compare);
        assert kept == [paths[0]] + keptRest && kept[1..] == keptRest;
        ItemsForCons(kept, FilterMap(filter, s), FilterMap(filter, d), mode, policy, compare);
      } else {
        assert kept == [] + keptRest == keptRest;
        assert FilterItems(filter, [head] + rest) == [] + FilterItems(filter, rest) == FilterItems(filter, rest);
      }
    }
  }

  /** For instance a word to exclude keeps every path it occurs in out of the plan, on both sides. */
  lemma {:induction false} ExcludedWordIsNeverPlanned(filter: PatternFilter, word: string, source: seq<SyncObject>,
                                                      destination: seq<SyncObject>, mode: SyncMode,
                                                      policy: SyncPolicy, compare: CompareMode, item: PlanItem)
    requires word in filter.excludes && GlobLaws.IsLiteral(word)
    requires item in PlanItems(ByPath(FilterListing(filter, source)), ByPath(FilterListing(filter, destination)),
                               mode, policy, compare)
    ensures !GlobLaws.Occurs(word, item.relativePath)
  {
    FilteringCommutesWithPlanning(filter, source, destination, mode, policy, compare);
    ExcludedIsNeverPlanned(filter, PlanItems(ByPath(source), ByPath(destination), mode, policy, compare));
    GlobLaws.LiteralAcceptsIff(word, item.relativePath);
  }

  /** So a path that does not pass is never transferred and never deleted. */
  lemma {:induction false} ExcludedIsNeverPlanned(filter: PatternFilter, items: seq<PlanItem>)
    ensures forall k :: 0 <= k < |FilterItems(filter, items)| ==>
              Passes(filter, FilterItems(filter, items)[k].relativePath)
    ensures forall item :: item in FilterItems(filter, items) <==>
                           item in items && Passes(filter, item.relativePath)
  {
    if items != [] {
      ExcludedIsNeverPlanned(filter, items[1..]);
      assert items == [items[0]] + items[1..];
    }
  }
}
