/**
 * The Nested STAR unit tests' tree (star_test.go): eleven measurements of
 * three attributes each, the counts of the trie they build, and its
 * aggregation with a threshold of five.
 */
module StarExamples {
  import opened Wrappers
  import opened Folds
  import opened Star

  /** The measurements the tests add to the root, in order. */
  const Reports: seq<seq<string>> := [W, W, W, W, W, L, L, ["US", "release", "macos"], ["US", "nightly", "windows"], ["US", "beta", "windows"], ["CA", "release", "windows"]]
  const W: seq<string> := ["US", "release", "windows"]
  const L: seq<string> := ["US", "release", "linux"]

  /** A node holding a single value. */
  function Single(v: string, num: int, next: Option<Trie>): Trie
  {
    Trie(map[v := Entry(num, next)])
  }

  /** A node holding one leaf value, reached once. */
  function Leaf(v: string): Trie
  {
    Single(v, 1, None)
  }

  /** The trie after k adds of US, release, windows. */
  function Windows(k: int): Trie
  {
    Single("US", k, Some(Single("release", k, Some(Single("windows", k, None)))))
  }

  /** The trie after the five windows and l adds of US, release, linux. */
  function Linux(l: int): Trie
  {
    Single("US", 5 + l, Some(Single("release", 5 + l, Some(Trie(map["windows" := Entry(5, None), "linux" := Entry(l, None)])))))
  }

  const USRelease := Trie(map["windows" := Entry(5, None), "linux" := Entry(2, None), "macos" := Entry(1, None)])
  const US := Trie(map["release" := Entry(8, Some(USRelease)), "nightly" := Entry(1, Some(Leaf("windows"))),
                       "beta" := Entry(1, Some(Leaf("windows")))])
  const CA := Single("release", 1, Some(Leaf("windows")))
  /** The tests' tree. */
  const Root := Trie(map["US" := Entry(10, Some(US)), "CA" := Entry(1, Some(CA))])

  /** Adding a sequence of two or more values: the first is counted, the rest goes one level down. */
  lemma AddInner(t: Trie, v: string, rest: seq<string>)
    requires |rest| > 0
    ensures TrieAdd(t, [v] + rest) ==
      Trie(t.entries[v := Entry(CountOf(t)(v) + 1, Some(TrieAdd(ChildOrEmpty(t, v), rest)))])
  {
    var s := [v] + rest;
    assert s[0] == v && s[1..] == rest;
    var r := TrieAdd(t, s);
    var m := t.entries[v := Entry(CountOf(t)(v) + 1, Some(TrieAdd(ChildOrEmpty(t, v), rest)))];
    TrieAddChild(t, s);
    assert r.entries[v] == m[v];
    forall k | k in r.entries
      ensures k in m && r.entries[k] == m[k]
    {
    }
    assert r.entries == m;
  }

  /** Adding a sequence of one value: it is counted, its next node kept. */
  lemma AddLast(t: Trie, v: string)
    ensures TrieAdd(t, [v]) ==
      Trie(t.entries[v := Entry(CountOf(t)(v) + 1, if v in t.entries then t.entries[v].next else None)])
  {
    var r := TrieAdd(t, [v]);
    var m := t.entries[v := Entry(CountOf(t)(v) + 1, if v in t.entries then t.entries[v].next else None)];
    assert r.entries[v] == m[v];
    forall k | k in r.entries
      ensures k in m && r.entries[k] == m[k]
    {
    }
    assert r.entries == m;
  }

  /** Adding a single leaf value again counts it once more. */
  lemma AddLeafAgain(v: string, n: int)
    ensures TrieAdd(Single(v, n, None), [v]) == Single(v, n + 1, None)
  {
  }

  /** Adding along an existing single value goes one level down. */
  lemma AddAlong(v: string, n: int, c: Trie, rest: seq<string>)
    requires |rest| > 0
    ensures TrieAdd(Single(v, n, Some(c)), [v] + rest) == Single(v, n + 1, Some(TrieAdd(c, rest)))
  {
    assert ([v] + rest)[1..] == rest;
  }

  lemma WindowsStep(j: int)
    ensures TrieAdd(Windows(j), W) == Windows(j + 1)
  {
    AddLeafAgain("windows", j);
    AddAlong("release", j, Single("windows", j, None), ["windows"]);
    assert W == ["US"] + ["release", "windows"];
    AddAlong("US", j, Single("release", j, Some(Single("windows", j, None))), ["release", "windows"]);
  }

  lemma FirstWindows()
    ensures TrieAdd(EmptyTrie, W) == Windows(1)
  {
  }

  const Linux1Leaves := Trie(map["windows" := Entry(5, None), "linux" := Entry(1, None)])
  const Linux2Leaves := Trie(map["windows" := Entry(5, None), "linux" := Entry(2, None)])

  lemma FirstLinux()
    ensures TrieAdd(Windows(5), ["US", "release", "linux"]) == Linux(1)
  {
    AddLast(Single("windows", 5, None), "linux");
    AddAlong("release", 5, Single("windows", 5, None), ["linux"]);
    assert ["US", "release", "linux"] == ["US"] + ["release", "linux"];
    AddAlong("US", 5, Single("release", 5, Some(Single("windows", 5, None))), ["release", "linux"]);
  }

  lemma SecondLinux()
    ensures TrieAdd(Linux(1), ["US", "release", "linux"]) == Linux(2)
  {
    AddLast(Linux1Leaves, "linux");
    assert Linux1Leaves.entries["linux" := Entry(2, None)] == Linux2Leaves.entries;
    AddAlong("release", 6, Linux1Leaves, ["linux"]);
    assert ["US", "release", "linux"] == ["US"] + ["release", "linux"];
    AddAlong("US", 6, Single("release", 6, Some(Linux1Leaves)), ["release", "linux"]);
  }

  const Release8 := Single("release", 8, Some(USRelease))
  const Tree8 := Single("US", 8, Some(Release8))
  const US9 := Trie(map["release" := Entry(8, Some(USRelease)), "nightly" := Entry(1, Some(Leaf("windows")))])
  const Tree9 := Single("US", 9, Some(US9))
  const Tree10 := Single("US", 10, Some(US))

  lemma MacosStep()
    ensures TrieAdd(Linux(2), ["US", "release", "macos"]) == Tree8
  {
    AddLast(Linux2Leaves, "macos");
    AddAlong("release", 7, Linux2Leaves, ["macos"]);
    assert ["US", "release", "macos"] == ["US"] + ["release", "macos"];
    AddAlong("US", 7, Single("release", 7, Some(Linux2Leaves)), ["release", "macos"]);
  }

  lemma NightlyStep()
    ensures TrieAdd(Tree8, ["US", "nightly", "windows"]) == Tree9
  {
    AddLast(EmptyTrie, "windows");
    AddInner(Release8, "nightly", ["windows"]);
    assert ["US", "nightly", "windows"] == ["US"] + ["nightly", "windows"];
    AddAlong("US", 8, Release8, ["nightly", "windows"]);
  }

  lemma BetaStep()
    ensures TrieAdd(Tree9, ["US", "beta", "windows"]) == Tree10
  {
    AddLast(EmptyTrie, "windows");
    AddInner(US9, "beta", ["windows"]);
    assert ["US", "beta", "windows"] == ["US"] + ["beta", "windows"];
    AddAlong("US", 9, US9, ["beta", "windows"]);
  }

  lemma CanadaStep()
    ensures TrieAdd(Tree10, ["CA", "release", "windows"]) == Root
  {
    AddLast(EmptyTrie, "windows");
    AddInner(EmptyTrie, "release", ["windows"]);
    assert ["CA", "release", "windows"] == ["CA"] + ["release", "windows"];
    AddInner(Tree10, "CA", ["release", "windows"]);
  }

  /** Adding the measurements from index i on: the one at i, then the rest. */
  lemma AddFrom(t: Trie, ss: seq<seq<string>>, i: nat)
    requires i < |ss| && forall j :: 0 <= j < |ss| ==> |ss[j]| > 0
    ensures TrieAddAll(t, ss[i..]) == TrieAddAll(TrieAdd(t, ss[i]), ss[i + 1..])
  {
    assert ss[i..][0] == ss[i] && ss[i..][1..] == ss[i + 1..];
  }

  /** The measurements the tests add, in order, as a condition on a sequence. */
  ghost predicate InTestOrder(ss: seq<seq<string>>)
  {
    && |ss| == 11 && ss[0] == ss[1] == ss[2] == ss[3] == ss[4] == W && ss[5] == ss[6] == L
    && ss[7] == ["US", "release", "macos"] && ss[8] == ["US", "nightly", "windows"]
    && ss[9] == ["US", "beta", "windows"] && ss[10] == ["CA", "release", "windows"]
  }

  lemma InTestOrderNonEmpty(ss: seq<seq<string>>)
    requires InTestOrder(ss)
    ensures forall j :: 0 <= j < |ss| ==> |ss[j]| > 0
  {
    assert forall j :: 0 <= j < |ss| ==> |ss[j]| == 3;
  }

  /** The five windows measurements. */
  lemma BuildWindows(ss: seq<seq<string>>)
    requires InTestOrder(ss)
    requires forall j :: 0 <= j < |ss| ==> |ss[j]| > 0
    ensures TrieAddAll(EmptyTrie, ss) == TrieAddAll(Windows(5), ss[5..])
  {
    assert ss[0..] == ss;
    FirstWindows();
    AddFrom(EmptyTrie, ss, 0);
    for k := 1 to 5
      invariant TrieAddAll(EmptyTrie, ss) == TrieAddAll(Windows(k), ss[k..])
    {
      WindowsStep(k);
      AddFrom(Windows(k), ss, k);
    }
  }

  /** The six measurements after them. */
  lemma BuildRest(ss: seq<seq<string>>)
    requires InTestOrder(ss)
    requires forall j :: 0 <= j < |ss| ==> |ss[j]| > 0
    ensures TrieAddAll(Windows(5), ss[5..]) == Root
  {
    FirstLinux();
    AddFrom(Windows(5), ss, 5);
    SecondLinux();
    AddFrom(Linux(1), ss, 6);
    MacosStep();
    AddFrom(Linux(2), ss, 7);
    NightlyStep();
    AddFrom(Tree8, ss, 8);
    BetaStep();
    AddFrom(Tree9, ss, 9);
    CanadaStep();
    AddFrom(Tree10, ss, 10);
    assert ss[11..] == [];
  }

  /** The tests' reports build the tests' tree. */
  lemma ReportsBuildRoot()
    ensures forall j :: 0 <= j < |Reports| ==> |Reports[j]| > 0
    ensures TrieAddAll(EmptyTrie, Reports) == Root
  {
    InTestOrderNonEmpty(Reports);
    BuildWindows(Reports);
    BuildRest(Reports);
  }

  // ---------------------------------------------------------------------------
  // The counts of the tests' tree

  lemma SumOne<K>(a: K, f: K -> int)
    ensures Sum({a}, f) == f(a)
  {
    SumRemove({a}, f, a);
    assert {a} - {a} == {};
  }

  lemma SumTwo<K>(a: K, b: K, f: K -> int)
    requires a != b
    ensures Sum({a, b}, f) == f(a) + f(b)
  {
    SumRemove({a, b}, f, a);
    assert {a, b} - {a} == {b};
    SumOne(b, f);
  }

  lemma SumThree<K>(a: K, b: K, c: K, f: K -> int)
    requires a != b && a != c && b != c
    ensures Sum({a, b, c}, f) == f(a) + f(b) + f(c)
  {
    SumRemove({a, b, c}, f, a);
    assert {a, b, c} - {a} == {b, c};
    SumTwo(b, c, f);
  }

  /** The nodes an entry leads to. */
  ghost function EntryNodes(e: Entry): int
  {
    if e.next.Some? then Nodes(e.next.value) else 0
  }

  /** The leaf tags an entry stands for: itself, or those below it. */
  ghost function EntryLeafTags(e: Entry): int
  {
    if e.next.Some? then LeafTags(e.next.value) else 1
  }

  lemma OneValue(a: string, ea: Entry)
    ensures Nodes(Trie(map[a := ea])) == 1 + EntryNodes(ea)
    ensures LeafTags(Trie(map[a := ea])) == EntryLeafTags(ea)
  {
    var t := Trie(map[a := ea]);
    assert t.entries.Keys == {a};
    SumOne(a, ChildNodesOf(t));
    SumOne(a, LeafTagsOf(t));
  }

  lemma TwoValues(a: string, ea: Entry, b: string, eb: Entry)
    requires a != b
    ensures Nodes(Trie(map[a := ea, b := eb])) == 1 + EntryNodes(ea) + EntryNodes(eb)
    ensures LeafTags(Trie(map[a := ea, b := eb])) == EntryLeafTags(ea) + EntryLeafTags(eb)
  {
    var t := Trie(map[a := ea, b := eb]);
    assert t.entries.Keys == {a, b};
    SumTwo(a, b, ChildNodesOf(t));
    SumTwo(a, b, LeafTagsOf(t));
  }

  lemma ThreeValues(a: string, ea: Entry, b: string, eb: Entry, c: string, ec: Entry)
    requires a != b && a != c && b != c
    ensures Nodes(Trie(map[a := ea, b := eb, c := ec])) == 1 + EntryNodes(ea) + EntryNodes(eb) + EntryNodes(ec)
    ensures LeafTags(Trie(map[a := ea, b := eb, c := ec])) == EntryLeafTags(ea) + EntryLeafTags(eb) + EntryLeafTags(ec)
  {
    var t := Trie(map[a := ea, b := eb, c := ec]);
    assert t.entries.Keys == {a, b, c};
    SumThree(a, b, c, ChildNodesOf(t));
    SumThree(a, b, c, LeafTagsOf(t));
  }

  lemma LeafCounts()
    ensures Nodes(Leaf("windows")) == 1 && LeafTags(Leaf("windows")) == 1
  {
    OneValue("windows", Entry(1, None));
  }

  lemma USReleaseCounts()
    ensures Nodes(USRelease) == 1 && LeafTags(USRelease) == 3
  {
    ThreeValues("windows", Entry(5, None), "linux", Entry(2, None), "macos", Entry(1, None));
  }

  lemma ReleaseEntryCounts()
    ensures EntryNodes(Entry(8, Some(USRelease))) == 1 && EntryLeafTags(Entry(8, Some(USRelease))) == 3
  {
    USReleaseCounts();
  }

  lemma LeafEntryCounts()
    ensures EntryNodes(Entry(1, Some(Leaf("windows")))) == 1 && EntryLeafTags(Entry(1, Some(Leaf("windows")))) == 1
  {
    LeafCounts();
  }

  lemma USCounts()
    ensures Nodes(US) == 4 && LeafTags(US) == 5
  {
    var w := Leaf("windows");
    var release, other := Entry(8, Some(USRelease)), Entry(1, Some(w));
    ReleaseEntryCounts();
    LeafEntryCounts();
    USKeysDistinct();
    ThreeValues("release", release, "nightly", other, "beta", other);
  }

  lemma CACounts()
    ensures Nodes(CA) == 2 && LeafTags(CA) == 1
  {
    LeafCounts();
    OneValue("release", Entry(1, Some(Leaf("windows"))));
  }

  lemma RootCounts()
    ensures Nodes(Root) == 7 && LeafTags(Root) == 6
  {
    USCounts();
    CACounts();
    TwoValues("US", Entry(10, Some(US)), "CA", Entry(1, Some(CA)));
  }

  /**
   * The tree of the tests' measurements has 7 nodes, 12 tags and 6 leaf
   * tags, the numbers star_test.go expects of NumNodes, NumTags and
   * NumLeafTags.
   */
  lemma TestTreeCounts()
    ensures forall j :: 0 <= j < |Reports| ==> |Reports[j]| > 0
    ensures Nodes(TrieAddAll(EmptyTrie, Reports)) == 7
    ensures Tags(TrieAddAll(EmptyTrie, Reports)) == 12
    ensures LeafTags(TrieAddAll(EmptyTrie, Reports)) == 6
  {
    ReportsBuildRoot();
    RootCounts();
    TagsLeavesNodes(Root);
  }

  // ---------------------------------------------------------------------------
  // The aggregation of the tests' tree

  /** The contribution of one entry at a depth, its child aggregated one level down. */
  ghost function EntryAgg(e: Entry, maxDepth: int, threshold: int, depth: int): Agg
  {
    Unlocked(e, maxDepth, threshold, depth, if e.next.Some? then AggSpec(e.next.value, maxDepth, threshold, depth + 1) else NoAgg)
  }

  /** A fold of the contributions that takes k first. */
  lemma AggTakeFirst(keys: set<string>, f: string -> Agg, k: string)
    requires k in keys
    ensures Fold(keys, f, NoAgg, AggPlus) == AggPlus(f(k), Fold(keys - {k}, f, NoAgg, AggPlus))
  {
    AggPlusIsCommutativeMonoid();
    FoldRemove(keys, f, NoAgg, AggPlus, k);
  }

  /** The contribution of a value present in the node is that of its entry. */
  lemma UnlockedAtEntry(t: Trie, k: string, maxDepth: int, threshold: int, depth: int)
    requires k in t.entries
    ensures UnlockedOf(t, maxDepth, threshold, depth)(k) == EntryAgg(t.entries[k], maxDepth, threshold, depth)
  {
    var e := t.entries[k];
    assert UnlockedOf(t, maxDepth, threshold, depth)(k) == UnlockedAt(t, k, maxDepth, threshold, depth);
    assert SubAgg(t, k, maxDepth, threshold, depth) == if e.next.Some? then AggSpec(e.next.value, maxDepth, threshold, depth + 1) else NoAgg;
  }

  lemma AggOneValue(a: string, ea: Entry, maxDepth: int, threshold: int, depth: int)
    ensures AggSpec(Trie(map[a := ea]), maxDepth, threshold, depth) == AggPlus(EntryAgg(ea, maxDepth, threshold, depth), NoAgg)
  {
    var t := Trie(map[a := ea]);
    var f := UnlockedOf(t, maxDepth, threshold, depth);
    assert t.entries.Keys == {a};
    AggTakeFirst({a}, f, a);
    assert {a} - {a} == {};
    UnlockedAtEntry(t, a, maxDepth, threshold, depth);
  }

  lemma AggTwoValues(a: string, ea: Entry, b: string, eb: Entry, maxDepth: int, threshold: int, depth: int)
    requires a != b
    ensures AggSpec(Trie(map[a := ea, b := eb]), maxDepth, threshold, depth) ==
      AggPlus(EntryAgg(ea, maxDepth, threshold, depth), AggPlus(EntryAgg(eb, maxDepth, threshold, depth), NoAgg))
  {
    var t := Trie(map[a := ea, b := eb]);
    var f := UnlockedOf(t, maxDepth, threshold, depth);
    assert t.entries.Keys == {a, b};
    AggTakeFirst({a, b}, f, a);
    assert {a, b} - {a} == {b};
    AggTakeFirst({b}, f, b);
    assert {b} - {b} == {};
    UnlockedAtEntry(t, a, maxDepth, threshold, depth);
    UnlockedAtEntry(t, b, maxDepth, threshold, depth);
  }

  lemma AggThreeValues(a: string, ea: Entry, b: string, eb: Entry, c: string, ec: Entry, maxDepth: int, threshold: int, depth: int)
    requires a != b && a != c && b != c
    ensures AggSpec(Trie(map[a := ea, b := eb, c := ec]), maxDepth, threshold, depth) ==
      AggPlus(EntryAgg(ea, maxDepth, threshold, depth), AggPlus(EntryAgg(eb, maxDepth, threshold, depth),
        AggPlus(EntryAgg(ec, maxDepth, threshold, depth), NoAgg)))
  {
    var t := Trie(map[a := ea, b := eb, c := ec]);
    var f := UnlockedOf(t, maxDepth, threshold, depth);
    assert t.entries.Keys == {a, b, c};
    AggTakeFirst({a, b, c}, f, a);
    assert {a, b, c} - {a} == {b, c};
    AggTakeFirst({b, c}, f, b);
    assert {b, c} - {b} == {c};
    AggTakeFirst({c}, f, c);
    assert {c} - {c} == {};
    UnlockedAtEntry(t, a, maxDepth, threshold, depth);
    UnlockedAtEntry(t, b, maxDepth, threshold, depth);
    UnlockedAtEntry(t, c, maxDepth, threshold, depth);
  }

  /** At the last depth, only the five windows measurements meet the threshold: five full ones. */
  lemma USReleaseAgg()
    ensures AggSpec(USRelease, 3, 5, 3) == Agg(5, 0, 0, map[])
  {
    AggThreeValues("windows", Entry(5, None), "linux", Entry(2, None), "macos", Entry(1, None), 3, 5, 3);
    AggPlusNothing(NoAgg);
    AggPlusNothing(Agg(5, 0, 0, map[]));
  }

  /** A value below the threshold contributes nothing. */
  lemma BelowThreshold(e: Entry, maxDepth: int, threshold: int, depth: int)
    requires e.num < threshold
    ensures EntryAgg(e, maxDepth, threshold, depth) == NoAgg
  {
  }

  lemma USKeysDistinct()
    ensures "release" != "nightly" && "release" != "beta" && "nightly" != "beta"
  {
    assert "release"[0] == 'r' && "nightly"[0] == 'n' && "beta"[0] == 'b';
  }

  lemma ReleaseAgg()
    ensures EntryAgg(Entry(8, Some(USRelease)), 3, 5, 2) == Agg(5, 0, 3, map[2 := 3])
  {
    USReleaseAgg();
    MergeAddUnitCommutative(map[2 := 3], map[2 := 3]);
  }

  /** Below US, release meets the threshold and unlocks three measurements at length 2. */
  lemma USAgg()
    ensures AggSpec(US, 3, 5, 2) == Agg(5, 0, 3, map[2 := 3])
  {
    var w := Leaf("windows");
    var release, other := Entry(8, Some(USRelease)), Entry(1, Some(w));
    ReleaseAgg();
    BelowThreshold(other, 3, 5, 2);
    USKeysDistinct();
    AggThreeValues("release", release, "nightly", other, "beta", other, 3, 5, 2);
    AggPlusNothing(NoAgg);
    AggPlusNothing(Agg(5, 0, 3, map[2 := 3]));
  }

  /**
   * The root: US unlocks two more measurements at length 1, and all five
   * of its measurements that are not fully unlocked count as partial; CA
   * stays below the threshold.
   */
  lemma RootAgg()
    ensures AggSpec(Root, 3, 5, RootDepth) == Agg(5, 5, 5, map[1 := 2, 2 := 3])
  {
    var us, ca := Entry(10, Some(US)), Entry(1, Some(CA));
    var lens := MergeAdd(map[2 := 3], map[1 := 2]);
    assert lens == map[1 := 2, 2 := 3];
    assert EntryAgg(us, 3, 5, 1) == Agg(5, 5, 5, map[1 := 2, 2 := 3]) by {
      USAgg();
    }
    AggTwoValues("US", us, "CA", ca, 3, 5, 1);
    AggPlusNothing(NoAgg);
    AggPlusNothing(Agg(5, 5, 5, map[1 := 2, 2 := 3]));
  }

  /**
   * With three attributes and a threshold of five, the tests' tree
   * aggregates to 5 full and 5 partial measurements, 2 of them unlocked
   * at length 1 and 3 at length 2, as star_test.go expects.
   */
  lemma TestTreeAggregate()
    ensures forall j :: 0 <= j < |Reports| ==> |Reports[j]| > 0
    ensures AggSpec(TrieAddAll(EmptyTrie, Reports), 3, 5, RootDepth) == Agg(5, 5, 5, map[1 := 2, 2 := 3])
  {
    ReportsBuildRoot();
    RootAgg();
  }
}
