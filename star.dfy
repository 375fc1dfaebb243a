/**
 * The Nested STAR simulation (star.go).
 *
 * Measurements, each an ordered list of attribute values, are added to a
 * counting trie: every node maps an attribute value to the number of
 * measurements that carried it at this position after the same prefix, and
 * to the node for the next position.  Aggregation walks the trie and counts
 * how many measurements a k-anonymity threshold unlocks completely (all
 * attributes) or partially (a proper, non-empty prefix of them).
 *
 * `Trie` is the value a node stands for; the class `Node` is the pointer
 * structure the Go code mutates, tied to its `Trie` by `Node.Valid()`.
 */
module Star {
  import opened Wrappers
  import opened Folds
  import opened Measurement

  // ---------------------------------------------------------------------------
  // The trie as a value

  /** What a node stores for one attribute value: a count and the next node, if any. */
  datatype Entry = Entry(num: int, next: Option<Trie>)

  datatype Trie = Trie(entries: map<string, Entry>)

  const EmptyTrie := Trie(map[])

  /** The child of value k, or the empty trie. */
  function ChildOrEmpty(t: Trie, k: string): Trie
  {
    if k in t.entries && t.entries[k].next.Some? then t.entries[k].next.value else EmptyTrie
  }

  /**
   * Node.Add on a non-empty sequence: the first value's count goes up by
   * one (a new value starts at one), and the rest of the sequence, if any,
   * is added to that value's child, which is created when missing.
   */
  function TrieAdd(t: Trie, s: seq<string>): (r: Trie)
    requires |s| > 0
    ensures r.entries.Keys == t.entries.Keys + {s[0]}
    ensures r.entries[s[0]].num == (if s[0] in t.entries then t.entries[s[0]].num + 1 else 1)
    ensures |s| == 1 ==> r.entries[s[0]].next == (if s[0] in t.entries then t.entries[s[0]].next else None)
    ensures |s| > 1 ==> r.entries[s[0]].next.Some?
    ensures forall k :: k in t.entries && k != s[0] ==> r.entries[k] == t.entries[k]
    decreases |s|
  {
    var v := s[0];
    var e := if v in t.entries then t.entries[v] else Entry(0, None);
    var next := if |s| == 1 then e.next else Some(TrieAdd(ChildOrEmpty(t, v), s[1..]));
    Trie(t.entries[v := Entry(e.num + 1, next)])
  }

  /** The rest of a longer sequence goes to the child of its first value. */
  lemma TrieAddChild(t: Trie, s: seq<string>)
    requires |s| > 1
    ensures TrieAdd(t, s).entries[s[0]].next == Some(TrieAdd(ChildOrEmpty(t, s[0]), s[1..]))
  {
  }

  /** A run of adds, in order. */
  function TrieAddAll(t: Trie, ss: seq<seq<string>>): Trie
    requires forall i :: 0 <= i < |ss| ==> |ss[i]| > 0
    decreases |ss|
  {
    if |ss| == 0 then t else TrieAddAll(TrieAdd(t, ss[0]), ss[1..])
  }

  // ---------------------------------------------------------------------------
  // Counting over the trie

  function CountOf(t: Trie): string -> int
  {
    k => if k in t.entries then t.entries[k].num else 0
  }

  /** The sum of the counts of a node's values: the number of sequences added below it. */
  ghost function Total(t: Trie): int
  {
    Sum(t.entries.Keys, CountOf(t))
  }

  /** NumNodes: this node and every node below it. */
  ghost function Nodes(t: Trie): (n: int)
    ensures n >= 1
    decreases t, 1
  {
    var f := ChildNodesOf(t);
    assert forall k :: k in t.entries.Keys ==> 0 <= f(k);
    SumNonNegative(t.entries.Keys, f);
    1 + Sum(t.entries.Keys, f)
  }

  ghost function ChildNodesOf(t: Trie): string -> int
    decreases t, 0
  {
    k => if k in t.entries && t.entries[k].next.Some? then Nodes(t.entries[k].next.value) else 0
  }

  /** NumTags: the number of values stored in this node and every node below it. */
  ghost function Tags(t: Trie): int
    decreases t, 1
  {
    |t.entries| + Sum(t.entries.Keys, ChildTagsOf(t))
  }

  ghost function ChildTagsOf(t: Trie): string -> int
    decreases t, 0
  {
    k => if k in t.entries && t.entries[k].next.Some? then Tags(t.entries[k].next.value) else 0
  }

  /** NumLeafTags: the values, here and below, that have no next node. */
  ghost function LeafTags(t: Trie): int
    decreases t, 1
  {
    Sum(t.entries.Keys, LeafTagsOf(t))
  }

  ghost function LeafTagsOf(t: Trie): string -> int
    decreases t, 0
  {
    k => if k in t.entries && t.entries[k].next.Some? then LeafTags(t.entries[k].next.value)
         else if k in t.entries then 1 else 0
  }

  /** Every value is counted, here and below, once for every sequence that reached it. */
  ghost predicate WellCounted(t: Trie)
    decreases t, 1
  {
    forall k :: k in t.entries ==> EntryWellCounted(t.entries[k])
  }

  /** A value's count is at least one and at least its child's total, and the child is well counted. */
  ghost predicate EntryWellCounted(e: Entry)
    decreases e, 0
  {
    && e.num >= 1
    && (e.next.Some? ==> Total(e.next.value) <= e.num && WellCounted(e.next.value))
  }

  lemma EmptyTrieCounts()
    ensures Total(EmptyTrie) == 0 && Nodes(EmptyTrie) == 1 && Tags(EmptyTrie) == 0 && LeafTags(EmptyTrie) == 0
    ensures WellCounted(EmptyTrie)
  {
  }

  /** Each add counts one more sequence at the root. */
  lemma TotalAfterAdd(t: Trie, s: seq<string>)
    requires |s| > 0
    ensures Total(TrieAdd(t, s)) == Total(t) + 1
  {
    var r := TrieAdd(t, s);
    var v := s[0];
    SumRemove(r.entries.Keys, CountOf(r), v);
    assert r.entries.Keys - {v} == t.entries.Keys - {v};
    SumExt(t.entries.Keys - {v}, CountOf(r), CountOf(t));
    if v in t.entries {
      SumRemove(t.entries.Keys, CountOf(t), v);
    } else {
      assert t.entries.Keys - {v} == t.entries.Keys;
    }
  }

  /** Adding keeps every count at least one and at least the total of the counts below it. */
  lemma {:induction false} AddKeepsWellCounted(t: Trie, s: seq<string>)
    requires |s| > 0 && WellCounted(t)
    ensures WellCounted(TrieAdd(t, s))
    decreases |s|
  {
    var r := TrieAdd(t, s);
    var v := s[0];
    if |s| > 1 {
      var c := ChildOrEmpty(t, v);
      EmptyTrieCounts();
      AddKeepsWellCounted(c, s[1..]);
      TotalAfterAdd(c, s[1..]);
    }
    assert EntryWellCounted(r.entries[v]);
    forall k | k in r.entries
      ensures EntryWellCounted(r.entries[k])
    {
      if k != v {
        assert r.entries[k] == t.entries[k];
      }
    }
  }

  /** A run of adds counts one sequence per add at the root and keeps the trie well counted. */
  lemma {:induction false} AddAllCounts(t: Trie, ss: seq<seq<string>>)
    requires forall i :: 0 <= i < |ss| ==> |ss[i]| > 0
    requires WellCounted(t)
    ensures Total(TrieAddAll(t, ss)) == Total(t) + |ss|
    ensures WellCounted(TrieAddAll(t, ss))
    decreases |ss|
  {
    if |ss| > 0 {
      TotalAfterAdd(t, ss[0]);
      AddKeepsWellCounted(t, ss[0]);
      AddAllCounts(TrieAdd(t, ss[0]), ss[1..]);
    }
  }

  /**
   * Every value is either a leaf tag or the parent of a node, so the tags
   * number the leaf tags plus the nodes other than the root.
   */
  lemma {:induction false} TagsLeavesNodes(t: Trie)
    ensures Tags(t) == LeafTags(t) + Nodes(t) - 1
    decreases t
  {
    var keys := t.entries.Keys;
    forall k | k in keys && t.entries[k].next.Some?
      ensures Tags(t.entries[k].next.value) == LeafTags(t.entries[k].next.value) + Nodes(t.entries[k].next.value) - 1
    {
      TagsLeavesNodes(t.entries[k].next.value);
    }
    var ones: string -> int := k => 1;
    var tagsPlusOne: string -> int := k => ones(k) + ChildTagsOf(t)(k);
    SumOnes(keys, ones);
    SumAdd(keys, ones, ChildTagsOf(t), tagsPlusOne);
    SumAdd(keys, LeafTagsOf(t), ChildNodesOf(t), tagsPlusOne);
  }

  /** Hence there are never more leaf tags than tags. */
  lemma LeafTagsAtMostTags(t: Trie)
    ensures LeafTags(t) <= Tags(t)
  {
    TagsLeavesNodes(t);
  }

  // ---------------------------------------------------------------------------
  // Aggregation as a value

  /** The depth of the root node's values. */
  const RootDepth := 1

  /**
   * The counters of an AggregationState: fully unlocked measurements,
   * partially unlocked measurements (filled in at the root only), the
   * measurements already counted as partial further down, and the number
   * of partial measurements per unlocked prefix length.
   */
  datatype Agg = Agg(full: int, partial: int, already: int, lens: map<int, int>)

  /** A fresh AggregationState. */
  const NoAgg := Agg(0, 0, 0, map[])

  /** A length map read with absent keys as zero. */
  function LenOf(m: map<int, int>, k: int): int
  {
    if k in m then m[k] else 0
  }

  /** Key-wise addition of two length maps, an absent key counting as zero. */
  function MergeAdd(a: map<int, int>, b: map<int, int>): (r: map<int, int>)
    ensures r.Keys == a.Keys + b.Keys
    ensures forall k :: k in r ==> r[k] == LenOf(a, k) + LenOf(b, k)
  {
    map k | k in a.Keys + b.Keys :: LenOf(a, k) + LenOf(b, k)
  }

  /** Augment: every counter added, the length maps merged. */
  function AggPlus(x: Agg, y: Agg): Agg
  {
    Agg(x.full + y.full, x.partial + y.partial, x.already + y.already, MergeAdd(x.lens, y.lens))
  }

  /** Merging length maps has the empty map as unit and is commutative. */
  lemma MergeAddUnitCommutative(a: map<int, int>, b: map<int, int>)
    ensures MergeAdd(map[], a) == a
    ensures MergeAdd(a, b) == MergeAdd(b, a)
  {
  }

  /** Merging length maps is associative. */
  lemma MergeAddAssociative(a: map<int, int>, b: map<int, int>, c: map<int, int>)
    ensures MergeAdd(MergeAdd(a, b), c) == MergeAdd(a, MergeAdd(b, c))
  {
    var ab, bc := MergeAdd(a, b), MergeAdd(b, c);
    var l, r := MergeAdd(ab, c), MergeAdd(a, bc);
    forall k | k in l
      ensures k in r && l[k] == r[k]
    {
      assert LenOf(ab, k) == LenOf(a, k) + LenOf(b, k);
      assert LenOf(bc, k) == LenOf(b, k) + LenOf(c, k);
    }
  }

  /** Augmenting is associative and commutative, with a fresh state as unit. */
  lemma AggPlusIsCommutativeMonoid()
    ensures IsCommutativeMonoid(NoAgg, AggPlus)
  {
    forall a: Agg
      ensures AggPlus(NoAgg, a) == a
    {
      MergeAddUnitCommutative(a.lens, a.lens);
    }
    forall a: Agg, b: Agg
      ensures AggPlus(a, b) == AggPlus(b, a)
    {
      MergeAddUnitCommutative(a.lens, b.lens);
    }
    forall a: Agg, b: Agg, c: Agg
      ensures AggPlus(AggPlus(a, b), c) == AggPlus(a, AggPlus(b, c))
    {
      MergeAddAssociative(a.lens, b.lens, c.lens);
    }
  }

  /** The total of a length map's values. */
  ghost function SumValues(m: map<int, int>): int
  {
    Sum(m.Keys, k => LenOf(m, k))
  }

  /** Merging length maps adds their totals. */
  lemma SumValuesMerge(a: map<int, int>, b: map<int, int>)
    ensures SumValues(MergeAdd(a, b)) == SumValues(a) + SumValues(b)
  {
    var r := MergeAdd(a, b);
    var u := a.Keys + b.Keys;
    var fa, fb, fr := k => LenOf(a, k), k => LenOf(b, k), k => LenOf(r, k);
    SumSubset(a.Keys, u, fa);
    SumSubset(b.Keys, u, fb);
    SumAdd(u, fa, fb, fr);
  }

  /** A single length counts its value. */
  lemma SumValuesSingle(k: int, n: int)
    ensures SumValues(map[k := n]) == n
  {
    var m := map[k := n];
    SumRemove(m.Keys, k => LenOf(m, k), k);
    assert m.Keys - {k} == {};
  }

  /**
   * One iteration of the loop in Node.Aggregate, for a value with entry e
   * at the given depth, whose child (if any) aggregates to sub: nothing
   * below the threshold; the whole count as full at the last depth;
   * nothing for a value without a child (an incomplete measurement);
   * otherwise the child's state, plus the newly unlocked measurements
   * (those not fully unlocked or already counted below) as partial ones
   * of this length, counted as partial at the root.
   */
  function Unlocked(e: Entry, maxDepth: int, threshold: int, depth: int, sub: Agg): Agg
  {
    if e.num < threshold then NoAgg
    else if depth == maxDepth then Agg(e.num, 0, 0, map[])
    else if e.next.None? then NoAgg
    else
      var newly := e.num - sub.full - sub.already;
      AggPlus(sub, Agg(0, if depth == RootDepth then e.num - sub.full else 0, newly, map[depth := newly]))
  }

  /** Node.Aggregate on a node at the given depth: the values' contributions, in any order. */
  ghost function AggSpec(t: Trie, maxDepth: int, threshold: int, depth: int): Agg
    decreases t, 2
  {
    Fold(t.entries.Keys, UnlockedOf(t, maxDepth, threshold, depth), NoAgg, AggPlus)
  }

  ghost function UnlockedOf(t: Trie, maxDepth: int, threshold: int, depth: int): string -> Agg
    decreases t, 1
  {
    k => UnlockedAt(t, k, maxDepth, threshold, depth)
  }

  /** The contribution of value k of t. */
  ghost function UnlockedAt(t: Trie, k: string, maxDepth: int, threshold: int, depth: int): Agg
    decreases t, 0, 1
  {
    if k in t.entries then Unlocked(t.entries[k], maxDepth, threshold, depth, SubAgg(t, k, maxDepth, threshold, depth)) else NoAgg
  }

  /** The contributions of the values in keys only. */
  ghost function RestAgg(t: Trie, keys: set<string>, maxDepth: int, threshold: int, depth: int): Agg
  {
    Fold(keys, UnlockedOf(t, maxDepth, threshold, depth), NoAgg, AggPlus)
  }

  /** The aggregation of the child of value k, one level down. */
  ghost function SubAgg(t: Trie, k: string, maxDepth: int, threshold: int, depth: int): Agg
    decreases t, 0, 0
  {
    if k in t.entries && t.entries[k].next.Some? then AggSpec(t.entries[k].next.value, maxDepth, threshold, depth + 1) else NoAgg
  }

  /** A value's whole count, when it is unlocked fully or partially at this depth. */
  function UnlockedNumOf(t: Trie, maxDepth: int, threshold: int, depth: int): string -> int
  {
    k => if k in t.entries && t.entries[k].num >= threshold && (depth == maxDepth || t.entries[k].next.Some?)
         then t.entries[k].num else 0
  }

  /** One value's contribution keeps the per-length partial counts adding up to those already counted. */
  lemma UnlockedLensAddUp(e: Entry, maxDepth: int, threshold: int, depth: int, sub: Agg)
    requires sub.already == SumValues(sub.lens)
    ensures Unlocked(e, maxDepth, threshold, depth, sub).already == SumValues(Unlocked(e, maxDepth, threshold, depth, sub).lens)
  {
    if e.num >= threshold && depth != maxDepth && e.next.Some? {
      var newly := e.num - sub.full - sub.already;
      SumValuesSingle(depth, newly);
      SumValuesMerge(sub.lens, map[depth := newly]);
    } else {
      assert SumValues(map[]) == 0;
    }
  }

  /** The per-length partial counts always add up to the measurements already counted. */
  lemma {:induction false} AggLensAddUp(t: Trie, maxDepth: int, threshold: int, depth: int)
    ensures AggSpec(t, maxDepth, threshold, depth).already == SumValues(AggSpec(t, maxDepth, threshold, depth).lens)
    decreases t
  {
    var P := (x: Agg) => x.already == SumValues(x.lens);
    var f := UnlockedOf(t, maxDepth, threshold, depth);
    AggPlusIsCommutativeMonoid();
    assert P(NoAgg);
    forall a: Agg, b: Agg | P(a) && P(b)
      ensures P(AggPlus(a, b))
    {
      SumValuesMerge(a.lens, b.lens);
    }
    forall k | k in t.entries.Keys
      ensures P(f(k))
    {
      var sub := SubAgg(t, k, maxDepth, threshold, depth);
      assert f(k) == UnlockedAt(t, k, maxDepth, threshold, depth);
      assert f(k) == Unlocked(t.entries[k], maxDepth, threshold, depth, sub);
      if t.entries[k].next.Some? {
        AggLensAddUp(t.entries[k].next.value, maxDepth, threshold, depth + 1);
      } else {
        assert SumValues(map[]) == 0;
      }
      UnlockedLensAddUp(t.entries[k], maxDepth, threshold, depth, sub);
    }
    FoldClosed(t.entries.Keys, f, NoAgg, AggPlus, P);
  }

  /** Below the root, nothing is counted as partial. */
  lemma {:induction false} AggNoPartialBelowRoot(t: Trie, maxDepth: int, threshold: int, depth: int)
    requires depth > RootDepth
    ensures AggSpec(t, maxDepth, threshold, depth).partial == 0
    decreases t
  {
    var P := (x: Agg) => x.partial == 0;
    var f := UnlockedOf(t, maxDepth, threshold, depth);
    AggPlusIsCommutativeMonoid();
    forall k | k in t.entries.Keys
      ensures P(f(k))
    {
      var sub := SubAgg(t, k, maxDepth, threshold, depth);
      assert f(k) == UnlockedAt(t, k, maxDepth, threshold, depth);
      assert f(k) == Unlocked(t.entries[k], maxDepth, threshold, depth, sub);
      if t.entries[k].next.Some? {
        AggNoPartialBelowRoot(t.entries[k].next.value, maxDepth, threshold, depth + 1);
      }
    }
    FoldClosed(t.entries.Keys, f, NoAgg, AggPlus, P);
  }

  /** At the root, the partial measurements are exactly those counted as newly unlocked. */
  lemma AggPartialAtRoot(t: Trie, maxDepth: int, threshold: int)
    ensures AggSpec(t, maxDepth, threshold, RootDepth).partial == AggSpec(t, maxDepth, threshold, RootDepth).already
  {
    var P := (x: Agg) => x.partial == x.already;
    var f := UnlockedOf(t, maxDepth, threshold, RootDepth);
    AggPlusIsCommutativeMonoid();
    forall k | k in t.entries.Keys
      ensures P(f(k))
    {
      var sub := SubAgg(t, k, maxDepth, threshold, RootDepth);
      assert f(k) == UnlockedAt(t, k, maxDepth, threshold, RootDepth);
      assert f(k) == Unlocked(t.entries[k], maxDepth, threshold, RootDepth, sub);
      if t.entries[k].next.Some? {
        AggNoPartialBelowRoot(t.entries[k].next.value, maxDepth, threshold, RootDepth + 1);
      }
    }
    FoldClosed(t.entries.Keys, f, NoAgg, AggPlus, P);
  }

  /** Hence AddsUp holds of every root aggregation. */
  lemma RootAggAddsUp(t: Trie, maxDepth: int, threshold: int)
    ensures AggSpec(t, maxDepth, threshold, RootDepth).partial == SumValues(AggSpec(t, maxDepth, threshold, RootDepth).lens)
  {
    AggPartialAtRoot(t, maxDepth, threshold);
    AggLensAddUp(t, maxDepth, threshold, RootDepth);
  }

  /**
   * Each value that meets the threshold, and either is at the last depth or
   * has a child, has its whole count unlocked exactly once: fully or as
   * partial measurements, here or below.
   */
  lemma {:induction false} AggCountsEachOnce(t: Trie, maxDepth: int, threshold: int, depth: int)
    ensures AggSpec(t, maxDepth, threshold, depth).full + AggSpec(t, maxDepth, threshold, depth).already
      == Sum(t.entries.Keys, UnlockedNumOf(t, maxDepth, threshold, depth))
  {
    var h := (x: Agg) => x.full + x.already;
    var f := UnlockedOf(t, maxDepth, threshold, depth);
    AggPlusIsCommutativeMonoid();
    forall k | k in t.entries.Keys
      ensures UnlockedNumOf(t, maxDepth, threshold, depth)(k) == h(f(k))
    {
      assert f(k) == UnlockedAt(t, k, maxDepth, threshold, depth);
    }
    FoldToSum(t.entries.Keys, f, NoAgg, AggPlus, h, UnlockedNumOf(t, maxDepth, threshold, depth));
  }

  /**
   * In a well-counted trie, the measurements unlocked fully or partially
   * at the root never outnumber the sequences added.
   */
  lemma RootAggAtMostTotal(t: Trie, maxDepth: int, threshold: int)
    requires WellCounted(t)
    ensures AggSpec(t, maxDepth, threshold, RootDepth).full + AggSpec(t, maxDepth, threshold, RootDepth).partial <= Total(t)
  {
    AggPartialAtRoot(t, maxDepth, threshold);
    AggCountsEachOnce(t, maxDepth, threshold, RootDepth);
    SumMono(t.entries.Keys, UnlockedNumOf(t, maxDepth, threshold, RootDepth), CountOf(t));
  }

  /** The entries of m whose keys are in ks. */
  function Restrict(m: map<int, int>, ks: set<int>): (r: map<int, int>)
    ensures r.Keys == m.Keys * ks
    ensures forall k :: k in r ==> r[k] == m[k]
  {
    map k | k in m.Keys * ks :: m[k]
  }

  /** Setting one key of lens aside splits off its single entry. */
  lemma RestrictSplit(lens: map<int, int>, remaining: set<int>, key: int)
    requires key in lens && key in remaining
    ensures Restrict(lens, remaining) == MergeAdd(map[key := lens[key]], Restrict(lens, remaining - {key}))
  {
  }

  /** Merging the entries of lens into cur one key at a time: a step of Augment's loop. */
  lemma MergeStep(cur: map<int, int>, lens: map<int, int>, remaining: set<int>, key: int)
    requires key in lens && key in remaining
    ensures MergeAdd(MergeAdd(cur, map[key := lens[key]]), Restrict(lens, remaining - {key}))
      == MergeAdd(cur, Restrict(lens, remaining))
  {
    RestrictSplit(lens, remaining, key);
    MergeAddAssociative(cur, map[key := lens[key]], Restrict(lens, remaining - {key}));
  }

  /** Nothing left to merge. */
  lemma MergeDone(cur: map<int, int>, lens: map<int, int>)
    ensures MergeAdd(cur, Restrict(lens, {})) == cur
  {
    assert Restrict(lens, {}) == map[];
    MergeAddUnitCommutative(cur, map[]);
  }

  /** Adding a value's contribution to the state, then the rest, is adding both at once. */
  lemma AggLoopStep(cur: Agg, x: Agg, rest: Agg)
    ensures AggPlus(AggPlus(cur, x), rest) == AggPlus(cur, AggPlus(x, rest))
  {
    MergeAddAssociative(cur.lens, x.lens, rest.lens);
  }

  /** Aggregate's loop invariant: the state so far plus the contributions of the values remaining is the whole aggregation. */
  ghost predicate Accounted(cur: Agg, t: Trie, remaining: set<string>, maxDepth: int, threshold: int, depth: int)
  {
    AggPlus(cur, RestAgg(t, remaining, maxDepth, threshold, depth)) == AggSpec(t, maxDepth, threshold, depth)
  }

  /** Before Aggregate's loop: with every value remaining, a fresh state accounts for the whole aggregation. */
  lemma AggFoldStart(t: Trie, maxDepth: int, threshold: int, depth: int)
    ensures Accounted(NoAgg, t, t.entries.Keys, maxDepth, threshold, depth)
  {
    var spec := AggSpec(t, maxDepth, threshold, depth);
    MergeAddUnitCommutative(spec.lens, spec.lens);
  }

  /** A step of Aggregate's loop: the contribution of k moves from the rest into the state. */
  lemma AggFoldRemove(cur: Agg, t: Trie, remaining: set<string>, k: string, maxDepth: int, threshold: int, depth: int)
    requires k in remaining
    requires Accounted(cur, t, remaining, maxDepth, threshold, depth)
    ensures Accounted(AggPlus(cur, UnlockedAt(t, k, maxDepth, threshold, depth)), t, remaining - {k}, maxDepth, threshold, depth)
  {
    var f := UnlockedOf(t, maxDepth, threshold, depth);
    AggPlusIsCommutativeMonoid();
    FoldRemove(remaining, f, NoAgg, AggPlus, k);
    AggLoopStep(cur, f(k), Fold(remaining - {k}, f, NoAgg, AggPlus));
  }

  /** After Aggregate's loop: with nothing remaining, the state is the whole aggregation. */
  lemma AggFoldDone(cur: Agg, t: Trie, maxDepth: int, threshold: int, depth: int)
    requires Accounted(cur, t, {}, maxDepth, threshold, depth)
    ensures cur == AggSpec(t, maxDepth, threshold, depth)
  {
    AggPlusNothing(cur);
  }

  /** Adding nothing leaves a state as it is. */
  lemma AggPlusNothing(cur: Agg)
    ensures AggPlus(cur, NoAgg) == cur
    ensures AggPlus(cur, Agg(0, 0, 0, map[])) == cur
  {
    MergeAddUnitCommutative(cur.lens, map[]);
  }

  /**
   * The deep case of Node.Aggregate's loop body: augmenting with the
   * child's state, adding the newly unlocked length and then the counters
   * adds the value's whole contribution.
   */
  lemma AggDeepStep(cur: Agg, e: Entry, maxDepth: int, threshold: int, depth: int, sub: Agg, newly: int, partial: int,
                    augmented: Agg, lensAdded: Agg, after: Agg)
    requires e.num >= threshold && depth != maxDepth && e.next.Some?
    requires newly == e.num - sub.full - sub.already
    requires partial == if depth == RootDepth then e.num - sub.full else 0
    requires augmented == AggPlus(cur, sub)
    requires lensAdded == AggPlus(augmented, Agg(0, 0, 0, map[depth := newly]))
    requires after == Agg(lensAdded.full, lensAdded.partial + partial, lensAdded.already + newly, lensAdded.lens)
    ensures after == AggPlus(cur, Unlocked(e, maxDepth, threshold, depth, sub))
  {
    MergeAddAssociative(cur.lens, sub.lens, map[depth := newly]);
  }

  // ---------------------------------------------------------------------------
  // The aggregation state

  class AggregationState {
    var fullMsmts: int
    var partialMsmts: int
    var alreadyCounted: int
    var lenPartialMsmts: map<int, int>

    /** The counters as a value. */
    function Value(): Agg
      reads this
    {
      Agg(fullMsmts, partialMsmts, alreadyCounted, lenPartialMsmts)
    }

    /** NewAggregationState: all counters zero, no lengths. */
    constructor ()
      ensures Value() == NoAgg
    {
      fullMsmts, partialMsmts, alreadyCounted := 0, 0, 0;
      lenPartialMsmts := map[];
    }

    /** Adds value to the count of length key, an absent key counting as zero. */
    method AddLenTags(key: int, value: int)
      modifies this
      ensures Value() == AggPlus(old(Value()), Agg(0, 0, 0, map[key := value]))
    {
      if key !in lenPartialMsmts {
        lenPartialMsmts := lenPartialMsmts[key := value];
      } else {
        lenPartialMsmts := lenPartialMsmts[key := lenPartialMsmts[key] + value];
      }
    }

    /**
     * Adds every counter of s2 to this state's and merges the length maps.
     * Each field of s2 is read before the same field of this state is
     * written, so the result is also right when s2 is this state.
     */
    method Augment(s2: AggregationState)
      modifies this
      ensures Value() == AggPlus(old(Value()), old(s2.Value()))
    {
      var lens := s2.lenPartialMsmts;
      fullMsmts := fullMsmts + s2.fullMsmts;
      partialMsmts := partialMsmts + s2.partialMsmts;
      alreadyCounted := alreadyCounted + s2.alreadyCounted;
      ghost var start := lenPartialMsmts;
      var remaining := lens.Keys;
      assert Restrict(lens, remaining) == lens;
      while remaining != {}
        invariant remaining <= lens.Keys
        invariant fullMsmts == old(fullMsmts) + old(s2.fullMsmts)
        invariant partialMsmts == old(partialMsmts) + old(s2.partialMsmts)
        invariant alreadyCounted == old(alreadyCounted) + old(s2.alreadyCounted)
        invariant MergeAdd(lenPartialMsmts, Restrict(lens, remaining)) == MergeAdd(start, lens)
        decreases remaining
      {
        var key :| key in remaining;
        MergeStep(lenPartialMsmts, lens, remaining, key);
        AddLenTags(key, lens[key]);
        remaining := remaining - {key};
      }
      MergeDone(lenPartialMsmts, lens);
    }

    /** Whether the per-length partial counts add up to the partial measurements. */
    method AddsUp() returns (b: bool)
      ensures b <==> partialMsmts == SumValues(lenPartialMsmts)
    {
      var lens := lenPartialMsmts;
      ghost var f := k => LenOf(lens, k);
      var totalPartial := 0;
      var remaining := lens.Keys;
      while remaining != {}
        invariant remaining <= lens.Keys
        invariant totalPartial + Sum(remaining, f) == SumValues(lens)
        decreases remaining
      {
        var key :| key in remaining;
        SumRemove(remaining, f, key);
        totalPartial := totalPartial + lens[key];
        remaining := remaining - {key};
      }
      b := partialMsmts == totalPartial;
    }
  }

  // ---------------------------------------------------------------------------
  // The tree of nodes

  /** The info a node keeps for one value; only its own node points to it. */
  datatype NodeInfo = NodeInfo(num: int, next: Node?)

  class Node {
    var valueToInfo: map<string, NodeInfo>
    ghost var Contents: Trie
    ghost var Repr: set<object>

    /** This node, with the values and contents given, owns the objects given, and its children are valid. */
    ghost predicate Parts(vti: map<string, NodeInfo>, contents: Trie, repr: set<object>)
      reads repr - {this}
      decreases repr, 0
    {
      && this in repr
      && vti.Keys == contents.entries.Keys
      && (forall v :: v in vti ==>
            && vti[v].num == contents.entries[v].num
            && (vti[v].next == null <==> contents.entries[v].next.None?))
      && (forall v :: v in vti && vti[v].next != null ==>
            && vti[v].next in repr
            && vti[v].next != this
            && vti[v].next.Repr <= repr
            && this !in vti[v].next.Repr
            && vti[v].next.Valid()
            && vti[v].next.Contents == contents.entries[v].next.value)
      && (forall v, w ::
            (v in vti && w in vti && v != w && vti[v].next != null && vti[w].next != null) ==>
            vti[v].next.Repr !! vti[w].next.Repr)
    }

    /**
     * Each child is valid, owned by this node alone (its objects are not
     * this one and are disjoint from its siblings'), and the counts and
     * children are those of Contents.
     */
    ghost predicate Valid()
      reads this, Repr
      ensures Valid() ==> this in Repr
      decreases Repr, 1
    {
      this in Repr && Parts(valueToInfo, Contents, Repr)
    }

    /** A valid node none of whose objects has changed is still valid, with the same contents. */
    twostate lemma StillValid(c: Node)
      requires old(c.Valid())
      requires forall o :: o in old(c.Repr) ==> unchanged(o)
      ensures c.Valid() && c.Repr == old(c.Repr) && c.Contents == old(c.Contents)
    {
    }

    /** A node with no values. */
    constructor ()
      ensures Valid() && fresh(Repr)
      ensures Contents == EmptyTrie
    {
      valueToInfo := map[];
      Contents := EmptyTrie;
      Repr := {this};
    }

    /** Counts the sequence s in this node and the nodes below it, creating nodes as needed. */
    method Add(s: seq<string>)
      requires Valid() && |s| > 0
      modifies Repr
      ensures Valid() && fresh(Repr - old(Repr))
      ensures Contents == TrieAdd(old(Contents), s)
      decreases |s|, 0
    {
      var v := s[0];
      var info := if v in valueToInfo then valueToInfo[v] else NodeInfo(0, null);
      info := info.(num := info.num + 1);
      if |s| > 1 {
        var child := AddBelow(v, s[1..]);
        info := info.(next := child);
      }
      var vti := valueToInfo[v := info];
      ghost var repr := if info.next != null then Repr + info.next.Repr else Repr;
      ghost var contents := TrieAdd(Contents, s);
      PartsAfterAdd(v, info, contents, repr);
      Install(vti, contents, repr);
    }

    /**
     * Replacing the info of value v by info, whose child (if any) is valid,
     * stands for v's entry in contents and shares nothing with the other
     * children, leaves the node's parts in order.
     */
    lemma PartsAfterAdd(v: string, info: NodeInfo, contents: Trie, repr: set<object>)
      requires this in Repr
      requires valueToInfo.Keys == Contents.entries.Keys
      requires forall w :: w in valueToInfo && w != v ==>
        && valueToInfo[w].num == Contents.entries[w].num
        && (valueToInfo[w].next == null <==> Contents.entries[w].next.None?)
        && ChildOK(w)
        && (info.next != null && valueToInfo[w].next != null ==> valueToInfo[w].next.Repr !! info.next.Repr)
      requires forall w, x :: w in valueToInfo && x in valueToInfo && w != x && w != v && x != v ==>
        SiblingsDisjoint(w, x)
      requires info.next != null ==> info.next.Valid() && this !in info.next.Repr
      requires contents.entries.Keys == Contents.entries.Keys + {v}
      requires forall w :: w in Contents.entries && w != v ==> contents.entries[w] == Contents.entries[w]
      requires contents.entries[v].num == info.num
      requires info.next == null <==> contents.entries[v].next.None?
      requires info.next != null ==> info.next.Contents == contents.entries[v].next.value
      requires repr == if info.next != null then Repr + info.next.Repr else Repr
      ensures Parts(valueToInfo[v := info], contents, repr)
    {
      var vti := valueToInfo[v := info];
      forall w | w in vti
        ensures vti[w].num == contents.entries[w].num && (vti[w].next == null <==> contents.entries[w].next.None?)
      {
      }
      forall w | w in vti && vti[w].next != null
        ensures && vti[w].next in repr
                && vti[w].next != this
                && vti[w].next.Repr <= repr
                && this !in vti[w].next.Repr
                && vti[w].next.Valid()
                && vti[w].next.Contents == contents.entries[w].next.value
      {
        if w != v {
          assert ChildOK(w);
        }
      }
      forall w, x | w in vti && x in vti && w != x && vti[w].next != null && vti[x].next != null
        ensures vti[w].next.Repr !! vti[x].next.Repr
      {
        if w != v && x != v {
          assert SiblingsDisjoint(w, x);
        }
      }
    }

    /** The child of value w, if any, is valid, owned by this node and stands for w's entry in Contents. */
    ghost predicate ChildOK(w: string)
      reads this, Repr
      requires w in valueToInfo && w in Contents.entries
    {
      var c := valueToInfo[w].next;
      c != null ==>
        && c in Repr && c != this && c.Repr <= Repr && this !in c.Repr
        && c.Valid()
        && Contents.entries[w].next.Some? && c.Contents == Contents.entries[w].next.value
    }

    /** The children of two different values, if both exist, share no object. */
    ghost predicate SiblingsDisjoint(w: string, x: string)
      reads this, Repr
      requires w in valueToInfo && x in valueToInfo
    {
      var cw, cx := valueToInfo[w].next, valueToInfo[x].next;
      cw != null && cx != null && cw in Repr && cx in Repr ==> cw.Repr !! cx.Repr
    }

    /**
     * The part of Add below this node: adds rest to the child of value v,
     * creating the child when there is none, and leaves this node's fields
     * and the other children as they were.
     */
    method AddBelow(v: string, rest: seq<string>) returns (child: Node)
      requires Valid() && |rest| > 0
      modifies Repr
      ensures unchanged(this)
      ensures child.Valid() && this !in child.Repr && fresh(child.Repr - old(Repr))
      ensures child.Contents == TrieAdd(ChildOrEmpty(Contents, v), rest)
      ensures valueToInfo.Keys == Contents.entries.Keys
      ensures forall w :: w in valueToInfo && w != v ==>
        && valueToInfo[w].num == Contents.entries[w].num
        && (valueToInfo[w].next == null <==> Contents.entries[w].next.None?)
        && ChildOK(w)
        && (valueToInfo[w].next != null ==> valueToInfo[w].next.Repr !! child.Repr)
      ensures forall w, x :: w in valueToInfo && x in valueToInfo && w != x && w != v && x != v ==>
        SiblingsDisjoint(w, x)
      decreases |rest|, 1
    {
      if v in valueToInfo && valueToInfo[v].next != null {
        child := valueToInfo[v].next;
      } else {
        child := new Node();
      }
      label BeforeChild:
      child.Add(rest);
      forall w | w in valueToInfo && w != v && valueToInfo[w].next != null
        ensures valueToInfo[w].next.Valid()
        ensures valueToInfo[w].next.Repr == old(valueToInfo[w].next.Repr)
        ensures valueToInfo[w].next.Repr !! child.Repr
        ensures valueToInfo[w].next.Contents == old(valueToInfo[w].next.Contents)
      {
        var c := valueToInfo[w].next;
        assert c.Repr !! old@BeforeChild(child.Repr);
        StillValid@BeforeChild(c);
      }
    }

    /** What Valid says about the info of one value. */
    lemma ChildFacts(k: string)
      requires Valid() && k in valueToInfo
      ensures k in Contents.entries
      ensures valueToInfo[k].num == Contents.entries[k].num
      ensures valueToInfo[k].next == null <==> Contents.entries[k].next.None?
      ensures ChildOK(k)
    {
    }

    /**
     * Aggregates the measurements below this node, which is reached by the
     * values m (so its values sit at depth |m| + 1), into a new state.
     */
    method Aggregate(maxDepth: int, threshold: int, m: seq<string>) returns (state: AggregationState)
      requires Valid()
      ensures fresh(state)
      ensures state.Value() == AggSpec(Contents, maxDepth, threshold, |m| + 1)
      decreases Repr, 2
    {
      state := new AggregationState();
      ghost var depth := |m| + 1;
      AggFoldStart(Contents, maxDepth, threshold, depth);
      var remaining := valueToInfo.Keys;
      while remaining != {}
        invariant remaining <= valueToInfo.Keys
        invariant fresh(state)
        invariant Accounted(state.Value(), Contents, remaining, maxDepth, threshold, depth)
        decreases remaining
      {
        var value :| value in remaining;
        AccountValue(state, maxDepth, threshold, m, remaining, value);
        remaining := remaining - {value};
      }
      AggFoldDone(state.Value(), Contents, maxDepth, threshold, depth);
    }

    /**
     * The body of Aggregate's loop: adds the contribution of one value not
     * yet visited, so that it joins the values accounted for.
     */
    method AccountValue(state: AggregationState, maxDepth: int, threshold: int, m: seq<string>,
                        remaining: set<string>, value: string)
      requires Valid()
      requires remaining <= valueToInfo.Keys && value in remaining
      requires Accounted(state.Value(), Contents, remaining, maxDepth, threshold, |m| + 1)
      modifies state
      ensures Accounted(state.Value(), Contents, remaining - {value}, maxDepth, threshold, |m| + 1)
      decreases Repr, 1
    {
      ghost var before := state.Value();
      ChildFacts(value);
      AggregateValue(state, maxDepth, threshold, m, value);
      AggFoldRemove(before, Contents, remaining, value, maxDepth, threshold, |m| + 1);
    }

    /** One iteration of Aggregate's loop: adds the contribution of value to state. */
    method AggregateValue(state: AggregationState, maxDepth: int, threshold: int, m: seq<string>, value: string)
      requires this in Repr && value in valueToInfo && value in Contents.entries
      requires valueToInfo[value].num == Contents.entries[value].num
      requires valueToInfo[value].next == null <==> Contents.entries[value].next.None?
      requires ChildOK(value)
      modifies state
      ensures state.Value() == AggPlus(old(state.Value()), UnlockedAt(Contents, value, maxDepth, threshold, |m| + 1))
      decreases Repr, 0
    {
      var depth := |m| + 1;
      var info := valueToInfo[value];
      ghost var before := state.Value();
      ghost var e := Contents.entries[value];
      ghost var u := UnlockedAt(Contents, value, maxDepth, threshold, depth);
      assert u == Unlocked(e, maxDepth, threshold, depth, SubAgg(Contents, value, maxDepth, threshold, depth));
      if info.num < threshold {
        AggPlusNothing(before);
      } else if depth == maxDepth {
        state.fullMsmts := state.fullMsmts + info.num;
        AggPlusNothing(before);
      } else if info.next == null {
        // An incomplete measurement, which is only reported.
        AggPlusNothing(before);
      } else {
        assert e == Entry(info.num, Some(info.next.Contents));
        info.next.AggregateAsChild(state, info.num, maxDepth, threshold, m, value);
      }
    }

    /**
     * The rest of the iteration for a value with count num whose next node
     * is this one: aggregates this node one level down, augments state
     * with the result and counts the measurements newly unlocked at this
     * length (as partial ones, when at the root).
     */
    method AggregateAsChild(state: AggregationState, num: int, maxDepth: int, threshold: int, m: seq<string>, value: string)
      requires Valid()
      requires num >= threshold && |m| + 1 != maxDepth
      modifies state
      ensures state.Value() == AggPlus(old(state.Value()),
        Unlocked(Entry(num, Some(Contents)), maxDepth, threshold, |m| + 1, AggSpec(Contents, maxDepth, threshold, |m| + 2)))
      decreases Repr, 3
    {
      var depth := |m| + 1;
      ghost var before := state.Value();
      ghost var sub := AggSpec(Contents, maxDepth, threshold, depth + 1);
      var subState := Aggregate(maxDepth, threshold, m + [value]);
      state.Augment(subState);
      ghost var augmented := state.Value();
      var numNewlyUnlocked := num - subState.fullMsmts - subState.alreadyCounted;
      state.AddLenTags(depth, numNewlyUnlocked);
      ghost var lensAdded := state.Value();
      state.alreadyCounted := state.alreadyCounted + numNewlyUnlocked;
      var partial := 0;
      if depth == RootDepth {
        partial := num - subState.fullMsmts;
        state.partialMsmts := state.partialMsmts + partial;
      }
      AggDeepStep(before, Entry(num, Some(Contents)), maxDepth, threshold, depth, sub, numNewlyUnlocked, partial,
                  augmented, lensAdded, state.Value());
    }

    /** NumTags: the values stored in this node and in every node below it. */
    method NumTags() returns (num: int)
      requires Valid()
      ensures num == Tags(Contents)
      decreases Repr
    {
      var vti := valueToInfo;
      ghost var f := ChildTagsOf(Contents);
      num := |vti|;
      var remaining := vti.Keys;
      while remaining != {}
        invariant remaining <= vti.Keys
        invariant num + Sum(remaining, f) == Tags(Contents)
        decreases remaining
      {
        var k :| k in remaining;
        var info := vti[k];
        ChildFacts(k);
        SumRemove(remaining, f, k);
        if info.next != null {
          var sub := info.next.NumTags();
          num := num + sub;
        }
        remaining := remaining - {k};
      }
    }

    /** NumNodes: this node and every node below it. */
    method NumNodes() returns (num: int)
      requires Valid()
      ensures num == Nodes(Contents)
      decreases Repr
    {
      var vti := valueToInfo;
      ghost var f := ChildNodesOf(Contents);
      num := 1;
      var remaining := vti.Keys;
      while remaining != {}
        invariant remaining <= vti.Keys
        invariant num + Sum(remaining, f) == Nodes(Contents)
        decreases remaining
      {
        var k :| k in remaining;
        var info := vti[k];
        ChildFacts(k);
        SumRemove(remaining, f, k);
        if info.next != null {
          var sub := info.next.NumNodes();
          num := num + sub;
        }
        remaining := remaining - {k};
      }
    }

    /** NumLeafTags: the values, here and below, that have no next node. */
    method NumLeafTags() returns (num: int)
      requires Valid()
      ensures num == LeafTags(Contents)
      decreases Repr
    {
      var vti := valueToInfo;
      ghost var f := LeafTagsOf(Contents);
      num := 0;
      var remaining := vti.Keys;
      while remaining != {}
        invariant remaining <= vti.Keys
        invariant num + Sum(remaining, f) == LeafTags(Contents)
        decreases remaining
      {
        var k :| k in remaining;
        var info := vti[k];
        ChildFacts(k);
        SumRemove(remaining, f, k);
        if info.next == null {
          num := num + 1;
        } else {
          var sub := info.next.NumLeafTags();
          num := num + sub;
        }
        remaining := remaining - {k};
      }
    }

    /** Stores the values, contents and objects of a node whose parts are already in order. */
    method Install(vti: map<string, NodeInfo>, ghost contents: Trie, ghost repr: set<object>)
      requires Parts(vti, contents, repr)
      modifies this
      ensures Valid()
      ensures valueToInfo == vti && Contents == contents && Repr == repr
    {
      valueToInfo := vti;
      Repr, Contents := repr, contents;
    }
  }

  // ---------------------------------------------------------------------------
  // Nested STAR

  /** The two orders in which a measurement's attributes enter the trie (an iota enumeration). */
  const OrderHighEntropyFirst: int := 0
  const OrderHighEntropyLast: int := 1

  /** The ordering of one measurement under the configured order; any order but the first means the last. */
  function OrderOne(table: map<string, Version>, m: P3AMeasurement, attrSet: int, order: int): (r: Result<WithTable<seq<string>>, VersionError>)
    requires IsAttrSet(attrSet)
    ensures r.Ok? ==> |r.value.value| >= 2 && NeverOlder(table, r.value.table)
    ensures r.Err? <==> HighEntropyFirst(table, m, attrSet).Err?
  {
    if order == OrderHighEntropyFirst then HighEntropyFirst(table, m, attrSet) else HighEntropyLast(table, m, attrSet)
  }

  /**
   * The orderings of a run of reports, in order, each computed against the
   * version table the previous ones left behind; the first failure stops
   * the run.
   */
  function OrderAll(table: map<string, Version>, attrSet: int, order: int, reports: seq<P3AMeasurement>): (r: Result<WithTable<seq<seq<string>>>, VersionError>)
    requires IsAttrSet(attrSet)
    ensures r.Ok? ==> |r.value.value| == |reports|
    ensures r.Ok? ==> forall j :: 0 <= j < |reports| ==> |r.value.value[j]| >= 2
    ensures r.Ok? ==> NeverOlder(table, r.value.table)
    decreases |reports|
  {
    if |reports| == 0 then Ok(WithTable([], table))
    else
      match OrderOne(table, reports[0], attrSet, order)
      case Err(e) => Err(e)
      case Ok(o) =>
        match OrderAll(o.table, attrSet, order, reports[1..])
        case Err(e) => Err(e)
        case Ok(w) =>
          NeverOlderTransitive(table, o.table, w.table);
          Ok(WithTable([o.value] + w.value, w.table))
  }

  /** The orderings already made, followed by those of a run (or the run's failure). */
  function Prepend(done: seq<seq<string>>, r: Result<WithTable<seq<seq<string>>>, VersionError>): Result<WithTable<seq<seq<string>>>, VersionError>
  {
    match r
    case Err(e) => Err(e)
    case Ok(w) => Ok(WithTable(done + w.value, w.table))
  }

  /**
   * Where a run of adds stands after report i: the orderings done so far,
   * followed by the run from report i on against the table, complete the
   * whole run, and the trie holds the starting trie with the orderings
   * done so far added.
   */
  ghost predicate Progress(table: map<string, Version>, contents: Trie, attrSet: int, order: int, reports: seq<P3AMeasurement>,
                           i: nat, done: seq<seq<string>>, run: Result<WithTable<seq<seq<string>>>, VersionError>, start: Trie)
    requires IsAttrSet(attrSet)
  {
    && i <= |reports|
    && |done| == i
    && (forall k :: 0 <= k < i ==> |done[k]| > 0)
    && contents == TrieAddAll(start, done)
    && Prepend(done, OrderAll(table, attrSet, order, reports[i..])) == run
  }

  /**
   * The run from report i on, after the orderings done so far: the first
   * report's ordering joins them and the run goes on from report i + 1
   * against the table it left, or the run fails there.
   */
  lemma OrderAllStep(table: map<string, Version>, attrSet: int, order: int, reports: seq<P3AMeasurement>, i: nat,
                     done: seq<seq<string>>)
    requires IsAttrSet(attrSet) && i < |reports|
    ensures Prepend(done, OrderAll(table, attrSet, order, reports[i..])) ==
      match OrderOne(table, reports[i], attrSet, order)
      case Err(e) => Err(e)
      case Ok(o) => Prepend(done + [o.value], OrderAll(o.table, attrSet, order, reports[i + 1..]))
  {
    assert reports[i..][0] == reports[i];
    assert reports[i..][1..] == reports[i + 1..];
    match OrderOne(table, reports[i], attrSet, order)
    case Err(e) =>
    case Ok(o) =>
      match OrderAll(o.table, attrSet, order, reports[i + 1..])
      case Err(e) =>
      case Ok(w) =>
        assert done + ([o.value] + w.value) == (done + [o.value]) + w.value;
  }

  /**
   * Report i moves a run of adds one report on: when it can be ordered,
   * adding its ordering to the trie; when it cannot, the whole run fails
   * with its error.
   */
  lemma ProgressStep(table: map<string, Version>, contents: Trie, attrSet: int, order: int, reports: seq<P3AMeasurement>,
                     i: nat, done: seq<seq<string>>, run: Result<WithTable<seq<seq<string>>>, VersionError>, start: Trie)
    requires IsAttrSet(attrSet) && i < |reports|
    requires Progress(table, contents, attrSet, order, reports, i, done, run, start)
    ensures OrderOne(table, reports[i], attrSet, order).Err? ==> run == Err(OrderOne(table, reports[i], attrSet, order).error)
    ensures OrderOne(table, reports[i], attrSet, order).Ok? ==>
      var o := OrderOne(table, reports[i], attrSet, order).value;
      Progress(o.table, TrieAdd(contents, o.value), attrSet, order, reports, i + 1, done + [o.value], run, start)
  {
    OrderAllStep(table, attrSet, order, reports, i, done);
    var r := OrderOne(table, reports[i], attrSet, order);
    if r.Ok? {
      TrieAddAllSnoc(start, done, r.value.value);
    }
  }


  /** With the attribute set All the table is never consulted, so a run never fails. */
  lemma {:induction false} OrderAllWithoutVersions(table: map<string, Version>, order: int, reports: seq<P3AMeasurement>)
    ensures OrderAll(table, AttrsAll, order, reports).Ok?
    ensures OrderAll(table, AttrsAll, order, reports).value.table == table
    decreases |reports|
  {
    if |reports| > 0 {
      OrderAllWithoutVersions(table, order, reports[1..]);
    }
  }

  /** Adding one more sequence after a run of adds. */
  lemma {:induction false} TrieAddAllSnoc(t: Trie, ss: seq<seq<string>>, s: seq<string>)
    requires forall i :: 0 <= i < |ss| ==> |ss[i]| > 0
    requires |s| > 0
    ensures TrieAddAll(t, ss + [s]) == TrieAdd(TrieAddAll(t, ss), s)
    decreases |ss|
  {
    if |ss| == 0 {
      assert ss + [s] == [s];
      assert [s][1..] == [];
    } else {
      assert (ss + [s])[0] == ss[0];
      assert (ss + [s])[1..] == ss[1..] + [s];
      TrieAddAllSnoc(TrieAdd(t, ss[0]), ss[1..], s);
    }
  }

  /**
   * The loop of NestedSTAR.AddReports, over the root node: each report's
   * ordering is added to the trie in turn.  The ghost `owner` is the
   * calling NestedSTAR: the contract keeps it outside the node footprint,
   * so the caller's own fields are known to survive the loop.
   */
  method AddAll(r: Node, versions: LastVersions, attrSet: int, order: int, reports: seq<P3AMeasurement>, ghost owner: object)
    returns (result: Result<(), VersionError>, ghost added: seq<seq<string>>)
    requires r.Valid() && IsAttrSet(attrSet) && versions !in r.Repr && owner !in r.Repr
    modifies r.Repr, versions
    ensures r.Valid() && versions !in r.Repr && owner !in r.Repr
    ensures |added| <= |reports| && (forall k :: 0 <= k < |added| ==> |added[k]| > 0)
    ensures r.Contents == TrieAddAll(old(r.Contents), added)
    ensures result.Err? <==> OrderAll(old(versions.table), attrSet, order, reports).Err?
    ensures result.Ok? ==>
      && added == OrderAll(old(versions.table), attrSet, order, reports).value.value
      && versions.table == OrderAll(old(versions.table), attrSet, order, reports).value.table
  {
    ghost var run, c0 := OrderAll(versions.table, attrSet, order, reports), r.Contents;
    added := [];
    var i := 0;
    assert reports[i..] == reports;
    if run.Ok? {
      assert [] + run.value.value == run.value.value;
    }
    while i < |reports|
      invariant 0 <= i <= |reports|
      invariant r.Valid() && versions !in r.Repr && owner !in r.Repr && fresh(r.Repr - old(r.Repr))
      invariant Progress(versions.table, r.Contents, attrSet, order, reports, i, added, run, c0)
    {
      var ordering := AddNext(r, versions, attrSet, order, reports, i, run, c0, added, owner);
      if ordering.Err? {
        return Err(ordering.error), added;
      }
      added := added + [ordering.value];
      i := i + 1;
    }
    assert reports[i..] == [];
    return Ok(()), added;
  }

  /**
   * The body of NestedSTAR.AddReports' loop: orders the next report and,
   * unless that fails, adds the ordering to the trie.  In terms of the
   * whole run, the orderings done so far are one longer.  `owner` is as
   * in AddAll.
   */
  method AddNext(r: Node, versions: LastVersions, attrSet: int, order: int, reports: seq<P3AMeasurement>, i: nat,
                 ghost run: Result<WithTable<seq<seq<string>>>, VersionError>, ghost c0: Trie, ghost added: seq<seq<string>>,
                 ghost owner: object)
    returns (ordering: Result<seq<string>, VersionError>)
    requires r.Valid() && IsAttrSet(attrSet) && versions !in r.Repr && owner !in r.Repr && i < |reports|
    requires Progress(versions.table, r.Contents, attrSet, order, reports, i, added, run, c0)
    modifies r.Repr, versions
    ensures r.Valid() && versions !in r.Repr && owner !in r.Repr && fresh(r.Repr - old(r.Repr))
    ensures ordering.Err? ==> run.Err? && run.error == ordering.error && r.Contents == old(r.Contents)
    ensures ordering.Ok? ==> Progress(versions.table, r.Contents, attrSet, order, reports, i + 1, added + [ordering.value], run, c0)
  {
    ProgressStep(versions.table, r.Contents, attrSet, order, reports, i, added, run, c0);
    ordering := OrderNext(versions, reports[i], attrSet, order);
    if ordering.Ok? {
      r.Add(ordering.value);
    }
  }

  /** The ordering of one measurement under the configured order, moving the version table on. */
  method OrderNext(versions: LastVersions, m: P3AMeasurement, attrSet: int, order: int) returns (ordering: Result<seq<string>, VersionError>)
    requires IsAttrSet(attrSet)
    modifies versions
    ensures ordering == Answer(OrderOne(old(versions.table), m, attrSet, order))
    ensures versions.table == TableAfter(old(versions.table), OrderOne(old(versions.table), m, attrSet, order))
  {
    if order == OrderHighEntropyFirst {
      ordering := versions.OrderHighEntropyFirst(m, attrSet);
    } else {
      ordering := versions.OrderHighEntropyLast(m, attrSet);
    }
  }

  /** The share a of b, zero when b is. */
  function Frac(a: int, b: int): (r: real)
    ensures b > 0 ==> r * (b as real) == a as real
    ensures b == 0 ==> r == 0.0
  {
    if b == 0 then 0.0 else (a as real) / (b as real)
  }

  /** Two shares of the same whole that together do not exceed it sum to at most one. */
  lemma FracSumAtMostOne(a: int, c: int, b: int)
    requires b >= 0 && a + c <= b
    ensures Frac(a, b) + Frac(c, b) <= 1.0
  {
    if b > 0 {
      assert (Frac(a, b) + Frac(c, b)) * (b as real) == (a + c) as real;
    }
  }

  /** The loop of NestedSTAR.Aggregate that reads the partial count of each length 1 to numAttrs, zero when absent. */
  method LenPartialRows(lens: map<int, int>, numAttrs: int) returns (rows: seq<int>)
    ensures |rows| == (if numAttrs < 0 then 0 else numAttrs)
    ensures forall key :: 1 <= key <= |rows| ==> rows[key - 1] == LenOf(lens, key)
  {
    rows := [];
    var key := 1;
    while key <= numAttrs
      invariant 1 <= key <= (if numAttrs < 0 then 0 else numAttrs) + 1
      invariant |rows| == key - 1
      invariant forall k :: 1 <= k <= |rows| ==> rows[k - 1] == LenOf(lens, k)
    {
      var num := if key in lens then lens[key] else 0;
      rows := rows + [num];
      key := key + 1;
    }
  }

  class NestedSTAR {
    var root: Node
    var threshold: int
    var order: int
    var numMeasurements: int

    /**
     * The root node is valid and does not contain this object, its trie is
     * well counted, and no more sequences were added than measurements
     * counted.
     */
    ghost predicate Valid()
      reads this, root, root.Repr
    {
      && this !in root.Repr
      && root.Valid()
      && WellCounted(root.Contents)
      && 0 <= Total(root.Contents) <= numMeasurements
    }

    /** NewNestedSTAR: an empty root node, the configured threshold and order, no measurements. */
    constructor (threshold: int, order: int)
      ensures Valid() && fresh(root.Repr)
      ensures root.Contents == EmptyTrie && numMeasurements == 0
      ensures this.threshold == threshold && this.order == order
    {
      root := new Node();
      this.threshold := threshold;
      this.order := order;
      numMeasurements := 0;
      EmptyTrieCounts();
    }

    /**
     * Counts the reports as measurements and adds each one's ordering to
     * the trie, in order.  A version that cannot be parsed stops the run
     * (the source exits the program there).
     */
    method AddReports(versions: LastVersions, attrSet: int, reports: seq<P3AMeasurement>) returns (result: Result<(), VersionError>)
      requires Valid() && IsAttrSet(attrSet) && versions !in root.Repr
      modifies this, root.Repr, versions
      ensures Valid()
      ensures root == old(root) && threshold == old(threshold) && order == old(order)
      ensures numMeasurements == old(numMeasurements) + |reports|
      ensures result.Err? <==> OrderAll(old(versions.table), attrSet, order, reports).Err?
      ensures result.Ok? ==>
        && root.Contents == TrieAddAll(old(root.Contents), OrderAll(old(versions.table), attrSet, order, reports).value.value)
        && versions.table == OrderAll(old(versions.table), attrSet, order, reports).value.table
        && Total(root.Contents) == old(Total(root.Contents)) + |reports|
    {
      numMeasurements := numMeasurements + |reports|;
      ghost var c0 := root.Contents;
      ghost var added;
      result, added := AddAll(root, versions, attrSet, order, reports, this);
      AddAllCounts(c0, added);
    }

    /**
     * Aggregates the trie with the number of attributes as the last depth:
     * the state, whether it adds up (always), the number of partial
     * measurements of each length 1 to numAttrs, the shares of full and
     * partial measurements (fractions, not percentages), and the trie's
     * tags and leaf tags.
     */
    method Aggregate(numAttrs: int) returns (state: AggregationState, addsUp: bool, lenPartial: seq<int>,
                                            fracFull: real, fracPart: real, numTags: int, numLeafTags: int)
      requires Valid()
      ensures fresh(state)
      ensures state.Value() == AggSpec(root.Contents, numAttrs, threshold, RootDepth)
      ensures addsUp
      ensures |lenPartial| == (if numAttrs < 0 then 0 else numAttrs)
      ensures forall key :: 1 <= key <= |lenPartial| ==> lenPartial[key - 1] == LenOf(state.lenPartialMsmts, key)
      ensures fracFull == Frac(state.fullMsmts, numMeasurements) && fracPart == Frac(state.partialMsmts, numMeasurements)
      ensures fracFull + fracPart <= 1.0
      ensures numTags == Tags(root.Contents) && numLeafTags == LeafTags(root.Contents) && numLeafTags <= numTags
    {
      var r := root;
      ghost var t := r.Contents;
      state := r.Aggregate(numAttrs, threshold, []);
      RootAggAddsUp(t, numAttrs, threshold);
      RootAggAtMostTotal(t, numAttrs, threshold);
      addsUp := state.AddsUp();
      lenPartial := LenPartialRows(state.lenPartialMsmts, numAttrs);
      FracSumAtMostOne(state.fullMsmts, state.partialMsmts, numMeasurements);
      fracFull := Frac(state.fullMsmts, numMeasurements);
      fracPart := Frac(state.partialMsmts, numMeasurements);
      numTags := r.NumTags();
      numLeafTags := r.NumLeafTags();
      LeafTagsAtMostTags(t);
    }
  }
}
