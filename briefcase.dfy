/**
 * The briefcase: the shuffler files incoming reports by crowd ID until a
 * batch is shuffled out.  Reports are kept in a map from crowd ID to the
 * list of that ID's reports, in arrival order.
 */
module Briefcases {
  import opened Folds
  import Text

  /** A report as the briefcase files it: the crowd ID it belongs to and its payload. */
  datatype Report = Report(crowdID: string, payload: seq<bv8>)

  /** The briefcase's contents: each crowd ID's reports, in the order they were added. */
  type Filing = map<string, seq<Report>>

  // ---------------------------------------------------------------------------
  // What a filing holds
  // ---------------------------------------------------------------------------

  /** The number of reports of crowd ID c, an absent ID counting as none. */
  function ListLen(m: Filing, c: string): int
  {
    if c in m then |m[c]| else 0
  }

  function ListLens(m: Filing): string -> int
  {
    c => ListLen(m, c)
  }

  /** NumReports: the number of reports over all crowd IDs. */
  ghost function CountReports(m: Filing): int
  {
    Sum(m.Keys, ListLens(m))
  }

  /** The reports of crowd ID c, as a bag. */
  function ListBag(m: Filing, c: string): multiset<Report>
  {
    if c in m then multiset(m[c]) else multiset{}
  }

  function ListBags(m: Filing): string -> multiset<Report>
  {
    c => ListBag(m, c)
  }

  function BagUnion(a: multiset<Report>, b: multiset<Report>): multiset<Report>
  {
    a + b
  }

  /** Every report in the briefcase, as a bag. */
  ghost function Pool(m: Filing): multiset<Report>
  {
    Fold(m.Keys, ListBags(m), multiset{}, BagUnion)
  }

  lemma BagUnionIsCommutativeMonoid()
    ensures IsCommutativeMonoid(multiset{}, BagUnion)
  {
    assert forall a: multiset<Report> :: BagUnion(multiset{}, a) == a;
    assert forall a: multiset<Report>, b :: BagUnion(a, b) == BagUnion(b, a);
    assert forall a: multiset<Report>, b, c :: BagUnion(BagUnion(a, b), c) == BagUnion(a, BagUnion(b, c));
  }

  /** The bag of all reports holds exactly NumReports reports. */
  lemma PoolSize(m: Filing)
    ensures |Pool(m)| == CountReports(m)
  {
    BagUnionIsCommutativeMonoid();
    var h := (b: multiset<Report>) => |b|;
    forall c | c in m.Keys
      ensures ListLens(m)(c) == h(ListBags(m)(c))
    {
      assert ListBags(m)(c) == multiset(m[c]);
    }
    FoldToSum(m.Keys, ListBags(m), multiset{}, BagUnion, h, ListLens(m));
  }

  // ---------------------------------------------------------------------------
  // Add
  // ---------------------------------------------------------------------------

  /** The filing after Add(r). */
  function Filed(m: Filing, r: Report): Filing
  {
    if r.crowdID !in m then m[r.crowdID := [r]] else m[r.crowdID := m[r.crowdID] + [r]]
  }

  /** Add puts r at the end of its crowd ID's list, a new ID starting a list of one, and leaves every other ID alone. */
  lemma FiledShape(m: Filing, r: Report)
    ensures Filed(m, r).Keys == m.Keys + {r.crowdID}
    ensures forall c :: c in m && c != r.crowdID ==> Filed(m, r)[c] == m[c]
    ensures Filed(m, r)[r.crowdID] == (if r.crowdID in m then m[r.crowdID] else []) + [r]
  {
  }

  /** Add files one more report; the number of crowd IDs grows by one exactly when the ID is new. */
  lemma FiledCounts(m: Filing, r: Report)
    ensures CountReports(Filed(m, r)) == CountReports(m) + 1
    ensures |Filed(m, r)| == |m| + (if r.crowdID in m then 0 else 1)
  {
    FiledShape(m, r);
    var m', c := Filed(m, r), r.crowdID;
    var f, f' := ListLens(m), ListLens(m');
    SumRemove(m'.Keys, f', c);
    SumExt(m'.Keys - {c}, f', f);
    assert f'(c) == f(c) + 1;
    if c in m {
      SumRemove(m.Keys, f, c);
      assert m'.Keys - {c} == m.Keys - {c};
    } else {
      assert m'.Keys - {c} == m.Keys;
      assert m'.Keys == m.Keys + {c};
    }
  }

  /** Add puts r, and nothing else, into the pool of reports. */
  lemma FiledPool(m: Filing, r: Report)
    ensures Pool(Filed(m, r)) == Pool(m) + multiset{r}
  {
    BagUnionIsCommutativeMonoid();
    FiledShape(m, r);
    var m', c := Filed(m, r), r.crowdID;
    var f, f' := ListBags(m), ListBags(m');
    FoldRemove(m'.Keys, f', multiset{}, BagUnion, c);
    FoldExt(m'.Keys - {c}, f', f, multiset{}, BagUnion);
    assert f'(c) == f(c) + multiset{r};
    if c in m {
      FoldRemove(m.Keys, f, multiset{}, BagUnion, c);
      assert m'.Keys - {c} == m.Keys - {c};
    } else {
      assert m'.Keys - {c} == m.Keys;
      assert f(c) == multiset{};
    }
  }

  /** The payload of the test fixture's reports, the bytes of "foo". */
  const FixturePayload: seq<bv8> := [0x66, 0x6f, 0x6f]

  /** The test fixture names crowd ID number i by writing i in decimal. */
  function Decimal(): int -> string
  {
    i => Text.FormatInt(i)
  }

  /** The test fixture: n reports added in turn, report i under the crowd ID named i mod k. */
  function FullFiling(n: nat, k: int, name: int -> string): Filing
    requires k > 0
  {
    if n == 0 then map[] else Filed(FullFiling(n - 1, k, name), Report(name(Slot(n - 1, k)), FixturePayload))
  }

  /** The crowd ID number of the fixture's report i: i mod k. */
  function Slot(i: nat, k: int): (j: nat)
    requires k > 0
    ensures j < k
    ensures i < k ==> j == i
  {
    i % k
  }

  /** The names of 0 .. j - 1. */
  function Names(j: nat, name: int -> string): set<string>
  {
    if j == 0 then {} else Names(j - 1, name) + {name(j - 1)}
  }

  ghost predicate InjectiveBelow(name: int -> string, k: int)
  {
    forall a, b :: 0 <= a < k && 0 <= b < k && name(a) == name(b) ==> a == b
  }

  /** Distinct numbers have distinct decimal names. */
  lemma DecimalInjective(k: int)
    ensures InjectiveBelow(Decimal(), k)
  {
    forall a, b | 0 <= a < k && 0 <= b < k && Decimal()(a) == Decimal()(b)
      ensures a == b
    {
      Text.FormatIntInjective(a, b);
    }
  }

  lemma {:induction false} NamesHolds(j: nat, k: int, name: int -> string, x: int)
    requires j <= k && InjectiveBelow(name, k) && 0 <= x < k
    ensures name(x) in Names(j, name) <==> x < j
  {
    if j > 0 {
      NamesHolds(j - 1, k, name, x);
    }
  }

  lemma {:induction false} NamesSize(j: nat, k: int, name: int -> string)
    requires j <= k && InjectiveBelow(name, k)
    ensures |Names(j, name)| == j
  {
    if j > 0 {
      NamesSize(j - 1, k, name);
      NamesHolds(j - 1, k, name, j - 1);
    }
  }

  /** The fixture's crowd IDs are the names of 0 .. min(n, k) - 1. */
  lemma {:induction false} FullFilingIDs(n: nat, k: int, name: int -> string)
    requires k > 0 && InjectiveBelow(name, k)
    ensures FullFiling(n, k, name).Keys == Names(if n < k then n else k, name)
  {
    if n > 0 {
      FullFilingIDs(n - 1, k, name);
      var m, id := FullFiling(n - 1, k, name), name(Slot(n - 1, k));
      FiledShape(m, Report(id, FixturePayload));
      if n - 1 >= k {
        NamesHolds(k, k, name, Slot(n - 1, k));
        assert Names(k, name) + {id} == Names(k, name);
      }
    }
  }

  lemma {:induction false} FullFilingReports(n: nat, k: int, name: int -> string)
    requires k > 0
    ensures CountReports(FullFiling(n, k, name)) == n
  {
    if n > 0 {
      var m, r := FullFiling(n - 1, k, name), Report(name(Slot(n - 1, k)), FixturePayload);
      calc {
        CountReports(FullFiling(n, k, name));
        CountReports(Filed(m, r));
        { FiledCounts(m, r); }
        CountReports(m) + 1;
        { FullFilingReports(n - 1, k, name); }
        n;
      }
    } else {
      assert FullFiling(n, k, name).Keys == {};
    }
  }

  /** Filing n reports over k decimal crowd IDs in turn gives n reports under min(n, k) crowd IDs. */
  lemma FullFilingCounts(n: nat, k: int)
    requires k > 0
    ensures CountReports(FullFiling(n, k, Decimal())) == n
    ensures |FullFiling(n, k, Decimal())| == if n < k then n else k
  {
    DecimalInjective(k);
    FullFilingReports(n, k, Decimal());
    FullFilingIDs(n, k, Decimal());
    NamesSize(if n < k then n else k, k, Decimal());
  }

  // ---------------------------------------------------------------------------
  // DumpFewerThan
  // ---------------------------------------------------------------------------

  /** The filing after DumpFewerThan(min): the crowd IDs with at least min reports, their lists as they were. */
  function Kept(m: Filing, min: int): Filing
  {
    map c | c in m && |m[c]| >= min :: m[c]
  }

  /** DumpFewerThan's loop part way: the IDs still to visit are all there, the others kept only with min reports. */
  function KeptExcept(m: Filing, min: int, pending: set<string>): Filing
  {
    map c | c in m && (c in pending || |m[c]| >= min) :: m[c]
  }

  /** DumpFewerThan deletes exactly the crowd IDs with fewer than min reports and leaves the lists it keeps alone. */
  lemma KeptExactly(m: Filing, min: int)
    ensures forall c :: c in Kept(m, min) <==> c in m && |m[c]| >= min
    ensures forall c :: c in Kept(m, min) ==> Kept(m, min)[c] == m[c] && |Kept(m, min)[c]| >= min
  {
  }

  /** Dumping twice with the same minimum dumps nothing more. */
  lemma KeptIdempotent(m: Filing, min: int)
    ensures Kept(Kept(m, min), min) == Kept(m, min)
  {
    assert Kept(Kept(m, min), min).Keys == Kept(m, min).Keys;
  }

  /** A minimum no larger than every list keeps every crowd ID. */
  lemma KeptNothingShort(m: Filing, min: int)
    requires forall c :: c in m ==> |m[c]| >= min
    ensures Kept(m, min) == m
  {
    assert Kept(m, min).Keys == m.Keys;
  }

  /** Dumping with one minimum and then another is dumping with the larger. */
  lemma KeptTwice(m: Filing, a: int, b: int)
    ensures Kept(Kept(m, a), b) == Kept(m, if a < b then b else a)
  {
    assert Kept(Kept(m, a), b).Keys == Kept(m, if a < b then b else a).Keys;
  }

  /** Dumping never adds reports. */
  lemma KeptCounts(m: Filing, min: int)
    ensures CountReports(Kept(m, min)) <= CountReports(m)
    ensures |Kept(m, min)| <= |m|
  {
    var k := Kept(m, min);
    var f, g := ListLens(k), ListLens(m);
    forall c | c in m.Keys
      ensures f(c) <= g(c) && 0 <= g(c)
    {
    }
    SumSubset(k.Keys, m.Keys, f);
    SumMono(m.Keys, f, g);
    assert k.Keys <= m.Keys;
    SetSizeMono(k.Keys, m.Keys);
  }

  lemma {:induction false} SetSizeMono<T>(a: set<T>, b: set<T>)
    requires a <= b
    ensures |a| <= |b|
    decreases b
  {
    if a != {} {
      var x :| x in a;
      SetSizeMono(a - {x}, b - {x});
    }
  }

  /** Visiting one more ID of DumpFewerThan's loop: delete it when its list is short. */
  lemma KeptExceptStep(m: Filing, min: int, pending: set<string>, c: string)
    requires c in pending && c in m
    ensures |m[c]| < min ==> KeptExcept(m, min, pending) - {c} == KeptExcept(m, min, pending - {c})
    ensures |m[c]| >= min ==> KeptExcept(m, min, pending) == KeptExcept(m, min, pending - {c})
  {
    if |m[c]| < min {
      assert (KeptExcept(m, min, pending) - {c}).Keys == KeptExcept(m, min, pending - {c}).Keys;
    } else {
      assert KeptExcept(m, min, pending).Keys == KeptExcept(m, min, pending - {c}).Keys;
    }
  }

  /** The ends of DumpFewerThan's loop: every ID pending is the filing itself, none pending is Kept. */
  lemma KeptExceptEnds(m: Filing, min: int)
    ensures KeptExcept(m, min, m.Keys) == m
    ensures KeptExcept(m, min, {}) == Kept(m, min)
  {
    assert KeptExcept(m, min, m.Keys).Keys == m.Keys;
  }

  // ---------------------------------------------------------------------------
  // The briefcase
  // ---------------------------------------------------------------------------

  class Briefcase {
    /** Each crowd ID's reports, in the order they were added. */
    var reports: Filing

    /** NewBriefcase: no reports. */
    constructor ()
      ensures reports == map[]
    {
      reports := map[];
    }

    /** Forgets every report. */
    method Empty()
      modifies this
      ensures reports == map[]
    {
      reports := map[];
    }

    /** Files r at the end of its crowd ID's list. */
    method Add(r: Report)
      modifies this
      ensures reports == Filed(old(reports), r)
    {
      if r.crowdID !in reports {
        reports := reports[r.crowdID := [r]];
      } else {
        reports := reports[r.crowdID := reports[r.crowdID] + [r]];
      }
    }

    /** Deletes, while walking the map, every crowd ID holding fewer than min reports. */
    method DumpFewerThan(min: int)
      modifies this
      ensures reports == Kept(old(reports), min)
    {
      ghost var m := reports;
      KeptExceptEnds(m, min);
      var remaining := reports.Keys;
      while remaining != {}
        invariant remaining <= m.Keys
        invariant reports == KeptExcept(m, min, remaining)
        decreases remaining
      {
        var c :| c in remaining;
        KeptExceptStep(m, min, remaining, c);
        if |reports[c]| < min {
          reports := reports - {c};
        }
        remaining := remaining - {c};
      }
    }

    /** The number of crowd IDs holding reports. */
    method NumCrowdIDs() returns (n: int)
      ensures n == |reports.Keys|
    {
      n := |reports|;
    }

    /** The number of reports over all crowd IDs, summing the lists in the map's order. */
    method NumReports() returns (num: int)
      ensures num == CountReports(reports)
    {
      var m := reports;
      num := 0;
      var remaining := m.Keys;
      while remaining != {}
        invariant remaining <= m.Keys
        invariant num + Sum(remaining, ListLens(m)) == CountReports(m)
        decreases remaining
      {
        var c :| c in remaining;
        SumRemove(remaining, ListLens(m), c);
        num := num + |m[c]|;
        remaining := remaining - {c};
      }
    }

    /**
     * Every report, gathered list by list in the map's order and then
     * shuffled in place: from the last position down to the second, each
     * position swaps with one at or before it.  The briefcase is left as it
     * was.
     */
    method Shuffle() returns (result: seq<Report>)
      ensures multiset(result) == Pool(reports)
      ensures |result| == CountReports(reports)
    {
      var m := reports;
      var all := Gather(m);
      var a := new Report[|all|](k requires 0 <= k < |all| => all[k]);
      assert a[..] == all;
      var i := a.Length - 1;
      while i > 0
        invariant i < a.Length
        invariant multiset(a[..]) == multiset(all)
        decreases i
      {
        var j :| 0 <= j <= i;
        Swap(a, i, j);
        i := i - 1;
      }
      result := a[..];
      PoolSize(m);
      assert |result| == |multiset(result)|;
    }
  }

  /** Shuffle's first loop: appends the lists in the map's order. */
  method Gather(m: Filing) returns (all: seq<Report>)
    ensures multiset(all) == Pool(m)
  {
    BagUnionIsCommutativeMonoid();
    all := [];
    var remaining := m.Keys;
    while remaining != {}
      invariant remaining <= m.Keys
      invariant BagUnion(multiset(all), Fold(remaining, ListBags(m), multiset{}, BagUnion)) == Pool(m)
      decreases remaining
    {
      var c :| c in remaining;
      FoldRemove(remaining, ListBags(m), multiset{}, BagUnion, c);
      assert ListBags(m)(c) == multiset(m[c]);
      all := all + m[c];
      remaining := remaining - {c};
    }
  }

  /** Exchanges two elements of an array; the elements, as a bag, stay the same. */
  method Swap(a: array<Report>, i: int, j: int)
    requires 0 <= i < a.Length && 0 <= j < a.Length
    modifies a
    ensures a[..] == old(a[..])[i := old(a[j])][j := old(a[i])]
    ensures multiset(a[..]) == multiset(old(a[..]))
  {
    a[i], a[j] := a[j], a[i];
  }
}
