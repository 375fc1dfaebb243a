/**
 * The replay script: an iterator that reads stored P3A measurements back
 * from a directory, one file at a time, and the loop that posts each of
 * them to the shuffler wrapped in brackets.
 *
 * The directory listing and the files' contents (as lists of lines) are
 * parameters; the HTTP post is modelled by collecting the bodies posted.
 */
module Replay {
  import opened Wrappers

  const Quote: char := '\''

  // ---------------------------------------------------------------------------
  // The quoted-substring search: the leftmost match of '([^']+)'
  // ---------------------------------------------------------------------------

  /** The first quote in s at or after position k. */
  function QuoteAfter(s: string, k: nat): (q: Option<nat>)
    ensures q.Some? ==> k <= q.value < |s| && s[q.value] == Quote
    ensures q.Some? ==> forall y :: k <= y < q.value ==> s[y] != Quote
    ensures q.None? ==> forall y :: k <= y < |s| ==> s[y] != Quote
    decreases |s| - k
  {
    if k >= |s| then None
    else if s[k] == Quote then Some(k)
    else QuoteAfter(s, k + 1)
  }

  /** The pattern matches at position i of s with group v: a quote, v (non-empty, quote-free), a quote. */
  ghost predicate MatchAt(s: string, i: int, v: string)
  {
    && 0 <= i
    && i + |v| + 1 < |s|
    && s[i] == Quote
    && |v| > 0
    && Quote !in v
    && s[i + 1..i + 1 + |v|] == v
    && s[i + 1 + |v|] == Quote
  }

  /** The search from position i: try each position in turn, as a regular-expression search does. */
  function QuotedFrom(s: string, i: nat): Option<(nat, string)>
    decreases |s| - i
  {
    if i >= |s| then None
    else if s[i] == Quote then
      match QuoteAfter(s, i + 1)
      case Some(q) => if q > i + 1 then Some((i, s[i + 1..q])) else QuotedFrom(s, i + 1)
      case None => QuotedFrom(s, i + 1)
    else QuotedFrom(s, i + 1)
  }

  /** The group of the leftmost match in s, if there is one. */
  function FirstQuoted(s: string): Option<string>
  {
    match QuotedFrom(s, 0)
    case None => None
    case Some(p) => Some(p.1)
  }

  /** A match at position j can only end at the first quote after j, and only when that quote is not next to j. */
  lemma MatchAtFirstQuote(s: string, j: nat, w: string)
    requires MatchAt(s, j, w)
    ensures QuoteAfter(s, j + 1) == Some(j + 1 + |w|)
    ensures w == s[j + 1..j + 1 + |w|]
  {
    var q := QuoteAfter(s, j + 1);
    assert s[j + 1 + |w|] == Quote;
    assert q.Some?;
  }

  /** The search finds the leftmost match, and finds none exactly when there is none at or after i. */
  lemma {:induction false} QuotedFromIsLeftmost(s: string, i: nat)
    ensures QuotedFrom(s, i).Some? ==>
      var (j, v) := QuotedFrom(s, i).value;
      i <= j && MatchAt(s, j, v) && forall k, w :: i <= k < j ==> !MatchAt(s, k, w)
    ensures QuotedFrom(s, i).None? ==> forall k, w :: i <= k ==> !MatchAt(s, k, w)
    decreases |s| - i
  {
    if i < |s| {
      QuotedFromIsLeftmost(s, i + 1);
      var q := QuoteAfter(s, i + 1);
      if s[i] == Quote && q.Some? && q.value > i + 1 {
        var v := s[i + 1..q.value];
        assert Quote !in v by {
          forall y | 0 <= y < |v| ensures v[y] != Quote {
            assert v[y] == s[i + 1 + y];
          }
        }
      } else {
        forall w | MatchAt(s, i, w)
          ensures false
        {
          MatchAtFirstQuote(s, i, w);
        }
      }
    }
  }

  /** The extracted value is a leftmost match, hence non-empty and free of quotes; none is returned only when nothing matches. */
  lemma FirstQuotedIsLeftmost(s: string)
    ensures FirstQuoted(s).Some? ==>
      var v := FirstQuoted(s).value;
      |v| > 0 && Quote !in v &&
      exists j :: MatchAt(s, j, v) && forall k, w :: 0 <= k < j ==> !MatchAt(s, k, w)
    ensures FirstQuoted(s).None? ==> forall k, w :: !MatchAt(s, k, w)
  {
    QuotedFromIsLeftmost(s, 0);
  }

  // ---------------------------------------------------------------------------
  // Extracting a file's measurements
  // ---------------------------------------------------------------------------

  /** The first line's match, once for each of the file's first n lines. */
  function Repeated(first: string, n: nat): seq<string>
  {
    match FirstQuoted(first)
    case None => []
    case Some(v) => seq(n, _ => v)
  }

  /** The measurements of a file: one per line, each the match in the file's first line. */
  function Extracted(lines: seq<string>): seq<string>
  {
    if |lines| == 0 then [] else Repeated(lines[0], |lines|)
  }

  /** A file yields one value per line when its first line holds a match, otherwise none; every value is that match. */
  lemma ExtractedShape(lines: seq<string>)
    ensures |lines| > 0 && FirstQuoted(lines[0]).Some? ==>
      |Extracted(lines)| == |lines| &&
      forall i :: 0 <= i < |lines| ==> Extracted(lines)[i] == FirstQuoted(lines[0]).value
    ensures |lines| == 0 || FirstQuoted(lines[0]).None? ==> Extracted(lines) == []
    ensures forall m :: m in Extracted(lines) ==> |m| > 0 && Quote !in m
  {
    if |lines| > 0 {
      FirstQuotedIsLeftmost(lines[0]);
    }
  }

  /** The extraction loop: for every line, search the first line and keep the match. */
  method ExtractMeasurements(lines: seq<string>) returns (ms: seq<string>)
    ensures ms == Extracted(lines)
  {
    ms := [];
    for i := 0 to |lines|
      invariant ms == if |lines| == 0 then [] else Repeated(lines[0], i)
    {
      var m := FirstQuoted(lines[0]);
      if m.Some? {
        ms := ms + [m.value];
      }
    }
  }

  // ---------------------------------------------------------------------------
  // Listing the directory
  // ---------------------------------------------------------------------------

  /** A directory entry: its name and whether it is a regular file. */
  datatype Entry = Entry(name: string, isFile: bool)

  /** The path of a directory entry: the directory and the name, with a separator unless the directory already ends in one. */
  function JoinPath(dir: string, name: string): string
  {
    if |dir| == 0 || dir[|dir| - 1] == '/' then dir + name else dir + "/" + name
  }

  /** The paths of the regular files of a listing, in listing order. */
  function FilePaths(dir: string, listing: seq<Entry>): (paths: seq<string>)
    ensures |paths| <= |listing|
    ensures forall p :: p in paths <==> exists e :: e in listing && e.isFile && p == JoinPath(dir, e.name)
  {
    if |listing| == 0 then []
    else (if listing[0].isFile then [JoinPath(dir, listing[0].name)] else []) + FilePaths(dir, listing[1..])
  }

  /** The paths keep the listing's order: listing a + b gives a's paths, then b's. */
  lemma {:induction false} FilePathsAppend(dir: string, a: seq<Entry>, b: seq<Entry>)
    ensures FilePaths(dir, a + b) == FilePaths(dir, a) + FilePaths(dir, b)
    decreases |a|
  {
    if |a| == 0 {
      assert a + b == b;
    } else {
      assert (a + b)[0] == a[0];
      assert (a + b)[1..] == a[1..] + b;
      FilePathsAppend(dir, a[1..], b);
    }
  }

  /** Code-point lexicographic order on strings, a proper prefix coming first. */
  predicate Below(a: string, b: string)
    decreases |a|
  {
    if |a| == 0 then |b| > 0
    else if |b| == 0 then false
    else if a[0] != b[0] then a[0] < b[0]
    else Below(a[1..], b[1..])
  }

  lemma {:induction false} BelowIrreflexive(a: string)
    ensures !Below(a, a)
    decreases |a|
  {
    if |a| > 0 {
      BelowIrreflexive(a[1..]);
    }
  }

  lemma {:induction false} BelowTransitive(a: string, b: string, c: string)
    requires Below(a, b) && Below(b, c)
    ensures Below(a, c)
    decreases |a|
  {
    if |a| > 0 && a[0] == b[0] && b[0] == c[0] {
      BelowTransitive(a[1..], b[1..], c[1..]);
    }
  }

  lemma {:induction false} BelowTotal(a: string, b: string)
    ensures a == b || Below(a, b) || Below(b, a)
    decreases |a|
  {
    if |a| > 0 && |b| > 0 && a[0] == b[0] {
      BelowTotal(a[1..], b[1..]);
      if a[1..] == b[1..] {
        assert a == [a[0]] + a[1..] && b == [b[0]] + b[1..];
      }
    }
  }

  /** No element comes before a later one: the order sorted(..., reverse=True) produces. */
  ghost predicate Descending(s: seq<string>)
  {
    forall i, j :: 0 <= i < j < |s| ==> !Below(s[i], s[j])
  }

  /** Inserts x into a descending list. */
  function InsertDescending(x: string, s: seq<string>): seq<string>
  {
    if |s| == 0 then [x]
    else if Below(s[0], x) then [x] + s
    else [s[0]] + InsertDescending(x, s[1..])
  }

  /** The list in descending order. */
  function SortDescending(s: seq<string>): seq<string>
  {
    if |s| == 0 then [] else InsertDescending(s[0], SortDescending(s[1..]))
  }

  /** A string above the head of a descending list is above all of it. */
  lemma AboveHead(x: string, s: seq<string>)
    requires Descending(s) && |s| > 0 && Below(s[0], x)
    ensures forall j :: 0 <= j < |s| ==> !Below(x, s[j])
  {
    forall j | 0 <= j < |s| && Below(x, s[j])
      ensures false
    {
      BelowTransitive(s[0], x, s[j]);
      if j == 0 {
        BelowIrreflexive(s[0]);
      }
    }
  }

  /** A head not below x is not below anything inserting x into the tail gives. */
  lemma HeadStaysFirst(x: string, s: seq<string>, t: seq<string>)
    requires Descending(s) && |s| > 0 && !Below(s[0], x)
    requires multiset(t) == multiset(s[1..]) + multiset{x} && Descending(t)
    ensures Descending([s[0]] + t)
  {
    forall y | y in multiset(t)
      ensures !Below(s[0], y)
    {
      if y != x {
        var j :| 0 <= j < |s[1..]| && s[1..][j] == y;
        assert s[j + 1] == y;
      }
    }
    forall i, j | 0 <= i < j < |[s[0]] + t|
      ensures !Below(([s[0]] + t)[i], ([s[0]] + t)[j])
    {
      if i == 0 {
        assert ([s[0]] + t)[j] in multiset(t);
      } else {
        assert ([s[0]] + t)[i] == t[i - 1] && ([s[0]] + t)[j] == t[j - 1];
      }
    }
  }

  lemma {:induction false} InsertDescendingSorts(x: string, s: seq<string>)
    requires Descending(s)
    ensures Descending(InsertDescending(x, s))
    ensures multiset(InsertDescending(x, s)) == multiset(s) + multiset{x}
  {
    if |s| > 0 {
      if Below(s[0], x) {
        AboveHead(x, s);
        assert ([x] + s)[1..] == s;
      } else {
        assert s == [s[0]] + s[1..];
        InsertDescendingSorts(x, s[1..]);
        HeadStaysFirst(x, s, InsertDescending(x, s[1..]));
      }
    }
  }

  /** Sorting yields a descending permutation of its input. */
  lemma {:induction false} SortDescendingSorts(s: seq<string>)
    ensures Descending(SortDescending(s))
    ensures multiset(SortDescending(s)) == multiset(s)
  {
    if |s| > 0 {
      SortDescendingSorts(s[1..]);
      InsertDescendingSorts(s[0], SortDescending(s[1..]));
      assert s == [s[0]] + s[1..];
    }
  }

  /** Popping the end of a descending list takes a least path and leaves a descending list. */
  lemma PopTakesLeast(files: seq<string>)
    requires Descending(files) && |files| > 0
    ensures forall p :: p in files ==> !Below(p, files[|files| - 1])
    ensures Descending(files[..|files| - 1])
  {
    forall p | p in files
      ensures !Below(p, files[|files| - 1])
    {
      var i :| 0 <= i < |files| && files[i] == p;
      if i == |files| - 1 {
        BelowIrreflexive(p);
      }
    }
  }

  // ---------------------------------------------------------------------------
  // The iterator
  // ---------------------------------------------------------------------------

  /** What one call of the iterator's next produces: a measurement, the end of iteration, or an exception. */
  datatype Step = Value(m: string) | Stop | IndexError | ReadError

  /** The iterator's state: the paths still to read, and the measurements read but not yet returned. */
  datatype ReaderState = ReaderState(files: seq<string>, cache: seq<string>)

  /**
   * One call of next on a state, the file system mapping paths to their
   * lines; a path missing from it fails to be read.
   */
  function Advance(st: ReaderState, fs: map<string, seq<string>>): (r: (Step, ReaderState))
    ensures r.0.Value? ==>
      |r.1.files| < |st.files| || (r.1.files == st.files && |r.1.cache| < |st.cache|)
    ensures |st.cache| == 0 && |st.files| > 0 ==> r.1.files == st.files[..|st.files| - 1]
    ensures |st.cache| > 0 ==> r == (Value(st.cache[0]), ReaderState(st.files, st.cache[1..]))
    ensures r.0 == Stop <==> |st.cache| == 0 && |st.files| == 0
    ensures r.0 == Stop ==> r.1 == st
    ensures r.0 == ReadError <==> |st.cache| == 0 && |st.files| > 0 && st.files[|st.files| - 1] !in fs
    ensures r.0 == IndexError <==>
      |st.cache| == 0 && |st.files| > 0 && st.files[|st.files| - 1] in fs && |Extracted(fs[st.files[|st.files| - 1]])| == 0
  {
    if |st.cache| > 0 then (Value(st.cache[0]), ReaderState(st.files, st.cache[1..]))
    else if |st.files| == 0 then (Stop, st)
    else
      var path, rest := st.files[|st.files| - 1], st.files[..|st.files| - 1];
      if path !in fs then (ReadError, ReaderState(rest, st.cache))
      else
        var ms := Extracted(fs[path]);
        if |ms| > 1 then (Value((st.cache + ms)[0]), ReaderState(rest, (st.cache + ms)[1..]))
        else if |ms| == 1 then (Value(ms[0]), ReaderState(rest, st.cache))
        else (IndexError, ReaderState(rest, st.cache))
  }

  /** The measurements the iterator produces from a state, and the step that ends the iteration. */
  function Drain(st: ReaderState, fs: map<string, seq<string>>): (r: (seq<string>, Step))
    ensures !r.1.Value?
    decreases |st.files|, |st.cache|
  {
    var (s, st') := Advance(st, fs);
    if s.Value? then
      var (vs, end) := Drain(st', fs);
      ([s.m] + vs, end)
    else ([], s)
  }

  /** One step of the iteration, as Drain sees it. */
  lemma DrainStep(st: ReaderState, fs: map<string, seq<string>>)
    ensures Advance(st, fs).0.Value? ==>
      Drain(st, fs) == ([Advance(st, fs).0.m] + Drain(Advance(st, fs).1, fs).0, Drain(Advance(st, fs).1, fs).1)
    ensures !Advance(st, fs).0.Value? ==> Drain(st, fs) == ([], Advance(st, fs).0)
  {
  }

  /** Every file's measurements, taking the files from the end of the list. */
  function Pending(files: seq<string>, fs: map<string, seq<string>>): seq<string>
  {
    if |files| == 0 then []
    else
      var path := files[|files| - 1];
      (if path in fs then Extracted(fs[path]) else []) + Pending(files[..|files| - 1], fs)
  }

  /** Every file can be read and yields at least one measurement. */
  ghost predicate AllYield(files: seq<string>, fs: map<string, seq<string>>)
  {
    forall p :: p in files ==> p in fs && |Extracted(fs[p])| > 0
  }

  /** When every file yields, the iterator produces the cache and then each file's measurements in turn, and stops. */
  lemma {:induction false} DrainAll(st: ReaderState, fs: map<string, seq<string>>)
    requires AllYield(st.files, fs)
    ensures Drain(st, fs) == (st.cache + Pending(st.files, fs), Stop)
    decreases |st.files|, |st.cache|, 1
  {
    if |st.cache| > 0 {
      var st' := ReaderState(st.files, st.cache[1..]);
      assert Advance(st, fs) == (Value(st.cache[0]), st');
      DrainValue(st, fs);
      DrainAll(st', fs);
      var p := Pending(st.files, fs);
      assert [st.cache[0]] + (st.cache[1..] + p) == st.cache + p;
    } else if |st.files| > 0 {
      DrainPop(st, fs);
      assert st.cache + Pending(st.files, fs) == Pending(st.files, fs);
    } else {
      assert Drain(st, fs) == ([], Stop);
      assert st.cache + Pending(st.files, fs) == [];
    }
  }

  /** With nothing cached, the iterator produces the last file's measurements and then the rest's. */
  lemma {:induction false} DrainPop(st: ReaderState, fs: map<string, seq<string>>)
    requires AllYield(st.files, fs) && |st.cache| == 0 && |st.files| > 0
    ensures Drain(st, fs) == (Pending(st.files, fs), Stop)
    decreases |st.files|, |st.cache|, 0
  {
    var path, rest := st.files[|st.files| - 1], st.files[..|st.files| - 1];
    var ms := Extracted(fs[path]);
    assert path in fs && |ms| > 0;
    assert AllYield(rest, fs) by {
      forall p | p in rest ensures p in st.files {
        var i :| 0 <= i < |rest| && rest[i] == p;
        assert st.files[i] == p;
      }
    }
    var st' := ReaderState(rest, ms[1..]);
    AdvancePop(st, fs);
    DrainValue(st, fs);
    DrainAll(st', fs);
    var p := Pending(rest, fs);
    assert Pending(st.files, fs) == ms + p;
    assert [ms[0]] + (ms[1..] + p) == ms + p;
  }

  /** With nothing cached, next reads the last file, returns its first measurement and caches the others. */
  lemma AdvancePop(st: ReaderState, fs: map<string, seq<string>>)
    requires |st.cache| == 0 && |st.files| > 0
    requires st.files[|st.files| - 1] in fs && |Extracted(fs[st.files[|st.files| - 1]])| > 0
    ensures var ms := Extracted(fs[st.files[|st.files| - 1]]);
      Advance(st, fs) == (Value(ms[0]), ReaderState(st.files[..|st.files| - 1], ms[1..]))
  {
    var ms := Extracted(fs[st.files[|st.files| - 1]]);
    assert st.cache + ms == ms;
    if |ms| == 1 {
      assert ms[1..] == [] == st.cache;
    }
  }

  /** A step that returns a measurement puts it in front of the rest of the iteration. */
  lemma DrainValue(st: ReaderState, fs: map<string, seq<string>>)
    requires Advance(st, fs).0.Value?
    ensures Drain(st, fs) == ([Advance(st, fs).0.m] + Drain(Advance(st, fs).1, fs).0, Drain(Advance(st, fs).1, fs).1)
  {
  }

  /** The iteration stops normally exactly when every file still to read yields a measurement. */
  lemma {:induction false} DrainStops(st: ReaderState, fs: map<string, seq<string>>)
    ensures Drain(st, fs).1 == Stop <==> AllYield(st.files, fs)
    decreases |st.files|, |st.cache|
  {
    if AllYield(st.files, fs) {
      DrainAll(st, fs);
    } else {
      var (s, st') := Advance(st, fs);
      if |st.cache| > 0 {
        DrainStops(st', fs);
      } else if |st.files| > 0 {
        var path, rest := st.files[|st.files| - 1], st.files[..|st.files| - 1];
        if path in fs && |Extracted(fs[path])| > 0 {
          assert !AllYield(rest, fs) by {
            forall p | p in st.files ensures p in rest || p == path {
              var i :| 0 <= i < |st.files| && st.files[i] == p;
              if i < |rest| {
                assert rest[i] == p;
              }
            }
          }
          DrainStops(st', fs);
        }
      }
    }
  }

  /** The body posted for one measurement: the measurement in brackets, a one-element JSON list. */
  function Body(m: string): (b: string)
    ensures |b| == |m| + 2 && b[0] == '[' && b[|b| - 1] == ']' && b[1..|b| - 1] == m
  {
    "[" + m + "]"
  }

  /** The bodies posted for a list of measurements, in order. */
  function Bodies(ms: seq<string>): (bs: seq<string>)
    ensures |bs| == |ms| && forall i :: 0 <= i < |ms| ==> bs[i] == Body(ms[i])
  {
    if |ms| == 0 then [] else [Body(ms[0])] + Bodies(ms[1..])
  }

  lemma {:induction false} BodiesSnoc(ms: seq<string>, m: string)
    ensures Bodies(ms + [m]) == Bodies(ms) + [Body(m)]
  {
    assert |Bodies(ms + [m])| == |Bodies(ms) + [Body(m)]|;
  }

  class S3FileReader {
    const dir: string
    /** The paths still to read, read from the end. */
    var files: seq<string>
    /** Measurements read but not yet returned, returned from the front. */
    var cache: seq<string>

    function State(): ReaderState
      reads this
    {
      ReaderState(files, cache)
    }

    constructor (directory: string)
      ensures dir == directory && files == [] && cache == []
    {
      dir := directory;
      files := [];
      cache := [];
    }

    /** Starting the iteration: list the regular files' paths, greatest first; the cache is kept. */
    method Iter(listing: seq<Entry>)
      modifies this
      ensures files == SortDescending(FilePaths(dir, listing)) && cache == old(cache)
      ensures Descending(files) && multiset(files) == multiset(FilePaths(dir, listing))
    {
      files := SortDescending(FilePaths(dir, listing));
      SortDescendingSorts(FilePaths(dir, listing));
    }

    /**
     * The next measurement: from the cache while it holds any, otherwise
     * from the last path, whose extra measurements go to the cache.
     */
    method Next(fs: map<string, seq<string>>) returns (s: Step)
      modifies this
      ensures (s, State()) == Advance(old(State()), fs)
    {
      if |cache| > 0 {
        s := Value(cache[0]);
        cache := cache[1..];
        return;
      }
      if |files| == 0 {
        return Stop;
      }
      var path := files[|files| - 1];
      files := files[..|files| - 1];
      if path !in fs {
        return ReadError;
      }
      var ms := ExtractMeasurements(fs[path]);
      if |ms| > 1 {
        cache := cache + ms;
        s := Value(cache[0]);
        cache := cache[1..];
      } else if |ms| == 1 {
        s := Value(ms[0]);
      } else {
        s := IndexError;
      }
    }
  }

  /** A fresh reader over a listing, just started: every regular file's path, greatest first, and nothing cached. */
  function Started(directory: string, listing: seq<Entry>): ReaderState
  {
    ReaderState(SortDescending(FilePaths(directory, listing)), [])
  }

  /**
   * The replay: iterate a fresh reader over the directory and post each
   * measurement in brackets; the iteration ends normally or with the
   * exception that stops the script.
   */
  method ReplayData(directory: string, listing: seq<Entry>, fs: map<string, seq<string>>)
    returns (posted: seq<string>, outcome: Step)
    ensures posted == Bodies(Drain(Started(directory, listing), fs).0)
    ensures outcome == Drain(Started(directory, listing), fs).1
    ensures outcome == Stop <==> AllYield(Started(directory, listing).files, fs)
  {
    var reader := new S3FileReader(directory);
    reader.Iter(listing);
    posted, outcome := PostAll(reader, fs);
    DrainStops(Started(directory, listing), fs);
  }

  /** The replay loop: post the bracketed body of every measurement the reader produces, until it stops. */
  method PostAll(reader: S3FileReader, fs: map<string, seq<string>>) returns (posted: seq<string>, outcome: Step)
    modifies reader
    ensures posted == Bodies(Drain(old(reader.State()), fs).0)
    ensures outcome == Drain(old(reader.State()), fs).1
  {
    ghost var values: seq<string> := [];
    ghost var start := reader.State();
    ghost var rest := Drain(start, fs);
    assert values + rest.0 == rest.0;
    posted := [];
    while true
      invariant Drain(start, fs) == (values + rest.0, rest.1)
      invariant rest == Drain(reader.State(), fs)
      invariant posted == Bodies(values)
      decreases |reader.files|, |reader.cache|
    {
      ghost var before := reader.State();
      var s := reader.Next(fs);
      DrainStep(before, fs);
      if !s.Value? {
        outcome := s;
        assert values + [] == values;
        return;
      }
      BodiesSnoc(values, s.m);
      assert values + rest.0 == (values + [s.m]) + Drain(reader.State(), fs).0;
      rest := Drain(reader.State(), fs);
      posted := posted + [Body(s.m)];
      values := values + [s.m];
    }
  }
}
