/**
 The two programs that summarise the DeepFlow tables: the collector, with one-pass
 accumulators for every size, and the averages drawn by the plotter. The uprobe
 benchmark summarises its timings by the same moments.
 */
module Collector {
  import opened Options
  import opened Moments
  import opened ResultTable

  datatype Key = Request | Transfer

  function Value(row: Row<real>, key: Key): real {
    match key case Request => row.request case Transfer => row.transfer
  }

  /** All the rows of the given files. */
  function Flat<T>(details: seq<seq<T>>): seq<T> {
    if details == [] then [] else Flat(details[..|details| - 1]) + details[|details| - 1]
  }

  function Sizes(rows: seq<Row<real>>): set<int> {
    set i | 0 <= i < |rows| :: rows[i].size
  }

  /** What the rows of one size say about `key`. */
  function Values(rows: seq<Row<real>>, size: int, key: Key): seq<real> {
    if rows == [] then []
    else
      var front, last := Values(rows[..|rows| - 1], size, key), rows[|rows| - 1];
      if last.size == size then front + [Value(last, key)] else front
  }

  lemma {:induction false} SizeIffValues(rows: seq<Row<real>>, size: int, key: Key)
    ensures size in Sizes(rows) <==> Values(rows, size, key) != []
  {
    if rows != [] {
      var front, last := rows[..|rows| - 1], rows[|rows| - 1];
      SizeIffValues(front, size, key);
      assert rows == front + [last];
      SizesOfOneMore(front, last);
    }
  }

  lemma SizesOfOneMore(rows: seq<Row<real>>, row: Row<real>)
    ensures Sizes(rows + [row]) == Sizes(rows) + {row.size}
  {
    var more := rows + [row];
    assert more[|rows|] == row;
    forall size | size in Sizes(rows) ensures size in Sizes(more) {
      var i :| 0 <= i < |rows| && rows[i].size == size;
      assert more[i] == rows[i];
    }
  }

  lemma ValuesOfOneMore(rows: seq<Row<real>>, row: Row<real>, size: int, key: Key)
    ensures Values(rows + [row], size, key) ==
      if row.size == size then Values(rows, size, key) + [Value(row, key)] else Values(rows, size, key)
  {
    assert (rows + [row])[..|rows|] == rows;
  }

  // ---------- The accumulators of the collector ----------

  /** `None` stands for the infinities that the extremes start from. */
  datatype Acc = Acc(count: nat, avg: real, min: Option<real>, max: Option<real>, sqrDev: real) {
    function Add(x: real): Acc {
      Acc(count + 1, avg + x,
          Some(if min.Some? && min.value <= x then min.value else x),
          Some(if max.Some? && max.value >= x then max.value else x),
          sqrDev + Square()(x))
    }
  }

  const START := Acc(0, 0.0, None, None, 0.0)

  /** What the accumulator holds after these values. */
  function AccOf(xs: seq<real>): Acc {
    if xs == [] then START
    else Acc(|xs|, Sum(xs), Some(Least(xs)), Some(Greatest(xs)), SumSquares(xs))
  }

  lemma AccOfOneMore(xs: seq<real>, x: real)
    ensures AccOf(xs + [x]) == AccOf(xs).Add(x)
  {
    SumOfOneMore(Identity(), xs, x);
    SumOfOneMore(Square(), xs, x);
    ExtremesOfOneMore(xs, x);
  }

  ghost predicate AccumulatedAt(size: int, t: Acc, rows: seq<Row<real>>, key: Key) {
    t == AccOf(Values(rows, size, key))
  }

  ghost predicate Accumulated(sizes: map<int, Acc>, rows: seq<Row<real>>, key: Key) {
    && sizes.Keys == Sizes(rows)
    && forall size :: size in sizes ==> AccumulatedAt(size, sizes[size], rows, key)
  }

  /** The entry of a defaultdict. */
  function Entry(sizes: map<int, Acc>, size: int): Acc {
    if size in sizes then sizes[size] else START
  }

  /** One row goes to its own size. */
  lemma AccumulatedAtStep(size: int, t: Acc, rows: seq<Row<real>>, row: Row<real>, key: Key)
    requires AccumulatedAt(size, t, rows, key)
    ensures AccumulatedAt(size, if row.size == size then t.Add(Value(row, key)) else t, rows + [row], key)
  {
    ValuesOfOneMore(rows, row, size, key);
    AccOfOneMore(Values(rows, size, key), Value(row, key));
  }

  lemma StartAccumulated(rows: seq<Row<real>>, size: int, key: Key)
    requires size !in Sizes(rows)
    ensures AccumulatedAt(size, START, rows, key)
  {
    SizeIffValues(rows, size, key);
  }

  lemma AccumulatedStep(sizes: map<int, Acc>, rows: seq<Row<real>>, row: Row<real>, key: Key)
    requires Accumulated(sizes, rows, key)
    ensures Accumulated(sizes[row.size := Entry(sizes, row.size).Add(Value(row, key))], rows + [row], key)
  {
    SizesOfOneMore(rows, row);
    if row.size !in sizes {
      StartAccumulated(rows, row.size, key);
    }
    AccumulatedAtStep(row.size, Entry(sizes, row.size), rows, row, key);
    forall size | size in sizes && size != row.size ensures AccumulatedAt(size, sizes[size], rows + [row], key) {
      AccumulatedAtStep(size, sizes[size], rows, row, key);
    }
  }

  lemma FlatOfOneMore<T>(details: seq<seq<T>>, i: nat)
    requires i < |details|
    ensures Flat(details[..i + 1]) == Flat(details[..i]) + details[i]
  {
    assert details[..i + 1][..i] == details[..i];
  }

  method Accumulate(details: seq<seq<Row<real>>>, key: Key) returns (sizes: map<int, Acc>)
    ensures Accumulated(sizes, Flat(details), key)
  {
    sizes := map[];
    for i := 0 to |details|
      invariant Accumulated(sizes, Flat(details[..i]), key)
    {
      var entry := details[i];
      ghost var before := Flat(details[..i]);
      assert before + entry[..0] == before;
      for j := 0 to |entry|
        invariant Accumulated(sizes, before + entry[..j], key)
      {
        AccumulatedStep(sizes, before + entry[..j], entry[j], key);
        assert before + entry[..j] + [entry[j]] == before + entry[..j + 1];
        sizes := sizes[entry[j].size := Entry(sizes, entry[j].size).Add(Value(entry[j], key))];
      }
      assert entry[..|entry|] == entry;
      FlatOfOneMore(details, i);
    }
    assert details[..|details|] == details;
  }

  /** The division by the count. */
  function Divided(t: Acc): Stat
    requires t.count > 0 && t.min.Some? && t.max.Some?
  {
    var avg := t.avg / t.count as real;
    Stat(avg, t.min.value, t.max.value, t.sqrDev / t.count as real - avg * avg, t.count)
  }

  /** The accumulated sums give the defined statistics. */
  lemma DividedIsStat(xs: seq<real>)
    requires xs != []
    ensures Divided(AccOf(xs)) == StatOf(xs)
  {
    OnePassVariance(xs);
    assert Divided(AccOf(xs)).avg == Mean(xs);
  }

  // ---------- The collected statistics ----------

  datatype SizeStat = SizeStat(size: int, stat: Stat)

  ghost predicate SortedBySize(list: seq<SizeStat>) {
    forall i, j :: 0 <= i < j < |list| ==> list[i].size < list[j].size
  }

  function SizesOf(list: seq<SizeStat>): set<int> {
    set i | 0 <= i < |list| :: list[i].size
  }

  /** The statistics of all the values at this size. */
  ghost predicate DescribedBy(size: int, stat: Stat, rows: seq<Row<real>>, key: Key) {
    Values(rows, size, key) != [] && stat == StatOf(Values(rows, size, key))
  }

  /** By definition: one entry for every size that occurs, in ascending order, with the
      statistics of all the values at that size. */
  ghost predicate IsStatistics(list: seq<SizeStat>, rows: seq<Row<real>>, key: Key) {
    && SortedBySize(list)
    && SizesOf(list) == Sizes(rows)
    && forall i :: 0 <= i < |list| ==> DescribedBy(list[i].size, list[i].stat, rows, key)
  }

  lemma HasMember(s: set<int>)
    requires s != {}
    ensures exists x :: x in s
  {
    if forall x :: x !in s {
      assert false;
    }
  }

  lemma HasLeast(s: set<int>) returns (least: int)
    requires s != {}
    ensures least in s && forall x :: x in s ==> least <= x
    decreases |s|
  {
    HasMember(s);
    least :| least in s;
    var others := s - {least};
    assert forall x :: x in s ==> x == least || x in others;
    if others != {} {
      var y := HasLeast(others);
      if y < least {
        least := y;
      }
    }
  }

  lemma SizesOfMore(list: seq<SizeStat>, entry: SizeStat)
    ensures SizesOf(list + [entry]) == SizesOf(list) + {entry.size}
  {
    var more := list + [entry];
    assert more[|list|] == entry;
    forall size | size in SizesOf(list) ensures size in SizesOf(more) {
      var i :| 0 <= i < |list| && list[i].size == size;
      assert more[i] == list[i];
    }
  }

  predicate Nonempty(sizes: map<int, Acc>) {
    forall size :: size in sizes ==> sizes[size].count > 0 && sizes[size].min.Some? && sizes[size].max.Some?
  }

  /** The second loop: the sums become averages. */
  method DivideSums(sizes: map<int, Acc>) returns (stats: map<int, Stat>)
    requires Nonempty(sizes)
    ensures stats.Keys == sizes.Keys
    ensures forall size :: size in stats ==> stats[size] == Divided(sizes[size])
  {
    stats := map[];
    var rest := sizes.Keys;
    while rest != {}
      invariant rest <= sizes.Keys && stats.Keys == sizes.Keys - rest
      invariant forall size :: size in stats ==> stats[size] == Divided(sizes[size])
      decreases |rest|
    {
      HasMember(rest);
      var size :| size in rest;
      stats := stats[size := Divided(sizes[size])];
      rest := rest - {size};
    }
  }

  ghost predicate Below(list: seq<SizeStat>, rest: set<int>) {
    forall i :: 0 <= i < |list| ==> forall x :: x in rest ==> list[i].size < x
  }

  ghost predicate TakenFrom(list: seq<SizeStat>, stats: map<int, Stat>) {
    forall i :: 0 <= i < |list| ==> list[i].size in stats && list[i].stat == stats[list[i].size]
  }

  lemma NextInOrder(list: seq<SizeStat>, stats: map<int, Stat>, rest: set<int>, size: int)
    requires SortedBySize(list) && Below(list, rest) && TakenFrom(list, stats)
    requires size in rest && size in stats && forall x :: x in rest ==> size <= x
    ensures var more := list + [SizeStat(size, stats[size])];
      && SortedBySize(more) && Below(more, rest - {size}) && TakenFrom(more, stats)
      && SizesOf(more) == SizesOf(list) + {size}
  {
    SizesOfMore(list, SizeStat(size, stats[size]));
  }

  /** sorted(...) by size. */
  method SortBySize(stats: map<int, Stat>) returns (list: seq<SizeStat>)
    ensures SortedBySize(list) && SizesOf(list) == stats.Keys && TakenFrom(list, stats)
  {
    list := [];
    var rest := stats.Keys;
    while rest != {}
      invariant rest <= stats.Keys && SizesOf(list) == stats.Keys - rest
      invariant SortedBySize(list) && Below(list, rest) && TakenFrom(list, stats)
      decreases |rest|
    {
      ghost var least := HasLeast(rest);
      var size :| size in rest && forall x :: x in rest ==> size <= x;
      NextInOrder(list, stats, rest, size);
      list := list + [SizeStat(size, stats[size])];
      rest := rest - {size};
    }
  }

  lemma AccumulatedDivided(sizes: map<int, Acc>, rows: seq<Row<real>>, key: Key, size: int)
    requires Accumulated(sizes, rows, key) && size in sizes
    ensures sizes[size].count > 0 && sizes[size].min.Some? && sizes[size].max.Some?
    ensures DescribedBy(size, Divided(sizes[size]), rows, key)
  {
    SizeIffValues(rows, size, key);
    DividedIsStat(Values(rows, size, key));
  }

  lemma AllDivided(sizes: map<int, Acc>, rows: seq<Row<real>>, key: Key)
    requires Accumulated(sizes, rows, key)
    ensures Nonempty(sizes)
    ensures forall size :: size in sizes ==> DescribedBy(size, Divided(sizes[size]), rows, key)
  {
    forall size | size in sizes
      ensures sizes[size].count > 0 && sizes[size].min.Some? && sizes[size].max.Some?
      ensures DescribedBy(size, Divided(sizes[size]), rows, key)
    {
      AccumulatedDivided(sizes, rows, key, size);
    }
  }

  /** The statistics of every size, sorted by size. */
  method Collect(details: seq<seq<Row<real>>>, key: Key) returns (list: seq<SizeStat>)
    ensures IsStatistics(list, Flat(details), key)
  {
    var sizes := Accumulate(details, key);
    AllDivided(sizes, Flat(details), key);
    var stats := DivideSums(sizes);
    list := SortBySize(stats);
  }

  /** Every entry lies within its bounds. */
  lemma CollectedBounds(list: seq<SizeStat>, rows: seq<Row<real>>, key: Key, i: nat)
    requires IsStatistics(list, rows, key) && i < |list|
    ensures var s := list[i].stat;
      && s.count > 0 && s.min <= s.avg <= s.max
      && 0.0 <= s.sqrDev <= (s.max - s.avg) * (s.avg - s.min)
  {
    StatBounds(Values(rows, list[i].size, key));
  }

  // ---------- Every row is counted once ----------

  function TotalCount(list: seq<SizeStat>): nat {
    if list == [] then 0 else TotalCount(list[..|list| - 1]) + list[|list| - 1].stat.count
  }

  /** How many rows have one of the given sizes. */
  function CountIn(rows: seq<Row<real>>, sizes: set<int>): nat {
    if rows == [] then 0
    else CountIn(rows[..|rows| - 1], sizes) + if rows[|rows| - 1].size in sizes then 1 else 0
  }

  lemma {:induction false} CountOneMoreSize(rows: seq<Row<real>>, sizes: set<int>, size: int, key: Key)
    requires size !in sizes
    ensures CountIn(rows, sizes + {size}) == CountIn(rows, sizes) + |Values(rows, size, key)|
  {
    if rows != [] {
      CountOneMoreSize(rows[..|rows| - 1], sizes, size, key);
    }
  }

  lemma {:induction false} CountAll(rows: seq<Row<real>>, sizes: set<int>)
    requires forall i :: 0 <= i < |rows| ==> rows[i].size in sizes
    ensures CountIn(rows, sizes) == |rows|
  {
    if rows != [] {
      CountAll(rows[..|rows| - 1], sizes);
    }
  }

  lemma {:induction false} CountNone(rows: seq<Row<real>>)
    ensures CountIn(rows, {}) == 0
  {
    if rows != [] {
      CountNone(rows[..|rows| - 1]);
    }
  }

  lemma {:induction false} CountListed(list: seq<SizeStat>, rows: seq<Row<real>>, key: Key)
    requires SortedBySize(list)
    requires forall i :: 0 <= i < |list| ==> list[i].stat.count == |Values(rows, list[i].size, key)|
    ensures TotalCount(list) == CountIn(rows, SizesOf(list))
  {
    if list == [] {
      CountNone(rows);
      assert SizesOf(list) == {};
    } else {
      var front, last := list[..|list| - 1], list[|list| - 1];
      CountListed(front, rows, key);
      assert list == front + [last];
      SizesOfMore(front, last);
      CountOneMoreSize(rows, SizesOf(front), last.size, key);
    }
  }

  /** The counts add up to the number of rows. */
  lemma EveryRowCounted(list: seq<SizeStat>, rows: seq<Row<real>>, key: Key)
    requires IsStatistics(list, rows, key)
    ensures TotalCount(list) == |rows|
  {
    CountListed(list, rows, key);
    CountAll(rows, Sizes(rows));
  }

  // ---------- The order of files and rows does not matter ----------

  lemma {:induction false} ValuesJoin(a: seq<Row<real>>, b: seq<Row<real>>, size: int, key: Key)
    ensures Values(a + b, size, key) == Values(a, size, key) + Values(b, size, key)
  {
    if b == [] {
      assert a + b == a;
    } else {
      assert (a + b)[..|a + b| - 1] == a + b[..|b| - 1];
      ValuesJoin(a, b[..|b| - 1], size, key);
    }
  }

  lemma {:induction false} ValuesReordered(xs: seq<Row<real>>, ys: seq<Row<real>>, size: int, key: Key)
    requires multiset(xs) == multiset(ys)
    ensures multiset(Values(xs, size, key)) == multiset(Values(ys, size, key))
  {
    if xs == [] {
      assert |multiset(ys)| == 0;
    } else {
      var front, last := xs[..|xs| - 1], xs[|xs| - 1];
      var a, b := TakeLastOut(xs, ys);
      ValuesReordered(front, a + b, size, key);
      assert xs == front + [last];
      ValuesJoin(front, [last], size, key);
      ValuesWithOneMore(a, last, b, size, key);
    }
  }

  lemma ValuesWithOneMore(a: seq<Row<real>>, row: Row<real>, b: seq<Row<real>>, size: int, key: Key)
    ensures multiset(Values(a + [row] + b, size, key)) ==
      multiset(Values(a + b, size, key)) + multiset(Values([row], size, key))
  {
    ValuesJoin(a, b, size, key);
    ValuesJoin(a + [row], b, size, key);
    ValuesJoin(a, [row], size, key);
  }

  lemma SizesReordered(xs: seq<Row<real>>, ys: seq<Row<real>>)
    requires multiset(xs) == multiset(ys)
    ensures Sizes(xs) <= Sizes(ys)
  {
    forall size | size in Sizes(xs) ensures size in Sizes(ys) {
      var i :| 0 <= i < |xs| && xs[i].size == size;
      assert xs[i] in multiset(ys);
    }
  }

  lemma NoSizes(list: seq<SizeStat>)
    ensures SizesOf(list) == {} <==> list == []
  {
    if list != [] {
      assert list[0].size in SizesOf(list);
    }
  }

  /** Ascending lists with the same sizes agree on them one by one. */
  lemma {:induction false} SameSizes(a: seq<SizeStat>, b: seq<SizeStat>)
    requires SortedBySize(a) && SortedBySize(b) && SizesOf(a) == SizesOf(b)
    ensures |a| == |b| && forall i :: 0 <= i < |a| ==> a[i].size == b[i].size
  {
    if a == [] {
      NoSizes(a);
      NoSizes(b);
    } else {
      assert a[|a| - 1].size in SizesOf(b);
      assert b[|b| - 1].size in SizesOf(a);
      var fa, la, fb, lb := a[..|a| - 1], a[|a| - 1], b[..|b| - 1], b[|b| - 1];
      assert a == fa + [la] && b == fb + [lb];
      SizesOfMore(fa, la);
      SizesOfMore(fb, lb);
      assert la.size !in SizesOf(fa) && lb.size !in SizesOf(fb);
      assert la.size == lb.size;
      assert SizesOf(fa) == SizesOf(a) - {la.size};
      SameSizes(fa, fb);
      forall i | 0 <= i < |a| ensures a[i].size == b[i].size {
        if i < |fa| {
          assert fa[i].size == fb[i].size;
        }
      }
    }
  }

  /** The statistics depend on the rows only as a bag. */
  lemma OrderDoesNotMatter(a: seq<SizeStat>, b: seq<SizeStat>, xs: seq<Row<real>>, ys: seq<Row<real>>, key: Key)
    requires multiset(xs) == multiset(ys)
    requires IsStatistics(a, xs, key) && IsStatistics(b, ys, key)
    ensures a == b
  {
    SizesReordered(xs, ys);
    SizesReordered(ys, xs);
    SameSizes(a, b);
    forall i | 0 <= i < |a| ensures a[i] == b[i] {
      ValuesReordered(xs, ys, a[i].size, key);
      StatReordered(Values(xs, a[i].size, key), Values(ys, a[i].size, key));
    }
  }

  lemma {:induction false} FlatJoin<T>(a: seq<seq<T>>, b: seq<seq<T>>)
    ensures Flat(a + b) == Flat(a) + Flat(b)
  {
    if b == [] {
      assert a + b == a;
    } else {
      assert (a + b)[..|a + b| - 1] == a + b[..|b| - 1];
      FlatJoin(a, b[..|b| - 1]);
    }
  }

  /** Listing the files in another order gives the same bag of rows. */
  lemma {:induction false} FilesReordered<T>(xs: seq<seq<T>>, ys: seq<seq<T>>)
    requires multiset(xs) == multiset(ys)
    ensures multiset(Flat(xs)) == multiset(Flat(ys))
  {
    if xs == [] {
      assert |multiset(ys)| == 0;
    } else {
      var front, last := xs[..|xs| - 1], xs[|xs| - 1];
      var a, b := TakeLastOut(xs, ys);
      FilesReordered(front, a + b);
      FlatWithOneMore(a, last, b);
    }
  }

  lemma FlatWithOneMore<T>(a: seq<seq<T>>, file: seq<T>, b: seq<seq<T>>)
    ensures multiset(Flat(a + [file] + b)) == multiset(Flat(a + b)) + multiset(file)
  {
    FlatJoin(a, b);
    FlatJoin(a + [file], b);
    FlatJoin(a, [file]);
    assert [file][..0] == [];
    assert Flat([file]) == file;
  }

  // ---------- The averages of the plotter ----------

  datatype Averages = Averages(request: real, transfer: real)

  /** By definition: the mean request and transfer of every size that occurs. */
  ghost predicate IsAverages(averages: map<int, Averages>, rows: seq<Row<real>>) {
    && averages.Keys == Sizes(rows)
    && forall size :: size in averages ==>
         && Values(rows, size, Request) != [] && Values(rows, size, Transfer) != []
         && averages[size] == Averages(Mean(Values(rows, size, Request)), Mean(Values(rows, size, Transfer)))
  }

  /** What has been added up for one size. */
  ghost predicate SummedAt(size: int, sum: Averages, count: nat, rows: seq<Row<real>>) {
    && sum.request == Sum(Values(rows, size, Request)) && sum.transfer == Sum(Values(rows, size, Transfer))
    && count == |Values(rows, size, Request)| == |Values(rows, size, Transfer)|
  }

  /** size_sum and size_count. */
  datatype Totals = Totals(sum: map<int, Averages>, count: map<int, nat>) {
    function SumAt(size: int): Averages { if size in sum then sum[size] else Averages(0.0, 0.0) }

    function CountAt(size: int): nat { if size in count then count[size] else 0 }

    function Plus(item: Row<real>): Totals {
      var s, n := SumAt(item.size), CountAt(item.size);
      Totals(sum[item.size := Averages(s.request + item.request, s.transfer + item.transfer)],
             count[item.size := n + 1])
    }
  }

  ghost predicate Summed(t: Totals, rows: seq<Row<real>>) {
    && t.sum.Keys == t.count.Keys == Sizes(rows)
    && forall size :: size in t.sum ==> SummedAt(size, t.sum[size], t.count[size], rows)
  }

  /** One row goes to its own size. */
  lemma SummedAtStep(size: int, sum: Averages, count: nat, rows: seq<Row<real>>, row: Row<real>)
    requires SummedAt(size, sum, count, rows)
    ensures row.size != size ==> SummedAt(size, sum, count, rows + [row])
    ensures row.size == size ==>
      SummedAt(size, Averages(sum.request + row.request, sum.transfer + row.transfer), count + 1, rows + [row])
  {
    ValuesOfOneMore(rows, row, size, Request);
    ValuesOfOneMore(rows, row, size, Transfer);
    SumOfOneMore(Identity(), Values(rows, size, Request), row.request);
    SumOfOneMore(Identity(), Values(rows, size, Transfer), row.transfer);
  }

  lemma NothingSummed(rows: seq<Row<real>>, size: int)
    requires size !in Sizes(rows)
    ensures SummedAt(size, Averages(0.0, 0.0), 0, rows)
  {
    SizeIffValues(rows, size, Request);
    SizeIffValues(rows, size, Transfer);
  }

  lemma SummedStep(t: Totals, rows: seq<Row<real>>, row: Row<real>)
    requires Summed(t, rows)
    ensures Summed(t.Plus(row), rows + [row])
  {
    SizesOfOneMore(rows, row);
    if row.size !in t.sum {
      NothingSummed(rows, row.size);
    }
    SummedAtStep(row.size, t.SumAt(row.size), t.CountAt(row.size), rows, row);
    forall size | size in t.sum && size != row.size ensures SummedAt(size, t.sum[size], t.count[size], rows + [row]) {
      SummedAtStep(size, t.sum[size], t.count[size], rows, row);
    }
  }

  /** The entries of one file. */
  method AddFile(t: Totals, entries: seq<Row<real>>, ghost before: seq<Row<real>>) returns (t': Totals)
    requires Summed(t, before)
    ensures Summed(t', before + entries)
  {
    t' := t;
    assert before + entries[..0] == before;
    for j := 0 to |entries|
      invariant Summed(t', before + entries[..j])
    {
      SummedStep(t', before + entries[..j], entries[j]);
      assert before + entries[..j] + [entries[j]] == before + entries[..j + 1];
      t' := AddItem(t', entries[j]);
    }
    assert entries[..|entries|] == entries;
  }

  method AddItem(t: Totals, item: Row<real>) returns (t': Totals)
    requires t.sum.Keys == t.count.Keys
    ensures t' == t.Plus(item)
  {
    var sum, count := t.sum, t.count;
    if item.size !in sum {
      sum := sum[item.size := Averages(0.0, 0.0)];
      count := count[item.size := 0];
    }
    var s := sum[item.size];
    sum := sum[item.size := Averages(s.request + item.request, s.transfer + item.transfer)];
    count := count[item.size := count[item.size] + 1];
    t' := Totals(sum, count);
  }

  method SumBySize(details: seq<seq<Row<real>>>) returns (t: Totals)
    ensures Summed(t, Flat(details))
  {
    t := Totals(map[], map[]);
    for i := 0 to |details|
      invariant Summed(t, Flat(details[..i]))
    {
      t := AddFile(t, details[i], Flat(details[..i]));
      FlatOfOneMore(details, i);
    }
    assert details[..|details|] == details;
  }

  method CalculateAverages(data: map<string, seq<seq<Row<real>>>>)
    returns (averages: map<string, map<int, Averages>>)
    ensures averages.Keys == data.Keys
    ensures forall kind :: kind in data ==> IsAverages(averages[kind], Flat(data[kind]))
  {
    averages := map[];
    var rest := data.Keys;
    while rest != {}
      invariant rest <= data.Keys && averages.Keys == data.Keys - rest
      invariant forall kind :: kind in averages ==> IsAverages(averages[kind], Flat(data[kind]))
      decreases |rest|
    {
      var kind :| kind in rest;
      var t := SumBySize(data[kind]);
      var ofKind := DivideAll(t, Flat(data[kind]));
      averages := averages[kind := ofKind];
      rest := rest - {kind};
    }
  }

  method DivideAll(t: Totals, ghost rows: seq<Row<real>>) returns (averages: map<int, Averages>)
    requires Summed(t, rows)
    ensures IsAverages(averages, rows)
  {
    forall size: int, key ensures size in Sizes(rows) <==> Values(rows, size, key) != [] {
      SizeIffValues(rows, size, key);
    }
    averages := map size | size in t.sum :: size :=
      Averages(t.sum[size].request / t.count[size] as real, t.sum[size].transfer / t.count[size] as real);
  }

  /** The plotter and the collector list the same sizes, and their averages agree. */
  lemma AggregatorsAgree(averages: map<int, Averages>, request: seq<SizeStat>, transfer: seq<SizeStat>,
                         rows: seq<Row<real>>)
    requires IsAverages(averages, rows)
    requires IsStatistics(request, rows, Request) && IsStatistics(transfer, rows, Transfer)
    ensures |request| == |transfer| && SizesOf(request) == SizesOf(transfer) == averages.Keys
    ensures forall i :: 0 <= i < |request| ==>
      && request[i].size == transfer[i].size && request[i].size in averages
      && averages[request[i].size] == Averages(request[i].stat.avg, transfer[i].stat.avg)
  {
    SameSizes(request, transfer);
    forall i | 0 <= i < |request| ensures request[i].size in averages {
      assert request[i].size in SizesOf(request);
    }
  }

  // ---------- The timings of the uprobe benchmark ----------

  datatype Summary = Summary(max: real, min: real, avg: real, variance: real, raw: seq<real>)

  function SummaryOf(xs: seq<real>): Summary
    requires xs != []
  {
    var s := StatOf(xs);
    Summary(s.max, s.min, s.avg, s.sqrDev, xs)
  }

  /** What the summary says of the timings: its extremes are among them and bound them, the
      average and the variance times their number are the sums that define them. */
  lemma {:induction false} SummaryMeans(xs: seq<real>)
    requires xs != []
    ensures var s := SummaryOf(xs);
      && s.max in xs && s.min in xs && Between(xs, s.min, s.max) && s.raw == xs
      && s.avg * |xs| as real == SumOf(Identity(), xs)
      && s.variance * |xs| as real == SumOf(SquareFrom(s.avg), xs)
  {
    Extremes(xs);
    StatTimesCount(xs);
  }

  method Summarise(v: seq<real>) returns (val: Summary)
    requires v != []
    ensures val == SummaryOf(v)
  {
    var avg := Sum(v) / |v| as real;
    var sqrSum := SumSquares(v);
    var sqrDiff := sqrSum / |v| as real - avg * avg;
    OnePassVariance(v);
    StatBounds(v);
    val := Summary(Greatest(v), Least(v), avg, if sqrDiff > 0.0 then sqrDiff else 0.0, v);
  }

  /** None where Python divides by the length of an empty list. */
  method HandleResult(result: map<string, seq<real>>) returns (summary: Option<map<string, Summary>>)
    ensures summary.None? <==> exists k :: k in result && result[k] == []
    ensures summary.Some? ==>
      && summary.value.Keys == result.Keys
      && forall k :: k in result ==> result[k] != [] && summary.value[k] == SummaryOf(result[k])
  {
    var newResult: map<string, Summary> := map[];
    var rest := result.Keys;
    while rest != {}
      invariant rest <= result.Keys && newResult.Keys == result.Keys - rest
      invariant forall k :: k in newResult ==> result[k] != [] && newResult[k] == SummaryOf(result[k])
      decreases |rest|
    {
      var k :| k in rest;
      if result[k] == [] {
        return None;
      }
      var val := Summarise(result[k]);
      newResult := newResult[k := val];
      rest := rest - {k};
    }
    return Some(newResult);
  }
}
