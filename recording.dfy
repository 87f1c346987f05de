/** The Brian backend's recorder: one recording device per recorded
    variable, created lazily, whose tracked indices follow the set of
    recorded cells; and the read-out of what the devices hold. The samples,
    live values and spike times a device accumulates come from the engine
    and are parameters here. */
module Recording {
  import opened Outcomes

  predicate Sorted(xs: seq<int>)
  {
    forall i, j :: 0 <= i < j < |xs| ==> xs[i] <= xs[j]
  }

  // ---------------------------------------------------------------------------
  // Index arrays

  function Shift(xs: seq<int>, padding: int): (r: seq<int>)
    ensures |r| == |xs| && forall k :: 0 <= k < |xs| ==> r[k] == xs[k] + padding
  {
    seq(|xs|, k requires 0 <= k < |xs| => xs[k] + padding)
  }

  function Unshift(xs: seq<int>, padding: int): (r: seq<int>)
    ensures |r| == |xs| && forall k :: 0 <= k < |xs| ==> r[k] == xs[k] - padding
  {
    seq(|xs|, k requires 0 <= k < |xs| => xs[k] - padding)
  }

  /** `s` holds exactly the elements of `ids`, each exactly once. */
  predicate Lists<T(==)>(s: seq<T>, ids: set<T>)
  {
    multiset(s) == multiset(ids)
  }

  /** `r` lists every id of `ids`, less `padding`, exactly once. */
  predicate Enumerates(r: seq<int>, ids: set<int>, padding: int)
  {
    Lists(Shift(r, padding), ids)
  }

  /** A listing of a set has no repeats. */
  lemma ListedDistinct<T>(s: seq<T>, ids: set<T>)
    requires Lists(s, ids)
    ensures Distinct(s)
  {
    forall i, j | 0 <= i < j < |s| ensures s[i] != s[j] {
      if s[i] == s[j] {
        RepeatCounts(s, i, j);
        assert false;
      }
    }
  }

  /** Enumerated indices have no repeats. */
  lemma EnumeratedDistinct(r: seq<int>, ids: set<int>, padding: int)
    requires Enumerates(r, ids, padding)
    ensures Distinct(r)
  {
    var shifted := Shift(r, padding);
    ListedDistinct(shifted, ids);
    forall i, j | 0 <= i < j < |r| ensures r[i] != r[j] {
      assert shifted[i] != shifted[j];
    }
  }

  /** A set that is not empty has a member, which `:|` can then pick. */
  lemma Member<T>(s: set<T>) returns (x: T)
    requires s != {}
    ensures x in s
  {
    if forall y :: y !in s {
      assert false;
    }
    x :| x in s;
  }

  /** Appending an element not yet listed keeps a listing exact. */
  lemma ListingSnoc<T>(s: seq<T>, seen: set<T>, x: T)
    requires Lists(s, seen) && x !in seen
    ensures Lists(s + [x], seen + {x}) && x !in s
  {
    assert multiset(seen + {x}) == multiset(seen) + multiset{x};
    assert x !in multiset(s);
  }

  /** An element of a non-empty sequence is in its initial part or is its
      last element. */
  lemma InitMember<T>(s: seq<T>, x: T)
    requires s != []
    ensures x in s <==> x in s[..|s| - 1] || x == s[|s| - 1]
  {
    assert s == s[..|s| - 1] + [s[|s| - 1]];
  }

  lemma DistinctSnoc<T>(s: seq<T>, x: T)
    requires Distinct(s) && x !in s
    ensures Distinct(s + [x])
  {
  }

  /** Iterating over a set: its elements, each once, in the set's iteration
      order (any order). */
  method Enumerate<T>(ids: set<T>) returns (r: seq<T>)
    ensures Lists(r, ids)
  {
    var remaining := ids;
    r := [];
    ghost var seen: set<T> := {};
    while remaining != {}
      invariant seen !! remaining && seen + remaining == ids
      invariant Lists(r, seen)
      decreases |remaining|
    {
      ghost var some := Member(remaining);
      var x :| x in remaining;
      ListingSnoc(r, seen, x);
      r := r + [x];
      seen := seen + {x};
      remaining := remaining - {x};
    }
  }

  /** Each listed element belongs to the set. */
  lemma ListedMember<T>(s: seq<T>, ids: set<T>, k: int)
    requires Lists(s, ids) && 0 <= k < |s|
    ensures |s| == |ids| && s[k] in ids
  {
    assert s[k] in multiset(s);
  }

  /** Each element of the set is listed at some position. */
  lemma ListedPosition<T>(s: seq<T>, ids: set<T>, x: T) returns (k: int)
    requires Lists(s, ids) && x in ids
    ensures 0 <= k < |s| && s[k] == x
  {
    assert x in multiset(s);
    k :| 0 <= k < |s| && s[k] == x;
  }

  /** A non-empty set of integers has a least element. */
  lemma LeastExists(s: set<int>)
    requires s != {}
    ensures exists m :: m in s && forall y :: y in s ==> m <= y
  {
    var x := Member(s);
    if s - {x} == {} {
      assert s == {x};
    } else {
      LeastExists(s - {x});
      var m' :| m' in s - {x} && forall y :: y in s - {x} ==> m' <= y;
      var m := if x < m' then x else m';
      forall y | y in s ensures m <= y {
        if y != x { assert y in s - {x}; }
      }
    }
  }

  ghost function Least(s: set<int>): (m: int)
    requires s != {}
    ensures m in s && forall y :: y in s ==> m <= y
  {
    LeastExists(s);
    var m :| m in s && forall y :: y in s ==> m <= y;
    m
  }

  /** The elements of a set of integers, ascending. */
  ghost function Ascending(ids: set<int>): (r: seq<int>)
    ensures Lists(r, ids) && Sorted(r)
  {
    if ids == {} then []
    else
      var m := Least(ids);
      var rest := Ascending(ids - {m});
      assert multiset(ids) == multiset{m} + multiset(ids - {m});
      assert forall k :: 0 <= k < |rest| ==> m <= rest[k] by {
        forall k | 0 <= k < |rest| ensures m <= rest[k] {
          ListedMember(rest, ids - {m}, k);
        }
      }
      [m] + rest
  }

  lemma SortedHead(s: seq<int>, x: int)
    requires Sorted(s) && x in s
    ensures s[0] <= x
  {
    var i :| 0 <= i < |s| && s[i] == x;
  }

  lemma SortedTail(s: seq<int>)
    requires Sorted(s) && s != []
    ensures Sorted(s[1..])
  {
    forall i, j | 0 <= i < j < |s| - 1 ensures s[1..][i] <= s[1..][j] {
      assert s[1..][i] == s[i + 1] && s[1..][j] == s[j + 1];
    }
  }

  lemma MultisetTail(s: seq<int>)
    requires s != []
    ensures multiset(s[1..]) == multiset(s) - multiset{s[0]}
  {
    assert s == [s[0]] + s[1..];
  }

  lemma ConsEqual(a: seq<int>, b: seq<int>)
    requires a != [] && b != [] && a[0] == b[0] && a[1..] == b[1..]
    ensures a == b
  {
    assert a == [a[0]] + a[1..] && b == [b[0]] + b[1..];
  }

  /** Two ascending sequences with the same elements are equal. */
  lemma {:induction false} SortedUnique(a: seq<int>, b: seq<int>)
    requires Sorted(a) && Sorted(b) && multiset(a) == multiset(b)
    ensures a == b
  {
    assert |a| == |multiset(a)| && |b| == |multiset(b)|;
    if a != [] {
      assert a[0] in multiset(b) && b[0] in multiset(a);
      SortedHead(b, a[0]);
      SortedHead(a, b[0]);
      MultisetTail(a);
      MultisetTail(b);
      SortedTail(a);
      SortedTail(b);
      SortedUnique(a[1..], b[1..]);
      ConsEqual(a, b);
    }
  }

  /** Some ascending listing enumerates `ids` less `padding`, and only one. */
  lemma IndicesDetermined(ids: set<int>, padding: int)
    ensures exists r :: Enumerates(r, ids, padding) && Sorted(r)
    ensures forall r, r' :: Enumerates(r, ids, padding) && Sorted(r) && Enumerates(r', ids, padding) && Sorted(r')
                            ==> r == r'
  {
    var order := Ascending(ids);
    var r := Unshift(order, padding);
    assert Shift(r, padding) == order;
    assert Enumerates(r, ids, padding) && Sorted(r);
    forall r, r' | Enumerates(r, ids, padding) && Sorted(r) && Enumerates(r', ids, padding) && Sorted(r')
      ensures r == r'
    {
      SortedUnique(Shift(r, padding), Shift(r', padding));
      assert forall k :: 0 <= k < |r| ==> r[k] == Shift(r, padding)[k] - padding;
    }
  }

  /** `numpy.fromiter(ids, dtype=int) - padding`: the ids of a set, each
      shifted down by `padding`, in the order Python iterates over the set.
      That order is not part of this model: the ids are listed ascending
      here, and every property is stated for any listing. */
  function Indices(ids: set<int>, padding: int): (r: seq<int>)
    ensures Enumerates(r, ids, padding) && Sorted(r)
  {
    IndicesDetermined(ids, padding);
    var r :| Enumerates(r, ids, padding) && Sorted(r);
    r
  }

  /** Each listed index, shifted back, is an id of the set. */
  lemma EnumeratedId(r: seq<int>, ids: set<int>, padding: int, k: int)
    requires Enumerates(r, ids, padding) && 0 <= k < |r|
    ensures |r| == |ids| && r[k] + padding in ids
  {
    ListedMember(Shift(r, padding), ids, k);
  }

  /** Each id of the set is listed, shifted down, at some position. */
  lemma EnumeratedPosition(r: seq<int>, ids: set<int>, padding: int, x: int) returns (k: int)
    requires Enumerates(r, ids, padding) && x in ids
    ensures 0 <= k < |r| && r[k] + padding == x
  {
    k := ListedPosition(Shift(r, padding), ids, x);
  }

  /** The enumerated indices are exactly the ids less `padding`. */
  lemma EnumeratedKeys(r: seq<int>, ids: set<int>, padding: int)
    requires Enumerates(r, ids, padding)
    ensures forall k :: k in r <==> k + padding in ids
  {
    forall k ensures k in r <==> k + padding in ids {
      if k in r {
        var j :| 0 <= j < |r| && r[j] == k;
        EnumeratedId(r, ids, padding, j);
      }
      if k + padding in ids {
        var j := EnumeratedPosition(r, ids, padding, k + padding);
      }
    }
  }

  /** Every enumerated index is a key of `m` exactly when every id, less
      `padding`, is. */
  lemma EnumeratedCover<V>(r: seq<int>, ids: set<int>, padding: int, m: map<int, V>)
    requires Enumerates(r, ids, padding)
    ensures (forall k :: 0 <= k < |r| ==> r[k] in m) <==> (forall x :: x in ids ==> x - padding in m)
  {
    if forall k :: 0 <= k < |r| ==> r[k] in m {
      forall x | x in ids ensures x - padding in m {
        var j := EnumeratedPosition(r, ids, padding, x);
      }
    }
    if forall x :: x in ids ==> x - padding in m {
      forall k | 0 <= k < |r| ensures r[k] in m {
        EnumeratedId(r, ids, padding, k);
        assert (r[k] + padding) - padding in m;
      }
    }
  }

  /** `recordindex` maps each entry of `record` to its position. */
  ghost predicate IndexesOf(m: map<int, int>, record: seq<int>)
  {
    && (forall x :: x in m <==> x in record)
    && (forall j :: 0 <= j < |record| ==> record[j] in m && m[record[j]] == j)
  }

  /** `dict((i, j) for i, j in zip(record, range(len(record))))`: each
      entry of `record` keyed to its position, a later position replacing an
      earlier one for a repeated entry. */
  function IndexMap(record: seq<int>): (m: map<int, int>)
    ensures forall x :: x in m <==> x in record
  {
    if record == [] then map[]
    else IndexMap(record[..|record| - 1])[record[|record| - 1] := |record| - 1]
  }

  /** For entries that are distinct, the index map inverts `record`. */
  lemma {:induction false} IndexMapInverts(record: seq<int>)
    requires Distinct(record)
    ensures IndexesOf(IndexMap(record), record)
    ensures forall x :: x in IndexMap(record) ==> 0 <= IndexMap(record)[x] < |record| && record[IndexMap(record)[x]] == x
  {
    if record != [] {
      var init := record[..|record| - 1];
      assert Distinct(init);
      IndexMapInverts(init);
    }
  }

  /** Inserts `x` into a sorted sequence. */
  function Insert(xs: seq<int>, x: int): seq<int>
  {
    if xs == [] then [x]
    else if x <= xs[0] then [x] + xs
    else [xs[0]] + Insert(xs[1..], x)
  }

  /** Insertion adds exactly one element. */
  lemma {:induction false} InsertMultiset(xs: seq<int>, x: int)
    ensures multiset(Insert(xs, x)) == multiset(xs) + multiset{x}
  {
    if xs != [] && x > xs[0] {
      InsertMultiset(xs[1..], x);
      assert xs == [xs[0]] + xs[1..];
    }
  }

  /** Insertion keeps a sequence sorted. */
  lemma {:induction false} InsertSorted(xs: seq<int>, x: int)
    requires Sorted(xs)
    ensures Sorted(Insert(xs, x))
    ensures Insert(xs, x)[0] == if xs == [] || x <= xs[0] then x else xs[0]
  {
    if xs != [] && x > xs[0] {
      var rest := Insert(xs[1..], x);
      InsertSorted(xs[1..], x);
      assert xs[0] <= rest[0];
      forall i, j | 0 <= i < j < |rest| + 1 ensures ([xs[0]] + rest)[i] <= ([xs[0]] + rest)[j] {
        if i == 0 {
          assert rest[0] <= rest[j - 1];
        }
      }
    }
  }

  /** `sorted(indices)`: the same indices, ascending. */
  function SortIndices(xs: seq<int>): (r: seq<int>)
    ensures Sorted(r) && multiset(r) == multiset(xs)
  {
    if xs == [] then []
    else
      var init := SortIndices(xs[..|xs| - 1]);
      InsertSorted(init, xs[|xs| - 1]);
      InsertMultiset(init, xs[|xs| - 1]);
      assert xs == xs[..|xs| - 1] + [xs[|xs| - 1]];
      Insert(init, xs[|xs| - 1])
  }

  /** numpy's fancy indexing `values[index]`: negative positions count from
      the end; a position outside the array raises. */
  function Take(values: seq<real>, index: seq<int>): (r: Result<seq<real>>)
    ensures r.Ok? <==> forall k :: 0 <= k < |index| ==> -|values| <= index[k] < |values|
    ensures r.Err? ==> r.error == IndexOutOfRange
    ensures r.Ok? ==> |r.value| == |index| && forall k :: 0 <= k < |index| ==>
              r.value[k] == values[if index[k] < 0 then index[k] + |values| else index[k]]
  {
    if forall k :: 0 <= k < |index| ==> -|values| <= index[k] < |values| then
      Ok(seq(|index|, k requires 0 <= k < |index| =>
               values[if index[k] < 0 then index[k] + |values| else index[k]]))
    else Err(IndexOutOfRange)
  }

  /** `numpy.vstack((samples, current[newaxis, :]))`. With no samples the
      sample array is one-dimensional and empty, which `vstack` reads as one
      row of width zero. */
  function VStack(samples: seq<seq<real>>, current: seq<real>): (r: Result<seq<seq<real>>>)
    ensures samples != [] ==>
              (r.Ok? <==> forall k :: 0 <= k < |samples| ==> |samples[k]| == |current|)
    ensures samples != [] && r.Ok? ==> r.value == samples + [current]
    ensures samples == [] ==> r == if current == [] then Ok([[], []]) else Err(LengthMismatch)
    ensures r.Err? ==> r.error == LengthMismatch
  {
    if samples == [] then
      if current == [] then Ok([[], []]) else Err(LengthMismatch)
    else if forall k :: 0 <= k < |samples| ==> |samples[k]| == |current| then Ok(samples + [current])
    else Err(LengthMismatch)
  }

  // ---------------------------------------------------------------------------
  // Devices and the segment read-out

  /** A Brian recording device: a spike monitor, or a state monitor of one
      state variable with the indices it tracks and their positions. */
  datatype Device =
    | SpikeMonitor
    | StateMonitor(varname: string, record: seq<int>, recordIndex: map<int, int>)

  /** A state monitor tracks the cells `ids`: its indices are those ids
      less `padding` (each once, see `Indices`), and `recordIndex` inverts
      `record`. */
  ghost predicate Tracks(dev: Device, ids: set<int>, padding: int)
  {
    && dev.StateMonitor?
    && dev.record == Indices(ids, padding)
    && dev.recordIndex == IndexMap(dev.record)
  }

  /** Updating one key twice keeps the second value. */
  lemma UpdateTwice<K, V>(m: map<K, V>, k: K, a: V, b: V)
    ensures m[k := a][k := b] == m[k := b]
  {
  }

  /** Every device other than the spike device tracks the cells recorded
      for its variable. */
  ghost predicate TracksAll(devices: map<string, Device>, recorded: map<string, set<int>>, padding: int)
  {
    forall v :: v in devices && v != "spikes" ==> v in recorded && Tracks(devices[v], recorded[v], padding)
  }

  /** Replacing one variable's device and recorded cells keeps every device
      tracking, provided the new device tracks the new cells. */
  lemma TracksUpdate(devices: map<string, Device>, recorded: map<string, set<int>>, padding: int,
                     variable: string, dev: Device, ids: set<int>)
    requires TracksAll(devices, recorded, padding)
    requires variable != "spikes" ==> Tracks(dev, ids, padding)
    ensures TracksAll(devices[variable := dev], recorded[variable := ids], padding)
  {
  }

  /** A tracking state monitor lists each tracked index once, and its index
      map sends every tracked index to its position in that list. */
  lemma TracksIndexes(dev: Device, ids: set<int>, padding: int)
    requires Tracks(dev, ids, padding)
    ensures Distinct(dev.record) && IndexesOf(dev.recordIndex, dev.record)
  {
    EnumeratedDistinct(dev.record, ids, padding);
    IndexMapInverts(dev.record);
  }

  /** Which variables a segment covers: all, or a named subset. */
  datatype VariableSelection = AllVariables | Named(names: set<string>)

  datatype SpikeTrain = SpikeTrain(times: seq<real>, tStop: real, sourcePopulation: string, sourceId: int)

  datatype AnalogSignal = AnalogSignal(
    signal: seq<seq<real>>,
    units: string,
    tStart: real,
    samplingPeriod: real,
    name: string,
    sourcePopulation: string,
    channelIndexes: seq<int>,
    sourceIds: seq<int>)

  datatype Segment = Segment(name: string, spiketrains: seq<SpikeTrain>, analog: seq<AnalogSignal>)

  /** What the simulator holds when a segment is read out: the spike times of
      the spike device per cell index, the samples each state monitor has
      taken and the live values of its state variable (both per variable;
      none for a variable without them), the current time, the start time and
      step of the run, and the recording module's table of units. */
  datatype Readings = Readings(spikeTimes: map<int, seq<real>>, samples: map<string, seq<seq<real>>>,
                               live: map<string, seq<real>>, t: real, tStart: real, dt: real,
                               unitsMap: map<string, string>)

  /** `s` with every occurrence of `x` removed. */
  function Without<T(==)>(s: seq<T>, x: T): seq<T>
  {
    if s == [] then []
    else Without(s[..|s| - 1], x) + (if s[|s| - 1] == x then [] else [s[|s| - 1]])
  }

  lemma {:induction false} WithoutMultiset<T>(s: seq<T>, x: T)
    ensures multiset(Without(s, x)) == multiset(s)[x := 0]
  {
    if s != [] {
      var init := s[..|s| - 1];
      WithoutMultiset(init, x);
      assert s == init + [s[|s| - 1]];
    }
  }

  /** Removing an element from a listing lists the set without it. */
  lemma WithoutListing<T>(s: seq<T>, ids: set<T>, x: T)
    requires Lists(s, ids)
    ensures Lists(Without(s, x), ids - {x})
  {
    WithoutMultiset(s, x);
    assert multiset(ids - {x}) == multiset(ids)[x := 0];
  }

  /** The samples the engine holds for a variable's device; none when it
      holds none. */
  function RowsOf(samples: map<string, seq<seq<real>>>, variable: string): seq<seq<real>>
  {
    if variable in samples then samples[variable] else []
  }

  /** The live values of a variable's state variable; none when there are none. */
  function ValuesOf(live: map<string, seq<real>>, variable: string): seq<real>
  {
    if variable in live then live[variable] else []
  }

  function Names(analog: seq<AnalogSignal>): (r: seq<string>)
    ensures |r| == |analog| && forall k :: 0 <= k < |analog| ==> r[k] == analog[k].name
  {
    if analog == [] then [] else Names(analog[..|analog| - 1]) + [analog[|analog| - 1].name]
  }

  /** `UNITS_MAP.get(variable, 'dimensionless')`. */
  function UnitOf(unitsMap: map<string, string>, variable: string): string
  {
    if variable in unitsMap then unitsMap[variable] else "dimensionless"
  }

  /** One spike train per index, in the order of `indices`, each carrying
      the index's spike times and the cell id `index + padding`. */
  function SpikeTrains(indices: seq<int>, spikeTimes: map<int, seq<real>>, tStop: real, popLabel: string,
                       padding: int): (r: seq<SpikeTrain>)
    requires forall k :: 0 <= k < |indices| ==> indices[k] in spikeTimes
    ensures |r| == |indices|
    ensures forall k :: 0 <= k < |indices| ==>
              r[k] == SpikeTrain(spikeTimes[indices[k]], tStop, popLabel, indices[k] + padding)
  {
    seq(|indices|, k requires 0 <= k < |indices| =>
          SpikeTrain(spikeTimes[indices[k]], tStop, popLabel, indices[k] + padding))
  }

  function SourceIds(trains: seq<SpikeTrain>): (r: seq<int>)
    ensures |r| == |trains| && forall k :: 0 <= k < |trains| ==> r[k] == trains[k].sourceId
  {
    seq(|trains|, k requires 0 <= k < |trains| => trains[k].sourceId)
  }

  /** The spike trains of a segment: exactly one per cell of `ids`, each
      with that cell's spike times. */
  predicate TrainsFor(trains: seq<SpikeTrain>, ids: set<int>, spikeTimes: map<int, seq<real>>,
                      tStop: real, popLabel: string, padding: int)
  {
    && Lists(SourceIds(trains), ids)
    && (forall k :: 0 <= k < |trains| ==>
          && trains[k].sourceId - padding in spikeTimes
          && trains[k] == SpikeTrain(spikeTimes[trains[k].sourceId - padding], tStop, popLabel, trains[k].sourceId))
  }

  lemma SpikeTrainsFor(indices: seq<int>, ids: set<int>, spikeTimes: map<int, seq<real>>, tStop: real,
                       popLabel: string, padding: int)
    requires Enumerates(indices, ids, padding)
    requires forall k :: 0 <= k < |indices| ==> indices[k] in spikeTimes
    ensures TrainsFor(SpikeTrains(indices, spikeTimes, tStop, popLabel, padding), ids, spikeTimes, tStop, popLabel, padding)
  {
    var trains := SpikeTrains(indices, spikeTimes, tStop, popLabel, padding);
    assert SourceIds(trains) == Shift(indices, padding);
    forall k | 0 <= k < |trains|
      ensures && trains[k].sourceId - padding in spikeTimes
              && trains[k] == SpikeTrain(spikeTimes[trains[k].sourceId - padding], tStop, popLabel, trains[k].sourceId)
    {
      assert trains[k].sourceId - padding == indices[k];
    }
  }

  /** The number of spikes held for each index of an enumeration of `ids`,
      keyed by index; fails when an index has no entry. */
  method SpikeCounts(indices: seq<int>, spikeTimes: map<int, seq<real>>, ghost ids: set<int>, ghost padding: int)
    returns (r: Result<map<int, nat>>)
    requires Enumerates(indices, ids, padding)
    ensures r.Ok? <==> forall x :: x in ids ==> x - padding in spikeTimes
    ensures r.Err? ==> r.error == MissingKey
    ensures r.Ok? ==> forall k :: k in r.value <==> k + padding in ids
    ensures r.Ok? ==> forall k :: k in r.value ==> k in spikeTimes && r.value[k] == |spikeTimes[k]|
  {
    var counts: map<int, nat> := map[];
    for i := 0 to |indices|
      invariant forall k :: 0 <= k < i ==> indices[k] in spikeTimes
      invariant forall k :: k in counts <==> k in indices[..i]
      invariant forall k :: k in counts ==> k in spikeTimes && counts[k] == |spikeTimes[k]|
    {
      if indices[i] !in spikeTimes {
        EnumeratedId(indices, ids, padding, i);
        ghost var x := indices[i] + padding;
        assert x in ids && x - padding !in spikeTimes;
        return Err(MissingKey);
      }
      assert indices[..i + 1] == indices[..i] + [indices[i]];
      counts := counts[indices[i] := |spikeTimes[indices[i]]|];
    }
    assert indices[..|indices|] == indices;
    CountsOfIds(indices, ids, padding, spikeTimes, counts);
    return Ok(counts);
  }

  /** An enumeration of no index enumerates no id. */
  lemma EmptyEnumeration(r: seq<int>, ids: set<int>, padding: int)
    requires Enumerates(r, ids, padding) && r == []
    ensures ids == {}
  {
    assert multiset(Shift(r, padding)) == multiset{};
  }

  /** Counts keyed by the listed indices, read back in terms of the ids. */
  lemma CountsOfIds(indices: seq<int>, ids: set<int>, padding: int, spikeTimes: map<int, seq<real>>,
                    counts: map<int, nat>)
    requires Enumerates(indices, ids, padding)
    requires forall k :: 0 <= k < |indices| ==> indices[k] in spikeTimes
    requires forall k :: k in counts <==> k in indices
    ensures forall x :: x in ids ==> x - padding in spikeTimes
    ensures forall k :: k in counts <==> k + padding in ids
  {
    EnumeratedCover(indices, ids, padding, spikeTimes);
    EnumeratedKeys(indices, ids, padding);
  }

  /** `numpy.fromiter(ids, dtype=int) - padding` as the simulator runs it:
      the ids in the set's iteration order, each shifted down by `padding`. */
  method FromIter(ids: set<int>, padding: int) returns (r: seq<int>)
    ensures Enumerates(r, ids, padding)
  {
    var order := Enumerate(ids);
    r := Unshift(order, padding);
    assert Shift(r, padding) == order;
  }
  // ---------------------------------------------------------------------------
  // The recorder

  /** A recorder of one population: the cells recorded per variable, the
      devices created so far, and the variables whose devices were added to
      the simulator's network, in order. */
  class Recorder {
    const populationLabel: string
    const firstId: int
    const excitatorySynapse: string   // celltype.synapses['excitatory']
    const inhibitorySynapse: string   // celltype.synapses['inhibitory']
    var recorded: map<string, set<int>>
    var devices: map<string, Device>
    var added: seq<string>

    /** At most one device per variable, each added to the network once;
        the spike device is a spike monitor, and every other device tracks
        exactly the cells recorded for its variable. */
    ghost predicate Valid()
      reads this
    {
      && Distinct(added)
      && (forall v :: v in devices <==> v in added)
      && ("spikes" in devices ==> devices["spikes"].SpikeMonitor?)
      && TracksAll(devices, recorded, firstId)
    }

    constructor (populationLabel: string, firstId: int, excitatorySynapse: string, inhibitorySynapse: string)
      ensures Valid()
      ensures this.populationLabel == populationLabel && this.firstId == firstId
      ensures this.excitatorySynapse == excitatorySynapse && this.inhibitorySynapse == inhibitorySynapse
      ensures recorded == map[] && devices == map[] && added == []
    {
      this.populationLabel := populationLabel;
      this.firstId := firstId;
      this.excitatorySynapse := excitatorySynapse;
      this.inhibitorySynapse := inhibitorySynapse;
      recorded := map[];
      devices := map[];
      added := [];
    }

    /** `self.recorded[variable]`, an empty set when nothing was recorded. */
    function RecordedIds(variable: string): set<int>
      reads this
    {
      if variable in recorded then recorded[variable] else {}
    }

    /** The state variable a state monitor records for `variable`: `v`
        itself, or the cell type's excitatory or inhibitory synapse
        variable; other variables have none. */
    function VarName(variable: string): (r: Option<string>)
      ensures r.Some? <==> variable in {"v", "gsyn_exc", "gsyn_inh"}
      ensures variable == "v" ==> r == Some("v")
      ensures variable == "gsyn_exc" ==> r == Some(excitatorySynapse)
      ensures variable == "gsyn_inh" ==> r == Some(inhibitorySynapse)
    {
      if variable == "v" then Some("v")
      else if variable == "gsyn_exc" then Some(excitatorySynapse)
      else if variable == "gsyn_inh" then Some(inhibitorySynapse)
      else None
    }

    /** `_create_device`: a spike monitor for `spikes`, a state monitor for
        a variable with a state variable name; the device is added to the
        network. For any other variable the name lookup fails and nothing
        changes. */
    method CreateDevice(variable: string) returns (r: Outcome)
      requires variable !in devices
      modifies this`devices, this`added
      ensures r.Fail? <==> variable != "spikes" && VarName(variable).None?
      ensures r.Fail? ==> r.error == UnknownVariable && devices == old(devices) && added == old(added)
      ensures r.Pass? ==>
        && devices == old(devices)[variable := if variable == "spikes" then SpikeMonitor
                                               else StateMonitor(VarName(variable).value, [], map[])]
        && added == old(added) + [variable]
    {
      var device;
      if variable == "spikes" {
        device := SpikeMonitor;
      } else {
        var name := VarName(variable);
        if name.None? {
          return Fail(UnknownVariable);
        }
        device := StateMonitor(name.value, [], map[]);
      }
      devices := devices[variable := device];
      added := added + [variable];
      return Pass;
    }

    /** `record(variable, new_ids)`: the base class adds the new ids to the
        recorded set (the base class is not part of this model; this is the
        update it is taken to make), then `_record` creates the variable's
        device if it has none and, for a state variable, rewrites the
        device's tracked indices and their index map from the recorded set.
        A second call for the same variable never creates a second device. */
    method Record(variable: string, newIds: set<int>) returns (r: Outcome)
      requires Valid()
      modifies this`recorded, this`devices, this`added
      ensures Valid()
      ensures recorded == old(recorded)[variable := old(RecordedIds(variable)) + newIds]
      ensures r.Fail? <==> variable !in old(devices) && variable != "spikes" && VarName(variable).None?
      ensures r.Fail? ==> r.error == UnknownVariable && devices == old(devices) && added == old(added)
      ensures r.Pass? ==> variable in devices && devices == old(devices)[variable := devices[variable]]
      ensures r.Pass? ==> added == old(added) + (if variable in old(devices) then [] else [variable])
      ensures r.Pass? && variable == "spikes" ==> devices[variable] == SpikeMonitor
      ensures r.Pass? && variable != "spikes" ==>
        && devices[variable].StateMonitor?
        && devices[variable].varname == (if variable in old(devices) then old(devices)[variable].varname
                                         else VarName(variable).value)
        && Tracks(devices[variable], recorded[variable], firstId)
    {
      ghost var devices0, recorded0 := devices, recorded;
      recorded := recorded[variable := RecordedIds(variable) + newIds];
      if variable !in devices {
        DistinctSnoc(added, variable);
        r := CreateDevice(variable);
        if r.Fail? {
          return;
        }
      }
      assert devices == devices0[variable := devices[variable]];
      if variable != "spikes" {
        var device := devices[variable];
        var record := Indices(recorded[variable], firstId);
        var index := IndexMap(record);
        ghost var devices1 := devices;
        devices := devices[variable := device.(record := record, recordIndex := index)];
        UpdateTwice(devices0, variable, devices1[variable], devices[variable]);
      }
      TracksUpdate(devices0, recorded0, firstId, variable, devices[variable], recorded[variable]);
      return Pass;
    }

    /** `_reset`: resetting the recording is not supported. */
    function Reset(): (r: Outcome)
      ensures r.Fail? && r.error == NotImplemented
    {
      Fail(NotImplemented)
    }

    /** `_get_all_values(variable)`: the samples of the variable's device
        followed by exactly one more row, the live values of the tracked
        cells, so that a value sampled at the start of a step is matched by
        the value at the end of the last step. */
    function GetAllValues(variable: string, samples: seq<seq<real>>, live: seq<real>)
      : (r: Result<seq<seq<real>>>)
      reads this
      ensures variable !in devices ==> r == Err(MissingKey)
      ensures variable in devices && devices[variable].SpikeMonitor? ==> r == Err(NotAStateMonitor)
      ensures variable in devices && devices[variable].StateMonitor? ==>
                r == match Take(live, devices[variable].record)
                     case Err(e) => Err(e)
                     case Ok(current) => VStack(samples, current)
      ensures r.Ok? ==> variable in devices && devices[variable].StateMonitor?
      ensures r.Ok? && samples != [] ==>
        && |r.value| == |samples| + 1
        && r.value[..|samples|] == samples
        && Take(live, devices[variable].record).Ok?
        && r.value[|samples|] == Take(live, devices[variable].record).value
    {
      if variable !in devices then Err(MissingKey)
      else match devices[variable]
        case SpikeMonitor => Err(NotAStateMonitor)
        case StateMonitor(_, record, _) =>
          match Take(live, record)
          case Err(e) => Err(e)
          case Ok(current) => VStack(samples, current)
    }

    /** `filter_recorded(variable, filter_ids)` of the base class: the
        recorded cells, restricted to `filter_ids` when one is given. */
    function Filtered(variable: string, filter: Option<set<int>>): set<int>
      reads this
    {
      match filter
      case None => RecordedIds(variable)
      case Some(ids) => RecordedIds(variable) * ids
    }

    /** The variables a segment covers: those recorded, restricted to the
        requested ones unless all are requested. */
    function Included(selection: VariableSelection): (r: set<string>)
      reads this
      ensures r <= recorded.Keys
      ensures selection.AllVariables? ==> r == recorded.Keys
      ensures selection.Named? ==> forall v :: v in r <==> v in recorded && v in selection.names
    {
      match selection
      case AllVariables => recorded.Keys
      case Named(names) => recorded.Keys * names
    }

    /** The spike read-out succeeds: the spike device exists and holds
        spike times for every filtered cell. */
    predicate SpikesOk(filter: Option<set<int>>, spikeTimes: map<int, seq<real>>)
      reads this
    {
      "spikes" in devices && forall x :: x in Filtered("spikes", filter) ==> x - firstId in spikeTimes
    }

    /** The read-out of one variable succeeds: the spikes as above; for any
        other variable, its samples can be stacked. */
    predicate VariableOk(variable: string, filter: Option<set<int>>, rd: Readings)
      reads this
    {
      if variable == "spikes" then SpikesOk(filter, rd.spikeTimes)
      else GetAllValues(variable, RowsOf(rd.samples, variable), ValuesOf(rd.live, variable)).Ok?
    }

    /** What a segment holds for an analog variable: the stacked values, the
        unit, the filtered cells as `source_ids`, and as `channel_indexes`
        the same cells less `first_id`, ascending. */
    ghost predicate SignalFor(s: AnalogSignal, filter: Option<set<int>>, rd: Readings)
      reads this
    {
      && s.sourcePopulation == populationLabel
      && s.tStart == rd.tStart && s.samplingPeriod == rd.dt
      && s.units == UnitOf(rd.unitsMap, s.name)
      && GetAllValues(s.name, RowsOf(rd.samples, s.name), ValuesOf(rd.live, s.name)).Ok?
      && s.signal == GetAllValues(s.name, RowsOf(rd.samples, s.name), ValuesOf(rd.live, s.name)).value
      && Lists(s.sourceIds, Filtered(s.name, filter))
      && Sorted(s.channelIndexes)
      && multiset(s.channelIndexes) == multiset(Unshift(s.sourceIds, firstId))
    }

    /** The spike-train part of `_get_current_segment`: one train per
        filtered cell, read from the spike device; fails when there is no
        spike device or a filtered cell has no entry in it. */
    function SpikeTrainsOf(filter: Option<set<int>>, rd: Readings): (r: Result<seq<SpikeTrain>>)
      reads this
      ensures r.Ok? <==> SpikesOk(filter, rd.spikeTimes)
      ensures r.Err? ==> r.error == MissingKey
      ensures r.Ok? ==> TrainsFor(r.value, Filtered("spikes", filter), rd.spikeTimes, rd.t, populationLabel, firstId)
    {
      var filtered := Filtered("spikes", filter);
      var indices := Indices(filtered, firstId);
      EnumeratedCover(indices, filtered, firstId, rd.spikeTimes);
      if "spikes" !in devices then Err(MissingKey)
      else if forall k :: 0 <= k < |indices| ==> indices[k] in rd.spikeTimes then
        SpikeTrainsFor(indices, filtered, rd.spikeTimes, rd.t, populationLabel, firstId);
        Ok(SpikeTrains(indices, rd.spikeTimes, rd.t, populationLabel, firstId))
      else Err(MissingKey)
    }

    /** The analog part of `_get_current_segment` for one variable: the
        stacked values with the filtered cells as source ids and their
        indices, ascending, as channel indexes. */
    function AnalogOf(variable: string, filter: Option<set<int>>, rd: Readings): (r: Result<AnalogSignal>)
      reads this
      ensures r.Ok? <==> GetAllValues(variable, RowsOf(rd.samples, variable), ValuesOf(rd.live, variable)).Ok?
      ensures r.Err? ==> r.error == GetAllValues(variable, RowsOf(rd.samples, variable), ValuesOf(rd.live, variable)).error
      ensures r.Ok? ==> r.value.name == variable && SignalFor(r.value, filter, rd)
    {
      var indices := Indices(Filtered(variable, filter), firstId);
      match GetAllValues(variable, RowsOf(rd.samples, variable), ValuesOf(rd.live, variable))
      case Err(e) => Err(e)
      case Ok(values) =>
        var sourceIds := Shift(indices, firstId);
        assert Unshift(sourceIds, firstId) == indices;
        Ok(AnalogSignal(values, UnitOf(rd.unitsMap, variable), rd.tStart, rd.dt, variable, populationLabel,
                        SortIndices(indices), sourceIds))
    }

    /** One pass of the read-out loop: the spike trains replace the segment's
        trains; any other variable appends its signal. */
    function Step(segment: Segment, variable: string, filter: Option<set<int>>, rd: Readings): (r: Result<Segment>)
      reads this
      ensures r.Ok? <==> VariableOk(variable, filter, rd)
    {
      if variable == "spikes" then
        match SpikeTrainsOf(filter, rd)
        case Err(e) => Err(e)
        case Ok(trains) => Ok(segment.(spiketrains := trains))
      else
        match AnalogOf(variable, filter, rd)
        case Err(e) => Err(e)
        case Ok(signal) => Ok(segment.(analog := segment.analog + [signal]))
    }

    /** The segment the read-out loop has built after visiting `vars` in
        order, or the error of the first variable that cannot be read. */
    function Collect(vars: seq<string>, filter: Option<set<int>>, rd: Readings): Result<Segment>
      reads this
    {
      if vars == [] then Ok(Segment(populationLabel, [], []))
      else
        match Collect(vars[..|vars| - 1], filter, rd)
        case Err(e) => Err(e)
        case Ok(segment) => Step(segment, vars[|vars| - 1], filter, rd)
    }

    /** Each of `vars` can be read out. */
    predicate AllReadable(vars: seq<string>, filter: Option<set<int>>, rd: Readings)
      reads this
    {
      vars == [] || (AllReadable(vars[..|vars| - 1], filter, rd) && VariableOk(vars[|vars| - 1], filter, rd))
    }

    lemma {:induction false} AllReadableAt(vars: seq<string>, filter: Option<set<int>>, rd: Readings)
      ensures AllReadable(vars, filter, rd) <==> forall j :: 0 <= j < |vars| ==> VariableOk(vars[j], filter, rd)
    {
      if vars != [] {
        var init := vars[..|vars| - 1];
        AllReadableAt(init, filter, rd);
        assert forall j :: 0 <= j < |init| ==> init[j] == vars[j];
      }
    }

    /** Whatever the order of the variables, the loop succeeds exactly when
        each of them can be read. */
    lemma {:induction false} CollectOk(vars: seq<string>, filter: Option<set<int>>, rd: Readings)
      ensures Collect(vars, filter, rd).Ok? <==> AllReadable(vars, filter, rd)
    {
      if vars != [] {
        CollectOk(vars[..|vars| - 1], filter, rd);
      }
    }

    /** The segment keeps the population's name and holds the trains of the
        filtered cells if and only if spikes were visited. */
    lemma {:induction false} CollectTrains(vars: seq<string>, filter: Option<set<int>>, rd: Readings)
      requires Collect(vars, filter, rd).Ok?
      ensures Collect(vars, filter, rd).value.name == populationLabel
      ensures "spikes" !in vars ==> Collect(vars, filter, rd).value.spiketrains == []
      ensures "spikes" in vars ==>
                TrainsFor(Collect(vars, filter, rd).value.spiketrains, Filtered("spikes", filter),
                          rd.spikeTimes, rd.t, populationLabel, firstId)
    {
      if vars != [] {
        var init, v := vars[..|vars| - 1], vars[|vars| - 1];
        InitMember(vars, "spikes");
        CollectTrains(init, filter, rd);
        StepTrains(Collect(init, filter, rd).value, v, filter, rd);
      }
    }

    /** One step of the read-out keeps the segment's name, and sets its
        trains when, and only when, it visits spikes. */
    lemma StepTrains(segment: Segment, variable: string, filter: Option<set<int>>, rd: Readings)
      requires Step(segment, variable, filter, rd).Ok?
      ensures Step(segment, variable, filter, rd).value.name == segment.name
      ensures variable != "spikes" ==> Step(segment, variable, filter, rd).value.spiketrains == segment.spiketrains
      ensures variable == "spikes" ==>
                TrainsFor(Step(segment, variable, filter, rd).value.spiketrains, Filtered("spikes", filter),
                          rd.spikeTimes, rd.t, populationLabel, firstId)
    {
    }

    /** Each of `analog` is read out for its variable. */
    ghost predicate SignalsFor(analog: seq<AnalogSignal>, filter: Option<set<int>>, rd: Readings)
      reads this
    {
      analog == [] || (SignalsFor(analog[..|analog| - 1], filter, rd) && SignalFor(analog[|analog| - 1], filter, rd))
    }

    lemma {:induction false} SignalsForIndex(analog: seq<AnalogSignal>, k: int, filter: Option<set<int>>, rd: Readings)
      requires SignalsFor(analog, filter, rd) && 0 <= k < |analog|
      ensures SignalFor(analog[k], filter, rd)
    {
      var init := analog[..|analog| - 1];
      if k < |init| {
        SignalsForIndex(init, k, filter, rd);
        assert init[k] == analog[k];
      }
    }

    lemma {:induction false} SignalsForAll(analog: seq<AnalogSignal>, filter: Option<set<int>>, rd: Readings)
      requires forall k :: 0 <= k < |analog| ==> SignalFor(analog[k], filter, rd)
      ensures SignalsFor(analog, filter, rd)
    {
      if analog != [] {
        var init := analog[..|analog| - 1];
        forall k | 0 <= k < |init| ensures SignalFor(init[k], filter, rd) {
          assert init[k] == analog[k];
        }
        SignalsForAll(init, filter, rd);
      }
    }

    lemma SignalsForAt(analog: seq<AnalogSignal>, filter: Option<set<int>>, rd: Readings)
      ensures SignalsFor(analog, filter, rd) <==> forall k :: 0 <= k < |analog| ==> SignalFor(analog[k], filter, rd)
    {
      if SignalsFor(analog, filter, rd) {
        forall k | 0 <= k < |analog| ensures SignalFor(analog[k], filter, rd) {
          SignalsForIndex(analog, k, filter, rd);
        }
      } else if forall k :: 0 <= k < |analog| ==> SignalFor(analog[k], filter, rd) {
        SignalsForAll(analog, filter, rd);
      }
    }

    /** The segment holds one signal per visited variable other than spikes,
        in visiting order. */
    lemma {:induction false} CollectNames(vars: seq<string>, filter: Option<set<int>>, rd: Readings)
      requires Collect(vars, filter, rd).Ok?
      ensures Names(Collect(vars, filter, rd).value.analog) == Without(vars, "spikes")
    {
      if vars != [] {
        var init, v := vars[..|vars| - 1], vars[|vars| - 1];
        CollectNames(init, filter, rd);
        var s := Collect(init, filter, rd).value;
        if v != "spikes" {
          var signal := AnalogOf(v, filter, rd).value;
          assert Collect(vars, filter, rd).value.analog == s.analog + [signal];
          assert (s.analog + [signal])[..|s.analog|] == s.analog;
        } else {
          assert Collect(vars, filter, rd).value.analog == s.analog;
        }
      }
    }

    /** Each signal of the segment is read out for its variable. */
    lemma {:induction false} CollectSignals(vars: seq<string>, filter: Option<set<int>>, rd: Readings)
      requires Collect(vars, filter, rd).Ok?
      ensures SignalsFor(Collect(vars, filter, rd).value.analog, filter, rd)
    {
      if vars != [] {
        var init, v := vars[..|vars| - 1], vars[|vars| - 1];
        CollectSignals(init, filter, rd);
        var s := Collect(init, filter, rd).value;
        if v != "spikes" {
          var signal := AnalogOf(v, filter, rd).value;
          assert (s.analog + [signal])[..|s.analog|] == s.analog;
        }
      }
    }

    /** `_get_current_segment(filter_ids, variables)`: a segment named after
        the population, with one spike train per filtered cell when spikes
        are included and one analog signal per other included variable.
        The segment is built exactly when every included variable can be
        read out. */
    method GetCurrentSegment(filter: Option<set<int>>, selection: VariableSelection, rd: Readings)
      returns (r: Result<Segment>)
      ensures r.Ok? <==> forall v :: v in Included(selection) ==> VariableOk(v, filter, rd)
      ensures r.Ok? ==> r.value.name == populationLabel
      ensures r.Ok? && "spikes" in Included(selection) ==>
                TrainsFor(r.value.spiketrains, Filtered("spikes", filter), rd.spikeTimes, rd.t, populationLabel, firstId)
      ensures r.Ok? && "spikes" !in Included(selection) ==> r.value.spiketrains == []
      ensures r.Ok? ==> Lists(Names(r.value.analog), Included(selection) - {"spikes"})
      ensures r.Ok? ==> forall k :: 0 <= k < |r.value.analog| ==> SignalFor(r.value.analog[k], filter, rd)
    {
      var order := Enumerate(Included(selection));
      var segment := Segment(populationLabel, [], []);
      for i := 0 to |order|
        invariant Collect(order[..i], filter, rd) == Ok(segment)
      {
        var v := order[i];
        assert order[..i + 1][..i] == order[..i];
        if v == "spikes" {
          var trains := SpikeTrainsOf(filter, rd);
          if trains.Err? {
            ListedMember(order, Included(selection), i);
            return Err(trains.error);
          }
          segment := segment.(spiketrains := trains.value);
        } else {
          var signal := AnalogOf(v, filter, rd);
          if signal.Err? {
            ListedMember(order, Included(selection), i);
            return Err(signal.error);
          }
          segment := segment.(analog := segment.analog + [signal.value]);
        }
      }
      assert order[..|order|] == order;
      SegmentFacts(order, selection, filter, rd);
      return Ok(segment);
    }

    /** The read-out over a listing of the included variables. */
    lemma SegmentFacts(order: seq<string>, selection: VariableSelection, filter: Option<set<int>>, rd: Readings)
      requires Lists(order, Included(selection))
      requires Collect(order, filter, rd).Ok?
      ensures forall v :: v in Included(selection) ==> VariableOk(v, filter, rd)
      ensures "spikes" in Included(selection) ==>
                TrainsFor(Collect(order, filter, rd).value.spiketrains, Filtered("spikes", filter),
                          rd.spikeTimes, rd.t, populationLabel, firstId)
      ensures "spikes" !in Included(selection) ==> Collect(order, filter, rd).value.spiketrains == []
      ensures Lists(Names(Collect(order, filter, rd).value.analog), Included(selection) - {"spikes"})
      ensures Collect(order, filter, rd).value.name == populationLabel
      ensures forall k :: 0 <= k < |Collect(order, filter, rd).value.analog| ==>
                SignalFor(Collect(order, filter, rd).value.analog[k], filter, rd)
    {
      CollectOk(order, filter, rd);
      AllReadableAt(order, filter, rd);
      CollectTrains(order, filter, rd);
      CollectNames(order, filter, rd);
      CollectSignals(order, filter, rd);
      SignalsForAt(Collect(order, filter, rd).value.analog, filter, rd);
      forall v | v in Included(selection) ensures VariableOk(v, filter, rd) {
        var j := ListedPosition(order, Included(selection), v);
      }
      if "spikes" in order {
        var j :| 0 <= j < |order| && order[j] == "spikes";
        ListedMember(order, Included(selection), j);
      }
      if "spikes" in Included(selection) {
        var j := ListedPosition(order, Included(selection), "spikes");
      }
      WithoutListing(order, Included(selection), "spikes");
    }

    /** `_local_count(variable, filter_ids)`: for each filtered cell, keyed
        by its index `id - first_id`, the number of spikes the spike device
        holds for it. The spike device is looked up for each cell, so with
        no filtered cell nothing can fail. */
    method LocalCount(variable: string, filter: Option<set<int>>, spikeTimes: map<int, seq<real>>)
      returns (r: Result<map<int, nat>>)
      ensures r.Ok? <==> Filtered(variable, filter) == {}
                         || ("spikes" in devices
                             && forall x :: x in Filtered(variable, filter) ==> x - firstId in spikeTimes)
      ensures r.Err? ==> r.error == MissingKey
      ensures r.Ok? ==> forall k :: k in r.value <==> k + firstId in Filtered(variable, filter)
      ensures r.Ok? ==> forall k :: k in r.value ==> k in spikeTimes && r.value[k] == |spikeTimes[k]|
    {
      var filtered := Filtered(variable, filter);
      var indices := FromIter(filtered, firstId);
      if indices == [] {
        assert filtered == {} by { EmptyEnumeration(indices, filtered, firstId); }
        return Ok(map[]);
      }
      EnumeratedId(indices, filtered, firstId, 0);
      if "spikes" !in devices {
        return Err(MissingKey);
      }
      r := SpikeCounts(indices, spikeTimes, filtered, firstId);
    }
  }
}
