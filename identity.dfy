/** Cell identity: allocation of contiguous id ranges from a process-wide
    counter, and round-robin ownership of ids among the worker processes. */
module Identity {
  import opened Outcomes

  /** Round-robin ownership: process `rank` owns `id` exactly when
      `id % numProcesses == rank`. Python's `%` floors, which for a positive
      divisor is Dafny's Euclidean `%`. */
  predicate IsLocal(id: int, numProcesses: nat, rank: nat)
    requires numProcesses > 0
  {
    id % numProcesses == rank
  }

  /** The elements of `xs` whose mask entry is true, in order: numpy's
      boolean indexing `xs[mask]`. */
  function Masked<T>(xs: seq<T>, mask: seq<bool>): seq<T>
    requires |xs| == |mask|
  {
    if xs == [] then []
    else (if mask[0] then [xs[0]] else []) + Masked(xs[1..], mask[1..])
  }

  /** Positions of the true entries of `mask`, ascending. */
  function TruePositions(mask: seq<bool>): seq<nat>
  {
    if mask == [] then []
    else (if mask[0] then [0] else []) + Shift(TruePositions(mask[1..]))
  }

  function Shift(ps: seq<nat>): (r: seq<nat>)
    ensures |r| == |ps| && forall i :: 0 <= i < |ps| ==> r[i] == ps[i] + 1
  {
    if ps == [] then [] else [ps[0] + 1] + Shift(ps[1..])
  }

  lemma {:induction false} MaskedLength<T>(xs: seq<T>, mask: seq<bool>)
    requires |xs| == |mask|
    ensures |Masked(xs, mask)| == |TruePositions(mask)|
  {
    if xs != [] {
      MaskedLength(xs[1..], mask[1..]);
    }
  }

  lemma {:induction false} MaskedAtIndex<T>(xs: seq<T>, mask: seq<bool>, i: nat)
    requires |xs| == |mask| && i < |TruePositions(mask)|
    ensures |Masked(xs, mask)| == |TruePositions(mask)|
    ensures TruePositions(mask)[i] < |xs| && Masked(xs, mask)[i] == xs[TruePositions(mask)[i]]
  {
    MaskedLength(xs, mask);
    var rest := TruePositions(mask[1..]);
    if mask[0] && i == 0 {
    } else {
      var j := if mask[0] then i - 1 else i;
      assert TruePositions(mask)[i] == rest[j] + 1;
      MaskedAtIndex(xs[1..], mask[1..], j);
    }
  }

  /** Masking picks, at its i-th place, the element at the i-th true position
      of the mask; so two sequences masked by one mask stay aligned. */
  lemma MaskedAt<T>(xs: seq<T>, mask: seq<bool>)
    requires |xs| == |mask|
    ensures |Masked(xs, mask)| == |TruePositions(mask)|
    ensures forall i :: 0 <= i < |TruePositions(mask)| ==>
              TruePositions(mask)[i] < |xs| && Masked(xs, mask)[i] == xs[TruePositions(mask)[i]]
  {
    MaskedLength(xs, mask);
    forall i | 0 <= i < |TruePositions(mask)|
      ensures TruePositions(mask)[i] < |xs| && Masked(xs, mask)[i] == xs[TruePositions(mask)[i]]
    {
      MaskedAtIndex(xs, mask, i);
    }
  }

  /** Membership in a masked sequence. */
  lemma {:induction false} MaskedMember<T>(xs: seq<T>, mask: seq<bool>, x: T)
    requires |xs| == |mask|
    ensures x in Masked(xs, mask) <==> exists i :: 0 <= i < |xs| && mask[i] && xs[i] == x
  {
    if xs != [] {
      MaskedMember(xs[1..], mask[1..], x);
      if x in Masked(xs[1..], mask[1..]) {
        var i :| 0 <= i < |xs[1..]| && mask[1..][i] && xs[1..][i] == x;
        assert mask[i + 1] && xs[i + 1] == x;
      }
      if exists i :: 0 <= i < |xs| && mask[i] && xs[i] == x {
        var i :| 0 <= i < |xs| && mask[i] && xs[i] == x;
        if i > 0 {
          assert mask[1..][i - 1] && xs[1..][i - 1] == x;
        }
      }
    }
  }

  /** The ids of `ids` owned by process `rank`. */
  function LocalIds(ids: seq<int>, numProcesses: nat, rank: nat): seq<int>
    requires numProcesses > 0
  {
    if ids == [] then []
    else (if IsLocal(ids[0], numProcesses, rank) then [ids[0]] else [])
         + LocalIds(ids[1..], numProcesses, rank)
  }

  /** Total number of cells over the ranks 0 .. k-1. */
  function CountOverRanks(ids: seq<int>, numProcesses: nat, k: nat): nat
    requires numProcesses > 0
  {
    if k == 0 then 0
    else CountOverRanks(ids, numProcesses, k - 1) + |LocalIds(ids, numProcesses, k - 1)|
  }

  lemma {:induction false} LocalIdsMember(ids: seq<int>, numProcesses: nat, rank: nat, x: int)
    requires numProcesses > 0
    ensures x in LocalIds(ids, numProcesses, rank) <==> x in ids && x % numProcesses == rank
  {
    if ids != [] {
      LocalIdsMember(ids[1..], numProcesses, rank, x);
      assert ids == [ids[0]] + ids[1..];
    }
  }

  /** Masking by a rank's ownership mask keeps exactly that rank's ids:
      `all_ids[mask_local]` is the rank's local list. */
  lemma {:induction false} MaskedIsLocalIds(ids: seq<int>, mask: seq<bool>, numProcesses: nat, rank: nat)
    requires numProcesses > 0 && |ids| == |mask|
    requires forall i :: 0 <= i < |ids| ==> (mask[i] <==> IsLocal(ids[i], numProcesses, rank))
    ensures Masked(ids, mask) == LocalIds(ids, numProcesses, rank)
  {
    if ids != [] {
      MaskedIsLocalIds(ids[1..], mask[1..], numProcesses, rank);
    }
  }

  /** The first id, owned by `owner`, counts in that rank's local list and
      in no other. */
  lemma {:induction false} CountOverRanksHead(ids: seq<int>, numProcesses: nat, k: nat, owner: nat)
    requires numProcesses > 0 && ids != [] && IsLocal(ids[0], numProcesses, owner)
    ensures CountOverRanks(ids, numProcesses, k)
            == CountOverRanks(ids[1..], numProcesses, k) + (if owner < k then 1 else 0)
  {
    if k > 0 {
      CountOverRanksHead(ids, numProcesses, k - 1, owner);
      assert IsLocal(ids[0], numProcesses, k - 1) <==> owner == k - 1;
    }
  }

  lemma {:induction false} CountOverRanksNil(numProcesses: nat, k: nat)
    requires numProcesses > 0
    ensures CountOverRanks([], numProcesses, k) == 0
  {
    if k > 0 {
      CountOverRanksNil(numProcesses, k - 1);
    }
  }

  lemma {:induction false} CountOverRanksAll(ids: seq<int>, numProcesses: nat)
    requires numProcesses > 0
    ensures CountOverRanks(ids, numProcesses, numProcesses) == |ids|
  {
    if ids != [] {
      CountOverRanksAll(ids[1..], numProcesses);
      CountOverRanksHead(ids, numProcesses, numProcesses, ids[0] % numProcesses);
    } else {
      CountOverRanksNil(numProcesses, numProcesses);
    }
  }

  /** Round-robin distribution partitions every id list among the processes:
      each id is owned by rank `id % numProcesses` and by no other rank, and
      the local lists of all ranks together hold exactly as many cells as the
      whole list (no duplication, no omission). */
  lemma OwnershipPartition(ids: seq<int>, numProcesses: nat)
    requires numProcesses > 0
    ensures forall x, r :: x in ids && 0 <= r < numProcesses ==>
              (x in LocalIds(ids, numProcesses, r) <==> r == x % numProcesses)
    ensures CountOverRanks(ids, numProcesses, numProcesses) == |ids|
  {
    forall x, r | x in ids && 0 <= r < numProcesses
      ensures x in LocalIds(ids, numProcesses, r) <==> r == x % numProcesses
    {
      LocalIdsMember(ids, numProcesses, r, x);
    }
    CountOverRanksAll(ids, numProcesses);
  }

  /** What cell creation hands back: the ids in creation order, the local
      mask, and the first and last id of the range. */
  datatype Creation = Creation(allIds: seq<int>, maskLocal: seq<bool>, firstId: int, lastId: int)

  /** Builds the contiguous id range `first .. first+n-1` and its locality
      mask, one id at a time. */
  method AllocateIds(first: int, n: nat, numProcesses: nat, rank: nat)
    returns (ids: seq<int>, mask: seq<bool>)
    requires numProcesses > 0
    ensures |ids| == n && |mask| == n
    ensures forall i :: 0 <= i < n ==> ids[i] == first + i
    ensures forall i :: 0 <= i < n ==> (mask[i] <==> IsLocal(first + i, numProcesses, rank))
  {
    ids, mask := [], [];
    var i := 0;
    while i < n
      invariant 0 <= i <= n
      invariant |ids| == i && |mask| == i
      invariant forall k :: 0 <= k < i ==> ids[k] == first + k
      invariant forall k :: 0 <= k < i ==> (mask[k] <==> IsLocal(first + k, numProcesses, rank))
    {
      ids := ids + [first + i];
      mask := mask + [(first + i) % numProcesses == rank];
      i := i + 1;
    }
  }

  /** The process-wide simulator state that cell creation reads and updates:
      the global id counter, the number of processes and this process's rank,
      and the counter of populations used for default labels. */
  class SimulatorState {
    var gidCounter: nat
    var populationCount: nat
    const numProcesses: nat
    const mpiRank: nat

    ghost predicate Valid()
      reads this
    {
      numProcesses > 0 && mpiRank < numProcesses
    }

    constructor (numProcesses: nat, mpiRank: nat)
      requires 0 < numProcesses && mpiRank < numProcesses
      ensures Valid()
      ensures this.numProcesses == numProcesses && this.mpiRank == mpiRank
      ensures gidCounter == 0 && populationCount == 0
    {
      this.numProcesses := numProcesses;
      this.mpiRank := mpiRank;
      gidCounter := 0;
      populationCount := 0;
    }

    /** `_create`: fails for a non-positive count; otherwise allocates ids
        `gidCounter .. gidCounter+n-1`, marks those this process owns, and
        advances the counter by exactly `n`. Building the backend cell objects
        for the local ids is not modelled. */
    method Create(n: int) returns (r: Result<Creation>)
      requires Valid()
      modifies this`gidCounter
      ensures Valid()
      ensures n <= 0 ==> r == Err(InvalidArgument) && gidCounter == old(gidCounter)
      ensures n > 0 ==> r.Ok? && gidCounter == old(gidCounter) + n
      ensures r.Ok? ==>
        && r.value.firstId == old(gidCounter)
        && r.value.lastId == r.value.firstId + n - 1
        && |r.value.allIds| == n && |r.value.maskLocal| == n
        && (forall i :: 0 <= i < n ==> r.value.allIds[i] == r.value.firstId + i)
        && (forall i :: 0 <= i < n ==>
              (r.value.maskLocal[i] <==> IsLocal(r.value.allIds[i], numProcesses, mpiRank)))
    {
      if n <= 0 {
        return Err(InvalidArgument);
      }
      var firstId := gidCounter;
      var lastId := gidCounter + n - 1;
      var ids, mask := AllocateIds(firstId, n, numProcesses, mpiRank);
      gidCounter := gidCounter + n;
      r := Ok(Creation(ids, mask, firstId, lastId));
    }
  }
}
