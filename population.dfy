/** A population: a shaped array of contiguous cell ids, the mask of the ids
    this process owns, and the address/id conversions between them. */
module Populations {
  import opened Outcomes
  import opened Identity
  import Text

  /** Number of cells of a shape (numpy's `size`). */
  function Product(dims: seq<nat>): nat
  {
    if dims == [] then 1 else dims[0] * Product(dims[1..])
  }

  /** Row-major (C order) position of address `a` in an array of shape `dims`. */
  function Flatten(a: seq<int>, dims: seq<nat>): int
    requires |a| == |dims|
  {
    if a == [] then 0 else a[0] * Product(dims[1..]) + Flatten(a[1..], dims[1..])
  }

  predicate InBounds(a: seq<int>, dims: seq<nat>)
  {
    |a| == |dims| && forall k :: 0 <= k < |a| ==> 0 <= a[k] < dims[k]
  }

  datatype Population = Population(
    name: string,          // the population's label
    dims: seq<nat>,
    firstId: int,
    lastId: int,
    allCells: seq<int>,    // all ids, flattened in row-major order
    maskLocal: seq<bool>,  // the flattened `_mask_local`
    localCells: seq<int>)  // `all_cells[_mask_local]`
  {
    function Size(): nat { Product(dims) }

    ghost predicate Valid()
    {
      && |dims| >= 1
      && (forall k :: 0 <= k < |dims| ==> dims[k] > 0)
      && Size() > 0
      && |allCells| == Size() && |maskLocal| == Size()
      && lastId == firstId + Size() - 1
      && (forall i :: 0 <= i < |allCells| ==> allCells[i] == firstId + i)
      && localCells == Masked(allCells, maskLocal)
    }
  }

  // ---------------------------------------------------------------------------
  // Arithmetic facts behind the address conversions

  lemma ProductPositive(dims: seq<nat>)
    requires forall k :: 0 <= k < |dims| ==> dims[k] > 0
    ensures Product(dims) > 0
  {
    if dims != [] {
      ProductPositive(dims[1..]);
    }
  }

  lemma ProductAllPositive(dims: seq<nat>)
    requires Product(dims) > 0
    ensures forall k :: 0 <= k < |dims| ==> dims[k] > 0
  {
    if dims != [] {
      assert dims[0] != 0;
      ProductAllPositive(dims[1..]);
      forall k | 1 <= k < |dims| ensures dims[k] > 0 {
        assert dims[k] == dims[1..][k - 1];
      }
    }
  }

  lemma DivBelow(x: int, m: int, d: int)
    requires m > 0 && 0 <= x < d * m
    ensures 0 <= x / m < d
  {
  }

  /** Row-major step: a row index below `d` and an offset below `r` stay
      below `d * r`. */
  lemma RowBound(i: int, d: int, r: int, f: int)
    requires 0 <= i < d && 0 <= f < r
    ensures 0 <= i * r + f < d * r
  {
    assert i * r <= (d - 1) * r;
  }

  /** Two row-major positions with different row indices are different. */
  lemma RowSeparation(i: int, j: int, r: int, f: int, g: int)
    requires 0 <= i < j && 0 <= f < r && 0 <= g < r
    ensures i * r + f < j * r + g
  {
    var k := j - i;
    assert j * r == i * r + k * r;
    assert k * r == r + (k - 1) * r;
  }

  lemma DivModParts(x: int, m: int)
    requires m > 0
    ensures x == (x / m) * m + x % m && 0 <= x % m < m
  {
  }

  /** Any in-bounds address flattens to a position inside the array. */
  lemma {:induction false} FlattenBound(a: seq<int>, dims: seq<nat>)
    requires InBounds(a, dims)
    ensures 0 <= Flatten(a, dims) < Product(dims)
  {
    if a != [] {
      FlattenBound(a[1..], dims[1..]);
      RowBound(a[0], dims[0], Product(dims[1..]), Flatten(a[1..], dims[1..]));
    }
  }

  // ---------------------------------------------------------------------------
  // locate / __getitem__ / index

  /** `Population.locate`: the coordinates of `id` relative to `firstId`, for
      one-, two- and three-dimensional populations; any other rank is
      rejected. */
  function Locate(p: Population, id: int): (r: Result<seq<int>>)
    requires p.Valid()
    ensures r.Ok? <==> 1 <= |p.dims| <= 3
    ensures r.Ok? ==> |r.value| == |p.dims|
    ensures r.Err? ==> r.error == InvalidDimensions
  {
    var off := id - p.firstId;
    if |p.dims| == 3 then
      var rows := p.dims[1];
      var cols := p.dims[2];
      var i := off / (rows * cols);
      var remainder := off % (rows * cols);
      Ok([i, remainder / cols, remainder % cols])
    else if |p.dims| == 2 then
      var cols := p.dims[1];
      Ok([off / cols, off % cols])
    else if |p.dims| == 1 then
      Ok([off])
    else
      Err(InvalidDimensions)
  }

  lemma Flatten3(a: seq<int>, dims: seq<nat>)
    requires |a| == 3 && |dims| == 3
    ensures Flatten(a, dims) == a[0] * (dims[1] * dims[2]) + a[1] * dims[2] + a[2]
  {
    var t := dims[1..];
    assert t[1..] == [dims[2]] && t[1..][1..] == [];
    assert Product(t[1..]) == dims[2];
    assert Product(t) == dims[1] * dims[2];
    assert a[1..][1..] == [a[2]] && a[1..][1..][1..] == [];
    assert Flatten(a[1..][1..], t[1..]) == a[2];
    assert Flatten(a[1..], t) == a[1] * dims[2] + a[2];
  }

  lemma Flatten2(a: seq<int>, dims: seq<nat>)
    requires |a| == 2 && |dims| == 2
    ensures Flatten(a, dims) == a[0] * dims[1] + a[1]
  {
    var t := dims[1..];
    assert t == [dims[1]] && t[1..] == [];
    assert Product(t) == dims[1];
    assert a[1..] == [a[1]] && a[1..][1..] == [];
    assert Flatten(a[1..], t) == a[1];
  }

  /** The arithmetic of three-dimensional `locate`. */
  lemma Locate3Arith(off: int, d0: int, rows: int, cols: int)
    requires d0 > 0 && rows > 0 && cols > 0
    requires 0 <= off < d0 * (rows * cols)
    ensures 0 <= off / (rows * cols) < d0
    ensures 0 <= (off % (rows * cols)) / cols < rows
    ensures 0 <= (off % (rows * cols)) % cols < cols
    ensures off == (off / (rows * cols)) * (rows * cols)
                   + ((off % (rows * cols)) / cols) * cols + (off % (rows * cols)) % cols
  {
    var m := rows * cols;
    DivBelow(off, m, d0);
    DivModParts(off, m);
    var remainder := off % m;
    assert remainder < rows * cols;
    DivBelow(remainder, cols, rows);
    DivModParts(remainder, cols);
  }

  /** The arithmetic of two-dimensional `locate`. */
  lemma Locate2Arith(off: int, d0: int, cols: int)
    requires d0 > 0 && cols > 0
    requires 0 <= off < d0 * cols
    ensures 0 <= off / cols < d0 && 0 <= off % cols < cols
    ensures off == (off / cols) * cols + off % cols
  {
    DivBelow(off, cols, d0);
    DivModParts(off, cols);
  }

  lemma Product3(dims: seq<nat>)
    requires |dims| == 3
    ensures Product(dims) == dims[0] * (dims[1] * dims[2])
  {
    var t := dims[1..];
    assert t[1..] == [dims[2]] && t[1..][1..] == [];
    assert Product(t[1..]) == dims[2];
    assert Product(t) == dims[1] * dims[2];
  }

  lemma Product2(dims: seq<nat>)
    requires |dims| == 2
    ensures Product(dims) == dims[0] * dims[1]
  {
    var t := dims[1..];
    assert t == [dims[1]] && t[1..] == [];
    assert Product(t) == dims[1];
  }

  lemma LocateInverse3(p: Population, id: int)
    requires p.Valid() && |p.dims| == 3
    requires p.firstId <= id <= p.lastId
    ensures InBounds(Locate(p, id).value, p.dims)
    ensures Flatten(Locate(p, id).value, p.dims) == id - p.firstId
  {
    var off, dims := id - p.firstId, p.dims;
    var m := dims[1] * dims[2];
    var a := [off / m, (off % m) / dims[2], (off % m) % dims[2]];
    assert Locate(p, id).value == a;
    Product3(dims);
    Locate3Arith(off, dims[0], dims[1], dims[2]);
    Flatten3(a, dims);
  }

  lemma LocateInverse2(p: Population, id: int)
    requires p.Valid() && |p.dims| == 2
    requires p.firstId <= id <= p.lastId
    ensures InBounds(Locate(p, id).value, p.dims)
    ensures Flatten(Locate(p, id).value, p.dims) == id - p.firstId
  {
    var off, dims := id - p.firstId, p.dims;
    var a := [off / dims[1], off % dims[1]];
    assert Locate(p, id).value == a;
    Product2(dims);
    Locate2Arith(off, dims[0], dims[1]);
    Flatten2(a, dims);
  }

  /** `locate` inverts row-major flattening: every id of the population gets
      an in-bounds address that flattens back to its offset from `firstId`. */
  lemma LocateInverse(p: Population, id: int)
    requires p.Valid() && 1 <= |p.dims| <= 3
    requires p.firstId <= id <= p.lastId
    ensures InBounds(Locate(p, id).value, p.dims)
    ensures Flatten(Locate(p, id).value, p.dims) == id - p.firstId
  {
    if |p.dims| == 3 {
      LocateInverse3(p, id);
    } else if |p.dims| == 2 {
      LocateInverse2(p, id);
    } else {
      var a := [id - p.firstId];
      assert Locate(p, id).value == a;
      assert p.dims[1..] == [] && a[1..] == [];
      assert Product(p.dims) == p.dims[0];
    }
  }

  /** An address given to `p[...]`: a bare integer or a tuple. */
  datatype Address = Index(i: int) | Coords(cs: seq<int>)

  /** An integer address is read as a one-element tuple. */
  function AsTuple(addr: Address): seq<int>
  {
    match addr
    case Index(i) => [i]
    case Coords(cs) => cs
  }

  /** numpy accepts each coordinate in `-dims[k] .. dims[k]-1`. */
  predicate NumpyInRange(a: seq<int>, dims: seq<nat>)
  {
    |a| == |dims| && forall k :: 0 <= k < |a| ==> -(dims[k] as int) <= a[k] < dims[k]
  }

  /** numpy's wrap-around of negative coordinates. */
  function Wrap(a: seq<int>, dims: seq<nat>): (w: seq<int>)
    requires NumpyInRange(a, dims)
    ensures InBounds(w, dims)
    ensures forall k :: 0 <= k < |a| ==> w[k] == if a[k] < 0 then a[k] + dims[k] else a[k]
  {
    seq(|a|, k requires 0 <= k < |a| => if a[k] < 0 then a[k] + dims[k] else a[k])
  }

  /** `Population.__getitem__`: the id stored at an address, which must have
      as many coordinates as the population has dimensions, must be inside
      numpy's index range, and must be what `locate` gives back for that id. */
  function GetItem(p: Population, addr: Address): (r: Result<int>)
    requires p.Valid()
  {
    var a := AsTuple(addr);
    if |a| != |p.dims| then Err(InvalidDimensions)
    else if !NumpyInRange(a, p.dims) then Err(IndexOutOfRange)
    else
      var w := Wrap(a, p.dims);
      FlattenBound(w, p.dims);
      var id := p.allCells[Flatten(w, p.dims)];
      match Locate(p, id)
      case Err(e) => Err(e)
      case Ok(coords) => if a != coords then Err(IndexOutOfRange) else Ok(id)
  }

  /** `p[a]` succeeds exactly for the in-bounds addresses of a population of
      rank 1 to 3 (negative coordinates, which numpy would accept, fail the
      cross-check with `locate`), returns the id at that row-major position,
      and `locate(p[a]) == a`. */
  lemma GetItemSpec(p: Population, addr: Address)
    requires p.Valid()
    ensures GetItem(p, addr).Ok? <==> 1 <= |p.dims| <= 3 && InBounds(AsTuple(addr), p.dims)
    ensures GetItem(p, addr).Ok? ==>
              && GetItem(p, addr).value == p.firstId + Flatten(AsTuple(addr), p.dims)
              && Locate(p, GetItem(p, addr).value) == Ok(AsTuple(addr))
  {
    var a := AsTuple(addr);
    if |a| == |p.dims| && NumpyInRange(a, p.dims) {
      var w := Wrap(a, p.dims);
      FlattenBound(w, p.dims);
      var id := p.allCells[Flatten(w, p.dims)];
      assert id == p.firstId + Flatten(w, p.dims);
      if 1 <= |p.dims| <= 3 {
        LocateInverse(p, id);
        var coords := Locate(p, id).value;
        FlattenInjective(coords, w, p.dims);
        assert coords == w;
        if InBounds(a, p.dims) {
          assert w == a;
        } else {
          var k :| 0 <= k < |a| && !(0 <= a[k] < p.dims[k]);
          assert w[k] != a[k];
        }
      }
    }
  }

  /** Row-major flattening is one-to-one on in-bounds addresses. */
  lemma {:induction false} FlattenInjective(a: seq<int>, b: seq<int>, dims: seq<nat>)
    requires InBounds(a, dims) && InBounds(b, dims)
    requires Flatten(a, dims) == Flatten(b, dims)
    ensures a == b
  {
    if a != [] {
      var rest := Product(dims[1..]);
      FlattenBound(a[1..], dims[1..]);
      FlattenBound(b[1..], dims[1..]);
      var fa, fb := Flatten(a[1..], dims[1..]), Flatten(b[1..], dims[1..]);
      if a[0] < b[0] {
        RowSeparation(a[0], b[0], rest, fa, fb);
      } else if a[0] > b[0] {
        RowSeparation(b[0], a[0], rest, fb, fa);
      }
      FlattenInjective(a[1..], b[1..], dims[1..]);
      assert a == [a[0]] + a[1..] && b == [b[0]] + b[1..];
    }
  }

  /** The other direction: looking up the address `locate` gives for any id
      of the population returns that id. */
  lemma LocateGetItem(p: Population, id: int)
    requires p.Valid() && 1 <= |p.dims| <= 3
    requires p.firstId <= id <= p.lastId
    ensures GetItem(p, Coords(Locate(p, id).value)) == Ok(id)
  {
    var a := Locate(p, id).value;
    LocateInverse(p, id);
    GetItemSpec(p, Coords(a));
  }

  /** `Population.index(n)`: the n-th cell in flattened order, with numpy's
      negative indexing. */
  function CellAt(p: Population, n: int): (r: Result<int>)
    requires p.Valid()
  {
    if -(p.Size() as int) <= n < p.Size() then
      Ok(p.allCells[if n < 0 then n + p.Size() else n])
    else
      Err(IndexOutOfRange)
  }

  /** `index(n)` reaches every id of the population exactly once as `n` runs
      over `0 .. size-1`, and `index(n)` is the cell at address `locate`
      gives for it. */
  lemma CellAtSpec(p: Population, n: int)
    requires p.Valid()
    ensures CellAt(p, n).Ok? <==> -(p.Size() as int) <= n < p.Size()
    ensures 0 <= n < p.Size() ==> CellAt(p, n) == Ok(p.firstId + n)
    ensures n < 0 && CellAt(p, n).Ok? ==> CellAt(p, n) == CellAt(p, n + p.Size())
    ensures 0 <= n < p.Size() && 1 <= |p.dims| <= 3 ==>
              GetItem(p, Coords(Locate(p, p.firstId + n).value)) == CellAt(p, n)
  {
    if 0 <= n < p.Size() && 1 <= |p.dims| <= 3 {
      LocateGetItem(p, p.firstId + n);
    }
  }

  /** `index` with a list of positions: numpy fancy indexing, which fails if
      any one position is out of range. */
  function CellsAt(p: Population, ns: seq<int>): (r: Result<seq<int>>)
    requires p.Valid()
    ensures r.Ok? <==> forall k :: 0 <= k < |ns| ==> CellAt(p, ns[k]).Ok?
    ensures r.Ok? ==> |r.value| == |ns| && forall k :: 0 <= k < |ns| ==> r.value[k] == CellAt(p, ns[k]).value
  {
    if ns == [] then Ok([])
    else match (CellAt(p, ns[0]), CellsAt(p, ns[1..]))
      case (Ok(x), Ok(xs)) => Ok([x] + xs)
      case (Err(e), _) => Err(e)
      case (_, Err(e)) =>
        assert forall k :: 1 <= k < |ns| ==> ns[k] == ns[1..][k - 1];
        Err(e)
  }

  // ---------------------------------------------------------------------------
  // tset and set

  /** Local cells and the values that are at their own positions in a value
      array are aligned. */
  lemma LocalAligned<T>(p: Population, values: seq<T>)
    requires p.Valid() && |values| == p.Size()
    ensures |Masked(values, p.maskLocal)| == |p.localCells|
    ensures forall i :: 0 <= i < |p.localCells| ==>
              p.firstId <= p.localCells[i] <= p.lastId
              && Masked(values, p.maskLocal)[i] == values[p.localCells[i] - p.firstId]
  {
    MaskedAt(values, p.maskLocal);
    MaskedAt(p.allCells, p.maskLocal);
  }

  /** `Population.tset`: the value array's shape must be the population's
      shape, or that shape with one extra trailing dimension (each cell then
      gets a row). `values` holds the array flattened over its leading
      dimensions. The result pairs every local cell, in local order, with the
      value at that cell's own address; `local_values.size ==
      local_cells.size` is then a consequence, not a runtime check. */
  function Tset<T>(p: Population, shape: seq<nat>, values: seq<T>): (r: Result<seq<(int, T)>>)
    requires p.Valid()
    requires |shape| >= |p.dims| ==> |values| == Product(shape[..|p.dims|])
    ensures r.Ok? <==> shape == p.dims || (|shape| == |p.dims| + 1 && shape[..|p.dims|] == p.dims)
    ensures r.Err? ==> r.error == if |shape| == |p.dims| + 1 then IndexOutOfRange else InvalidDimensions
    ensures r.Ok? ==> |r.value| == |p.localCells| && |values| == p.Size()
    ensures r.Ok? ==> forall i :: 0 <= i < |r.value| ==>
              r.value[i].0 == p.localCells[i]
              && p.firstId <= p.localCells[i] <= p.lastId
              && r.value[i].1 == values[p.localCells[i] - p.firstId]
  {
    if shape != p.dims && |shape| != |p.dims| + 1 then
      Err(InvalidDimensions)
    else if shape != p.dims && shape[..|p.dims|] != p.dims then
      // a boolean mask whose shape does not match the leading dimensions
      Err(IndexOutOfRange)
    else
      assert shape == p.dims ==> shape[..|p.dims|] == p.dims;
      LocalAligned(p, values);
      var localValues := Masked(values, p.maskLocal);
      Ok(seq(|p.localCells|, i requires 0 <= i < |p.localCells| => (p.localCells[i], localValues[i])))
  }

  /** A parameter value as cell objects store it. */
  datatype ParamValue = Scalar(x: real) | Vector(xs: seq<real>)

  /** The `val` argument of `Population.set`. */
  datatype SetValue = NumberValue(x: real) | StringValue(s: string) | ListValue(xs: seq<real>) | NoValue | OtherValue

  /** The `param` argument of `Population.set`. */
  datatype SetParam = ParamName(name: string) | ParamDict(d: map<string, ParamValue>) | OtherParam

  /** The dictionary `Population.set` applies: a name with a number or a
      string (converted by Python's `float`, here `toFloat`), a name with a
      list, or a ready-made dictionary. A string `float` cannot read raises
      `ValueError`; anything else is an invalid parameter value. */
  function ParameterDict(param: SetParam, val: SetValue, toFloat: string -> Option<real>)
    : (r: Result<map<string, ParamValue>>)
    ensures param.OtherParam? ==> r == Err(InvalidParameterValue)
    ensures param.ParamDict? ==> r == Ok(param.d)
    ensures param.ParamName? && (val.NoValue? || val.OtherValue?) ==> r == Err(InvalidParameterValue)
    ensures param.ParamName? && val.NumberValue? ==> r == Ok(map[param.name := Scalar(val.x)])
    ensures param.ParamName? && val.StringValue? ==>
              r == if toFloat(val.s).Some? then Ok(map[param.name := Scalar(toFloat(val.s).value)])
                   else Err(NotANumber)
    ensures param.ParamName? && val.ListValue? ==> r == Ok(map[param.name := Vector(val.xs)])
    ensures r.Ok? && param.ParamName? ==> r.value.Keys == {param.name}
  {
    match param
    case ParamName(name) =>
      (match val
       case NumberValue(x) => Ok(map[name := Scalar(x)])
       case StringValue(s) =>
         (match toFloat(s)
          case Some(x) => Ok(map[name := Scalar(x)])
          case None => Err(NotANumber))
       case ListValue(xs) => Ok(map[name := Vector(xs)])
       case _ => Err(InvalidParameterValue))
    case ParamDict(d) => Ok(d)
    case OtherParam => Err(InvalidParameterValue)
  }

  /** `Population.set`: every local cell, and no other, receives the same
      parameter dictionary. */
  function Set(p: Population, param: SetParam, val: SetValue, toFloat: string -> Option<real>)
    : (r: Result<seq<(int, map<string, ParamValue>)>>)
    requires p.Valid()
    ensures r.Ok? <==> ParameterDict(param, val, toFloat).Ok?
    ensures r.Ok? ==> |r.value| == |p.localCells|
    ensures r.Ok? ==> forall i :: 0 <= i < |r.value| ==>
              r.value[i] == (p.localCells[i], ParameterDict(param, val, toFloat).value)
  {
    match ParameterDict(param, val, toFloat)
    case Err(e) => Err(e)
    case Ok(d) => Ok(seq(|p.localCells|, i requires 0 <= i < |p.localCells| => (p.localCells[i], d)))
  }

  // ---------------------------------------------------------------------------
  // Selecting the cells to record

  /** The `record_from` argument of `record`/`record_v`. */
  datatype RecordFrom = AllCells | Count(n: int) | CellList(ids: seq<int>) | OtherSelection

  /** Python's `s[0:stop]`; a negative stop counts from the end. */
  function PrefixSlice<T>(s: seq<T>, stop: int): (r: seq<T>)
    ensures |r| == if stop >= 0 then (if stop < |s| then stop else |s|)
                   else (if |s| + stop > 0 then |s| + stop else 0)
    ensures r <= s
  {
    if stop >= 0 then (if stop < |s| then s[..stop] else s)
    else if |s| + stop > 0 then s[..|s| + stop] else []
  }

  /** The ids of a population are all different. */
  lemma CellsDistinct(p: Population)
    requires p.Valid()
    ensures Distinct(p.allCells)
  {
  }

  /** `Population.__record`'s choice of cells: a list as given, all cells,
      or the first `n / numProcesses` cells of a random permutation of all
      cells (`permutation` stands for the generator's output), which are
      distinct cells of the population. */
  function RecordSelection(p: Population, from: RecordFrom, numProcesses: nat, permutation: seq<int>)
    : (r: Result<seq<int>>)
    requires p.Valid() && numProcesses > 0
    requires from.Count? ==> multiset(permutation) == multiset(p.allCells)
    ensures r.Err? <==> from.OtherSelection?
    ensures from.AllCells? ==> r == Ok(p.allCells)
    ensures from.CellList? ==> r == Ok(from.ids)
    ensures from.Count? ==>
              var nrec := from.n / numProcesses;
              && r.Ok?
              && r.value == PrefixSlice(permutation, nrec)
              && |r.value| == (if nrec >= 0 then (if nrec < p.Size() then nrec else p.Size())
                               else (if p.Size() + nrec > 0 then p.Size() + nrec else 0))
              && (forall x :: x in r.value ==> x in p.allCells)
              && Distinct(r.value)
  {
    match from
    case CellList(ids) => Ok(ids)
    case AllCells => Ok(p.allCells)
    case Count(n) =>
      var nrec := n / numProcesses;
      var chosen := PrefixSlice(permutation, nrec);
      assert forall x :: x in chosen ==> x in multiset(permutation);
      CellsDistinct(p);
      PermutationDistinct(permutation, p.allCells);
      assert Distinct(chosen) by {
        forall i, j | 0 <= i < j < |chosen| ensures chosen[i] != chosen[j] {
          assert chosen[i] == permutation[i] && chosen[j] == permutation[j];
        }
      }
      Ok(chosen)
    case OtherSelection => Err(BadRecordSelection)
  }

  /** The local cells of a population built on process `rank` of
      `numProcesses`: they are that rank's round-robin share of all cells,
      each cell is local on exactly one rank, and the shares of all ranks
      together hold every cell once. */
  lemma LocalCellsPartition(p: Population, numProcesses: nat, rank: nat)
    requires p.Valid() && numProcesses > 0
    requires forall i :: 0 <= i < |p.allCells| ==> (p.maskLocal[i] <==> IsLocal(p.allCells[i], numProcesses, rank))
    ensures p.localCells == LocalIds(p.allCells, numProcesses, rank)
    ensures forall x :: x in p.localCells <==> p.firstId <= x <= p.lastId && x % numProcesses == rank
    ensures forall x, r :: x in p.allCells && 0 <= r < numProcesses ==>
              (x in LocalIds(p.allCells, numProcesses, r) <==> r == x % numProcesses)
    ensures CountOverRanks(p.allCells, numProcesses, numProcesses) == p.Size()
  {
    MaskedIsLocalIds(p.allCells, p.maskLocal, numProcesses, rank);
    OwnershipPartition(p.allCells, numProcesses);
    forall x ensures x in p.localCells <==> p.firstId <= x <= p.lastId && x % numProcesses == rank {
      LocalIdsMember(p.allCells, numProcesses, rank, x);
      if p.firstId <= x <= p.lastId {
        assert p.allCells[x - p.firstId] == x;
      }
    }
  }

  // ---------------------------------------------------------------------------
  // Construction

  /** Default label `population<n>`, `n` counting the populations built so far. */
  function DefaultLabel(count: nat): string
  {
    "population" + Text.NatToString(count)
  }

  /** `Population.__init__`: takes the label (an absent or empty label
      becomes the default one), allocates the ids through cell creation, and
      keeps the mask of local ids and the local cells. */
  method NewPopulation(state: SimulatorState, dims: seq<nat>, givenLabel: string)
    returns (r: Result<Population>)
    requires state.Valid() && |dims| >= 1
    modifies state
    ensures state.Valid()
    ensures r.Ok? <==> Product(dims) > 0
    ensures r.Err? ==>
      && r.error == InvalidArgument
      && state.gidCounter == old(state.gidCounter) && state.populationCount == old(state.populationCount)
    ensures r.Ok? ==>
      && r.value.Valid()
      && r.value.dims == dims
      && r.value.name == (if givenLabel == "" then DefaultLabel(old(state.populationCount)) else givenLabel)
      && r.value.firstId == old(state.gidCounter)
      && state.gidCounter == old(state.gidCounter) + Product(dims)
      && state.populationCount == old(state.populationCount) + 1
      && (forall i :: 0 <= i < |r.value.allCells| ==>
            (r.value.maskLocal[i] <==> IsLocal(r.value.allCells[i], state.numProcesses, state.mpiRank)))
      && r.value.localCells == LocalIds(r.value.allCells, state.numProcesses, state.mpiRank)
  {
    var name := if givenLabel == "" then DefaultLabel(state.populationCount) else givenLabel;
    var size := Product(dims);
    var created := state.Create(size);
    match created {
      case Err(e) =>
        r := Err(e);
      case Ok(c) =>
        ProductAllPositive(dims);
        MaskedIsLocalIds(c.allIds, c.maskLocal, state.numProcesses, state.mpiRank);
        r := Ok(Population(name, dims, c.firstId, c.lastId, c.allIds, c.maskLocal,
                           Masked(c.allIds, c.maskLocal)));
        state.populationCount := state.populationCount + 1;
    }
  }
}
