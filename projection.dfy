/** Connections between cells: the low-level `connect`, and the connection
    table of a projection with its weight/delay setters, its list and dense
    matrix exports, and the text lines it saves. */
module Projections {
  import opened Outcomes
  import opened Identity
  import opened Populations
  import Text

  /** One connection as the projection keeps it: source id, target id, and
      the weight and delay of its network connection. */
  datatype Connection = Connection(pre: int, post: int, weight: real, delay: real)

  /** The two delays of an STDP weight-adjuster pair attached to a connection. */
  datatype StdpLink = StdpLink(pre2wa: real, post2wa: real)

  /** STDP splits a connection delay `d` into an axonal part `d*(1-ddf)` and
      a dendritic part `d*ddf`. The two always add up to `d`; for a fraction
      in `0 .. 1` and a non-negative delay both parts are non-negative, and a
      fraction of at most one half keeps the dendritic part the shorter one. */
  function SplitDelay(d: real, ddf: real): (s: StdpLink)
    ensures s.pre2wa + s.post2wa == d
    ensures 0.0 <= ddf <= 1.0 && d >= 0.0 ==> s.pre2wa >= 0.0 && s.post2wa >= 0.0
    ensures 0.0 <= ddf <= 0.5 && d >= 0.0 ==> s.post2wa <= s.pre2wa
  {
    MulNonneg(d, 1.0 - ddf);
    MulNonneg(d, ddf);
    MulNonneg(d, 1.0 - 2.0 * ddf);
    assert d * (1.0 - ddf) + d * ddf == d;
    assert d * (1.0 - 2.0 * ddf) == d * (1.0 - ddf) - d * ddf;
    StdpLink(d * (1.0 - ddf), d * ddf)
  }

  lemma MulNonneg(x: real, y: real)
    ensures x >= 0.0 && y >= 0.0 ==> x * y >= 0.0
  {
  }

  /** The STDP links of a whole connection table, one per connection. */
  function Links(conns: seq<Connection>, ddf: real): (r: seq<StdpLink>)
    ensures |r| == |conns|
    ensures forall i :: 0 <= i < |conns| ==> r[i].pre2wa + r[i].post2wa == conns[i].delay
  {
    seq(|conns|, i requires 0 <= i < |conns| => SplitDelay(conns[i].delay, ddf))
  }

  // ---------------------------------------------------------------------------
  // connect

  /** A `source`/`target` argument: a single cell or a list of cells. */
  datatype CellArg = OneCell(id: int) | CellList(ids: seq<int>)

  function AsList(x: CellArg): seq<int>
  {
    match x
    case OneCell(id) => [id]
    case CellList(ids) => ids
  }

  /** The random draws fit the call: one row per target, one draw per source.
      Draws are needed only when `p < 1`. */
  predicate DrawsFit(draws: seq<seq<real>>, nSources: nat, nTargets: nat, p: real)
  {
    p < 1.0 ==> |draws| == nTargets && forall t :: 0 <= t < |draws| ==> |draws[t]| == nSources
  }

  /** The sources kept for target number `t`: all of them when `p >= 1`,
      otherwise those whose draw is below `p` (`sources[rarr < p]`). */
  function Chosen(sources: seq<int>, draws: seq<seq<real>>, p: real, t: nat): seq<int>
    requires p < 1.0 ==> t < |draws| && |draws[t]| == |sources|
  {
    if p >= 1.0 then sources
    else Masked(sources, seq(|sources|, k requires 0 <= k < |sources| => draws[t][k] < p))
  }

  /** A source is kept exactly when `p >= 1` or its own draw is below `p`. */
  lemma ChosenMember(sources: seq<int>, draws: seq<seq<real>>, p: real, t: nat, x: int)
    requires p < 1.0 ==> t < |draws| && |draws[t]| == |sources|
    ensures x in Chosen(sources, draws, p, t) <==>
              exists s :: 0 <= s < |sources| && sources[s] == x && (p >= 1.0 || draws[t][s] < p)
  {
    if p < 1.0 {
      var mask := seq(|sources|, k requires 0 <= k < |sources| => draws[t][k] < p);
      MaskedMember(sources, mask, x);
    }
  }

  /** One target's connections, in source order. */
  function Row(srcs: seq<int>, tgt: int, weight: real, delay: real): (r: seq<Connection>)
    ensures |r| == |srcs|
  {
    seq(|srcs|, k requires 0 <= k < |srcs| => Connection(srcs[k], tgt, weight, delay))
  }

  /** The connections `connect` makes for the first `n` targets, target by
      target. */
  function ConnectUpTo(sources: seq<int>, targets: seq<int>, weight: real, delay: real,
                       p: real, draws: seq<seq<real>>, n: nat): seq<Connection>
    requires n <= |targets| && DrawsFit(draws, |sources|, |targets|, p)
  {
    if n == 0 then []
    else ConnectUpTo(sources, targets, weight, delay, p, draws, n - 1)
         + Row(Chosen(sources, draws, p, n - 1), targets[n - 1], weight, delay)
  }

  /** A connection is made exactly for a target and a source kept for it,
      with the given weight and delay. */
  lemma {:induction false} ConnectUpToMember(sources: seq<int>, targets: seq<int>, weight: real, delay: real,
                                             p: real, draws: seq<seq<real>>, n: nat, c: Connection)
    requires n <= |targets| && DrawsFit(draws, |sources|, |targets|, p)
    ensures c in ConnectUpTo(sources, targets, weight, delay, p, draws, n) <==>
              && c.weight == weight && c.delay == delay
              && exists t :: 0 <= t < n && targets[t] == c.post && c.pre in Chosen(sources, draws, p, t)
  {
    if n > 0 {
      ConnectUpToMember(sources, targets, weight, delay, p, draws, n - 1, c);
      var row := Row(Chosen(sources, draws, p, n - 1), targets[n - 1], weight, delay);
      if c in row {
        var k :| 0 <= k < |row| && row[k] == c;
        assert Chosen(sources, draws, p, n - 1)[k] == c.pre;
      }
      if c.weight == weight && c.delay == delay && targets[n - 1] == c.post
         && c.pre in Chosen(sources, draws, p, n - 1) {
        var k :| 0 <= k < |Chosen(sources, draws, p, n - 1)| && Chosen(sources, draws, p, n - 1)[k] == c.pre;
        assert row[k] == c;
      }
    }
  }

  /** With `p >= 1` every target is connected to every source. */
  lemma {:induction false} ConnectUpToAllToAll(sources: seq<int>, targets: seq<int>, weight: real, delay: real,
                                               p: real, draws: seq<seq<real>>, n: nat)
    requires p >= 1.0 && n <= |targets|
    ensures |ConnectUpTo(sources, targets, weight, delay, p, draws, n)| == n * |sources|
  {
    if n > 0 {
      ConnectUpToAllToAll(sources, targets, weight, delay, p, draws, n - 1);
      assert n * |sources| == (n - 1) * |sources| + |sources|;
    }
  }

  /** The inner loop of `connect`: one connection per kept source, appended
      in source order. */
  method AppendRow(list: seq<Connection>, sources: seq<int>, tgt: int, weight: real, delay: real)
    returns (r: seq<Connection>)
    ensures r == list + Row(sources, tgt, weight, delay)
  {
    r := list;
    var j := 0;
    while j < |sources|
      invariant 0 <= j <= |sources|
      invariant r == list + Row(sources[..j], tgt, weight, delay)
    {
      assert Row(sources[..j + 1], tgt, weight, delay)
             == Row(sources[..j], tgt, weight, delay) + [Connection(sources[j], tgt, weight, delay)];
      r := r + [Connection(sources[j], tgt, weight, delay)];
      j := j + 1;
    }
    assert sources[..j] == sources;
  }

  /** `connect(source, target, weight, delay, p)`: for each target in turn,
      every source whose draw is below `p` (every source when `p >= 1`) is
      connected to it. The result lists the connections in creation order;
      which connections appear is what `ConnectUpToMember` states. */
  method Connect(source: CellArg, target: CellArg, weight: real, delay: real,
                 p: real, draws: seq<seq<real>>)
    returns (connectionList: seq<Connection>)
    requires DrawsFit(draws, |AsList(source)|, |AsList(target)|, p)
    ensures connectionList
            == ConnectUpTo(AsList(source), AsList(target), weight, delay, p, draws, |AsList(target)|)
  {
    var srcs := AsList(source);
    var tgts := AsList(target);
    connectionList := [];
    var i := 0;
    while i < |tgts|
      invariant 0 <= i <= |tgts|
      invariant connectionList == ConnectUpTo(srcs, tgts, weight, delay, p, draws, i)
    {
      var sources := Chosen(srcs, draws, p, i);
      connectionList := AppendRow(connectionList, sources, tgts[i], weight, delay);
      i := i + 1;
    }
  }

  // ---------------------------------------------------------------------------
  // Construction checks

  /** The smallest element of a non-empty sequence (Python's `min`). */
  function MinOf(xs: seq<real>): (m: real)
    requires |xs| >= 1
    ensures m in xs
    ensures forall k :: 0 <= k < |xs| ==> m <= xs[k]
  {
    if |xs| == 1 then xs[0]
    else
      var rest := MinOf(xs[1..]);
      assert forall k :: 1 <= k < |xs| ==> xs[k] == xs[1..][k - 1];
      if xs[0] <= rest then xs[0] else rest
  }

  function Delays(conns: seq<Connection>): (r: seq<real>)
    ensures |r| == |conns| && forall i :: 0 <= i < |conns| ==> r[i] == conns[i].delay
  {
    seq(|conns|, i requires 0 <= i < |conns| => conns[i].delay)
  }

  function Weights(conns: seq<Connection>): (r: seq<real>)
    ensures |r| == |conns| && forall i :: 0 <= i < |conns| ==> r[i] == conns[i].weight
  {
    seq(|conns|, i requires 0 <= i < |conns| => conns[i].weight)
  }

  /** The checks at the end of `Projection.__init__` as written: STDP with a
      dendritic delay fraction above one half is refused on several
      processes, then `min` of the delays must reach the minimum delay, and
      `min` of an empty list raises. */
  function InitCheckAsWritten(ddf: Option<real>, numProcesses: nat, minDelay: real,
                              conns: seq<Connection>): Outcome
  {
    if ddf.Some? && ddf.value > 0.5 && numProcesses > 1 then Fail(UnsupportedConfiguration)
    else if conns == [] then Fail(EmptySequence)
    else if MinOf(Delays(conns)) < minDelay then Fail(DelayBelowMinimum)
    else Pass
  }

  /** The same checks with the delay check read as "no delay is below the
      minimum", which an empty table satisfies. */
  function InitCheck(ddf: Option<real>, numProcesses: nat, minDelay: real,
                     conns: seq<Connection>): Outcome
  {
    if ddf.Some? && ddf.value > 0.5 && numProcesses > 1 then Fail(UnsupportedConfiguration)
    else if conns != [] && MinOf(Delays(conns)) < minDelay then Fail(DelayBelowMinimum)
    else Pass
  }

  /** A projection is accepted exactly when its STDP configuration is
      supported and every connection delay is at least the minimum delay. */
  lemma InitCheckSpec(ddf: Option<real>, numProcesses: nat, minDelay: real, conns: seq<Connection>)
    ensures InitCheck(ddf, numProcesses, minDelay, conns) == Pass <==>
              && !(ddf.Some? && ddf.value > 0.5 && numProcesses > 1)
              && forall i :: 0 <= i < |conns| ==> conns[i].delay >= minDelay
    ensures InitCheck(ddf, numProcesses, minDelay, conns) == Fail(UnsupportedConfiguration) <==>
              ddf.Some? && ddf.value > 0.5 && numProcesses > 1
  {
    if conns != [] {
      var m := MinOf(Delays(conns));
      if m < minDelay {
        var k :| 0 <= k < |conns| && Delays(conns)[k] == m;
        assert conns[k].delay < minDelay;
      }
    }
  }

  /** The written and the corrected checks agree on every non-empty table. */
  lemma InitCheckAgrees(ddf: Option<real>, numProcesses: nat, minDelay: real, conns: seq<Connection>)
    requires conns != []
    ensures InitCheckAsWritten(ddf, numProcesses, minDelay, conns) == InitCheck(ddf, numProcesses, minDelay, conns)
  {
  }

  /** On a table with no connections, the written check raises although no
      delay is out of bounds. */
  lemma EmptyProjectionRejected(minDelay: real)
    ensures InitCheckAsWritten(None, 1, minDelay, []) == Fail(EmptySequence)
    ensures InitCheck(None, 1, minDelay, []) == Pass
  {
  }

  // ---------------------------------------------------------------------------
  // Bulk updates of the connection table

  /** The argument of `setWeights`/`setDelays`: a number, a list or 1-D
      array, or anything else. */
  datatype NumArg = Number(x: real) | Sequence(xs: seq<real>) | Unsupported

  function Reweighted(conns: seq<Connection>, ws: seq<real>): (r: seq<Connection>)
    requires |ws| == |conns|
    ensures |r| == |conns|
  {
    seq(|conns|, i requires 0 <= i < |conns| => conns[i].(weight := ws[i]))
  }

  function Redelayed(conns: seq<Connection>, ds: seq<real>): (r: seq<Connection>)
    requires |ds| == |conns|
    ensures |r| == |conns|
  {
    seq(|conns|, i requires 0 <= i < |conns| => conns[i].(delay := ds[i]))
  }

  /** The source and target of every connection. */
  function Endpoints(conns: seq<Connection>): (r: seq<(int, int)>)
    ensures |r| == |conns|
  {
    seq(|conns|, i requires 0 <= i < |conns| => (conns[i].pre, conns[i].post))
  }

  /** Setting the weights leaves the endpoints and delays alone and reads
      back as exactly the weights set; likewise for the delays. */
  lemma UpdatesReadBack(conns: seq<Connection>, vs: seq<real>)
    requires |vs| == |conns|
    ensures Weights(Reweighted(conns, vs)) == vs
    ensures Delays(Reweighted(conns, vs)) == Delays(conns)
    ensures Endpoints(Reweighted(conns, vs)) == Endpoints(conns)
    ensures Delays(Redelayed(conns, vs)) == vs
    ensures Weights(Redelayed(conns, vs)) == Weights(conns)
    ensures Endpoints(Redelayed(conns, vs)) == Endpoints(conns)
  {
  }

  /** The value each connection receives: a number is broadcast, a sequence
      is taken element by element. */
  function NewValues(v: NumArg, n: nat): (r: seq<real>)
    requires v.Number? || (v.Sequence? && |v.xs| == n)
    ensures |r| == n
    ensures v.Number? ==> forall i :: 0 <= i < n ==> r[i] == v.x
    ensures v.Sequence? ==> r == v.xs
  {
    if v.Number? then seq(n, _ => v.x) else v.xs
  }

  predicate AllAtLeast(xs: seq<real>, bound: real)
  {
    forall k :: 0 <= k < |xs| ==> xs[k] >= bound
  }

  // ---------------------------------------------------------------------------
  // Dense export

  /** Python's `list.index`: the first position of `x`, if any. */
  function IndexOf(xs: seq<int>, x: int): (r: Option<nat>)
    ensures r.Some? ==> r.value < |xs| && xs[r.value] == x && x !in xs[..r.value]
    ensures r.None? ==> x !in xs
  {
    if xs == [] then None
    else if xs[0] == x then Some(0)
    else match IndexOf(xs[1..], x)
      case None => None
      case Some(k) =>
        assert xs[..k + 1] == [xs[0]] + xs[1..][..k];
        Some(k + 1)
  }

  /** In a population's id list the index of an id is its offset from the
      first id, and ids outside the range are not found. */
  lemma IndexInPopulation(p: Population, x: int)
    requires p.Valid()
    ensures IndexOf(p.allCells, x) == if p.firstId <= x <= p.lastId then Some(x - p.firstId) else None
  {
    if p.firstId <= x <= p.lastId {
      assert p.allCells[x - p.firstId] == x;
    }
  }

  /** Connection `k` lands in cell `(a, b)` of the matrix. */
  predicate Hits(conns: seq<Connection>, preIds: seq<int>, postIds: seq<int>, k: nat, a: nat, b: nat)
    requires k < |conns|
  {
    IndexOf(preIds, conns[k].pre) == Some(a) && IndexOf(postIds, conns[k].post) == Some(b)
  }

  /** Cell `(a, b)` of the dense matrix after the first `|conns|` connections
      have been written into a matrix filled with `fill`. */
  function Entry(conns: seq<Connection>, values: seq<real>, preIds: seq<int>, postIds: seq<int>,
                 a: nat, b: nat, fill: real): real
    requires |values| == |conns|
  {
    if conns == [] then fill
    else
      var k := |conns| - 1;
      if Hits(conns, preIds, postIds, k, a, b) then values[k]
      else Entry(conns[..k], values[..k], preIds, postIds, a, b, fill)
  }

  /** A matrix cell no connection maps to keeps the fill value. */
  lemma {:induction false} EntryFill(conns: seq<Connection>, values: seq<real>, preIds: seq<int>,
                                     postIds: seq<int>, a: nat, b: nat, fill: real)
    requires |values| == |conns|
    requires forall k :: 0 <= k < |conns| ==> !Hits(conns, preIds, postIds, k, a, b)
    ensures Entry(conns, values, preIds, postIds, a, b, fill) == fill
  {
    if conns != [] {
      var n := |conns| - 1;
      forall k | 0 <= k < n ensures !Hits(conns[..n], preIds, postIds, k, a, b) {
        assert conns[..n][k] == conns[k];
        assert !Hits(conns, preIds, postIds, k, a, b);
      }
      EntryFill(conns[..n], values[..n], preIds, postIds, a, b, fill);
    }
  }

  /** Any other matrix cell holds the value of the last connection that maps
      to it. */
  lemma {:induction false} EntryLast(conns: seq<Connection>, values: seq<real>, preIds: seq<int>,
                                     postIds: seq<int>, a: nat, b: nat, fill: real, k: nat)
    requires |values| == |conns| && k < |conns|
    requires Hits(conns, preIds, postIds, k, a, b)
    requires forall j :: k < j < |conns| ==> !Hits(conns, preIds, postIds, j, a, b)
    ensures Entry(conns, values, preIds, postIds, a, b, fill) == values[k]
  {
    var n := |conns| - 1;
    if k < n {
      assert conns[..n][k] == conns[k];
      forall j | k < j < n ensures !Hits(conns[..n], preIds, postIds, j, a, b) {
        assert conns[..n][j] == conns[j];
        assert !Hits(conns, preIds, postIds, j, a, b);
      }
      EntryLast(conns[..n], values[..n], preIds, postIds, a, b, fill, k);
    }
  }

  /** The exported matrix, one of `numpy.zeros` or `1e12*numpy.ones` filled
      in by a loop over the connections. */
  datatype Export = ValueList(xs: seq<real>) | ValueMatrix(m: array2<real>)

  /** Some connection has an endpoint outside the id lists (`list.index`
      would raise). */
  predicate SomeUnknown(conns: seq<Connection>, preIds: seq<int>, postIds: seq<int>)
  {
    exists k :: 0 <= k < |conns| && (IndexOf(preIds, conns[k].pre).None? || IndexOf(postIds, conns[k].post).None?)
  }

  /** Writes `values[k]` at `[pre_ids.index(c.pre), post_ids.index(c.post)]`
      for every connection `c = conns[k]` in order, over a matrix of fill
      values. */
  method Dense(conns: seq<Connection>, values: seq<real>, preIds: seq<int>, postIds: seq<int>, fill: real)
    returns (r: Result<array2<real>>)
    requires |values| == |conns|
    ensures r.Err? <==> SomeUnknown(conns, preIds, postIds)
    ensures r.Err? ==> r.error == NotFound
    ensures r.Ok? ==>
      && fresh(r.value)
      && r.value.Length0 == |preIds| && r.value.Length1 == |postIds|
      && forall a, b :: 0 <= a < |preIds| && 0 <= b < |postIds| ==>
           r.value[a, b] == Entry(conns, values, preIds, postIds, a, b, fill)
  {
    var m := new real[|preIds|, |postIds|]((_, _) => fill);
    var k := 0;
    while k < |conns|
      invariant 0 <= k <= |conns|
      invariant forall j :: 0 <= j < k ==>
                  IndexOf(preIds, conns[j].pre).Some? && IndexOf(postIds, conns[j].post).Some?
      invariant forall a, b :: 0 <= a < |preIds| && 0 <= b < |postIds| ==>
                  m[a, b] == Entry(conns[..k], values[..k], preIds, postIds, a, b, fill)
    {
      var ia := IndexOf(preIds, conns[k].pre);
      var ib := IndexOf(postIds, conns[k].post);
      if ia.None? || ib.None? {
        return Err(NotFound);
      }
      m[ia.value, ib.value] := values[k];
      assert conns[..k + 1][..k] == conns[..k];
      assert values[..k + 1][..k] == values[..k];
      forall a, b | 0 <= a < |preIds| && 0 <= b < |postIds|
        ensures m[a, b] == Entry(conns[..k + 1], values[..k + 1], preIds, postIds, a, b, fill)
      {
        assert Hits(conns[..k + 1], preIds, postIds, k, a, b) <==> a == ia.value && b == ib.value;
      }
      k := k + 1;
    }
    assert conns[..k] == conns && values[..k] == values;
    return Ok(m);
  }

  // ---------------------------------------------------------------------------
  // Saved lines

  /** One saved line: `label(coords)\tlabel(coords)\tweight\tdelay\n` with
      parentheses replaced by square brackets. `weightText` and `delayText`
      are the `%g` renderings of the two numbers. */
  function FormatLine(preName: string, a: seq<int>, postName: string, b: seq<int>,
                      weightText: string, delayText: string): string
  {
    Text.Bracketize(preName + Text.TupleRepr(a) + "\t" + postName + Text.TupleRepr(b) + "\t"
                    + weightText + "\t" + delayText + "\n")
  }

  /** What a saved line holds. */
  datatype SavedLine = SavedLine(preLabel: string, preAddr: seq<int>, postLabel: string, postAddr: seq<int>,
                                 weightText: string, delayText: string)

  /** Reads a saved line back: four tab-separated fields, the last ending in
      a newline, the first two of the form `label[i, j, ...]`. */
  function ParseLine(line: string): Option<SavedLine>
  {
    var fields := Text.SplitOn('\t', line);
    if |fields| != 4 || |fields[3]| == 0 || fields[3][|fields[3]| - 1] != '\n' then None
    else match (Text.ParseAddressField(fields[0]), Text.ParseAddressField(fields[1]))
      case (Some(x), Some(y)) =>
        Some(SavedLine(x.0, x.1, y.0, y.1, fields[2], fields[3][..|fields[3]| - 1]))
      case _ => None
  }

  /** Text that survives the bracket replacement and the tab split unchanged. */
  predicate Plain(s: string)
  {
    '\t' !in s && '(' !in s && ')' !in s
  }

  lemma BracketizedLine(preName: string, a: seq<int>, postName: string, b: seq<int>,
                        weightText: string, delayText: string)
    requires Plain(preName) && Plain(postName) && Plain(weightText) && Plain(delayText)
    ensures FormatLine(preName, a, postName, b, weightText, delayText)
            == preName + Text.ListRepr(a) + "\t" + postName + Text.ListRepr(b) + "\t"
               + weightText + "\t" + delayText + "\n"
  {
    var x1 := preName + Text.TupleRepr(a);
    var x2 := x1 + "\t";
    var x3 := x2 + postName;
    var x4 := x3 + Text.TupleRepr(b);
    var x5 := x4 + "\t";
    var x6 := x5 + weightText;
    var x7 := x6 + "\t";
    var x8 := x7 + delayText;
    Text.BracketizeNoParens(preName);
    Text.BracketizeNoParens(postName);
    Text.BracketizeNoParens(weightText);
    Text.BracketizeNoParens(delayText);
    Text.BracketizeNoParens("\t");
    Text.BracketizeNoParens("\n");
    Text.TupleReprBracketized(a);
    Text.TupleReprBracketized(b);
    Text.BracketizeConcat(preName, Text.TupleRepr(a));
    Text.BracketizeConcat(x1, "\t");
    Text.BracketizeConcat(x2, postName);
    Text.BracketizeConcat(x3, Text.TupleRepr(b));
    Text.BracketizeConcat(x4, "\t");
    Text.BracketizeConcat(x5, weightText);
    Text.BracketizeConcat(x6, "\t");
    Text.BracketizeConcat(x7, delayText);
    Text.BracketizeConcat(x8, "\n");
  }

  /** Four fields joined by tabs. */
  lemma JoinFour(f0: string, f1: string, f2: string, f3: string)
    ensures Text.JoinWith(['\t'], [f0, f1, f2, f3]) == f0 + "\t" + f1 + "\t" + f2 + "\t" + f3
  {
    var parts := [f0, f1, f2, f3];
    assert parts[1..][1..][1..] == [f3];
    assert Text.JoinWith(['\t'], parts[1..][1..]) == f2 + "\t" + f3;
    assert Text.JoinWith(['\t'], parts[1..]) == f1 + "\t" + f2 + "\t" + f3;
  }

  /** Splitting a saved line's text at its tabs gives back the two
      address fields, the weight text and the delay text with its newline,
      when none of the pieces holds a tab. */
  lemma SplitFields(preName: string, preAddr: string, postName: string, postAddr: string,
                    weightText: string, delayText: string)
    requires '\t' !in preName && '\t' !in preAddr && '\t' !in postName && '\t' !in postAddr
    requires '\t' !in weightText && '\t' !in delayText
    ensures Text.SplitOn('\t', preName + preAddr + "\t" + postName + postAddr + "\t" + weightText + "\t" + delayText + "\n")
            == [preName + preAddr, postName + postAddr, weightText, delayText + "\n"]
  {
    var f0, f1, f3 := preName + preAddr, postName + postAddr, delayText + "\n";
    JoinFour(f0, f1, weightText, f3);
    Regroup(preName, preAddr, postName, postAddr, weightText, delayText);
    Text.SplitJoin('\t', [f0, f1, weightText, f3]);
  }

  lemma Regroup(preName: string, preAddr: string, postName: string, postAddr: string,
                weightText: string, delayText: string)
    ensures (preName + preAddr) + "\t" + (postName + postAddr) + "\t" + weightText + "\t" + (delayText + "\n")
            == preName + preAddr + "\t" + postName + postAddr + "\t" + weightText + "\t" + delayText + "\n"
  {
  }

  /** A line whose tab-separated fields are two address fields, a weight
      text and a newline-terminated delay text reads back as those. */
  lemma ParseFields(line: string, field0: string, field1: string, pre: (string, seq<nat>), post: (string, seq<nat>),
                    weightText: string, delayText: string)
    requires Text.SplitOn('\t', line) == [field0, field1, weightText, delayText + "\n"]
    requires Text.ParseAddressField(field0) == Some(pre) && Text.ParseAddressField(field1) == Some(post)
    ensures ParseLine(line) == Some(SavedLine(pre.0, pre.1, post.0, post.1, weightText, delayText))
  {
    var f3 := delayText + "\n";
    assert f3[..|f3| - 1] == delayText;
  }

  /** A saved line reads back as the two labels, the two addresses and the
      two number renderings it was made from, provided labels and numbers
      hold no tab or parenthesis. */
  lemma LineRoundTrip(preName: string, a: seq<nat>, postName: string, b: seq<nat>,
                      weightText: string, delayText: string)
    requires |a| >= 1 && |b| >= 1
    requires Plain(preName) && Plain(postName) && Plain(weightText) && Plain(delayText)
    ensures ParseLine(FormatLine(preName, a, postName, b, weightText, delayText))
            == Some(SavedLine(preName, a, postName, b, weightText, delayText))
  {
    BracketizedLine(preName, a, postName, b, weightText, delayText);
    Text.ListReprNoTab(a);
    Text.ListReprNoTab(b);
    SplitFields(preName, Text.ListRepr(a), postName, Text.ListRepr(b), weightText, delayText);
    Text.AddressFieldRoundTrip(preName, a);
    Text.AddressFieldRoundTrip(postName, b);
    ParseFields(FormatLine(preName, a, postName, b, weightText, delayText),
                preName + Text.ListRepr(a), postName + Text.ListRepr(b), (preName, a), (postName, b),
                weightText, delayText);
  }

  /** The lines `saveConnections` writes, one per connection, in order; a
      failing `locate` stops the export. */
  function SavedLines(pre: Population, post: Population, conns: seq<Connection>, fmt: real -> string)
    : (r: Result<seq<string>>)
    requires pre.Valid() && post.Valid()
    ensures r.Ok? <==> conns == [] || (1 <= |pre.dims| <= 3 && 1 <= |post.dims| <= 3)
    ensures r.Err? ==> r.error == InvalidDimensions
    ensures r.Ok? ==> |r.value| == |conns|
    ensures r.Ok? ==> forall k :: 0 <= k < |conns| ==>
              r.value[k] == FormatLine(pre.name, Locate(pre, conns[k].pre).value,
                                       post.name, Locate(post, conns[k].post).value,
                                       fmt(conns[k].weight), fmt(conns[k].delay))
  {
    if conns == [] then Ok([])
    else
      var c := conns[0];
      match (Locate(pre, c.pre), Locate(post, c.post))
      case (Ok(a), Ok(b)) =>
        (match SavedLines(pre, post, conns[1..], fmt)
         case Ok(rest) =>
           Ok([FormatLine(pre.name, a, post.name, b, fmt(c.weight), fmt(c.delay))] + rest)
         case Err(e) => Err(e))
      case (Err(e), _) => Err(e)
      case (_, Err(e)) => Err(e)
  }

  /** The file `saveConnections` writes: with several processes each one
      writes `filename.<rank>`. */
  function SaveFileName(filename: string, numProcesses: nat, rank: nat): (r: string)
    ensures numProcesses <= 1 ==> r == filename
    ensures numProcesses > 1 ==>
              && |r| > |filename| + 1 && r[..|filename|] == filename
              && r[|filename|] == '.' && Text.AllDigits(r[|filename| + 1..])
              && Text.ParseNat(r[|filename| + 1..]) == rank
  {
    if numProcesses > 1 then
      Text.NatRoundTrip(rank);
      var r := filename + "." + Text.NatToString(rank);
      assert r[|filename| + 1..] == Text.NatToString(rank);
      r
    else filename
  }

  // ---------------------------------------------------------------------------
  // The projection

  /** The class-level projection counter used for default labels. */
  class ProjectionCounter {
    var nProj: nat

    constructor ()
      ensures nProj == 0
    {
      nProj := 0;
    }
  }

  /** A projection: the connections between two populations, kept in
      creation order, and the STDP weight-adjuster links of each connection
      when long-term plasticity is on (`ddf` is then its dendritic delay
      fraction). */
  class Projection {
    const pre: Population
    const post: Population
    const name: string
    const ddf: Option<real>
    const minDelay: real
    var connections: seq<Connection>
    var stdpLinks: seq<StdpLink>

    /** Every delay is at least the minimum delay, and with STDP each
        connection's link splits that connection's delay. */
    ghost predicate Valid()
      reads this
    {
      && pre.Valid() && post.Valid()
      && AllAtLeast(Delays(connections), minDelay)
      && (ddf.Some? ==> stdpLinks == Links(connections, ddf.value))
      && (ddf.None? ==> stdpLinks == [])
    }

    constructor (pre: Population, post: Population, name: string, ddf: Option<real>, minDelay: real,
                 connections: seq<Connection>)
      requires pre.Valid() && post.Valid()
      requires AllAtLeast(Delays(connections), minDelay)
      ensures Valid()
      ensures this.pre == pre && this.post == post && this.name == name
      ensures this.ddf == ddf && this.minDelay == minDelay && this.connections == connections
    {
      this.pre := pre;
      this.post := post;
      this.name := name;
      this.ddf := ddf;
      this.minDelay := minDelay;
      this.connections := connections;
      this.stdpLinks := if ddf.Some? then Links(connections, ddf.value) else [];
    }

    /** `setWeights(w)`: a number is given to every connection, a sequence
        of the table's length element by element; anything else is a type
        error, a sequence of another length fails its assertion, and an
        empty sequence on an empty table fails in the `min` of the log
        message. Only weights change; on failure nothing changes. */
    method SetWeights(w: NumArg) returns (r: Outcome)
      requires Valid()
      modifies this`connections
      ensures Valid()
      ensures w.Unsupported? ==> r == Fail(WrongArgumentType)
      ensures w.Sequence? && |w.xs| != |old(connections)| ==> r == Fail(LengthMismatch)
      ensures w.Sequence? && w.xs == [] && old(connections) == [] ==> r == Fail(EmptySequence)
      ensures w.Number? || (w.Sequence? && |w.xs| == |old(connections)| > 0) ==> r == Pass
      ensures r.Fail? ==> connections == old(connections)
      ensures r.Pass? ==> connections == Reweighted(old(connections), NewValues(w, |old(connections)|))
    {
      if w.Unsupported? {
        return Fail(WrongArgumentType);
      }
      if w.Sequence? {
        if |w.xs| != |connections| {
          return Fail(LengthMismatch);
        }
        if w.xs == [] {
          return Fail(EmptySequence);
        }
      }
      var values := NewValues(w, |connections|);
      ghost var before := connections;
      var i := 0;
      while i < |connections|
        invariant 0 <= i <= |connections| == |before|
        invariant forall k :: 0 <= k < i ==> connections[k] == before[k].(weight := values[k])
        invariant forall k :: i <= k < |connections| ==> connections[k] == before[k]
      {
        connections := connections[i := connections[i].(weight := values[i])];
        i := i + 1;
      }
      assert Delays(connections) == Delays(before);
      return Pass;
    }

    /** `setDelays(d)`: like `setWeights`, but every new delay is first
        checked against the minimum delay, before the length; with STDP the
        two delays of each connection's link are re-split from its new
        delay. On failure nothing changes. */
    method SetDelays(d: NumArg) returns (r: Outcome)
      requires Valid()
      modifies this`connections, this`stdpLinks
      ensures Valid()
      ensures d.Unsupported? ==> r == Fail(WrongArgumentType)
      ensures d.Number? && d.x < minDelay ==> r == Fail(DelayBelowMinimum)
      ensures d.Sequence? && !AllAtLeast(d.xs, minDelay) ==> r == Fail(DelayBelowMinimum)
      ensures d.Sequence? && AllAtLeast(d.xs, minDelay) && |d.xs| != |old(connections)| ==>
                r == Fail(LengthMismatch)
      ensures d.Sequence? && d.xs == [] && old(connections) == [] ==> r == Fail(EmptySequence)
      ensures (d.Number? && d.x >= minDelay)
              || (d.Sequence? && AllAtLeast(d.xs, minDelay) && |d.xs| == |old(connections)| > 0)
              ==> r == Pass
      ensures r.Fail? ==> connections == old(connections) && stdpLinks == old(stdpLinks)
      ensures r.Pass? ==> connections == Redelayed(old(connections), NewValues(d, |old(connections)|))
    {
      if d.Unsupported? {
        return Fail(WrongArgumentType);
      }
      if d.Number? && d.x < minDelay {
        return Fail(DelayBelowMinimum);
      }
      if d.Sequence? {
        if !AllAtLeast(d.xs, minDelay) {
          return Fail(DelayBelowMinimum);
        }
        if |d.xs| != |connections| {
          return Fail(LengthMismatch);
        }
        if d.xs == [] {
          return Fail(EmptySequence);
        }
      }
      var values := NewValues(d, |connections|);
      ghost var before := connections;
      var i := 0;
      while i < |connections|
        invariant 0 <= i <= |connections| == |before|
        invariant forall k :: 0 <= k < i ==> connections[k] == before[k].(delay := values[k])
        invariant forall k :: i <= k < |connections| ==> connections[k] == before[k]
        invariant stdpLinks == old(stdpLinks)
      {
        connections := connections[i := connections[i].(delay := values[i])];
        i := i + 1;
      }
      if ddf.Some? {
        var j := 0;
        while j < |stdpLinks|
          invariant 0 <= j <= |stdpLinks| == |connections| == |values|
          invariant connections == Redelayed(before, values)
          invariant forall k :: 0 <= k < j ==> stdpLinks[k] == SplitDelay(values[k], ddf.value)
        {
          stdpLinks := stdpLinks[j := SplitDelay(values[j], ddf.value)];
          j := j + 1;
        }
        assert stdpLinks == Links(connections, ddf.value);
      }
      return Pass;
    }

    /** `getWeights(format, gather)`: the weights in connection order, or
        the `pre.size x post.size` matrix that is zero wherever no
        connection lies (see `EntryFill` and `EntryLast`). Gathering and other formats
        raise. */
    method GetWeights(format: string, gather: bool) returns (r: Result<Export>)
      requires Valid()
      ensures gather ==> r == Err(NotImplemented)
      ensures !gather && format == "list" ==> r == Ok(ValueList(Weights(connections)))
      ensures !gather && format != "list" && format != "array" ==> r == Err(UnknownFormat)
      ensures !gather && format == "array" ==>
        && (r.Err? <==> SomeUnknown(connections, pre.allCells, post.allCells))
        && (r.Ok? ==>
              && r.value.ValueMatrix? && fresh(r.value.m)
              && r.value.m.Length0 == pre.Size() && r.value.m.Length1 == post.Size()
              && forall a, b :: 0 <= a < pre.Size() && 0 <= b < post.Size() ==>
                   r.value.m[a, b] == Entry(connections, Weights(connections), pre.allCells, post.allCells, a, b, 0.0))
    {
      if gather {
        return Err(NotImplemented);
      }
      if format == "list" {
        return Ok(ValueList(Weights(connections)));
      } else if format == "array" {
        var m := Dense(connections, Weights(connections), pre.allCells, post.allCells, 0.0);
        match m {
          case Err(e) => return Err(e);
          case Ok(matrix) => return Ok(ValueMatrix(matrix));
        }
      }
      return Err(UnknownFormat);
    }

    /** `getDelays(format, gather)`: as `getWeights`, with `1e12` where no
        connection lies. */
    method GetDelays(format: string, gather: bool) returns (r: Result<Export>)
      requires Valid()
      ensures gather ==> r == Err(NotImplemented)
      ensures !gather && format == "list" ==> r == Ok(ValueList(Delays(connections)))
      ensures !gather && format != "list" && format != "array" ==> r == Err(UnknownFormat)
      ensures !gather && format == "array" ==>
        && (r.Err? <==> SomeUnknown(connections, pre.allCells, post.allCells))
        && (r.Ok? ==>
              && r.value.ValueMatrix? && fresh(r.value.m)
              && r.value.m.Length0 == pre.Size() && r.value.m.Length1 == post.Size()
              && forall a, b :: 0 <= a < pre.Size() && 0 <= b < post.Size() ==>
                   r.value.m[a, b] == Entry(connections, Delays(connections), pre.allCells, post.allCells,
                                            a, b, 1000000000000.0))
    {
      if gather {
        return Err(NotImplemented);
      }
      if format == "list" {
        return Ok(ValueList(Delays(connections)));
      } else if format == "array" {
        var m := Dense(connections, Delays(connections), pre.allCells, post.allCells, 1000000000000.0);
        match m {
          case Err(e) => return Err(e);
          case Ok(matrix) => return Ok(ValueMatrix(matrix));
        }
      }
      return Err(UnknownFormat);
    }

    /** `saveConnections(filename, gather)`: the name of the file written
        and its lines; gathering raises. `fmt` stands for `%g`. */
    function SaveConnections(filename: string, gather: bool, numProcesses: nat, rank: nat,
                             fmt: real -> string): (r: Result<(string, seq<string>)>)
      reads this
      requires Valid()
      ensures gather ==> r == Err(NotImplemented)
      ensures !gather ==> (r.Ok? <==> SavedLines(pre, post, connections, fmt).Ok?)
      ensures r.Ok? ==> r.value.0 == SaveFileName(filename, numProcesses, rank)
                        && r.value.1 == SavedLines(pre, post, connections, fmt).value
                        && |r.value.1| == |connections|
    {
      if gather then Err(NotImplemented)
      else match SavedLines(pre, post, connections, fmt)
        case Err(e) => Err(e)
        case Ok(lines) => Ok((SaveFileName(filename, numProcesses, rank), lines))
    }
  }

  /** Every line of `SavedLines` reads back as the two population labels,
      the `locate` addresses of the connection's endpoints, and the
      renderings of its weight and delay. */
  lemma SavedLinesReadBack(pre: Population, post: Population, conns: seq<Connection>,
                           fmt: real -> string, k: nat)
    requires pre.Valid() && post.Valid() && 1 <= |pre.dims| <= 3 && 1 <= |post.dims| <= 3
    requires k < |conns|
    requires pre.firstId <= conns[k].pre <= pre.lastId && post.firstId <= conns[k].post <= post.lastId
    requires Plain(pre.name) && Plain(post.name) && Plain(fmt(conns[k].weight)) && Plain(fmt(conns[k].delay))
    ensures SavedLines(pre, post, conns, fmt).Ok?
    ensures ParseLine(SavedLines(pre, post, conns, fmt).value[k])
            == Some(SavedLine(pre.name, Locate(pre, conns[k].pre).value,
                              post.name, Locate(post, conns[k].post).value,
                              fmt(conns[k].weight), fmt(conns[k].delay)))
  {
    var c := conns[k];
    LocateInverse(pre, c.pre);
    LocateInverse(post, c.post);
    var a := Locate(pre, c.pre).value;
    var b := Locate(post, c.post).value;
    var line := SavedLines(pre, post, conns, fmt).value[k];
    assert line == FormatLine(pre.name, a, post.name, b, fmt(c.weight), fmt(c.delay));
    InBoundsLineRoundTrip(pre.name, a, pre.dims, post.name, b, post.dims, fmt(c.weight), fmt(c.delay));
  }

  lemma InBoundsLineRoundTrip(preName: string, a: seq<int>, preDims: seq<nat>,
                              postName: string, b: seq<int>, postDims: seq<nat>,
                              weightText: string, delayText: string)
    requires InBounds(a, preDims) && InBounds(b, postDims) && |a| >= 1 && |b| >= 1
    requires Plain(preName) && Plain(postName) && Plain(weightText) && Plain(delayText)
    ensures ParseLine(FormatLine(preName, a, postName, b, weightText, delayText))
            == Some(SavedLine(preName, a, postName, b, weightText, delayText))
  {
    var na: seq<nat> := a;
    var nb: seq<nat> := b;
    LineRoundTrip(preName, na, postName, nb, weightText, delayText);
  }

  /** `Projection.__init__`: takes the label (an empty one becomes
      `projection<n>`), takes the connector's connections, attaches the STDP
      links, checks the configuration and the delays, and counts the
      projection. */
  method NewProjection(counter: ProjectionCounter, pre: Population, post: Population, givenLabel: string,
                       ddf: Option<real>, minDelay: real, numProcesses: nat,
                       conns: seq<Connection>)
    returns (r: Result<Projection>)
    requires pre.Valid() && post.Valid()
    modifies counter
    ensures r.Err? <==> InitCheck(ddf, numProcesses, minDelay, conns).Fail?
    ensures r.Err? ==> r.error == InitCheck(ddf, numProcesses, minDelay, conns).error
                       && counter.nProj == old(counter.nProj)
    ensures r.Ok? ==>
      && fresh(r.value) && r.value.Valid()
      && r.value.connections == conns
      && r.value.pre == pre && r.value.post == post && r.value.ddf == ddf && r.value.minDelay == minDelay
      && r.value.name == (if givenLabel == "" then "projection" + Text.NatToString(old(counter.nProj))
                          else givenLabel)
      && counter.nProj == old(counter.nProj) + 1
  {
    var name := if givenLabel == "" then "projection" + Text.NatToString(counter.nProj) else givenLabel;
    var check := InitCheck(ddf, numProcesses, minDelay, conns);
    if check.Fail? {
      return Err(check.error);
    }
    InitCheckSpec(ddf, numProcesses, minDelay, conns);
    var proj := new Projection(pre, post, name, ddf, minDelay, conns);
    counter.nProj := counter.nProj + 1;
    return Ok(proj);
  }
}
