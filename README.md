# PyNN NEURON/Brian backends: cell ids, populations, projections, recording

This project models, in Dafny, the core bookkeeping of two PyNN simulator
backends and proves properties of it.

- **Cell identity** (`Identity`, `identity.dfy`). Cell creation allocates a
  contiguous range of global ids from a process-wide counter. It marks the
  ids this process owns under round-robin distribution (`id % nprocs ==
  rank`) and advances the counter. The project proves that round-robin
  ownership partitions every id list among the processes.
- **Populations** (`Populations`, `population.dfy`). A population is a
  shaped array of contiguous ids. The model covers:
  - `locate`, id to address, for 1-, 2- and 3-dimensional shapes;
  - `p[addr]`, address to id, with numpy's index range and the cross-check
    against `locate`;
  - `index(n)`, with numpy's negative indexing, for one position or a list;
  - the topographic `tset`, and the argument dispatch of `set`;
  - the cell selection of `__record`;
  - construction with its default label.
- **Projections** (`Projections`, `projection.dfy`). The model covers:
  - the low-level `connect`, with its nested loop over targets and sources;
  - the end-of-construction checks of a projection (the STDP configuration
    and the minimum delay);
  - `setWeights` and `setDelays` on the connection table, including the
    STDP delay split;
  - the list and dense-matrix exports of `getWeights` and `getDelays`;
  - the text lines and file name of `saveConnections`. A saved line is
    proved to read back as the labels, addresses, weight and delay it was
    made from.
- **Recording on the Brian backend** (`Recording`, `recording.dfy`). The
  recorder keeps one device per recorded variable, created lazily and
  added to the network once. A state monitor tracks exactly the recorded
  cells, less the population's first id, and its index map inverts that
  list. The model also covers the stacked values of `_get_all_values`, the
  segment built by `_get_current_segment`, the spike counts of
  `_local_count`, and the unsupported `_reset`.
- **Shared pieces.** `Outcomes` (`common.dfy`) holds the error values;
  each one names the exception the Python code raises. `Text`
  (`text.dfy`) holds the pieces of Python string formatting used by the
  saved-connection format, with their parsing direction.

Python state that methods update in place is modelled as Dafny classes:
- the simulator's id counter: `Identity.SimulatorState`;
- a projection's connection table and STDP links: `Projections.Projection`;
- a recorder's recorded sets, devices and network: `Recording.Recorder`.

Immutable data is modelled as datatypes: a population after construction,
a connection, a device, a segment.

Reading conventions:

- **Integer division.** Python 2 integer `/` and `%` floor. The divisors
  in `locate`, in round-robin ownership and in `__record` are positive,
  and there they agree with Dafny's Euclidean operators.
- **Engine inputs are parameters.** Data produced by the engine or by a
  random generator is passed in rather than computed. This covers the
  uniform draws of `connect`, the permutation of `__record`, a monitor's
  samples, the live state values, spike times and clock values (`Readings`),
  and the `%g` rendering of a number (`fmt`).
- **Base-class behaviour is assumed.** `recording.Recorder` is not part of
  this model. `Record` takes its `record` to add the new ids to the
  variable's recorded set before `_record` runs. `Filtered` takes its
  `filter_recorded` to return the recorded set, intersected with the
  filter when one is given.
- **Set iteration order.**
  - `numpy.fromiter` over a Python set lists the ids in the set's
    iteration order, which is unspecified. `FromIter` (used by
    `LocalCount`) allows any order.
  - For `_record` and the segment read-out, the model fixes the order
    ascending (`Indices`). Every property about them is stated for any
    listing (`Enumerates`, `Lists`).
  - The variables of a segment are visited in any order (`Enumerate`).

## Model

| member | source | states |
|---|---|---|
| Identity.SimulatorState.constructor | src/neuron2/__init__.py:133-143 | the simulator starts with id counter 0 and a valid rank below the number of processes |
| Identity.SimulatorState.Create | src/neuron2/__init__.py:115-144 | a count of at most 0 fails and leaves the counter alone; otherwise the ids are `counter .. counter+n-1` in order, `first_id`/`last_id` are the ends of that range, the mask marks exactly the ids with `id % nprocs == rank`, and the counter advances by exactly `n` |
| Identity.AllocateIds | src/neuron2/__init__.py:133-137 | the loop builds `n` consecutive ids from `first` and a mask true exactly at the ids this rank owns |
| Identity.MaskedLength | src/neuron2/__init__.py:239 | boolean-mask indexing keeps as many elements as the mask has true entries |
| Identity.MaskedAt | src/neuron2/__init__.py:239 | the i-th element of `xs[mask]` is the element at the i-th true position of the mask, so two arrays masked by one mask stay aligned |
| Identity.MaskedMember | src/neuron2/__init__.py:239 | `x` is in `xs[mask]` iff some position holds `x` with its mask entry true |
| Identity.LocalIdsMember | src/neuron2/__init__.py:137 | an id is in a rank's local list iff it is in the id list and `id % nprocs` is that rank |
| Identity.CountOverRanksAll | src/neuron2/__init__.py:137 | summed over all ranks, the local lists hold exactly as many ids as the whole list |
| Identity.OwnershipPartition | src/neuron2/__init__.py:137 | round-robin ownership partitions any id list: each id is local to exactly one rank, `id % nprocs`, and no id is lost or duplicated |
| Identity.MaskedIsLocalIds | src/neuron2/__init__.py:137-142 | selecting ids with the mask `all_ids % nprocs == rank` yields exactly that rank's round-robin share of the ids, in order |
| Populations.Locate | src/neuron2/__init__.py:291-310 | `locate` succeeds iff the population has 1 to 3 dimensions, giving an address of that rank; any other rank raises the invalid-dimensions error |
| Populations.LocateInverse | src/neuron2/__init__.py:291-310 | for every id of the population, `locate` gives an in-bounds address whose row-major position is `id - first_id` |
| Populations.FlattenInjective | src/neuron2/__init__.py:240 | row-major flattening is one-to-one on in-bounds addresses, so each cell of the reshaped id array has one address |
| Populations.Wrap | src/neuron2/__init__.py:260 | numpy wraps negative coordinates by the dimension, and the wrapped address is in bounds |
| Populations.GetItemSpec | src/neuron2/__init__.py:250-265 | `p[addr]` (an int read as a 1-tuple) succeeds iff the population has rank 1 to 3 and the address is in bounds (negative coordinates fail the `locate` cross-check); the id it returns is `first_id` plus the row-major position, and `locate` of it gives the address back |
| Populations.LocateGetItem | src/neuron2/__init__.py:250-310 | looking up the address `locate` gives for any id of the population returns that id |
| Populations.CellAtSpec | src/neuron2/__init__.py:312-316 | `index(n)` succeeds iff `-size <= n < size`; for `0 <= n < size` it is `first_id + n`, a negative `n` counts from the end, and the result is the cell `p[locate(...)]` names |
| Populations.CellsAt | src/neuron2/__init__.py:314-316 | `index` with a list succeeds iff every position is in range, and then returns, position by position, the cell `index` gives for it |
| Populations.LocalAligned | src/neuron2/__init__.py:239 | masking a full value array by the local mask gives one value per local cell, namely the value at that cell's own position |
| Populations.Tset | src/neuron2/__init__.py:351-378 | `tset` succeeds iff the value array's shape is the population's shape, or that shape plus one trailing dimension; a shape one dimension longer whose leading dimensions differ fails numpy's mask indexing, and any other shape raises invalid dimensions; on success the value array holds one entry per cell, and each local cell, in order, is paired with the value at that cell's own address |
| Populations.ParameterDict | src/neuron2/__init__.py:336-346 | a name with a number becomes `{name: val}`; a name with a string becomes `{name: float(val)}` when `float` reads it, and raises `ValueError` when it does not; a name with a list becomes `{name: list}`; a dict is used as given; a name with any other value, or a param that is neither a name nor a dict, raises the invalid-parameter-value error |
| Populations.Set | src/neuron2/__init__.py:327-349 | `set` succeeds iff the parameter dictionary can be built, and then applies that same dictionary to every local cell and no other |
| Populations.PrefixSlice | src/neuron2/__init__.py:421 | Python's `s[0:stop]` is a prefix of `s` whose length is `stop` clipped to `0..len(s)`, a negative stop counting from the end |
| Populations.RecordSelection | src/neuron2/__init__.py:407-429 | a list selects itself; none selects all cells; a count selects exactly `permutation[0:n // nprocs]` of a permutation of all cells, so its length is that slice's length, every selected id is a cell of the population, and no cell is selected twice; anything else raises |
| Populations.NewPopulation | src/neuron2/__init__.py:213-248 | construction fails iff the shape has no cells; otherwise the population has the given shape, ids from the current counter, the mask of ids this rank owns, local cells that are exactly this rank's round-robin share of the ids, and the given label or `population<n>` for an absent one; the id counter advances by the size and the population count by one |
| Populations.LocalCellsPartition | src/neuron2/__init__.py:238-239 | the local cells of a population are this rank's round-robin share of its cells: an id is local iff it lies between the first and last id and `id % nprocs` is the rank; each cell is local on exactly one rank, and the shares of all ranks add up to the population size |
| Projections.Connect | src/neuron2/__init__.py:148-170 | the connection list is, target by target in order, one connection from each source kept for that target, with the given weight and delay |
| Projections.AppendRow | src/neuron2/__init__.py:167-169 | the inner loop appends one connection per source, in source order, to the list |
| Projections.ChosenMember | src/neuron2/__init__.py:163-166 | a source is kept for a target iff `p >= 1` or its own uniform draw is below `p` |
| Projections.ConnectUpToMember | src/neuron2/__init__.py:148-170 | a connection is made iff it has the given weight and delay and goes from a kept source to one of the targets |
| Projections.ConnectUpToAllToAll | src/neuron2/__init__.py:159-169 | with `p >= 1`, every target is connected to every source: `len(targets) * len(sources)` connections |
| Projections.MinOf | src/neuron2/__init__.py:592 | `min` of a non-empty list is an element of it and no larger than any element |
| Projections.InitCheckSpec | src/neuron2/__init__.py:576-592 | the corrected check passes iff the STDP configuration is supported (not ddf > 0.5 with several processes) and every delay is at least the minimum delay; it fails with the unsupported-configuration error exactly in that configuration |
| Projections.InitCheckAgrees | src/neuron2/__init__.py:576-592 | on any non-empty connection table, the check as written and the corrected check agree |
| Projections.EmptyProjectionRejected | src/neuron2/__init__.py:591-592 | on an empty connection table, the check as written raises (min of an empty list) while the corrected check passes |
| Projections.SplitDelay | src/neuron2/__init__.py:638-639 | the axonal and dendritic delays of a weight adjuster add up to the connection delay; both are non-negative for a fraction in 0..1, and for ddf <= 0.5 the dendritic part is the shorter |
| Projections.Links | src/neuron2/__init__.py:651-653 | one STDP link per connection, each splitting that connection's delay |
| Projections.UpdatesReadBack | src/neuron2/__init__.py:612-618 | setting weights reads back as exactly the weights set and leaves the endpoints and delays unchanged; setting delays likewise |
| Projections.NewValues | src/neuron2/__init__.py:612-618 | a number is broadcast to every connection; a sequence of the table's length is used as is, element by element |
| Projections.Projection.constructor | src/neuron2/__init__.py:552-571 | a projection holds its two populations, label, STDP fraction, minimum delay and connections, with every delay at least the minimum |
| Projections.Projection.SetWeights | src/neuron2/__init__.py:602-620 | a number or a sequence of the table's length (non-empty) passes; other types raise a type error; a sequence of another length fails its assertion; an empty sequence on an empty table fails in `min`; on success exactly the weights change, on failure nothing does |
| Projections.Projection.SetDelays | src/neuron2/__init__.py:622-655 | a new delay below the minimum raises before any length check; other types raise a type error; length mismatch and the empty case fail as for weights; on success exactly the delays change, the STDP links are re-split from the new delays, and every delay stays at least the minimum |
| Projections.IndexOf | src/neuron2/__init__.py:706 | `list.index` finds the first position of `x`, or reports that `x` is absent |
| Projections.IndexInPopulation | src/neuron2/__init__.py:703-706 | in a population's flattened id list, an id's index is its offset from `first_id`; ids outside the range are not found |
| Projections.EntryFill | src/neuron2/__init__.py:702-706 | a matrix cell that no connection maps to keeps the fill value |
| Projections.EntryLast | src/neuron2/__init__.py:705-706 | any other matrix cell holds the value of the last connection that maps to it |
| Projections.Dense | src/neuron2/__init__.py:702-706 | writing the connections into a fill-valued matrix fails iff some endpoint is not in the id lists; otherwise it gives a fresh `len(pre_ids) x len(post_ids)` matrix whose every cell is as `EntryFill`/`EntryLast` describe |
| Projections.Projection.GetWeights | src/neuron2/__init__.py:691-709 | gather raises not-implemented; `list` gives the weights in connection order; `array` gives the `pre.size x post.size` matrix with zeros where no connection lies, failing iff an endpoint is outside the populations; other formats raise |
| Projections.Projection.GetDelays | src/neuron2/__init__.py:711-729 | as `getWeights`, with the delays and a fill value of `1e12` |
| Projections.BracketizedLine | src/neuron2/__init__.py:741-747 | a formatted line, after the parenthesis replacement, is `label[coords]\tlabel[coords]\tweight\tdelay\n` |
| Projections.SplitFields | src/neuron2/__init__.py:741 | splitting a saved line at its tabs gives the two address fields, the weight text and the delay text with its newline |
| Projections.LineRoundTrip | src/neuron2/__init__.py:741-747 | a saved line parses back to the two labels, the two addresses and the two number renderings it was made from |
| Projections.SavedLines | src/neuron2/__init__.py:740-748 | one line per connection, in order, from the two labels, the `locate` addresses of its endpoints and the renderings of its weight and delay; it fails iff some connection exists and a population's rank is outside 1..3 |
| Projections.SavedLinesReadBack | src/neuron2/__init__.py:740-748 | each saved line parses back to the population labels, the `locate` addresses of that connection's endpoints, and its weight and delay renderings |
| Projections.InBoundsLineRoundTrip | src/neuron2/__init__.py:741-747 | the round trip holds for any in-bounds addresses |
| Projections.SaveFileName | src/neuron2/__init__.py:736-737 | with one process the file name is unchanged; with several it is `filename.<rank>`, and the suffix parses back to the rank |
| Projections.Projection.SaveConnections | src/neuron2/__init__.py:731-749 | gather raises not-implemented; otherwise it succeeds iff the lines can be formatted, naming the file `SaveFileName` and writing exactly the lines of `SavedLines`, one per connection (which `SavedLinesReadBack` reads back) |
| Projections.ProjectionCounter.constructor | src/neuron2/__init__.py:525 | the class-level projection count starts at zero |
| Projections.NewProjection | src/neuron2/__init__.py:527-594 | construction fails iff the corrected end-of-construction check fails (same error, counter unchanged); otherwise the projection holds the connector's connections, both populations, the STDP fraction and the minimum delay its delays were checked against, its label is the given one or `projection<n>`, and the counter advances by one |
| Text.NatRoundTrip | src/neuron2/__init__.py:737 | printing a natural number in decimal and reading it back gives the number |
| Text.FirstIndex | src/neuron2/__init__.py:741 | the first position of a character, or its absence |
| Text.LastIndex | src/neuron2/__init__.py:741-742 | the last position of a character, or its absence |
| Text.SplitJoin | src/neuron2/__init__.py:741 | splitting a separator-joined list on a separator no part holds gives the parts back |
| Text.Bracketize | src/neuron2/__init__.py:747 | the replacement changes every `(` to `[` and every `)` to `]` and keeps every other character and the length |
| Text.BracketizeConcat | src/neuron2/__init__.py:747 | the replacement distributes over concatenation |
| Text.TupleReprBracketized | src/neuron2/__init__.py:741-747 | the repr of an integer tuple, after the replacement, is the bracketed list text |
| Text.ListReprNoTab | src/neuron2/__init__.py:741 | an address text holds no tab, so it can sit in a tab-separated line |
| Text.AddressFieldSplit | src/neuron2/__init__.py:741-747 | a field `name[...]` parses as `name` and the parsed bracket contents, whatever the name holds |
| Text.CoordsRoundTrip | src/neuron2/__init__.py:741-747 | the text between the brackets of a natural-number address reads back as that address |
| Text.AddressFieldRoundTrip | src/neuron2/__init__.py:741-747 | any label followed by the bracketed address reads back as that label and address |
| Recording.Enumerate | src/brian/recording.py:85 | iterating over a set lists each element exactly once |
| Recording.FromIter | src/brian/recording.py:60 | `fromiter(ids) - first_id` lists every recorded id, shifted down by the first id, exactly once |
| Recording.EnumeratedDistinct | src/brian/recording.py:60 | those indices have no repeats |
| Recording.EnumeratedKeys | src/brian/recording.py:60 | an index is listed iff it plus the first id is a recorded id |
| Recording.IndicesDetermined | src/brian/recording.py:60 | exactly one ascending listing enumerates the shifted ids |
| Recording.Indices | src/brian/recording.py:60 | the index list `_record` stores enumerates the recorded ids shifted down, ascending |
| Recording.IndexMap | src/brian/recording.py:61-62 | the index dict has exactly the entries of `record` as keys |
| Recording.IndexMapInverts | src/brian/recording.py:61-62 | for distinct entries, the index dict maps each entry to its position in `record`, and `record` at that position is the entry |
| Recording.TracksIndexes | src/brian/recording.py:60-62 | a state monitor recording a set of cells lists each tracked index once, and its index dict maps every tracked index to its position in `record` |
| Recording.InsertSorted | src/brian/recording.py:110 | insertion keeps a sequence sorted |
| Recording.InsertMultiset | src/brian/recording.py:110 | insertion adds exactly the one element |
| Recording.SortedUnique | src/brian/recording.py:110 | two ascending sequences with the same elements are equal, so `sorted` has one answer |
| Recording.SortIndices | src/brian/recording.py:110 | `sorted(indices)` is ascending and a permutation of the indices |
| Recording.Take | src/brian/recording.py:73 | `values[record]` succeeds iff every position is in numpy's range, and picks, position by position, the value at that (wrapped) position |
| Recording.VStack | src/brian/recording.py:74 | stacking the samples with the current row succeeds iff every sample row is as wide as the current one, and gives the samples followed by that row; with no samples it is two empty rows when there are no values, and a length error otherwise |
| Recording.TracksUpdate | src/brian/recording.py:53-62 | replacing one variable's device and recorded set keeps every state monitor tracking its recorded cells |
| Recording.SpikeTrains | src/brian/recording.py:91-97 | one spike train per index, in order, with that index's spike times and the cell id `index + first_id` |
| Recording.SpikeTrainsFor | src/brian/recording.py:87-97 | the trains of an enumeration are exactly one per filtered cell, each with that cell's spike times |
| Recording.SpikeCounts | src/brian/recording.py:120-121 | the counting loop fails iff some id has no spike entry; otherwise the keys are exactly the indices and each count is that index's number of spikes |
| Recording.CountsOfIds | src/brian/recording.py:119-121 | counts keyed by the listed indices are keyed exactly by the ids less the first id |
| Recording.WithoutListing | src/brian/recording.py:85-112 | removing spikes from a listing of the variables lists the other variables |
| Recording.Recorder.constructor | src/brian/recording.py:26-29 | a new recorder has no recorded cells, no devices and nothing added to the network |
| Recording.Recorder.VarName | src/brian/recording.py:41-46 | `v` records `v`, `gsyn_exc` and `gsyn_inh` record the cell type's excitatory and inhibitory synapse variables, and no other variable has a state variable name |
| Recording.Recorder.CreateDevice | src/brian/recording.py:31-51 | spikes get a spike monitor, and a variable with a name gets a state monitor of that state variable; either is added to the network once; any other variable fails and nothing changes |
| Recording.Recorder.Record | src/brian/recording.py:53-63 | the new ids join the variable's recorded set; a device is created only if the variable has none (so each variable has one device, added once); for a state variable the device keeps its state variable name and tracks exactly the recorded ids less the first id, with an index map inverting that list; other devices are unchanged |
| Recording.Recorder.Reset | src/brian/recording.py:65-66 | reset always raises not-implemented |
| Recording.Recorder.GetAllValues | src/brian/recording.py:68-74 | a missing device is a key error and a spike monitor has no values; for a state monitor the result is exactly the stacking of its samples with the live values at the tracked indices: it fails iff reading those live values fails or the row does not fit the samples, and on success, when there are samples, it is those samples followed by exactly one more row |
| Recording.Recorder.Included | src/brian/recording.py:80-82 | the included variables are all recorded ones, or those also named in the request |
| Recording.Recorder.SpikeTrainsOf | src/brian/recording.py:88-97 | the spike part succeeds iff there is a spike device with times for every filtered cell, and then gives one train per filtered cell |
| Recording.Recorder.AnalogOf | src/brian/recording.py:98-112 | the analog part for a variable succeeds iff its values can be stacked; the signal then carries the stacked values, the unit from the units table (default `dimensionless`), the filtered cells as source ids, and their indices sorted as channel indexes |
| Recording.Recorder.Step | src/brian/recording.py:85-112 | one pass of the loop succeeds iff that variable can be read out |
| Recording.Recorder.AllReadableAt | src/brian/recording.py:85-112 | the variables are all readable iff each of them is |
| Recording.Recorder.CollectOk | src/brian/recording.py:85-112 | the loop over any order of the variables succeeds iff each variable can be read |
| Recording.Recorder.CollectTrains | src/brian/recording.py:77-97 | the built segment keeps the population's name, and holds the filtered cells' trains iff spikes were visited |
| Recording.Recorder.StepTrains | src/brian/recording.py:88-112 | one pass keeps the segment's name, and replaces its trains exactly when it visits spikes |
| Recording.Recorder.SignalsForAt | src/brian/recording.py:98-112 | a list of signals is read out for its variables iff each signal is |
| Recording.Recorder.CollectNames | src/brian/recording.py:85-112 | the segment holds one signal per visited variable other than spikes, in visiting order |
| Recording.Recorder.CollectSignals | src/brian/recording.py:98-112 | each signal of the built segment is the read-out of its variable |
| Recording.Recorder.SegmentFacts | src/brian/recording.py:76-113 | over any listing of the included variables, a successful loop means every included variable is readable, the segment carries the population's name and the spike trains as above, and it holds exactly one correct signal per included non-spike variable |
| Recording.Recorder.GetCurrentSegment | src/brian/recording.py:76-113 | the segment is built iff every included variable can be read; it is named after the population, holds one spike train per filtered cell iff spikes are included, and holds exactly one signal per other included variable, each with its stacked values and filtered cells |
| Recording.Recorder.LocalCount | src/brian/recording.py:115-122 | with no filtered cell the result is empty; otherwise it fails iff the spike device is missing or lacks a filtered cell; on success it maps each filtered cell's index (`id - first_id`), and nothing else, to that cell's number of spikes |

## Left out

- Building cells: hoc templates, cell types and parameter translation, the
  per-cell `_build_cell`, and registration with the initializer are not
  modelled. `Create` allocates ids and the mask only.
- Logging calls are not modelled. The `%g` rendering of a number is the
  parameter `fmt`, and Python's `float` on a string is the parameter
  `toFloat`.
- The cells' parameter store (`set_parameters`, `setattr`) is not modelled.
  `Set` and `Tset` return the `(cell, value)` pairs they would apply.
- `connect`: the synapse type and the `None` defaults of weight and delay
  are handed to `simulator.single_connect`, which is not part of this
  model. A connection records the weight and delay it is given.
- `Population.__init__`: the recorders dictionary and the cell type object
  are not modelled. The model keeps the label, shape, ids and local mask.
- Random numbers: `rng.uniform`, `rng.permutation` and the default
  `NumpyRNG` are draws passed in as parameters.
- Populations.RecordSelection: the permutation is a parameter with the same
  elements as all cells. The hand-off to the recorders (`record`) is not
  modelled; the selected cells are returned instead.
- Populations.Tset: for a wrong shape of the right rank, numpy's own error
  is modelled as the index error. The values are modelled flattened over
  the population's dimensions, so the model does not check the size of
  the extra trailing dimension.
- Short-term plasticity: the `use_Tsodyks_Markram_synapses` calls and the
  `useSTDP` calls on each connection are not modelled. The connector's
  `connect` call is modelled by passing its connections to
  `NewProjection`.
- `stdp_connections` is not part of this model: it is built outside the
  modelled files. The weight-adjuster links are modelled as the projection's
  `stdpLinks`, one per connection. Whether `stdp_connections` has one entry
  per connection is not known here.
- Floating point: weights and delays are exact reals, so rounding in
  `d*(1-ddf)` and `d*ddf` is not modelled.
- `getWeights`/`getDelays` with gather=True, and `saveConnections` with
  gather=True, raise. Gathering across processes is not modelled.
- File I/O in `saveConnections` is not modelled: the model returns the file
  name and the lines.
- Brian's device objects, the network `add` call and the simulation clock
  are not modelled. The devices are values, and the network is the list
  `added`.
- The datetime and the `describe()` description of a segment are not
  modelled. Physical units are kept as strings, and quantities are kept as
  plain numbers, with no division by `mV` or `ms`.
- Recording.Indices: the index list stored by `_record` and used in the
  read-out is fixed ascending. Python iterates a set in an unspecified
  order. All properties are stated for any listing, and `LocalCount` (via
  `FromIter`) allows any order.
- Recording.Recorder.Record: `variable is 'spikes'` is an identity test in
  the source. It is modelled as string equality, as CPython interning
  makes it for literal names.

## Findings

| source | as written | input that shows it | evidently intended | confidence | as-written member | corrected member |
|---|---|---|---|---|---|---|
| src/neuron2/__init__.py:591-592 | the delay check is `min(delays) >= get_min_delay()`, and `min` of an empty list raises ValueError | a connector that produces no connections (for example a fixed-probability connector whose draws all fail), giving `connections == []` | a projection with no connections has no delay below the minimum, so it should be accepted | not executed | Projections.InitCheckAsWritten (shown by Projections.EmptyProjectionRejected) | Projections.InitCheck (proved by Projections.InitCheckSpec) |
