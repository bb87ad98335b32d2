/**
 * The parameters of the Hooker and Heinz scheduling instances
 * (scheduling/generic.py, and its copy in the legacy scheduling.py):
 * processing times per (task, facility), facility capacities, assignment
 * costs, release times, deadlines and resource requirements, drawn in that
 * order from one sampler. The (task, facility)-keyed dictionaries are rows
 * indexed by task, each holding one entry per facility.
 *
 * hooker_params keeps the first five of the six; the resource draws still
 * happen and advance the sampler. The Hooker grid is the product of
 * seven task counts, two horizons and ten seeds, with three facilities.
 */
module SchedulingParams {
  import opened Common
  import opened Rand
  import opened ParameterGrid

  /** Every facility's capacity. */
  const Capacity := 10

  /** beta = 20 / 9, taken as an exact rational. */
  const Beta: real := 20.0 / 9.0

  /** The smallest processing time: 2 with fewer than 22 tasks, else 5. */
  function ProcessingLow(tasks: nat): int {
    if tasks < 22 then 2 else 5
  }

  /** The largest processing time on facility i: 20 + 5 i. */
  function ProcessingHigh(i: nat): int {
    20 + 5 * i
  }

  /** The window the deadlines are drawn from: [beta T / 4, beta T]. */
  function DeadlineLow(tasks: nat): real {
    Beta * (tasks as real) / 4.0
  }

  function DeadlineHigh(tasks: nat): real {
    Beta * (tasks as real)
  }

  // ---------------------------------------------------------------- draw records

  /** The log entries of randint(lo, 20 + 5 i) for i = 0, 1, ..., returning row. */
  function RowDraws(lo: int, row: seq<int>): (ds: seq<Draw>)
    ensures |ds| == |row| && forall i :: 0 <= i < |row| ==> ds[i] == IntDraw(lo, ProcessingHigh(i), row[i])
  {
    seq(|row|, i requires 0 <= i < |row| => IntDraw(lo, ProcessingHigh(i), row[i]))
  }

  /** The log entries of the processing-time rows, task after task. */
  function ProcessingDraws(lo: int, rows: seq<seq<int>>): seq<Draw>
    decreases |rows|
  {
    if rows == [] then [] else ProcessingDraws(lo, rows[..|rows| - 1]) + RowDraws(lo, rows[|rows| - 1])
  }

  lemma ProcessingDrawsSnoc(lo: int, rows: seq<seq<int>>, row: seq<int>)
    ensures ProcessingDraws(lo, rows + [row]) == ProcessingDraws(lo, rows) + RowDraws(lo, row)
  {
    assert (rows + [row])[..|rows|] == rows;
  }

  lemma {:induction false} ProcessingDrawsSize(lo: int, rows: seq<seq<int>>, width: nat)
    requires forall j :: 0 <= j < |rows| ==> |rows[j]| == width
    ensures |ProcessingDraws(lo, rows)| == Offset(|rows|, width)
    decreases |rows|
  {
    if rows != [] {
      ProcessingDrawsSize(lo, rows[..|rows| - 1], width);
    }
  }

  /** Every entry i of a processing-time row lies in [lo, 20 + 5 i]. */
  predicate RowWithin(lo: int, row: seq<int>) {
    forall i :: 0 <= i < |row| ==> lo <= row[i] <= ProcessingHigh(i)
  }

  /** draws are uniform(a, b) calls, one per value of us, in order. */
  ghost predicate UniformsDrawn(draws: seq<Draw>, a: real, b: real, us: seq<real>) {
    |draws| == |us| && forall i :: 0 <= i < |us| ==> draws[i] == UniformDraw(a, b, us[i])
  }

  /**
   * The four runs of draws of generate_params: processing times task-major,
   * one cost per facility, one deadline per task, resources task-major.
   */
  ghost predicate ParamsDrawn(facilities: nat, tasks: nat, pd: seq<Draw>, cd: seq<Draw>, dd: seq<Draw>, rd: seq<Draw>,
                              processing: seq<seq<int>>, values: seq<int>, deadlines: seq<real>, resources: seq<seq<int>>)
  {
    pd == ProcessingDraws(ProcessingLow(tasks), processing) &&
    IntsDrawn(cd, 1, 10, values) &&
    UniformsDrawn(dd, DeadlineLow(tasks), DeadlineHigh(tasks), deadlines) &&
    RowsDrawn(rd, 1, 9, facilities, resources)
  }

  /** What generate_params promises of its six results. */
  ghost predicate ParamsShape(facilities: nat, tasks: nat, processing: seq<seq<int>>, capacities: seq<int>,
                              costs: seq<seq<int>>, release: seq<int>, deadlines: seq<real>, resources: seq<seq<int>>,
                              values: seq<int>)
  {
    |processing| == tasks && |costs| == tasks && |release| == tasks && |deadlines| == tasks && |resources| == tasks &&
    |capacities| == facilities && |values| == facilities &&
    (forall j :: 0 <= j < tasks ==> |processing[j]| == facilities && |resources[j]| == facilities) &&
    (forall j :: 0 <= j < tasks ==> RowWithin(ProcessingLow(tasks), processing[j])) &&
    (forall i :: 0 <= i < facilities ==> capacities[i] == Capacity && 1 <= values[i] <= 10) &&
    (forall j :: 0 <= j < tasks ==> costs[j] == values) &&
    (forall j :: 0 <= j < tasks ==> release[j] == 0) &&
    (forall j :: 0 <= j < tasks ==> DeadlineLow(tasks) <= deadlines[j] <= DeadlineHigh(tasks)) &&
    (forall j, k :: 0 <= j < tasks && 0 <= k < |resources[j]| ==> 1 <= resources[j][k] <= 9)
  }

  // ---------------------------------------------------------------- generate_params

  /** processing_times[j, i] for i in range(facilities): one randint per facility. */
  method ProcessingRow(s: Sampler, lo: int, facilities: nat) returns (row: seq<int>, ghost draws: seq<Draw>)
    requires s.Valid() && lo <= 20
    modifies s
    ensures s.Valid() && s.log == old(s.log) + draws
    ensures |row| == facilities && draws == RowDraws(lo, row)
    ensures RowWithin(lo, row)
  {
    row, draws := [], [];
    for i := 0 to facilities
      invariant |row| == i
      invariant s.Valid() && s.log == old(s.log) + draws && draws == RowDraws(lo, row)
      invariant forall k :: 0 <= k < i ==> lo <= row[k] <= ProcessingHigh(k)
    {
      var v := s.RandInt(lo, ProcessingHigh(i));
      row, draws := row + [v], draws + [IntDraw(lo, ProcessingHigh(i), v)];
    }
  }

  /** The processing-time loop over product(range(tasks), range(facilities)). */
  method ProcessingTimes(s: Sampler, facilities: nat, tasks: nat) returns (rows: seq<seq<int>>, ghost draws: seq<Draw>)
    requires s.Valid()
    modifies s
    ensures s.Valid() && s.log == old(s.log) + draws
    ensures |rows| == tasks && draws == ProcessingDraws(ProcessingLow(tasks), rows)
    ensures forall j :: 0 <= j < tasks ==> |rows[j]| == facilities
    ensures forall j :: 0 <= j < tasks ==> RowWithin(ProcessingLow(tasks), rows[j])
  {
    var lo := ProcessingLow(tasks);
    rows, draws := [], [];
    for j := 0 to tasks
      invariant |rows| == j
      invariant s.Valid() && s.log == old(s.log) + draws && draws == ProcessingDraws(lo, rows)
      invariant forall k :: 0 <= k < j ==> |rows[k]| == facilities
      invariant forall k :: 0 <= k < j ==> RowWithin(lo, rows[k])
    {
      var row, rowDraws := ProcessingRow(s, lo, facilities);
      ProcessingDrawsSnoc(lo, rows, row);
      rows, draws := rows + [row], draws + rowDraws;
    }
  }

  /** The deadline loop: one uniform(beta T / 4, beta T) per task. */
  method Deadlines(s: Sampler, tasks: nat) returns (deadlines: seq<real>, ghost draws: seq<Draw>)
    requires s.Valid()
    modifies s
    ensures s.Valid() && s.log == old(s.log) + draws
    ensures |deadlines| == tasks && UniformsDrawn(draws, DeadlineLow(tasks), DeadlineHigh(tasks), deadlines)
    ensures forall j :: 0 <= j < tasks ==> DeadlineLow(tasks) <= deadlines[j] <= DeadlineHigh(tasks)
  {
    var a, b := DeadlineLow(tasks), DeadlineHigh(tasks);
    deadlines, draws := [], [];
    for j := 0 to tasks
      invariant |deadlines| == j
      invariant s.Valid() && s.log == old(s.log) + draws && UniformsDrawn(draws, a, b, deadlines)
      invariant forall k :: 0 <= k < j ==> a <= deadlines[k] <= b
    {
      var u := s.Uniform(a, b);
      deadlines, draws := deadlines + [u], draws + [UniformDraw(a, b, u)];
    }
  }

  /**
   * generate_params(number_of_facilities, number_of_tasks, seed): the six
   * parameter lists, and the ghost record of the four runs of draws (the
   * per-facility cost draws in values).
   */
  method GenerateParams(facilities: nat, tasks: nat, s: Sampler)
    returns (processing: seq<seq<int>>, capacities: seq<int>, costs: seq<seq<int>>, release: seq<int>,
             deadlines: seq<real>, resources: seq<seq<int>>,
             ghost values: seq<int>, ghost pd: seq<Draw>, ghost cd: seq<Draw>, ghost dd: seq<Draw>, ghost rd: seq<Draw>)
    requires s.Valid()
    modifies s
    ensures s.Valid() && s.log == old(s.log) + pd + cd + dd + rd
    ensures ParamsDrawn(facilities, tasks, pd, cd, dd, rd, processing, values, deadlines, resources)
    ensures ParamsShape(facilities, tasks, processing, capacities, costs, release, deadlines, resources, values)
  {
    processing, pd := ProcessingTimes(s, facilities, tasks);
    capacities := seq(facilities, _ => Capacity);
    var vs;
    vs, cd := RandInts(s, 1, 10, facilities);
    values := vs;
    costs := seq(tasks, _ => vs);
    release := seq(tasks, _ => 0);
    deadlines, dd := Deadlines(s, tasks);
    resources, rd := RandRows(s, 1, 9, facilities, tasks);
    RowsDrawnShape(rd, 1, 9, facilities, resources);
  }

  // ---------------------------------------------------------------- reproducibility

  lemma ProcessingRowDeterministic(stream: nat -> Raw, b: nat, lo: int, r1: seq<int>, r2: seq<int>)
    requires |r1| == |r2|
    requires ExplainedFrom(stream, b, RowDraws(lo, r1)) && ExplainedFrom(stream, b, RowDraws(lo, r2))
    ensures r1 == r2
  {
    forall i | 0 <= i < |r1| ensures r1[i] == r2[i] {
      SameRawSameDraw(RowDraws(lo, r1)[i], RowDraws(lo, r2)[i], stream(b + i));
    }
  }

  /** The draws of all rows but the last, and of the last row, are each explained from their own start. */
  lemma ProcessingExplainedSplit(stream: nat -> Raw, b: nat, lo: int, width: nat, rows: seq<seq<int>>, n: nat)
    requires |rows| == n + 1 && forall j :: 0 <= j < |rows| ==> |rows[j]| == width
    requires ExplainedFrom(stream, b, ProcessingDraws(lo, rows))
    ensures ExplainedFrom(stream, b, ProcessingDraws(lo, rows[..n]))
    ensures ExplainedFrom(stream, b + Offset(n, width), RowDraws(lo, rows[n]))
  {
    ProcessingDrawsSize(lo, rows[..n], width);
    assert ProcessingDraws(lo, rows) == ProcessingDraws(lo, rows[..n]) + RowDraws(lo, rows[n]);
    ExplainedConcat(stream, b, ProcessingDraws(lo, rows[..n]), RowDraws(lo, rows[n]));
  }

  /** Processing-time rows of one width read off the same raw rows are the same. */
  lemma {:induction false} ProcessingDeterministic(stream: nat -> Raw, b: nat, lo: int, width: nat,
                                                   t1: seq<seq<int>>, t2: seq<seq<int>>)
    requires |t1| == |t2| && forall j :: 0 <= j < |t1| ==> |t1[j]| == width && |t2[j]| == width
    requires ExplainedFrom(stream, b, ProcessingDraws(lo, t1)) && ExplainedFrom(stream, b, ProcessingDraws(lo, t2))
    ensures t1 == t2
    decreases |t1|
  {
    if t1 != [] {
      var n := |t1| - 1;
      ProcessingExplainedSplit(stream, b, lo, width, t1, n);
      ProcessingExplainedSplit(stream, b, lo, width, t2, n);
      assert |t1[n]| == |t2[n]| == width;
      ProcessingDeterministic(stream, b, lo, width, t1[..n], t2[..n]);
      ProcessingRowDeterministic(stream, b + Offset(n, width), lo, t1[n], t2[n]);
      assert t1 == t1[..n] + [t1[n]];
      assert t2 == t2[..n] + [t2[n]];
    }
  }

  lemma UniformsDeterministic(stream: nat -> Raw, b: nat, lo: real, hi: real,
                              d1: seq<Draw>, u1: seq<real>, d2: seq<Draw>, u2: seq<real>)
    requires UniformsDrawn(d1, lo, hi, u1) && UniformsDrawn(d2, lo, hi, u2) && |u1| == |u2|
    requires ExplainedFrom(stream, b, d1) && ExplainedFrom(stream, b, d2)
    ensures u1 == u2
  {
    forall i | 0 <= i < |u1| ensures u1[i] == u2[i] {
      SameRawSameDraw(d1[i], d2[i], stream(b + i));
    }
  }

  /** Runs of draws of the same requests, each answered from the same raw rows, return the same values. */
  lemma RunsDeterministic(facilities: nat, tasks: nat, stream: nat -> Raw, b: nat,
                          pd1: seq<Draw>, cd1: seq<Draw>, dd1: seq<Draw>, rd1: seq<Draw>,
                          p1: seq<seq<int>>, v1: seq<int>, e1: seq<real>, r1: seq<seq<int>>,
                          pd2: seq<Draw>, cd2: seq<Draw>, dd2: seq<Draw>, rd2: seq<Draw>,
                          p2: seq<seq<int>>, v2: seq<int>, e2: seq<real>, r2: seq<seq<int>>)
    requires ParamsDrawn(facilities, tasks, pd1, cd1, dd1, rd1, p1, v1, e1, r1)
    requires ParamsDrawn(facilities, tasks, pd2, cd2, dd2, rd2, p2, v2, e2, r2)
    requires |p1| == |p2| == tasks && |v1| == |v2| && |e1| == |e2| && |r1| == |r2|
    requires forall j :: 0 <= j < tasks ==> |p1[j]| == facilities && |p2[j]| == facilities
    requires |pd1| == |pd2| && |cd1| == |cd2| && |dd1| == |dd2|
    requires ExplainedFrom(stream, b, pd1) && ExplainedFrom(stream, b, pd2)
    requires ExplainedFrom(stream, b + |pd1|, cd1) && ExplainedFrom(stream, b + |pd1|, cd2)
    requires ExplainedFrom(stream, b + |pd1| + |cd1|, dd1) && ExplainedFrom(stream, b + |pd1| + |cd1|, dd2)
    requires ExplainedFrom(stream, b + |pd1| + |cd1| + |dd1|, rd1) && ExplainedFrom(stream, b + |pd1| + |cd1| + |dd1|, rd2)
    ensures p1 == p2 && v1 == v2 && e1 == e2 && r1 == r2
  {
    ProcessingDeterministic(stream, b, ProcessingLow(tasks), facilities, p1, p2);
    IntsDeterministic(stream, b + |pd1|, 1, 10, cd1, v1, cd2, v2);
    UniformsDeterministic(stream, b + |pd1| + |cd1|, DeadlineLow(tasks), DeadlineHigh(tasks), dd1, e1, dd2, e2);
    RowsDeterministic(stream, b + |pd1| + |cd1| + |dd1|, 1, 9, facilities, rd1, r1, rd2, r2);
  }

  /** The same four runs of requests answered from the same raw rows give the same values. */
  lemma ParamsDeterministic(facilities: nat, tasks: nat, stream: nat -> Raw, b: nat,
                            pd1: seq<Draw>, cd1: seq<Draw>, dd1: seq<Draw>, rd1: seq<Draw>,
                            p1: seq<seq<int>>, v1: seq<int>, e1: seq<real>, r1: seq<seq<int>>,
                            pd2: seq<Draw>, cd2: seq<Draw>, dd2: seq<Draw>, rd2: seq<Draw>,
                            p2: seq<seq<int>>, v2: seq<int>, e2: seq<real>, r2: seq<seq<int>>)
    requires ParamsDrawn(facilities, tasks, pd1, cd1, dd1, rd1, p1, v1, e1, r1)
    requires ParamsDrawn(facilities, tasks, pd2, cd2, dd2, rd2, p2, v2, e2, r2)
    requires |p1| == |p2| == tasks && |v1| == |v2| && |e1| == |e2| && |r1| == |r2|
    requires forall j :: 0 <= j < tasks ==> |p1[j]| == facilities && |p2[j]| == facilities
    requires ExplainedFrom(stream, b, pd1 + cd1 + dd1 + rd1) && ExplainedFrom(stream, b, pd2 + cd2 + dd2 + rd2)
    ensures p1 == p2 && v1 == v2 && e1 == e2 && r1 == r2
  {
    ExplainedParts(stream, b, pd1, cd1, dd1, rd1);
    ExplainedParts(stream, b, pd2, cd2, dd2, rd2);
    ProcessingDrawsSize(ProcessingLow(tasks), p1, facilities);
    ProcessingDrawsSize(ProcessingLow(tasks), p2, facilities);
    RunsDeterministic(facilities, tasks, stream, b, pd1, cd1, dd1, rd1, p1, v1, e1, r1,
                      pd2, cd2, dd2, rd2, p2, v2, e2, r2);
  }

  /** Capacities, costs and release times are fixed by the cost values alone. */
  lemma ShapeDetermined(facilities: nat, tasks: nat,
                        cap1: seq<int>, cost1: seq<seq<int>>, rel1: seq<int>, v1: seq<int>,
                        cap2: seq<int>, cost2: seq<seq<int>>, rel2: seq<int>, v2: seq<int>)
    requires |cap1| == |cap2| == facilities && |cost1| == |cost2| == tasks && |rel1| == |rel2| == tasks
    requires forall i :: 0 <= i < facilities ==> cap1[i] == Capacity && cap2[i] == Capacity
    requires forall j :: 0 <= j < tasks ==> cost1[j] == v1 && cost2[j] == v2 && rel1[j] == 0 && rel2[j] == 0
    requires v1 == v2
    ensures cap1 == cap2 && cost1 == cost2 && rel1 == rel2
  {
  }

  /** Two samplers in the same state (same seed, same draws so far) give the same six parameters. */
  method SameSeedSameParams(facilities: nat, tasks: nat, s1: Sampler, s2: Sampler)
    returns (p1: (seq<seq<int>>, seq<int>, seq<seq<int>>, seq<int>, seq<real>, seq<seq<int>>),
             p2: (seq<seq<int>>, seq<int>, seq<seq<int>>, seq<int>, seq<real>, seq<seq<int>>))
    requires s1 != s2 && s1.Valid() && s2.Valid() && s1.stream == s2.stream && s1.pos == s2.pos
    modifies s1, s2
    ensures p1 == p2
  {
    ghost var start1, start2 := s1.log, s2.log;
    var a1, b1, c1, e1, f1, g1, v1, pd1, cd1, dd1, rd1 := GenerateParams(facilities, tasks, s1);
    var a2, b2, c2, e2, f2, g2, v2, pd2, cd2, dd2, rd2 := GenerateParams(facilities, tasks, s2);
    NewDrawsExplained(s1.stream, start1, pd1 + cd1 + dd1 + rd1);
    NewDrawsExplained(s2.stream, start2, pd2 + cd2 + dd2 + rd2);
    ParamsDeterministic(facilities, tasks, s1.stream, |start1|, pd1, cd1, dd1, rd1, a1, v1, f1, g1,
                        pd2, cd2, dd2, rd2, a2, v2, f2, g2);
    ShapeDetermined(facilities, tasks, b1, c1, e1, v1, b2, c2, e2, v2);
    p1, p2 := (a1, b1, c1, e1, f1, g1), (a2, b2, c2, e2, f2, g2);
  }

  // ---------------------------------------------------------------- hooker.py

  /**
   * hooker_params: generate_params(...)[:-1], the first five results. The
   * resource requirements are drawn all the same, so the sampler ends where
   * generate_params leaves it.
   */
  method HookerParams(facilities: nat, tasks: nat, s: Sampler)
    returns (processing: seq<seq<int>>, capacities: seq<int>, costs: seq<seq<int>>, release: seq<int>,
             deadlines: seq<real>, ghost resources: seq<seq<int>>,
             ghost values: seq<int>, ghost pd: seq<Draw>, ghost cd: seq<Draw>, ghost dd: seq<Draw>, ghost rd: seq<Draw>)
    requires s.Valid()
    modifies s
    ensures s.Valid() && s.log == old(s.log) + pd + cd + dd + rd
    ensures ParamsDrawn(facilities, tasks, pd, cd, dd, rd, processing, values, deadlines, resources)
    ensures ParamsShape(facilities, tasks, processing, capacities, costs, release, deadlines, resources, values)
  {
    var r;
    processing, capacities, costs, release, deadlines, r, values, pd, cd, dd, rd := GenerateParams(facilities, tasks, s);
    resources := r;
  }

  /** The numbers of tasks 10 + 2 i for i in range(7). */
  function GridTasks(): (ts: seq<nat>)
    ensures |ts| == 7 && forall i :: 0 <= i < 7 ==> ts[i] == 10 + 2 * i
  {
    seq(7, i requires 0 <= i < 7 => 10 + 2 * i)
  }

  const GridHorizons: seq<nat> := [10, 100]

  /** product(number_of_tasks, time_steps, seeds) */
  function GridCombinations(): seq<seq<nat>> {
    Product([GridTasks(), GridHorizons, Naturals(10)])
  }

  /** The (3, n, t, seed) tuples that generate_hookers_instances passes to hooker_instance, in order. */
  function HookerGrid(): (grid: seq<(nat, nat, nat, nat)>)
    ensures |grid| == |GridCombinations()|
  {
    var ws := GridCombinations();
    ProductMembers([GridTasks(), GridHorizons, Naturals(10)]);
    assert forall q :: 0 <= q < |ws| ==> ws[q] in ws;
    seq(|ws|, q requires 0 <= q < |ws| => (3, ws[q][0], ws[q][1], ws[q][2]))
  }

  /**
   * The Hooker grid holds 140 points: entry (a * 2 + b) * 10 + k is
   * (3, 10 + 2 a, [10, 100][b], k), so every point has three facilities, the
   * seed varies fastest and the number of tasks slowest.
   */
  lemma HookerGridShape()
    ensures |HookerGrid()| == 140
    ensures forall a, b, k :: 0 <= a < 7 && 0 <= b < 2 && 0 <= k < 10 ==>
              HookerGrid()[GridIndex(a, b, k)] == (3, 10 + 2 * a, GridHorizons[b], k)
    ensures forall q :: 0 <= q < |HookerGrid()| ==> HookerGrid()[q].0 == 3
  {
    var lists: seq<seq<nat>> := [GridTasks(), GridHorizons, Naturals(10)];
    ProductSize(lists);
    assert lists[1..][1..][1..] == [];
    assert Size(lists[1..][1..]) == 10;
    assert Size(lists[1..]) == 20;
    forall a, b, k | 0 <= a < 7 && 0 <= b < 2 && 0 <= k < 10
      ensures HookerGrid()[GridIndex(a, b, k)] == (3, 10 + 2 * a, GridHorizons[b], k)
    {
      GridPoint(a, b, k);
    }
  }

  /** Entry k of the product of the seeds alone is [k]. */
  lemma SeedsAt(k: nat)
    requires k < 10
    ensures |Product([Naturals(10)])| == 10 && Product([Naturals(10)])[k] == [k]
  {
    var lists: seq<seq<nat>> := [Naturals(10)];
    assert lists[1..] == [];
    ProductOrder(lists);
    OffsetIsProduct(10, 1);
    OffsetIsProduct(k, 1);
    assert Entry(k, 0, 1, 10) == k;
    assert Product(lists)[k] == [k] + [];
  }

  /** Entry b * 10 + k of the product of horizons and seeds is [[10, 100][b], k]. */
  lemma InnerAt(b: nat, k: nat)
    requires b < 2 && k < 10
    ensures |Product([GridHorizons, Naturals(10)])| == 20
    ensures Product([GridHorizons, Naturals(10)])[b * 10 + k] == [GridHorizons[b], k]
  {
    var lists: seq<seq<nat>> := [GridHorizons, Naturals(10)];
    assert lists[1..] == [Naturals(10)];
    SeedsAt(k);
    ProductOrder(lists);
    OffsetIsProduct(2, 10);
    OffsetIsProduct(b, 10);
    assert Entry(b, k, 10, 2) == b * 10 + k;
    assert Product(lists)[b * 10 + k] == [GridHorizons[b]] + [k];
  }

  /** Combination (a * 2 + b) * 10 + k is [10 + 2 a, [10, 100][b], k]. */
  lemma GridPoint(a: nat, b: nat, k: nat)
    requires a < 7 && b < 2 && k < 10
    ensures GridIndex(a, b, k) < |GridCombinations()|
    ensures GridCombinations()[GridIndex(a, b, k)] == [10 + 2 * a, GridHorizons[b], k]
  {
    var lists: seq<seq<nat>> := [GridTasks(), GridHorizons, Naturals(10)];
    assert lists[1..] == [GridHorizons, Naturals(10)];
    InnerAt(b, k);
    ProductOrder(lists);
    OffsetIsProduct(7, 20);
    OffsetIsProduct(a, 20);
    assert Entry(a, b * 10 + k, 20, 7) == GridIndex(a, b, k);
    assert GridCombinations()[GridIndex(a, b, k)] == [10 + 2 * a] + [GridHorizons[b], k];
  }

  /** The position of (tasks index a, horizon index b, seed k) in the grid. */
  function GridIndex(a: nat, b: nat, k: nat): nat {
    (a * 2 + b) * 10 + k
  }
}
