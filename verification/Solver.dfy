/** The solver: one linear solve, or the cold-started, ordered, bounded flip loop over the elements' regions. */
module Solver {
  import opened Options
  import opened Graph
  import opened Dense
  import opened Circuit
  import opened Stamping
  import opened Prepare
  import opened Tables
  import opened Linear
  import opened Regions

  /** What a solve left: its vector, and that vector as the circuit's operating point. */
  ghost predicate SolvedAs(c: Cluster, inputs: Inputs, t: Table, stamps: seq<Option<Stamp>>, solved: Option<Vector>) {
    && (solved.Some? ==> |solved.value| == |t.frame.unknowns|
                         && ThePoint(c, inputs, t.lab, stamps) == Some(Extend(c, inputs, t, solved.value)))
    && (solved.None? ==> ThePoint(c, inputs, t.lab, stamps).None?)
  }

  function VoltageOf(t: Table, solved: Option<Vector>, root: nat): Option<real> {
    match (t.frame.ConstantAt(root), t.frame.Compact(root), solved)
    case (Some(v), _, _) => Some(v)
    case (None, Some(k), Some(v)) => Some(Volt(v, k))
    case _ => None
  }

  lemma VoltageOfIs(c: Cluster, inputs: Inputs, t: Table, stamps: seq<Option<Stamp>>, solved: Option<Vector>, x: nat)
    requires Prepared(c, inputs, t) && SolvedAs(c, inputs, t, stamps, solved) && x < |c.nodes|
    ensures VoltageOf(t, solved, x) == VoltagesAt(c, inputs, t.lab, stamps)[x]
    ensures VoltageOf(t, solved, At(t.lab, x)) ==
            if Constant(t.ix, t.lab, inputs.terminals, At(t.lab, x)).Some?
              then Constant(t.ix, t.lab, inputs.terminals, At(t.lab, x))
            else if Unknown(c, inputs, t.lab, x) && solved.Some?
                   then Some(Volt(ThePoint(c, inputs, t.lab, stamps).value, x))
            else None
  {
    KnownReached(c, inputs, t, x);
  }

  /** Supernode voltages between solves. */
  method ReadVoltages(c: Cluster, ghost inputs: Inputs, t: Table, ghost stamps: seq<Option<Stamp>>,
                      solved: Option<Vector>)
    returns (voltages: Voltages)
    requires Prepared(c, inputs, t) && SolvedAs(c, inputs, t, stamps, solved)
    ensures voltages == VoltagesAt(c, inputs, t.lab, stamps)
  {
    hide *;
    voltages := [];
    for root := 0 to |c.nodes|
      invariant |voltages| == root
      invariant forall x: nat :: x < root ==> voltages[x] == VoltagesAt(c, inputs, t.lab, stamps)[x]
    {
      VoltageOfIs(c, inputs, t, stamps, solved, root);
      voltages := voltages + [VoltageOf(t, solved, root)];
    }
  }

  // ----- the leakage probe -----

  function ConductingBranch(s: Option<Stamp>): Option<Link> {
    if s.Some? && MoreThanLeakage(s.value) then Some((s.value.a, s.value.b)) else None
  }

  function ConductingBranches(stamps: seq<Option<Stamp>>): (b: seq<Option<Link>>)
    ensures |b| == |stamps|
  {
    seq(|stamps|, k requires 0 <= k < |stamps| => ConductingBranch(stamps[k]))
  }

  lemma ConductMirrored(c: Cluster, inputs: Inputs, lab: seq<nat>, regions: seq<Region>, x: nat, y: nat)
    requires Labelling(c, lab) && |regions| == |inputs.elements|
    requires (x, y) in ConductLinks(IndexOf(c.nodes), inputs.elements, Stamped(c, inputs, lab, regions))
    ensures x < |lab| && y < |lab|
    ensures lab[x] == lab[y] || (lab[x], lab[y]) in BranchLinks(ConductingBranches(Stamped(c, inputs, lab, regions)))
  {
    var ix := IndexOf(c.nodes);
    IndexBounds(c.nodes);
    var stamps := Stamped(c, inputs, lab, regions);
    var k: nat :| k < |inputs.elements| && inputs.elements[k].a in ix && inputs.elements[k].b in ix &&
                  stamps[k].Some? && MoreThanLeakage(stamps[k].value) &&
                  ((x, y) == (ix[inputs.elements[k].a], ix[inputs.elements[k].b]) ||
                   (x, y) == (ix[inputs.elements[k].b], ix[inputs.elements[k].a]));
    var j := StampEnds(ix, lab, inputs, regions, k);
    assert ConductingBranches(stamps)[k] in ConductingBranches(stamps);
  }

  lemma ConductCrosses(c: Cluster, inputs: Inputs, lab: seq<nat>, regions: seq<Region>, p: nat, q: nat)
    requires Labelling(c, lab) && |regions| == |inputs.elements|
    requires (p, q) in BranchLinks(ConductingBranches(Stamped(c, inputs, lab, regions)))
    ensures Crosses(lab, ConductLinks(IndexOf(c.nodes), inputs.elements, Stamped(c, inputs, lab, regions)), p, q)
  {
    var ix := IndexOf(c.nodes);
    IndexBounds(c.nodes);
    var stamps := Stamped(c, inputs, lab, regions);
    var branches := ConductingBranches(stamps);
    var b :| b in branches && b.Some? && ((p, q) == b.value || (p, q) == (b.value.1, b.value.0));
    var k: nat :| k < |branches| && branches[k] == b;
    var j := StampEnds(ix, lab, inputs, regions, k);
    hide Labelling, StampsOf, Resolve, MoreThanLeakage, IndexOf;
    var e := inputs.elements[k];
    var links := ConductLinks(ix, inputs.elements, stamps);
    assert (ix[e.a], ix[e.b]) in links && (ix[e.b], ix[e.a]) in links;
  }

  lemma ConductMirrors(c: Cluster, inputs: Inputs, lab: seq<nat>, regions: seq<Region>)
    requires Labelling(c, lab) && |regions| == |inputs.elements|
    ensures Mirrors(lab, BranchLinks(ConductingBranches(Stamped(c, inputs, lab, regions))),
                    ConductLinks(IndexOf(c.nodes), inputs.elements, Stamped(c, inputs, lab, regions)))
  {
    var stamps := Stamped(c, inputs, lab, regions);
    var links := ConductLinks(IndexOf(c.nodes), inputs.elements, stamps);
    var branches := BranchLinks(ConductingBranches(stamps));
    forall x: nat, y: nat | (x, y) in links
      ensures x < |lab| && y < |lab| && (lab[x] == lab[y] || (lab[x], lab[y]) in branches)
    {
      ConductMirrored(c, inputs, lab, regions, x, y);
    }
    forall p: nat, q: nat | (p, q) in branches ensures Crosses(lab, links, p, q) {
      ConductCrosses(c, inputs, lab, regions, p, q);
    }
  }

  lemma ConductingInRange(c: Cluster, inputs: Inputs, lab: seq<nat>, regions: seq<Region>)
    requires Labelling(c, lab) && |regions| == |inputs.elements|
    ensures forall b :: b in ConductingBranches(Stamped(c, inputs, lab, regions)) && b.Some? ==>
              b.value.0 < |lab| && b.value.1 < |lab|
  {
    IndexBounds(c.nodes);
    var stamps := Stamped(c, inputs, lab, regions);
    var branches := ConductingBranches(stamps);
    forall b | b in branches && b.Some? ensures b.value.0 < |lab| && b.value.1 < |lab| {
      var k: nat :| k < |branches| && branches[k] == b;
      var j := StampEnds(IndexOf(c.nodes), lab, inputs, regions, k);
    }
  }

  /** `fed` marks the supernodes more than leakage reaches. */
  ghost predicate Probed(c: Cluster, inputs: Inputs, lab: seq<nat>, stamps: seq<Option<Stamp>>, fed: seq<bool>) {
    |fed| == |c.nodes| && forall x: nat :: x < |c.nodes| ==>
      (At(lab, x) < |fed| && fed[At(lab, x)] <==> Fed(c, inputs, stamps, x))
  }

  /** The supernodes a source or terminal feeds over more than leakage. */
  method ProbeFed(c: Cluster, inputs: Inputs, t: Table, stamps: seq<Option<Stamp>>, ghost regions: seq<Region>)
    returns (fed: seq<bool>)
    requires Prepared(c, inputs, t) && |regions| == |inputs.elements| && stamps == Stamped(c, inputs, t.lab, regions)
    ensures Probed(c, inputs, t.lab, stamps, fed)
  {
    ghost var fought :| Listed(c, inputs, t, fought);
    SeedsMirrored(c, inputs, t.lab, t.pins, fought);
    ConductMirrors(c, inputs, t.lab, regions);
    ConductingInRange(c, inputs, t.lab, regions);
    fed := ReachOver(c, inputs, t.lab, t.edges, ConductingBranches(stamps), SeedRoots(t.sources, t.pins),
                     ConductLinks(IndexOf(c.nodes), inputs.elements, stamps));
  }

  // ----- the answer -----

  predicate PublishedAt(count: nat, converged: bool, fed: seq<bool>, root: nat) {
    count == 0 || (converged && root < |fed| && fed[root])
  }

  method ReadState(ghost c: Cluster, ghost inputs: Inputs, t: Table, ghost stamps: seq<Option<Stamp>>,
                   solved: Option<Vector>,
                   count: nat, converged: bool, fed: seq<bool>, x: nat)
    returns (state: NetState)
    requires Prepared(c, inputs, t) && SolvedAs(c, inputs, t, stamps, solved) && count == ElementCount(c, inputs, t.lab)
    requires count > 0 && converged ==> Probed(c, inputs, t.lab, stamps, fed)
    requires x < |c.nodes|
    ensures state == StateAt(c, inputs, t.lab, stamps, Published(c, inputs, t.lab, stamps, converged, x), x)
  {
    var root := At(t.lab, x);
    VoltageOfIs(c, inputs, t, stamps, solved, x);
    KnownReached(c, inputs, t, x);
    var volts := VoltageOf(t, solved, root);
    var published := PublishedAt(count, converged, fed, root);
    assert published <==> Published(c, inputs, t.lab, stamps, converged, x);
    if t.frame.ConstantAt(root).Some? {
      state := Analog(t.frame.ConstantAt(root).value);
    } else if volts.Some? && published {
      state := Analog(volts.value);
    } else {
      state := Floating;
    }
  }

  /** Supernode voltages mapped back to every member node. */
  method ReadStates(c: Cluster, ghost inputs: Inputs, t: Table, ghost stamps: seq<Option<Stamp>>,
                    solved: Option<Vector>,
                    count: nat, converged: bool, fed: seq<bool>)
    returns (states: seq<(NetId, NetState)>)
    requires Prepared(c, inputs, t) && SolvedAs(c, inputs, t, stamps, solved) && count == ElementCount(c, inputs, t.lab)
    requires count > 0 && converged ==> Probed(c, inputs, t.lab, stamps, fed)
    ensures states == StatesOf(c, inputs, t.lab, stamps, converged)
  {
    hide *;
    states := [];
    for k := 0 to |c.nodes|
      invariant |states| == k
      invariant forall j: nat :: j < k ==> states[j] == StateEntry(c, inputs, t.lab, stamps, converged, j)
    {
      IndexEntry(c, inputs, t, stamps, converged, k);
      var state := ReadState(c, inputs, t, stamps, solved, count, converged, fed, t.ix[c.nodes[k]]);
      states := states + [(c.nodes[k], state)];
    }
    StatesAre(c, inputs, t.lab, stamps, converged, states);
  }

  lemma IndexEntry(c: Cluster, inputs: Inputs, t: Table, stamps: seq<Option<Stamp>>, converged: bool, k: nat)
    requires Prepared(c, inputs, t) && k < |c.nodes|
    ensures c.nodes[k] in t.ix && t.ix[c.nodes[k]] < |c.nodes|
    ensures var x := t.ix[c.nodes[k]];
            StateEntry(c, inputs, t.lab, stamps, converged, k) ==
            (c.nodes[k], StateAt(c, inputs, t.lab, stamps, Published(c, inputs, t.lab, stamps, converged, x), x))
  {
    IndexBounds(c.nodes);
  }

  lemma StatesAre(c: Cluster, inputs: Inputs, lab: seq<nat>, stamps: seq<Option<Stamp>>, converged: bool,
                  states: seq<(NetId, NetState)>)
    requires |states| == |c.nodes|
    requires forall j: nat :: j < |c.nodes| ==> states[j] == StateEntry(c, inputs, lab, stamps, converged, j)
    ensures states == StatesOf(c, inputs, lab, stamps, converged)
  {
    hide StateEntry;
  }

  lemma StampOnLabels(c: Cluster, inputs: Inputs, lab: seq<nat>, regions: seq<Region>, k: nat)
    requires Labelling(c, lab) && |regions| == |inputs.elements| && k < |regions|
    requires Stamped(c, inputs, lab, regions)[k].Some?
    ensures var s := Stamped(c, inputs, lab, regions)[k].value;
            s.a < |c.nodes| && s.b < |c.nodes| && At(lab, s.a) == s.a && At(lab, s.b) == s.b
  {
    IndexBounds(c.nodes);
    var j := StampEnds(IndexOf(c.nodes), lab, inputs, regions, k);
  }

  /** One branch's current, as the last solve left it. */
  method CurrentOf(ghost c: Cluster, ghost inputs: Inputs, ghost t: Table, stamps: seq<Option<Stamp>>,
                   ghost regions: seq<Region>,
                   k: nat, voltages: Voltages, converged: bool, fed: seq<bool>)
    returns (current: Option<real>)
    requires Prepared(c, inputs, t) && |regions| == |inputs.elements| && stamps == Stamped(c, inputs, t.lab, regions)
    requires voltages == VoltagesAt(c, inputs, t.lab, stamps) && k < |stamps|
    requires converged ==> Probed(c, inputs, t.lab, stamps, fed)
    ensures current == if converged then BranchCurrent(c, inputs, t.lab, stamps, stamps[k]) else None
  {
    current := None;
    if converged && stamps[k].Some? {
      StampOnLabels(c, inputs, t.lab, regions, k);
      current := ReadCurrent(c, inputs, t, stamps, stamps[k].value, voltages, fed);
    }
  }

  method ReadCurrent(ghost c: Cluster, ghost inputs: Inputs, ghost t: Table, ghost stamps: seq<Option<Stamp>>, s: Stamp,
                     voltages: Voltages, fed: seq<bool>)
    returns (current: Option<real>)
    requires Prepared(c, inputs, t) && voltages == VoltagesAt(c, inputs, t.lab, stamps)
    requires Probed(c, inputs, t.lab, stamps, fed)
    requires s.a < |c.nodes| && s.b < |c.nodes| && At(t.lab, s.a) == s.a && At(t.lab, s.b) == s.b
    ensures current == BranchCurrent(c, inputs, t.lab, stamps, Some(s))
  {
    current := None;
    if VoltAt(voltages, s.a).Some? && VoltAt(voltages, s.b).Some? {
      current := if fed[s.a] && fed[s.b] then CurrentAt(s, voltages) else Some(0.0);
    }
  }

  /** One reported current an element: nothing to report, zero, or what its last stamp carries. */
  method ReadCurrents(c: Cluster, ghost inputs: Inputs, ghost t: Table, stamps: seq<Option<Stamp>>,
                      ghost regions: seq<Region>,
                      voltages: Voltages, converged: bool, fed: seq<bool>)
    returns (currents: seq<Option<real>>)
    requires Prepared(c, inputs, t) && |regions| == |inputs.elements| && stamps == Stamped(c, inputs, t.lab, regions)
    requires voltages == VoltagesAt(c, inputs, t.lab, stamps)
    requires converged ==> Probed(c, inputs, t.lab, stamps, fed)
    ensures currents == BranchCurrents(c, inputs, t.lab, stamps, converged)
  {
    hide Prepared, Probed, VoltagesAt, Stamped, BranchCurrent;
    currents := [];
    for k := 0 to |stamps|
      invariant |currents| == k
      invariant forall j: nat :: j < k ==>
                  currents[j] == if converged then BranchCurrent(c, inputs, t.lab, stamps, stamps[j]) else None
    {
      var current := CurrentOf(c, inputs, t, stamps, regions, k, voltages, converged, fed);
      currents := currents + [current];
    }
  }

  /** The matrix has one row per unknown supernode. */
  lemma UnknownsCounted(c: Cluster, inputs: Inputs, t: Table)
    requires Prepared(c, inputs, t)
    ensures |t.frame.unknowns| == |UnknownRoots(c, inputs, t.lab)|
  {
    var u := t.frame.unknowns;
    var roots := UnknownRoots(c, inputs, t.lab);
    forall x: nat ensures x in roots <==> x in u {
      if x in roots {
        assert u[t.frame.Compact(x).value] == x;
      }
      if x in u {
        var k :| 0 <= k < |u| && u[k] == x;
        assert t.frame.Compact(x) == Some(k);
      }
    }
    forall j, k | 0 <= j < k < |u| ensures u[j] != u[k] {
      assert t.frame.compact[u[j]] == Some(j) && t.frame.compact[u[k]] == Some(k);
    }
    DistinctCount(u, roots);
  }

  lemma {:induction false} DistinctCount(u: seq<nat>, s: set<nat>)
    requires forall x: nat :: x in s <==> x in u
    requires forall j, k :: 0 <= j < k < |u| ==> u[j] != u[k]
    ensures |u| == |s|
  {
    if |u| == 0 {
      assert s == {};
    } else {
      var last := u[|u| - 1];
      var rest := u[..|u| - 1];
      assert u == rest + [last];
      DistinctCount(rest, s - {last});
    }
  }

  // ----- the whole solve -----

  /** A solve with the elements in `regions`: its stamps, its voltages, and what its tests name. */
  method SolveIn(c: Cluster, inputs: Inputs, t: Table, regions: seq<Region>)
    returns (stamps: seq<Option<Stamp>>, solved: Option<Vector>, voltages: Voltages, wanted: seq<Region>)
    requires Prepared(c, inputs, t) && |regions| == |inputs.elements| == |t.elements|
    requires t.elements == Resolve(IndexOf(c.nodes), t.lab, inputs)
    ensures stamps == Stamped(c, inputs, t.lab, regions)
    ensures SolvedAs(c, inputs, t, stamps, solved) && Decided(c, inputs, t.lab, regions)
    ensures voltages == VoltagesAt(c, inputs, t.lab, stamps)
    ensures wanted == WantedAt(c, inputs, t.lab, regions)
  {
    stamps := StampsOf(t.elements, regions);
    solved := SolveOnce(c, inputs, t, stamps, regions);
    voltages := ReadVoltages(c, inputs, t, stamps, solved);
    wanted := Wanted(t.elements, regions, voltages, stamps);
  }

  /** What the flip loop ends with. */
  ghost predicate Ran(c: Cluster, inputs: Inputs, lab: seq<nat>, bound: nat, regions: seq<Region>, converged: bool,
                      solves: nat) {
    && 1 <= solves <= bound
    && regions == RegionsAfter(c, inputs, lab, solves - 1)
    && SettlesAt(c, inputs, lab, bound) == (if converged then Some(solves - 1) else None)
    && (!converged ==> solves == bound)
    && forall k: nat :: k < solves ==> DecidedAfter(c, inputs, lab, k)
  }

  /** The run so far: `k` solves behind it, none of them settled. */
  ghost predicate Running(c: Cluster, inputs: Inputs, lab: seq<nat>, k: nat) {
    forall j: nat :: j < k ==> !SettledAfter(c, inputs, lab, j) && DecidedAfter(c, inputs, lab, j)
  }

  lemma RunStarts(c: Cluster, inputs: Inputs, lab: seq<nat>)
    ensures Running(c, inputs, lab, 0)
    ensures RegionsAfter(c, inputs, lab, 0) == AllOff(|inputs.elements|)
  {
  }

  /** What the `k`-th solve of the run tells. */
  lemma SolvedAfter(c: Cluster, inputs: Inputs, lab: seq<nat>, k: nat, regions: seq<Region>, wanted: seq<Region>)
    requires regions == RegionsAfter(c, inputs, lab, k)
    requires Decided(c, inputs, lab, regions) && wanted == WantedAt(c, inputs, lab, regions)
    ensures DecidedAfter(c, inputs, lab, k)
    ensures SettledAfter(c, inputs, lab, k) <==> wanted == regions
    ensures RegionsAfter(c, inputs, lab, k + 1) == Flip(wanted, regions)
    ensures FirstDisagreement(wanted, regions).Some? ==>
              Flip(wanted, regions) ==
              regions[FirstDisagreement(wanted, regions).value := wanted[FirstDisagreement(wanted, regions).value]]
  {
    hide WantedAt, Decided;
  }

  lemma RunGoesOn(c: Cluster, inputs: Inputs, lab: seq<nat>, k: nat)
    requires Running(c, inputs, lab, k) && DecidedAfter(c, inputs, lab, k) && !SettledAfter(c, inputs, lab, k)
    ensures Running(c, inputs, lab, k + 1)
  {
    hide SettledAfter, DecidedAfter;
  }

  lemma RunExhausted(c: Cluster, inputs: Inputs, lab: seq<nat>, bound: nat)
    requires bound >= 1 && Running(c, inputs, lab, bound)
    ensures Ran(c, inputs, lab, bound, RegionsAfter(c, inputs, lab, bound - 1), false, bound)
  {
    hide SettledAfter, DecidedAfter, SettlesAt;
    SettlesFirst(c, inputs, lab, bound);
  }

  lemma RunSettled(c: Cluster, inputs: Inputs, lab: seq<nat>, bound: nat, k: nat)
    requires Running(c, inputs, lab, k) && k < bound && SettledAfter(c, inputs, lab, k) &&
             DecidedAfter(c, inputs, lab, k)
    ensures Ran(c, inputs, lab, bound, RegionsAfter(c, inputs, lab, k), true, k + 1)
  {
    hide SettledAfter, DecidedAfter, SettlesAt, RegionsAfter;
    SettlesAtIs(c, inputs, lab, bound, k);
  }

  /** The run of solves, and with it the regions, stamps and voltages of the last. */
  method FlipLoop(c: Cluster, inputs: Inputs, t: Table, bound: nat)
    returns (regions: seq<Region>, stamps: seq<Option<Stamp>>, solved: Option<Vector>, voltages: Voltages,
             converged: bool, solves: nat)
    requires Prepared(c, inputs, t) && |inputs.elements| == |t.elements| && bound >= 1
    requires t.elements == Resolve(IndexOf(c.nodes), t.lab, inputs)
    ensures Ran(c, inputs, t.lab, bound, regions, converged, solves)
    ensures |regions| == |inputs.elements| && stamps == Stamped(c, inputs, t.lab, regions)
    ensures SolvedAs(c, inputs, t, stamps, solved) && voltages == VoltagesAt(c, inputs, t.lab, stamps)
  {
    hide *;
    regions := AllOff(|inputs.elements|);
    solves := 0;
    RunStarts(c, inputs, t.lab);
    while true
      invariant solves < bound && |regions| == |inputs.elements| && regions == RegionsAfter(c, inputs, t.lab, solves)
      invariant Running(c, inputs, t.lab, solves)
      decreases bound - solves
    {
      var wanted;
      stamps, solved, voltages, wanted := SolveIn(c, inputs, t, regions);
      SolvedAfter(c, inputs, t.lab, solves, regions, wanted);
      var disagreeing := FirstDisagreement(wanted, regions);
      if disagreeing.None? {
        RunSettled(c, inputs, t.lab, bound, solves);
        solves := solves + 1;
        converged := true;
        return;
      }
      RunGoesOn(c, inputs, t.lab, solves);
      solves := solves + 1;
      if solves >= bound {
        RunExhausted(c, inputs, t.lab, bound);
        converged := false;
        return;
      }
      regions := regions[disagreeing.value := wanted[disagreeing.value]];
    }
  }

  /** An element of a cluster counts only with both ends inside. */
  method CountElements(elements: seq<Option<Resolved>>) returns (count: nat)
    ensures count == CountPresent(elements)
  {
    count := 0;
    for k := 0 to |elements|
      invariant count == CountPresent(elements[..k])
    {
      assert elements[..k + 1][..k] == elements[..k];
      if elements[k].Some? {
        count := count + 1;
      }
    }
    assert elements[..|elements|] == elements;
  }

  /** The path taken when nothing can switch. */
  method SolveLinear(c: Cluster, inputs: Inputs, t: Table) returns (s: ClusterSolution)
    requires Prepared(c, inputs, t) && t.elements == Resolve(IndexOf(c.nodes), t.lab, inputs)
    requires ElementCount(c, inputs, t.lab) == 0
    ensures Solves(c, inputs, t.lab, s)
  {
    var off := AllOff(|inputs.elements|);
    var stamps := StampsOf(t.elements, off);
    assert stamps == Stamped(c, inputs, t.lab, off);
    RunStarts(c, inputs, t.lab);
    hide ThePoint, Undetermined, StatesOf, UnknownRoots, ElementCount, RegionsAfter, Extend, Stamped, Resolve;
    var solved := SolveOnce(c, inputs, t, stamps, off);
    var states := ReadStates(c, inputs, t, stamps, solved, 0, true, []);
    assert DecidedAfter(c, inputs, t.lab, 0);
    UnknownsCounted(c, inputs, t);
    s := ClusterSolution(states, [], [], true, 1, |t.frame.unknowns|);
  }

  method SolveElements(c: Cluster, inputs: Inputs, t: Table, count: nat) returns (s: ClusterSolution)
    requires Prepared(c, inputs, t) && t.elements == Resolve(IndexOf(c.nodes), t.lab, inputs)
    requires count == ElementCount(c, inputs, t.lab) && count > 0
    ensures Solves(c, inputs, t.lab, s)
  {
    hide SettledAfter, DecidedAfter, RegionsAfter, SettlesAt, StatesOf, BranchCurrents, UnknownRoots;
    var regions, stamps, solved, voltages, converged, solves := FlipLoop(c, inputs, t, PWL_SOLVES_PER_ELEMENT * count);
    var fed: seq<bool> := [];
    if converged {
      fed := ProbeFed(c, inputs, t, stamps, regions);
    }
    var currents := ReadCurrents(c, inputs, t, stamps, regions, voltages, converged, fed);
    var states := ReadStates(c, inputs, t, stamps, solved, count, converged, fed);
    UnknownsCounted(c, inputs, t);
    s := ClusterSolution(states, if converged then regions else AllOff(|regions|), currents, converged, solves,
                         |t.frame.unknowns|);
  }

  /** The whole solve of one cluster from its boundary inputs; `lab` names the supernodes by their roots. */
  method Solve(c: Cluster, inputs: Inputs) returns (s: ClusterSolution)
    ensures exists lab :: Solves(c, inputs, lab, s)
  {
    var t := PrepareTable(c, inputs);
    assert t.elements == Resolve(IndexOf(c.nodes), t.lab, inputs);
    var count := CountElements(t.elements);
    if count == 0 {
      s := SolveLinear(c, inputs, t);
    } else {
      s := SolveElements(c, inputs, t, count);
    }
  }
}
