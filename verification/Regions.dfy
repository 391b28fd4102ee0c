/** The piecewise-linear elements' regions: what each test names, and the run of flips that settles them. */
module Regions {
  import opened Options
  import opened Graph
  import opened Circuit

  type Voltages = seq<Option<real>>

  function VoltAt(voltages: Voltages, x: nat): Option<real> {
    if x < |voltages| then voltages[x] else None
  }

  /** The current from `a` to `b` at the given supernode voltages, where they all have one. */
  function CurrentAt(s: Stamp, voltages: Voltages): Option<real> {
    match (VoltAt(voltages, s.a), VoltAt(voltages, s.b))
    case (Some(va), Some(vb)) =>
      (match s.gain
       case None => Some(BranchAmps(s.g, s.i, va, vb))
       case Some(gain) =>
         match (VoltAt(voltages, gain.bn), VoltAt(voltages, gain.en))
         case (Some(vbn), Some(ven)) => Some(BranchAmps(s.g, s.i, va, vb) + BranchAmps(gain.k, gain.i0, vbn, ven))
         case _ => None)
    case _ => None
  }

  /** `V(control) - V(b)`, where both have a voltage. */
  function ControlMinusB(e: Resolved, voltages: Voltages): Option<real> {
    if e.control.None? then None
    else
      var control := match e.control.value.0
                     case Local(c) => VoltAt(voltages, c)
                     case Held(v) => Some(v)
                     case Unheld => None;
      match (control, VoltAt(voltages, e.b))
      case (Some(vc), Some(vb)) => Some(vc - vb)
      case _ => None
  }

  predicate Controlled(e: Resolved, voltages: Voltages) {
    && e.control.Some?
    && ControlMinusB(e, voltages).Some?
    && e.control.value.1.Passes(ControlMinusB(e, voltages).value)
  }

  function OnIf(conducts: bool): Region {
    if conducts then On else Off
  }

  predicate DropAtLeast(e: Resolved, voltages: Voltages, knee: real) {
    && VoltAt(voltages, e.a).Some? && VoltAt(voltages, e.b).Some?
    && VoltAt(voltages, e.a).value - VoltAt(voltages, e.b).value >= knee
  }

  /** The base current a collector is judged against: its base diode's own. */
  function BaseCurrent(e: Resolved, voltages: Voltages, stamps: seq<Option<Stamp>>): real {
    if e.base.Some? && e.base.value < |stamps| && stamps[e.base.value].Some?
    then CurrentAt(stamps[e.base.value].value, voltages).GetOr(0.0) else 0.0
  }

  /** The region an element's own test names at these voltages. */
  function Names(e: Resolved, region: Region, voltages: Voltages, stamps: seq<Option<Stamp>>): Region {
    match e.curve
    case Diode(vf, _) => OnIf(DropAtLeast(e, voltages, vf))
    case Regulator(_, vReg) => OnIf(DropAtLeast(e, voltages, vReg))
    case Channel(_) => OnIf(Controlled(e, voltages))
    case Bjt(hfe, rSat) =>
      var ib := BaseCurrent(e, voltages, stamps);
      if !Controlled(e, voltages) then Off
      else match (VoltAt(voltages, e.a), VoltAt(voltages, e.b), region)
           case (_, _, Off) => On
           case (Some(va), Some(vb), On) =>
             if (va - vb) / Max(rSat, IDEAL_SOURCE_FLOOR_OHMS) > hfe * ib then Active else On
           case (Some(va), Some(vb), Active) =>
             if va - vb < hfe * ib * rSat then On else Active
           case _ => region
  }

  function Wanted(elements: seq<Option<Resolved>>, regions: seq<Region>, voltages: Voltages,
                  stamps: seq<Option<Stamp>>): (w: seq<Region>)
    requires |regions| == |elements|
    ensures |w| == |regions|
  {
    seq(|elements|, k requires 0 <= k < |elements| == |regions| =>
      if elements[k].None? then regions[k] else Names(elements[k].value, regions[k], voltages, stamps))
  }

  /** The first place the wanted regions differ from the current ones. */
  function FirstDisagreement(wanted: seq<Region>, regions: seq<Region>): (k: Option<nat>)
    requires |wanted| == |regions|
    ensures k.None? <==> wanted == regions
    ensures k.Some? ==>
              k.value < |regions| && wanted[k.value] != regions[k.value] && wanted[..k.value] == regions[..k.value]
  {
    FirstDifferenceFrom(wanted, regions, 0)
  }

  function FirstDifferenceFrom(wanted: seq<Region>, regions: seq<Region>, from: nat): (k: Option<nat>)
    requires |wanted| == |regions| && from <= |wanted| && wanted[..from] == regions[..from]
    ensures k.None? <==> wanted == regions
    ensures k.Some? ==>
              k.value < |regions| && wanted[k.value] != regions[k.value] && wanted[..k.value] == regions[..k.value]
    decreases |wanted| - from
  {
    if from == |wanted| then
      assert wanted == wanted[..from] && regions == regions[..from];
      None
    else if wanted[from] != regions[from] then Some(from)
    else
      assert wanted[..from + 1] == wanted[..from] + [wanted[from]];
      assert regions[..from + 1] == regions[..from] + [regions[from]];
      FirstDifferenceFrom(wanted, regions, from + 1)
  }

  /** Only the first disagreeing element moves, to the region its test names. */
  function Flip(wanted: seq<Region>, regions: seq<Region>): (r: seq<Region>)
    requires |wanted| == |regions|
    ensures |r| == |regions|
  {
    var k := FirstDisagreement(wanted, regions);
    if k.None? then regions else regions[k.value := wanted[k.value]]
  }

  lemma PrefixAt(s: seq<Region>, t: seq<Region>, n: nat, k: nat)
    requires n <= |s| && n <= |t| && s[..n] == t[..n]
    ensures k < n ==> s[k] == t[k]
  {
    if k < n {
      assert s[..n][k] == s[k];
    }
  }

  lemma FlipsAt(wanted: seq<Region>, r: seq<Region>, k: nat)
    requires |wanted| == |r| && k < |r| && wanted[k] != r[k] && forall i: nat :: i < k ==> wanted[i] == r[i]
    ensures Flip(wanted, r) == r[k := wanted[k]]
  {
    PrefixAt(wanted, r, FirstDisagreement(wanted, r).value, k);
  }

  // ----- the run -----

  ghost function Stamped(c: Cluster, inputs: Inputs, lab: seq<nat>, regions: seq<Region>): (s: seq<Option<Stamp>>)
    requires |regions| == |inputs.elements|
    ensures |s| == |regions|
  {
    StampsOf(Resolve(IndexOf(c.nodes), lab, inputs), regions)
  }

  /** Supernode voltages between solves: the constants, and the operating point's where there is exactly one. */
  ghost function VoltagesAt(c: Cluster, inputs: Inputs, lab: seq<nat>, stamps: seq<Option<Stamp>>): (v: Voltages)
    ensures |v| == |c.nodes|
  {
    var point := ThePoint(c, inputs, lab, stamps);
    seq(|c.nodes|, x requires 0 <= x < |c.nodes| =>
      var held := Constant(IndexOf(c.nodes), lab, inputs.terminals, x);
      if held.Some? then held
      else if At(lab, x) == x && Unknown(c, inputs, lab, x) && point.Some? then Some(Volt(point.value, x))
      else None)
  }

  /** What every element's test names after one solve with the elements in `regions`. */
  ghost function WantedAt(c: Cluster, inputs: Inputs, lab: seq<nat>, regions: seq<Region>): (w: seq<Region>)
    requires |regions| == |inputs.elements|
    ensures |w| == |regions|
  {
    var stamps := Stamped(c, inputs, lab, regions);
    Wanted(Resolve(IndexOf(c.nodes), lab, inputs), regions, VoltagesAt(c, inputs, lab, stamps), stamps)
  }

  ghost predicate Settled(c: Cluster, inputs: Inputs, lab: seq<nat>, regions: seq<Region>)
    requires |regions| == |inputs.elements|
  {
    WantedAt(c, inputs, lab, regions) == regions
  }

  function AllOff(n: nat): (r: seq<Region>)
    ensures |r| == n
  {
    seq(n, _ => Off)
  }

  /** The regions after `k` flips from the cold start. */
  ghost function RegionsAfter(c: Cluster, inputs: Inputs, lab: seq<nat>, k: nat): (r: seq<Region>)
    ensures |r| == |inputs.elements|
  {
    if k == 0 then AllOff(|inputs.elements|)
    else
      var before := RegionsAfter(c, inputs, lab, k - 1);
      Flip(WantedAt(c, inputs, lab, before), before)
  }

  /** After `k` flips every test agrees with its element's region. */
  ghost predicate SettledAfter(c: Cluster, inputs: Inputs, lab: seq<nat>, k: nat) {
    Settled(c, inputs, lab, RegionsAfter(c, inputs, lab, k))
  }

  ghost function FirstWhere(p: nat -> bool, bound: nat): (k: Option<nat>)
    ensures k.Some? ==> k.value < bound && p(k.value)
    ensures forall j: nat :: j < (if k.Some? then k.value else bound) ==> !p(j)
  {
    if bound == 0 then None
    else
      var earlier := FirstWhere(p, bound - 1);
      if earlier.Some? then earlier else if p(bound - 1) then Some(bound - 1) else None
  }

  lemma FirstWhereIs(p: nat -> bool, bound: nat, k: nat)
    requires k < bound && p(k) && forall j: nat :: j < k ==> !p(j)
    ensures FirstWhere(p, bound) == Some(k)
  {
  }

  /** The first solve of the run, before the `bound`-th, whose regions its tests agree with. */
  ghost function SettlesAt(c: Cluster, inputs: Inputs, lab: seq<nat>, bound: nat): Option<nat> {
    FirstWhere((k: nat) => SettledAfter(c, inputs, lab, k), bound)
  }

  lemma SettlesFirst(c: Cluster, inputs: Inputs, lab: seq<nat>, bound: nat)
    ensures var s := SettlesAt(c, inputs, lab, bound);
            && (s.Some? ==> s.value < bound && SettledAfter(c, inputs, lab, s.value))
            && (forall j: nat :: j < (if s.Some? then s.value else bound) ==> !SettledAfter(c, inputs, lab, j))
  {
    var p := (k: nat) => SettledAfter(c, inputs, lab, k);
    forall j: nat | j < (if FirstWhere(p, bound).Some? then FirstWhere(p, bound).value else bound)
      ensures !SettledAfter(c, inputs, lab, j)
    {
      assert !p(j);
    }
  }

  lemma SettlesAtIs(c: Cluster, inputs: Inputs, lab: seq<nat>, bound: nat, k: nat)
    requires k < bound && SettledAfter(c, inputs, lab, k) && forall j: nat :: j < k ==> !SettledAfter(c, inputs, lab, j)
    ensures SettlesAt(c, inputs, lab, bound) == Some(k)
  {
    FirstWhereIs((k: nat) => SettledAfter(c, inputs, lab, k), bound, k);
  }

  function CountPresent(elements: seq<Option<Resolved>>): (n: nat)
    ensures n <= |elements|
  {
    if |elements| == 0 then 0
    else CountPresent(elements[..|elements| - 1]) + if elements[|elements| - 1].Some? then 1 else 0
  }

  /** How many elements name only member nodes. */
  function ElementCount(c: Cluster, inputs: Inputs, lab: seq<nat>): nat {
    CountPresent(Resolve(IndexOf(c.nodes), lab, inputs))
  }

  // ----- what leakage alone reaches -----

  predicate MoreThanLeakage(s: Stamp) {
    s.g > 1.0 / GMIN_OHMS || s.i != 0.0 || s.gain.Some?
  }

  ghost function ConductLinks(ix: Index, elements: seq<Element>, stamps: seq<Option<Stamp>>): set<Link> {
    (set k: nat | k < |elements| && k < |stamps| && elements[k].a in ix && elements[k].b in ix &&
                  stamps[k].Some? && MoreThanLeakage(stamps[k].value) :: (ix[elements[k].a], ix[elements[k].b])) +
    (set k: nat | k < |elements| && k < |stamps| && elements[k].a in ix && elements[k].b in ix &&
                  stamps[k].Some? && MoreThanLeakage(stamps[k].value) :: (ix[elements[k].b], ix[elements[k].a]))
  }

  /** A source or terminal feeds `x` over resistors and stamps that are more than the bare leakage. */
  ghost predicate Fed(c: Cluster, inputs: Inputs, stamps: seq<Option<Stamp>>, x: nat) {
    var ix := IndexOf(c.nodes);
    FedFrom(WireLinks(ix, c.resistors) + ConductLinks(ix, inputs.elements, stamps), Seeds(ix, inputs), x)
  }

  // ----- the result -----

  /** A node's state: its constant, its voltage where one is published, or floating. */
  ghost function StateAt(c: Cluster, inputs: Inputs, lab: seq<nat>, stamps: seq<Option<Stamp>>, published: bool,
                         x: nat): NetState {
    var held := Constant(IndexOf(c.nodes), lab, inputs.terminals, At(lab, x));
    var point := ThePoint(c, inputs, lab, stamps);
    if held.Some? then Analog(held.value)
    else if Unknown(c, inputs, lab, x) && point.Some? && published then Analog(Volt(point.value, x))
    else Floating
  }

  /** With elements, a node only leakage reaches is not published, nor is any of an unsettled run. */
  ghost predicate Published(c: Cluster, inputs: Inputs, lab: seq<nat>, stamps: seq<Option<Stamp>>, converged: bool,
                            x: nat) {
    ElementCount(c, inputs, lab) == 0 || (converged && Fed(c, inputs, stamps, x))
  }

  ghost function StateEntry(c: Cluster, inputs: Inputs, lab: seq<nat>, stamps: seq<Option<Stamp>>, converged: bool,
                            k: nat): (NetId, NetState)
    requires k < |c.nodes|
  {
    var x := IndexOf(c.nodes)[c.nodes[k]];
    (c.nodes[k], StateAt(c, inputs, lab, stamps, Published(c, inputs, lab, stamps, converged, x), x))
  }

  ghost function StatesOf(c: Cluster, inputs: Inputs, lab: seq<nat>, stamps: seq<Option<Stamp>>,
                          converged: bool): seq<(NetId, NetState)> {
    seq(|c.nodes|, k requires 0 <= k < |c.nodes| => StateEntry(c, inputs, lab, stamps, converged, k))
  }

  ghost function BranchCurrent(c: Cluster, inputs: Inputs, lab: seq<nat>, stamps: seq<Option<Stamp>>,
                               s: Option<Stamp>): Option<real> {
    if s.None? then None
    else
      var voltages := VoltagesAt(c, inputs, lab, stamps);
      if VoltAt(voltages, s.value.a).Some? && VoltAt(voltages, s.value.b).Some? then
        if Fed(c, inputs, stamps, s.value.a) && Fed(c, inputs, stamps, s.value.b) then CurrentAt(s.value, voltages)
        else Some(0.0)
      else None
  }

  ghost function BranchCurrents(c: Cluster, inputs: Inputs, lab: seq<nat>, stamps: seq<Option<Stamp>>,
                                converged: bool): (b: seq<Option<real>>)
    ensures |b| == |stamps|
  {
    seq(|stamps|, k requires 0 <= k < |stamps| =>
      if converged then BranchCurrent(c, inputs, lab, stamps, stamps[k]) else None)
  }

  /** The supernodes a solve has a matrix row for. */
  ghost function UnknownRoots(c: Cluster, inputs: Inputs, lab: seq<nat>): set<nat> {
    set x: nat | x < |c.nodes| && At(lab, x) == x && Unknown(c, inputs, lab, x)
  }

  /** The whole result, as the circuit alone determines it. */
  ghost function SolutionOf(c: Cluster, inputs: Inputs, lab: seq<nat>): ClusterSolution {
    var n := ElementCount(c, inputs, lab);
    var m := |UnknownRoots(c, inputs, lab)|;
    if n == 0 then
      var stamps := Stamped(c, inputs, lab, AllOff(|inputs.elements|));
      ClusterSolution(StatesOf(c, inputs, lab, stamps, true), [], [], true, 1, m)
    else
      var settles := SettlesAt(c, inputs, lab, PWL_SOLVES_PER_ELEMENT * n);
      var last := if settles.Some? then settles.value else PWL_SOLVES_PER_ELEMENT * n - 1;
      var regions := RegionsAfter(c, inputs, lab, last);
      var stamps := Stamped(c, inputs, lab, regions);
      ClusterSolution(
        StatesOf(c, inputs, lab, stamps, settles.Some?),
        if settles.Some? then regions else AllOff(|regions|),
        BranchCurrents(c, inputs, lab, stamps, settles.Some?),
        settles.Some?, last + 1, m)
  }

  /** A solve never goes without an operating point but where the law cannot tell two voltages apart. */
  ghost predicate Decided(c: Cluster, inputs: Inputs, lab: seq<nat>, regions: seq<Region>)
    requires |regions| == |inputs.elements|
  {
    var stamps := Stamped(c, inputs, lab, regions);
    ThePoint(c, inputs, lab, stamps).None? ==> Undetermined(c, inputs, lab, stamps)
  }

  ghost predicate DecidedAfter(c: Cluster, inputs: Inputs, lab: seq<nat>, k: nat) {
    Decided(c, inputs, lab, RegionsAfter(c, inputs, lab, k))
  }

  /** `s` is what the solver answers for this cluster and these inputs. */
  ghost predicate Solves(c: Cluster, inputs: Inputs, lab: seq<nat>, s: ClusterSolution) {
    && Labelling(c, lab) && s == SolutionOf(c, inputs, lab)
    && forall k: nat :: k < s.solves ==> DecidedAfter(c, inputs, lab, k)
  }
}
