/**
 * What a settled answer says of each element, in volts, ohms and amps: the current it carries, and the test that
 * keeps it in its region. Nothing here is read off a stamp.
 */
module Answers {
  import opened Options
  import opened Graph
  import opened Circuit
  import opened Prepare
  import opened Tables
  import opened Linear
  import opened Regions
  import opened Results
  import Order
  import Transistor

  /** A resistance no smaller than a microohm. */
  function Ohms(r: real): real {
    if r < 0.000001 then 0.000001 else r
  }

  lemma OhmsAreFloored(r: real)
    ensures Max(r, IDEAL_SOURCE_FLOOR_OHMS) == Ohms(r) && Ohms(r) > 0.0
  {
  }

  // ----- currents -----

  lemma Divides(g: real, m: real, va: real, vb: real)
    requires m != 0.0 && g == 1.0 / m
    ensures BranchAmps(g, 0.0, va, vb) == (va - vb) / m
  {
    assert g * m == 1.0;
    Quotient(BranchAmps(g, 0.0, va, vb), m, va - vb);
  }

  /** What times `m` is `x` is `x / m`. */
  lemma Quotient(amps: real, m: real, x: real)
    requires m != 0.0 && amps * m == x
    ensures amps == x / m
  {
    assert (x / m) * m == x;
    assert (amps - x / m) * m == 0.0;
  }

  lemma KneeDivides(g: real, i: real, m: real, vf: real, va: real, vb: real)
    requires m != 0.0 && g == 1.0 / m && i == vf * g
    ensures BranchAmps(g, i, va, vb) == (va - vb - vf) / m
  {
    var amps := BranchAmps(g, i, va, vb);
    assert g * m == 1.0;
    assert amps == g * (va - vb - vf);
    assert amps * m == (g * m) * (va - vb - vf);
    Quotient(amps, m, va - vb - vf);
  }

  lemma SlopeDivides(g: real, m: real, iReg: real, va: real, vb: real)
    requires m != 0.0 && g == iReg / m
    ensures BranchAmps(g, 0.0, va, vb) == iReg * (va - vb) / m
  {
    assert g * m == iReg;
    assert BranchAmps(g, 0.0, va, vb) * m == (g * m) * (va - vb);
    Quotient(BranchAmps(g, 0.0, va, vb), m, iReg * (va - vb));
  }

  /** An element's own branch carries `amps` from `a` to `b` at a drop of `drop` volts. */
  predicate Carries(curve: Curve, region: Region, drop: real, amps: real) {
    match (curve, region)
    case (Channel(ron), On) => amps == drop / Ohms(ron)
    case (Diode(vf, rd), On) => amps == (drop - vf) / Ohms(rd)
    case (Regulator(iReg, _), On) => amps == iReg + drop / 1000000000.0
    case (Regulator(iReg, vReg), Off) => amps == iReg * drop / Ohms(vReg)
    case (Bjt(_, rSat), On) => amps == drop / Ohms(rSat)
    case (Bjt(_, _), Active) => amps == drop / 1000000000.0
    case (_, Off) => amps == drop / 1000000000.0
    case _ => false
  }

  lemma Leaks(va: real, vb: real)
    ensures BranchAmps(1.0 / GMIN_OHMS, 0.0, va, vb) == (va - vb) / 1000000000.0
  {
    Divides(1.0 / GMIN_OHMS, GMIN_OHMS, va, vb);
  }

  lemma RegulatorFlows(iReg: real, vReg: real, region: Region, va: real, vb: real)
    requires region != Active
    ensures var (g, i) := StampFigures(Regulator(iReg, vReg), region);
            Carries(Regulator(iReg, vReg), region, va - vb, BranchAmps(g, i, va, vb))
  {
    OhmsAreFloored(vReg);
    if region == Off {
      hide Ohms, Max;
      SlopeDivides(iReg / Ohms(vReg), Ohms(vReg), iReg, va, vb);
      hide BranchAmps;
    } else {
      Leaks(va, vb);
    }
  }

  lemma DiodeFlows(vf: real, rd: real, region: Region, va: real, vb: real)
    requires region != Active
    ensures var (g, i) := StampFigures(Diode(vf, rd), region);
            Carries(Diode(vf, rd), region, va - vb, BranchAmps(g, i, va, vb))
  {
    Leaks(va, vb);
    if region == On {
      hide Ohms, Max, BranchAmps;
      OhmsAreFloored(rd);
      var (g, i) := StampFigures(Diode(vf, rd), region);
      hide StampFigures;
      KneeDivides(g, i, Ohms(rd), vf, va, vb);
    }
  }

  lemma OhmicFlows(curve: Curve, region: Region, va: real, vb: real)
    requires curve.Channel? || curve.Bjt?
    requires region == Active ==> curve.Bjt?
    ensures var (g, i) := StampFigures(curve, region); Carries(curve, region, va - vb, BranchAmps(g, i, va, vb))
  {
    hide Ohms, Max, BranchAmps;
    var r := if curve.Channel? then curve.ron else curve.rSat;
    OhmsAreFloored(r);
    Leaks(va, vb);
    Divides(1.0 / Ohms(r), Ohms(r), va, vb);
  }

  /** What flows through an element's own branch, its ends at `va` and `vb`. */
  lemma BranchFlows(curve: Curve, region: Region, va: real, vb: real)
    requires region == Active ==> curve.Bjt?
    ensures var (g, i) := StampFigures(curve, region); Carries(curve, region, va - vb, BranchAmps(g, i, va, vb))
  {
    hide StampFigures, Carries, BranchAmps;
    match curve
    case Diode(vf, rd) => DiodeFlows(vf, rd, region, va, vb);
    case Regulator(iReg, vReg) => RegulatorFlows(iReg, vReg, region, va, vb);
    case Channel(_) => OhmicFlows(curve, region, va, vb);
    case Bjt(_, _) => OhmicFlows(curve, region, va, vb);
  }

  // ----- which diode is a transistor's base -----

  ghost predicate InCluster(c: Cluster, e: Element) {
    e.a in IndexOf(c.nodes) && e.b in IndexOf(c.nodes)
  }

  /** The supernode of a member node. */
  ghost function Root(c: Cluster, lab: seq<nat>, id: NetId): nat
    requires id in IndexOf(c.nodes)
  {
    At(lab, IndexOf(c.nodes)[id])
  }

  /** Element `j` is a diode from the control of transistor `k` to its emitter. */
  ghost predicate BaseLike(c: Cluster, inputs: Inputs, lab: seq<nat>, k: nat, j: nat) {
    && k < |inputs.elements| && j < |inputs.elements|
    && var (e, d) := (inputs.elements[k], inputs.elements[j]);
       && e.curve.Bjt? && InCluster(c, e) && e.control.Some? && e.control.value.0 in IndexOf(c.nodes)
       && d.curve.Diode? && InCluster(c, d)
       && Root(c, lab, d.a) == Root(c, lab, e.control.value.0) && Root(c, lab, d.b) == Root(c, lab, e.b)
  }

  /** And the first of them: the one the collector follows. */
  ghost predicate IsBase(c: Cluster, inputs: Inputs, lab: seq<nat>, k: nat, j: nat) {
    BaseLike(c, inputs, lab, k, j) && forall i: nat :: i < j ==> !BaseLike(c, inputs, lab, k, i)
  }

  ghost predicate EndsAt(ends: seq<Option<Resolved>>, base: nat, emitter: nat, j: nat)
    requires j < |ends|
  {
    ends[j].Some? && ends[j].value.curve.Diode? && ends[j].value.a == base && ends[j].value.b == emitter
  }

  lemma {:induction false} FirstDiodeIs(ends: seq<Option<Resolved>>, base: nat, emitter: nat, k: nat)
    requires k <= |ends|
    ensures var j := FirstDiode(ends, base, emitter, k);
            && (j.Some? ==> EndsAt(ends, base, emitter, j.value))
            && (forall i: nat :: k <= i < (if j.Some? then j.value else |ends|) ==> !EndsAt(ends, base, emitter, i))
    decreases |ends| - k
  {
    if k < |ends| && !EndsAt(ends, base, emitter, k) {
      FirstDiodeIs(ends, base, emitter, k + 1);
    }
  }

  lemma BaseResolved(c: Cluster, inputs: Inputs, lab: seq<nat>, k: nat)
    requires k < |inputs.elements| && InCluster(c, inputs.elements[k])
    ensures var e := Resolve(IndexOf(c.nodes), lab, inputs)[k];
            && e.Some?
            && (e.value.base.Some? ==> IsBase(c, inputs, lab, k, e.value.base.value))
            && (forall j: nat :: IsBase(c, inputs, lab, k, j) ==> e.value.base == Some(j))
  {
    hide IndexOf;
    var ix := IndexOf(c.nodes);
    var ends := Ends(ix, lab, inputs);
    var e := inputs.elements[k];
    assert Resolve(ix, lab, inputs)[k] == WithBase(ends, ends[k]);
    hide Resolve;
    Order.FirstHeldOutside(inputs.terminals, if e.control.Some? then e.control.value.0 else 0);
    if e.curve.Bjt? && e.control.Some? && e.control.value.0 in ix {
      var base, emitter := At(lab, ix[e.control.value.0]), At(lab, ix[e.b]);
      forall j: nat | j < |ends| ensures EndsAt(ends, base, emitter, j) <==> BaseLike(c, inputs, lab, k, j) {
      }
      hide EndsAt, BaseLike;
      FirstDiodeIs(ends, base, emitter, 0);
    }
  }

  /** An element's stamp: its own branch, and for an active transistor the gain its base diode's stamp makes. */
  lemma StampIs(c: Cluster, inputs: Inputs, lab: seq<nat>, regions: seq<Region>, k: nat)
    requires |regions| == |inputs.elements| && k < |regions| && InCluster(c, inputs.elements[k])
    ensures var e := inputs.elements[k];
            var stamp := Stamped(c, inputs, lab, regions)[k];
            var (g, i) := StampFigures(e.curve, regions[k]);
            && stamp.Some? && stamp.value.a == Root(c, lab, e.a) && stamp.value.b == Root(c, lab, e.b)
            && stamp.value.g == g && stamp.value.i == i
            && (stamp.value.gain.Some? ==>
                  e.curve.Bjt? && regions[k] == Active && exists j: nat :: IsBase(c, inputs, lab, k, j))
            && (e.curve.Bjt? && regions[k] == Active ==> forall j: nat :: IsBase(c, inputs, lab, k, j) ==>
                  var (gj, ij) := StampFigures(inputs.elements[j].curve, regions[j]);
                  stamp.value.gain == Some(Gain(Root(c, lab, e.control.value.0), Root(c, lab, e.b),
                                                Times(e.curve.hfe, gj), Times(e.curve.hfe, ij))))
  {
    hide StampFigures, Times, IndexOf;
    BaseResolved(c, inputs, lab, k);
    var ix := IndexOf(c.nodes);
    var elements := Resolve(ix, lab, inputs);
    ResolvedEnds(ix, lab, inputs, k);
    if elements[k].value.base.Some? {
      ResolvedEnds(ix, lab, inputs, elements[k].value.base.value);
    }
    hide Resolve;
  }

  // ----- the current each element carries -----

  lemma FedLabel(c: Cluster, inputs: Inputs, lab: seq<nat>, stamps: seq<Option<Stamp>>, x: nat)
    requires Labelling(c, lab) && x < |lab|
    ensures Fed(c, inputs, stamps, lab[x]) <==> Fed(c, inputs, stamps, x)
  {
    assert lab[lab[x]] == lab[x];
    if Fed(c, inputs, stamps, x) { FedOverZero(c, inputs, stamps, x, lab[x]); }
    if Fed(c, inputs, stamps, lab[x]) { FedOverZero(c, inputs, stamps, lab[x], x); }
  }

  /** A diode's current at a drop of `d`: past its knee over its resistance, or a gigaohm's leakage. */
  function DiodeAmps(vf: real, rd: real, on: bool, d: real): real {
    if on then (d - vf) / Ohms(rd) else d / 1000000000.0
  }

  lemma GainFlows(hfe: real, g: real, i: real, va: real, vb: real)
    ensures BranchAmps(Times(hfe, g), Times(hfe, i), va, vb) == hfe * BranchAmps(g, i, va, vb)
  {
    assert hfe * (g * (va - vb) - i) == (hfe * g) * (va - vb) - hfe * i;
  }

  lemma BaseFlows(c: Cluster, inputs: Inputs, lab: seq<nat>, regions: seq<Region>, k: nat, j: nat, v: seq<real>)
    requires |regions| == |inputs.elements| && k < |regions| && InCluster(c, inputs.elements[k])
    requires inputs.elements[k].curve.Bjt? && regions[k] == Active && IsBase(c, inputs, lab, k, j) &&
             regions[j] != Active
    ensures Stamped(c, inputs, lab, regions)[k].Some?
    ensures var (e, d) := (inputs.elements[k], inputs.elements[j]);
            var (va, vb, vc) := (Volt(v, Root(c, lab, e.a)), Volt(v, Root(c, lab, e.b)),
                                 Volt(v, Root(c, lab, e.control.value.0)));
            StampCurrent(Stamped(c, inputs, lab, regions)[k].value, v) ==
              (va - vb) / 1000000000.0 + e.curve.hfe * DiodeAmps(d.curve.vf, d.curve.rd, regions[j] == On, vc - vb)
  {
    hide StampFigures, Times, IndexOf, Stamped, Ohms, BranchAmps, Volt;
    var (e, d) := (inputs.elements[k], inputs.elements[j]);
    var (va, vb, vc) := (Volt(v, Root(c, lab, e.a)), Volt(v, Root(c, lab, e.b)),
                         Volt(v, Root(c, lab, e.control.value.0)));
    var (g, i) := StampFigures(d.curve, regions[j]);
    StampIs(c, inputs, lab, regions, k);
    BranchFlows(e.curve, Active, va, vb);
    BranchFlows(d.curve, regions[j], vc, vb);
    GainFlows(e.curve.hfe, g, i, vc, vb);
    var figures := StampFigures(e.curve, Active);
    assert figures.1 == 0.0 by { ActiveLeaks(e.curve); }
  }

  lemma ActiveLeaks(curve: Curve)
    requires curve.Bjt?
    ensures StampFigures(curve, Active).1 == 0.0
  {
  }

  /** What element `k`, in its region, carries from `a` to `b` where the nodes are at `v`. */
  ghost predicate Flows(c: Cluster, inputs: Inputs, lab: seq<nat>, regions: seq<Region>, k: nat, v: seq<real>,
                        amps: real)
    requires |regions| == |inputs.elements| && k < |regions| && InCluster(c, inputs.elements[k])
  {
    var e := inputs.elements[k];
    var ix := IndexOf(c.nodes);
    var drop := Volt(v, ix[e.a]) - Volt(v, ix[e.b]);
    if e.curve.Bjt? && regions[k] == Active && exists j: nat :: IsBase(c, inputs, lab, k, j) then
      forall j: nat :: IsBase(c, inputs, lab, k, j) ==>
        var d := inputs.elements[j].curve;
        var baseDrop := Volt(v, ix[e.control.value.0]) - Volt(v, ix[e.b]);
        amps == drop / 1000000000.0 + e.curve.hfe * DiodeAmps(d.vf, d.rd, regions[j] == On, baseDrop)
    else Carries(e.curve, regions[k], drop, amps)
  }

  lemma NodeVolt(c: Cluster, inputs: Inputs, lab: seq<nat>, v: seq<real>, id: NetId)
    requires Labelling(c, lab) && Grounded(c, inputs, lab, v) && id in IndexOf(c.nodes)
    ensures Volt(v, IndexOf(c.nodes)[id]) == Volt(v, Root(c, lab, id))
  {
    IndexBounds(c.nodes);
  }

  lemma StampFlows(c: Cluster, inputs: Inputs, lab: seq<nat>, regions: seq<Region>, k: nat, v: seq<real>)
    requires Labelling(c, lab) && Grounded(c, inputs, lab, v)
    requires |regions| == |inputs.elements| && k < |regions| && InCluster(c, inputs.elements[k])
    requires forall j :: 0 <= j < |regions| && regions[j] == Active ==> inputs.elements[j].curve.Bjt?
    ensures Stamped(c, inputs, lab, regions)[k].Some?
    ensures Flows(c, inputs, lab, regions, k, v, StampCurrent(Stamped(c, inputs, lab, regions)[k].value, v))
  {
    hide StampFigures, Times, IndexOf, Stamped, Ohms, BranchAmps, Volt, Labelling, Grounded, DiodeAmps, Root, IsBase,
         Carries;
    var e := inputs.elements[k];
    StampIs(c, inputs, lab, regions, k);
    NodeVolt(c, inputs, lab, v, e.a);
    NodeVolt(c, inputs, lab, v, e.b);
    BranchFlows(e.curve, regions[k], Volt(v, IndexOf(c.nodes)[e.a]), Volt(v, IndexOf(c.nodes)[e.b]));
    if e.curve.Bjt? && regions[k] == Active && exists j: nat :: IsBase(c, inputs, lab, k, j) {
      var j: nat :| IsBase(c, inputs, lab, k, j);
      OneBase(c, inputs, lab, k, j);
      NodeVolt(c, inputs, lab, v, e.control.value.0);
      BaseFlows(c, inputs, lab, regions, k, j, v);
    } else {
      assert Stamped(c, inputs, lab, regions)[k].value.gain.None?;
    }
  }

  lemma OneBase(c: Cluster, inputs: Inputs, lab: seq<nat>, k: nat, j: nat)
    requires IsBase(c, inputs, lab, k, j)
    ensures BaseLike(c, inputs, lab, k, j)
    ensures forall i: nat :: IsBase(c, inputs, lab, k, i) ==> i == j
  {
  }

  lemma NoStamp(c: Cluster, inputs: Inputs, lab: seq<nat>, regions: seq<Region>, k: nat)
    requires |regions| == |inputs.elements| && k < |regions| && !InCluster(c, inputs.elements[k])
    ensures Stamped(c, inputs, lab, regions)[k].None?
  {
    ResolvedEnds(IndexOf(c.nodes), lab, inputs, k);
    hide IndexOf, Resolve;
  }

  lemma PointGrounded(c: Cluster, inputs: Inputs, lab: seq<nat>, s: ClusterSolution, v: seq<real>)
    requires Solves(c, inputs, lab, s) && ThePoint(c, inputs, lab, LastStamps(c, inputs, lab, s)) == Some(v)
    ensures Labelling(c, lab) && Grounded(c, inputs, lab, v)
  {
    hide Labelling, Grounded, LastStamps, Unknown, NetCurrent, SolutionOf, DecidedAfter;
  }

  lemma EndsAlike(c: Cluster, inputs: Inputs, lab: seq<nat>, stamps: seq<Option<Stamp>>, e: Element)
    requires Labelling(c, lab) && InCluster(c, e)
    ensures var ix := IndexOf(c.nodes);
            && (Reached(c, inputs, ix[e.a]) <==> Reached(c, inputs, Root(c, lab, e.a)))
            && (Reached(c, inputs, ix[e.b]) <==> Reached(c, inputs, Root(c, lab, e.b)))
            && (Fed(c, inputs, stamps, ix[e.a]) <==> Fed(c, inputs, stamps, Root(c, lab, e.a)))
            && (Fed(c, inputs, stamps, ix[e.b]) <==> Fed(c, inputs, stamps, Root(c, lab, e.b)))
  {
    var ix := IndexOf(c.nodes);
    IndexBounds(c.nodes);
    ReachedLabel(c, inputs, lab, ix[e.a]);
    ReachedLabel(c, inputs, lab, ix[e.b]);
    FedLabel(c, inputs, lab, stamps, ix[e.a]);
    FedLabel(c, inputs, lab, stamps, ix[e.b]);
  }

  // ----- the region each element settles in -----

  /** The voltage a node has at the answer: its terminals' constant, or the operating point's where it is reached. */
  ghost function Known(c: Cluster, inputs: Inputs, lab: seq<nat>, stamps: seq<Option<Stamp>>, x: nat): Option<real> {
    var held := Constant(IndexOf(c.nodes), lab, inputs.terminals, At(lab, x));
    var point := ThePoint(c, inputs, lab, stamps);
    if held.Some? then held
    else if x < |c.nodes| && Reached(c, inputs, x) && point.Some? then Some(Volt(point.value, x))
    else None
  }

  lemma KnownIs(c: Cluster, inputs: Inputs, lab: seq<nat>, stamps: seq<Option<Stamp>>, id: NetId)
    requires Labelling(c, lab) && id in IndexOf(c.nodes)
    ensures VoltAt(VoltagesAt(c, inputs, lab, stamps), Root(c, lab, id)) ==
              Known(c, inputs, lab, stamps, IndexOf(c.nodes)[id])
  {
    hide Reached, Constant, ThePoint, Grounded, NetCurrent;
    var x := IndexOf(c.nodes)[id];
    IndexBounds(c.nodes);
    ReachedLabel(c, inputs, lab, x);
    assert lab[lab[x]] == lab[x];
    var point := ThePoint(c, inputs, lab, stamps);
    if point.Some? {
      PointEven(c, inputs, lab, stamps, x);
    }
  }

  lemma PointEven(c: Cluster, inputs: Inputs, lab: seq<nat>, stamps: seq<Option<Stamp>>, x: nat)
    requires ThePoint(c, inputs, lab, stamps).Some? && x < |c.nodes|
    ensures var v := ThePoint(c, inputs, lab, stamps).value; |v| == |c.nodes| && v[x] == Volt(v, At(lab, x))
  {
    assert Grounded(c, inputs, lab, ThePoint(c, inputs, lab, stamps).value);
  }

  /** The voltage a control reads: its node's, or for a node outside the first of its finite terminals'. */
  ghost function ControlVolts(c: Cluster, inputs: Inputs, lab: seq<nat>, stamps: seq<Option<Stamp>>,
                              id: NetId): Option<real> {
    if id in IndexOf(c.nodes) then Known(c, inputs, lab, stamps, IndexOf(c.nodes)[id])
    else
      match FirstHeld(inputs.terminals, id)
      case Held(v) => Some(v)
      case _ => None
  }

  /** An element's control is where its test asks it to be: at least, or at most, so far above its `b`. */
  ghost predicate ControlHolds(c: Cluster, inputs: Inputs, lab: seq<nat>, stamps: seq<Option<Stamp>>, e: Element)
    requires InCluster(c, e)
  {
    && e.control.Some?
    && var (vc, vb) := (ControlVolts(c, inputs, lab, stamps, e.control.value.0),
                        Known(c, inputs, lab, stamps, IndexOf(c.nodes)[e.b]));
       && vc.Some? && vb.Some?
       && match e.control.value.1
          case AtLeast(threshold) => vc.value - vb.value >= threshold
          case AtMost(threshold) => vc.value - vb.value <= threshold
  }

  ghost predicate DropHolds(c: Cluster, inputs: Inputs, lab: seq<nat>, stamps: seq<Option<Stamp>>, e: Element,
                            knee: real)
    requires InCluster(c, e)
  {
    var (va, vb) := (Known(c, inputs, lab, stamps, IndexOf(c.nodes)[e.a]),
                     Known(c, inputs, lab, stamps, IndexOf(c.nodes)[e.b]));
    va.Some? && vb.Some? && va.value - vb.value >= knee
  }

  lemma ControlledIs(c: Cluster, inputs: Inputs, lab: seq<nat>, stamps: seq<Option<Stamp>>, k: nat)
    requires Labelling(c, lab) && k < |inputs.elements| && InCluster(c, inputs.elements[k])
    ensures var e := Resolve(IndexOf(c.nodes), lab, inputs)[k];
            e.Some? && (Controlled(e.value, VoltagesAt(c, inputs, lab, stamps)) <==>
                        ControlHolds(c, inputs, lab, stamps, inputs.elements[k]))
  {
    hide VoltagesAt, Known, IndexOf, Labelling;
    var e := inputs.elements[k];
    ControlResolved(c, inputs, lab, k);
    KnownIs(c, inputs, lab, stamps, e.b);
    if e.control.Some? && e.control.value.0 in IndexOf(c.nodes) {
      KnownIs(c, inputs, lab, stamps, e.control.value.0);
    }
    Order.FirstHeldOutside(inputs.terminals, if e.control.Some? then e.control.value.0 else 0);
    hide Resolve;
  }

  lemma ControlResolved(c: Cluster, inputs: Inputs, lab: seq<nat>, k: nat)
    requires k < |inputs.elements| && InCluster(c, inputs.elements[k])
    ensures var e := inputs.elements[k];
            var r := Resolve(IndexOf(c.nodes), lab, inputs)[k];
            && r.Some? && r.value.b == Root(c, lab, e.b)
            && (r.value.control.Some? <==> e.control.Some?)
            && (e.control.Some? ==>
                  r.value.control == Some((ControlOf(IndexOf(c.nodes), lab, inputs.terminals, e.control.value.0),
                                           e.control.value.1)))
  {
    hide IndexOf, ControlOf;
    var ends := Ends(IndexOf(c.nodes), lab, inputs);
    assert Resolve(IndexOf(c.nodes), lab, inputs)[k] == WithBase(ends, ends[k]);
  }

  /** What a transistor's base diode draws, where the control and the emitter have voltages; nothing without one. */
  ghost predicate BaseDraws(c: Cluster, inputs: Inputs, lab: seq<nat>, regions: seq<Region>, k: nat, ib: real)
    requires |regions| == |inputs.elements| && k < |regions| && InCluster(c, inputs.elements[k])
  {
    var (ix, stamps, e) := (IndexOf(c.nodes), Stamped(c, inputs, lab, regions), inputs.elements[k]);
    && ((forall j: nat :: !IsBase(c, inputs, lab, k, j)) ==> ib == 0.0)
    && (forall j: nat :: IsBase(c, inputs, lab, k, j) ==>
          var (vc, vb) :=
            (Known(c, inputs, lab, stamps, ix[e.control.value.0]), Known(c, inputs, lab, stamps, ix[e.b]));
          var d := inputs.elements[j].curve;
          ib == if vc.Some? && vb.Some? then DiodeAmps(d.vf, d.rd, regions[j] == On, vc.value - vb.value) else 0.0)
  }

  /** A collector's region: off without its control, else saturated or active by the current it would carry. */
  ghost predicate CollectorRegion(c: Cluster, inputs: Inputs, lab: seq<nat>, regions: seq<Region>, k: nat, hfe: real,
                                  rSat: real)
    requires |regions| == |inputs.elements| && k < |regions| && InCluster(c, inputs.elements[k])
  {
    var (ix, stamps, e) := (IndexOf(c.nodes), Stamped(c, inputs, lab, regions), inputs.elements[k]);
    var (va, vb) := (Known(c, inputs, lab, stamps, ix[e.a]), Known(c, inputs, lab, stamps, ix[e.b]));
    && (regions[k] == Off <==> !ControlHolds(c, inputs, lab, stamps, e))
    && (va.Some? && vb.Some? ==>
          exists ib :: BaseDraws(c, inputs, lab, regions, k, ib) &&
            (regions[k] == On ==> (va.value - vb.value) / Ohms(rSat) <= hfe * ib) &&
            (regions[k] == Active ==> va.value - vb.value >= hfe * ib * rSat))
  }

  /** The region an element's own curve asks for at the answer's voltages. */
  ghost predicate InItsRegion(c: Cluster, inputs: Inputs, lab: seq<nat>, regions: seq<Region>, k: nat)
    requires |regions| == |inputs.elements| && k < |regions| && InCluster(c, inputs.elements[k])
  {
    var (stamps, e) := (Stamped(c, inputs, lab, regions), inputs.elements[k]);
    match e.curve
    case Channel(_) => regions[k] == if ControlHolds(c, inputs, lab, stamps, e) then On else Off
    case Diode(vf, _) => regions[k] == if DropHolds(c, inputs, lab, stamps, e, vf) then On else Off
    case Regulator(_, vReg) => regions[k] == if DropHolds(c, inputs, lab, stamps, e, vReg) then On else Off
    case Bjt(hfe, rSat) => CollectorRegion(c, inputs, lab, regions, k, hfe, rSat)
  }

  lemma DropIs(c: Cluster, inputs: Inputs, lab: seq<nat>, stamps: seq<Option<Stamp>>, k: nat, knee: real)
    requires Labelling(c, lab) && k < |inputs.elements| && InCluster(c, inputs.elements[k])
    ensures var e := Resolve(IndexOf(c.nodes), lab, inputs)[k];
            e.Some? && (DropAtLeast(e.value, VoltagesAt(c, inputs, lab, stamps), knee) <==>
                        DropHolds(c, inputs, lab, stamps, inputs.elements[k], knee))
  {
    hide VoltagesAt, Known, IndexOf, Labelling, Resolve;
    ResolvedEnds(IndexOf(c.nodes), lab, inputs, k);
    KnownIs(c, inputs, lab, stamps, inputs.elements[k].a);
    KnownIs(c, inputs, lab, stamps, inputs.elements[k].b);
  }

  /** The base current a collector is judged against is what its base diode draws. */
  lemma BaseCurrentIs(c: Cluster, inputs: Inputs, lab: seq<nat>, regions: seq<Region>, k: nat)
    requires Labelling(c, lab) && |regions| == |inputs.elements| && k < |regions| && InCluster(c, inputs.elements[k])
    requires forall j :: 0 <= j < |regions| && regions[j] == Active ==> inputs.elements[j].curve.Bjt?
    ensures var stamps := Stamped(c, inputs, lab, regions);
            var e := Resolve(IndexOf(c.nodes), lab, inputs)[k];
            e.Some? && BaseDraws(c, inputs, lab, regions, k,
                                 BaseCurrent(e.value, VoltagesAt(c, inputs, lab, stamps), stamps))
  {
    hide VoltagesAt, Known, IndexOf, Labelling, Stamped, StampFigures, BranchAmps, DiodeAmps, Resolve, IsBase;
    BaseResolved(c, inputs, lab, k);
    if j: nat :| IsBase(c, inputs, lab, k, j) {
      OneBase(c, inputs, lab, k, j);
      DiodeReads(c, inputs, lab, regions, j);
      KnownIs(c, inputs, lab, Stamped(c, inputs, lab, regions), inputs.elements[j].a);
      KnownIs(c, inputs, lab, Stamped(c, inputs, lab, regions), inputs.elements[j].b);
      KnownIs(c, inputs, lab, Stamped(c, inputs, lab, regions), inputs.elements[k].control.value.0);
      KnownIs(c, inputs, lab, Stamped(c, inputs, lab, regions), inputs.elements[k].b);
    }
  }

  lemma DiodeReads(c: Cluster, inputs: Inputs, lab: seq<nat>, regions: seq<Region>, j: nat)
    requires |regions| == |inputs.elements| && j < |regions| && InCluster(c, inputs.elements[j])
    requires inputs.elements[j].curve.Diode? && regions[j] != Active
    ensures var stamps := Stamped(c, inputs, lab, regions);
            var (voltages, d) := (VoltagesAt(c, inputs, lab, stamps), inputs.elements[j]);
            var (va, vb) := (VoltAt(voltages, Root(c, lab, d.a)), VoltAt(voltages, Root(c, lab, d.b)));
            stamps[j].Some? &&
            CurrentAt(stamps[j].value, voltages).GetOr(0.0) ==
              if va.Some? && vb.Some?
              then DiodeAmps(d.curve.vf, d.curve.rd, regions[j] == On, va.value - vb.value) else 0.0
  {
    hide VoltagesAt, IndexOf, Stamped, StampFigures, BranchAmps, Ohms;
    var stamps := Stamped(c, inputs, lab, regions);
    var (voltages, d) := (VoltagesAt(c, inputs, lab, stamps), inputs.elements[j]);
    var (va, vb) := (VoltAt(voltages, Root(c, lab, d.a)), VoltAt(voltages, Root(c, lab, d.b)));
    StampIs(c, inputs, lab, regions, j);
    if va.Some? && vb.Some? {
      BranchFlows(d.curve, regions[j], va.value, vb.value);
    }
  }

  /** The tests as the solver names them, read as the curves' own. */
  lemma NamedRegion(c: Cluster, inputs: Inputs, lab: seq<nat>, regions: seq<Region>, k: nat)
    requires Labelling(c, lab) && |regions| == |inputs.elements| && k < |regions| && InCluster(c, inputs.elements[k])
    requires forall j :: 0 <= j < |regions| && regions[j] == Active ==> inputs.elements[j].curve.Bjt?
    requires var e := Resolve(IndexOf(c.nodes), lab, inputs)[k];
             var stamps := Stamped(c, inputs, lab, regions);
             e.Some? ==> regions[k] == Names(e.value, regions[k], VoltagesAt(c, inputs, lab, stamps), stamps)
    ensures InItsRegion(c, inputs, lab, regions, k)
  {
    hide VoltagesAt, Known, IndexOf, Labelling, Stamped, Resolve, Controlled, ControlHolds, DropHolds, DropAtLeast,
         BaseDraws, BaseCurrent, IsBase;
    var (e, stamps) := (inputs.elements[k], Stamped(c, inputs, lab, regions));
    ResolvedEnds(IndexOf(c.nodes), lab, inputs, k);
    ControlledIs(c, inputs, lab, stamps, k);
    match e.curve {
      case Channel(_) =>
      case Diode(vf, _) => DropIs(c, inputs, lab, stamps, k, vf);
      case Regulator(_, vReg) => DropIs(c, inputs, lab, stamps, k, vReg);
      case Bjt(hfe, rSat) =>
        BaseCurrentIs(c, inputs, lab, regions, k);
        KnownIs(c, inputs, lab, stamps, e.a);
        KnownIs(c, inputs, lab, stamps, e.b);
        OhmsAreFloored(rSat);
        hide Ohms, Max;
    }
  }

  lemma {:induction false} OutsideStaysOff(c: Cluster, inputs: Inputs, lab: seq<nat>, k: nat, n: nat)
    requires k < |inputs.elements| && !InCluster(c, inputs.elements[k])
    ensures RegionsAfter(c, inputs, lab, n)[k] == Off
  {
    hide Stamped, VoltagesAt, Names, IndexOf, Resolve;
    if n > 0 {
      OutsideStaysOff(c, inputs, lab, k, n - 1);
      ResolvedEnds(IndexOf(c.nodes), lab, inputs, k);
      var before := RegionsAfter(c, inputs, lab, n - 1);
      assert WantedAt(c, inputs, lab, before)[k] == before[k];
      hide WantedAt;
    }
  }

  lemma SolvesLabelled(c: Cluster, inputs: Inputs, lab: seq<nat>, s: ClusterSolution)
    requires Solves(c, inputs, lab, s)
    ensures Labelling(c, lab)
  {
  }

  /**
   * A settled answer: each element is in the region its curve asks for at the answer's own voltages. A channel is on
   * exactly where its control is as far above its `b` as asked, or as far below; a diode and a regulator exactly where
   * the drop reaches the knee; a collector is off exactly without its control, and saturated or active by what its
   * base's current supports. One with an end outside the cluster is off.
   */
  lemma RegionByTest(c: Cluster, inputs: Inputs, lab: seq<nat>, s: ClusterSolution, k: nat)
    requires Solves(c, inputs, lab, s) && !NoElements(c, inputs) && s.converged && k < |inputs.elements|
    ensures |s.regions| == |inputs.elements| && LastStamps(c, inputs, lab, s) == Stamped(c, inputs, lab, s.regions)
    ensures if InCluster(c, inputs.elements[k]) then InItsRegion(c, inputs, lab, s.regions, k) else s.regions[k] == Off
  {
    hide Solves, NoElements, ThePoint, Stamped, RegionsAfter, LastStamps, Resolve, Labelling, IndexOf, Names,
         VoltagesAt, SettledAfter, InItsRegion, InCluster;
    SolvesLabelled(c, inputs, lab, s);
    ConvergedAgrees(c, inputs, lab, s, k);
    FlipLoopBounded(c, inputs, lab, s);
    Transistor.OnlyTransistorsActive(c, inputs, lab, s.solves - 1);
    if InCluster(c, inputs.elements[k]) {
      NamedRegion(c, inputs, lab, s.regions, k);
    } else {
      OutsideStaysOff(c, inputs, lab, k, s.solves - 1);
    }
  }

  // ----- what an element feeds over -----

  /** An element, in its region, carries more than a gigaohm's leakage to the nodes beyond it. */
  predicate Feeds(curve: Curve, region: Region, based: bool) {
    match (curve, region)
    case (Channel(ron), On) => Ohms(ron) < 1000000000.0
    case (Diode(vf, rd), On) => Ohms(rd) < 1000000000.0 || vf != 0.0
    case (Regulator(iReg, _), On) => iReg != 0.0
    case (Regulator(iReg, vReg), Off) => iReg * 1000000000.0 > Ohms(vReg)
    case (Bjt(_, rSat), On) => Ohms(rSat) < 1000000000.0
    case (Bjt(_, _), Active) => based
    case _ => false
  }

  lemma Reciprocals(m: real, n: real)
    requires m > 0.0 && n > 0.0
    ensures 1.0 / m > 1.0 / n <==> m < n
  {
    var (x, y) := (1.0 / m, 1.0 / n);
    assert x * m == 1.0 && y * n == 1.0;
    PositiveParts(x, y, m, n);
  }

  lemma PositiveParts(x: real, y: real, m: real, n: real)
    requires m > 0.0 && n > 0.0 && x * m == 1.0 && y * n == 1.0
    ensures x > y <==> m < n
  {
    assert x > 0.0 && y > 0.0;
    assert (x - y) * (m * n) == n - m;
  }

  lemma FeedsIs(c: Cluster, inputs: Inputs, lab: seq<nat>, regions: seq<Region>, k: nat)
    requires |regions| == |inputs.elements| && k < |regions| && InCluster(c, inputs.elements[k])
    requires regions[k] == Active ==> inputs.elements[k].curve.Bjt?
    ensures Stamped(c, inputs, lab, regions)[k].Some?
    ensures MoreThanLeakage(Stamped(c, inputs, lab, regions)[k].value) <==>
              Feeds(inputs.elements[k].curve, regions[k], exists j: nat :: IsBase(c, inputs, lab, k, j))
  {
    hide IndexOf, Stamped, IsBase, StampFigures;
    StampIs(c, inputs, lab, regions, k);
    FiguresFeed(inputs.elements[k].curve, regions[k]);
  }

  lemma FiguresFeed(curve: Curve, region: Region)
    requires region == Active ==> curve.Bjt?
    ensures var (g, i) := StampFigures(curve, region);
            (g > 1.0 / GMIN_OHMS || i != 0.0) <==> Feeds(curve, region, false)
  {
    match curve {
      case Channel(ron) => FloorFeeds(ron);
      case Diode(vf, rd) => FloorFeeds(rd);
      case Bjt(_, rSat) => FloorFeeds(rSat);
      case Regulator(iReg, vReg) => SlopeFeeds(iReg, vReg);
    }
  }

  lemma FloorFeeds(r: real)
    ensures 1.0 / Max(r, IDEAL_SOURCE_FLOOR_OHMS) > 1.0 / GMIN_OHMS <==> Ohms(r) < 1000000000.0
    ensures 1.0 / Max(r, IDEAL_SOURCE_FLOOR_OHMS) > 0.0
  {
    OhmsAreFloored(r);
    hide Max, Ohms;
    Reciprocals(Ohms(r), GMIN_OHMS);
    assert (1.0 / Ohms(r)) * Ohms(r) == 1.0;
  }

  lemma SlopeFeeds(iReg: real, vReg: real)
    ensures iReg / Max(vReg, IDEAL_SOURCE_FLOOR_OHMS) > 1.0 / GMIN_OHMS <==> iReg * 1000000000.0 > Ohms(vReg)
  {
    OhmsAreFloored(vReg);
    hide Max, Ohms;
    var (q, m) := (iReg / Ohms(vReg), Ohms(vReg));
    assert q * m == iReg;
    assert (q - 1.0 / GMIN_OHMS) * m == iReg - m / GMIN_OHMS;
  }

  /** The links of the elements that feed. */
  ghost function FeedLinks(c: Cluster, inputs: Inputs, lab: seq<nat>, regions: seq<Region>): set<Link>
    requires |regions| == |inputs.elements|
  {
    var ix := IndexOf(c.nodes);
    (set k: nat | k < |inputs.elements| && InCluster(c, inputs.elements[k]) &&
                  Feeds(inputs.elements[k].curve, regions[k], exists j: nat :: IsBase(c, inputs, lab, k, j)) ::
       (ix[inputs.elements[k].a], ix[inputs.elements[k].b])) +
    (set k: nat | k < |inputs.elements| && InCluster(c, inputs.elements[k]) &&
                  Feeds(inputs.elements[k].curve, regions[k], exists j: nat :: IsBase(c, inputs, lab, k, j)) ::
       (ix[inputs.elements[k].b], ix[inputs.elements[k].a]))
  }

  /** A path of zero-ohm edges, conducting resistors and feeding elements joins `x` to a valid source or terminal. */
  ghost predicate FedOver(c: Cluster, inputs: Inputs, lab: seq<nat>, regions: seq<Region>, x: nat)
    requires |regions| == |inputs.elements|
  {
    var ix := IndexOf(c.nodes);
    FedFrom(WireLinks(ix, c.resistors) + FeedLinks(c, inputs, lab, regions), Seeds(ix, inputs), x)
  }

  lemma FeedLinksAre(c: Cluster, inputs: Inputs, lab: seq<nat>, regions: seq<Region>)
    requires |regions| == |inputs.elements|
    requires forall j :: 0 <= j < |regions| && regions[j] == Active ==> inputs.elements[j].curve.Bjt?
    ensures FeedLinks(c, inputs, lab, regions) ==
              ConductLinks(IndexOf(c.nodes), inputs.elements, Stamped(c, inputs, lab, regions))
  {
    hide IndexOf, Stamped, IsBase, Feeds, MoreThanLeakage;
    var stamps := Stamped(c, inputs, lab, regions);
    forall k: nat | k < |regions|
      ensures stamps[k].Some? && MoreThanLeakage(stamps[k].value) <==>
              InCluster(c, inputs.elements[k]) &&
              Feeds(inputs.elements[k].curve, regions[k], exists j: nat :: IsBase(c, inputs, lab, k, j))
    {
      if InCluster(c, inputs.elements[k]) {
        FeedsIs(c, inputs, lab, regions, k);
      } else {
        NoStamp(c, inputs, lab, regions, k);
      }
    }
  }

  lemma FedOverIs(c: Cluster, inputs: Inputs, lab: seq<nat>, regions: seq<Region>, x: nat)
    requires |regions| == |inputs.elements|
    requires forall j :: 0 <= j < |regions| && regions[j] == Active ==> inputs.elements[j].curve.Bjt?
    ensures FedOver(c, inputs, lab, regions, x) <==> Fed(c, inputs, Stamped(c, inputs, lab, regions), x)
  {
    hide IndexOf, Stamped, FeedLinks, ConductLinks, FedFrom;
    FeedLinksAre(c, inputs, lab, regions);
  }

  /**
   * What a settled answer with elements publishes: a terminals' constant, or the operating point's voltage exactly
   * where a source or terminal feeds the node over wires and elements that carry more than leakage. What is off, but
   * for a regulator's ohmic segment, isolates.
   */
  lemma PublishedOver(c: Cluster, inputs: Inputs, lab: seq<nat>, s: ClusterSolution, k: nat)
    requires Solves(c, inputs, lab, s) && !NoElements(c, inputs) && s.converged && k < |c.nodes|
    ensures |s.regions| == |inputs.elements| && |s.nodeStates| == |c.nodes| && c.nodes[k] in IndexOf(c.nodes)
    ensures var x := IndexOf(c.nodes)[c.nodes[k]];
            var held := Constant(IndexOf(c.nodes), lab, inputs.terminals, At(lab, x));
            var point := ThePoint(c, inputs, lab, LastStamps(c, inputs, lab, s));
            s.nodeStates[k].1 ==
              if held.Some? then Analog(held.value)
              else if point.Some? && FedOver(c, inputs, lab, s.regions, x) then Analog(Volt(point.value, x))
              else Floating
  {
    hide Solves, NoElements, ThePoint, Stamped, RegionsAfter, LastStamps, Fed, FedOver, Constant, SettledAfter, Reached;
    var stamps := LastStamps(c, inputs, lab, s);
    FlipLoopBounded(c, inputs, lab, s);
    LastIs(c, inputs, lab, s);
    Transistor.OnlyTransistorsActive(c, inputs, lab, s.solves - 1);
    PublishedIsFed(c, inputs, lab, s, k);
    IndexBounds(c.nodes);
    var x := IndexOf(c.nodes)[c.nodes[k]];
    FedOverIs(c, inputs, lab, s.regions, x);
    if Fed(c, inputs, stamps, x) {
      FedIsReached(c, inputs, stamps, x);
    }
  }

  lemma LastIs(c: Cluster, inputs: Inputs, lab: seq<nat>, s: ClusterSolution)
    requires Solves(c, inputs, lab, s) && !NoElements(c, inputs) && s.converged
    ensures |s.regions| == |inputs.elements| && LastStamps(c, inputs, lab, s) == Stamped(c, inputs, lab, s.regions)
  {
    hide Solves, NoElements, RegionsAfter, Stamped, SettledAfter;
    FlipLoopBounded(c, inputs, lab, s);
  }

  /**
   * The currents of a settled answer, at its operating point. An element both of whose ends are fed over more than
   * leakage reports what its own curve carries in its region at that point: a resistance, a diode past its knee, a
   * current source, the gain times its base diode's current. One with an end that only leakage feeds reports zero,
   * one with an end nothing reaches reports none, and so does one with an end outside the cluster.
   */
  lemma CurrentByRegion(c: Cluster, inputs: Inputs, lab: seq<nat>, s: ClusterSolution, k: nat, v: seq<real>)
    requires Solves(c, inputs, lab, s) && !NoElements(c, inputs) && s.converged && k < |inputs.elements|
    requires ThePoint(c, inputs, lab, LastStamps(c, inputs, lab, s)) == Some(v)
    ensures |s.branchCurrents| == |s.regions| == |inputs.elements|
    ensures !InCluster(c, inputs.elements[k]) ==> s.branchCurrents[k] == None
    ensures InCluster(c, inputs.elements[k]) ==>
              var (a, b) := (IndexOf(c.nodes)[inputs.elements[k].a], IndexOf(c.nodes)[inputs.elements[k].b]);
              if !Reached(c, inputs, a) || !Reached(c, inputs, b) then s.branchCurrents[k] == None
              else if !FedOver(c, inputs, lab, s.regions, a) || !FedOver(c, inputs, lab, s.regions, b)
              then s.branchCurrents[k] == Some(0.0)
              else s.branchCurrents[k].Some? && Flows(c, inputs, lab, s.regions, k, v, s.branchCurrents[k].value)
  {
    hide Solves, NoElements, ThePoint, Stamped, RegionsAfter, LastStamps, Resolve, Reached, Fed, Flows, StampCurrent,
         Labelling, IndexOf, Root, Names, VoltagesAt, SettledAfter, IsBase, StampFigures, Times, FedOver;
    LastIs(c, inputs, lab, s);
    FlipLoopBounded(c, inputs, lab, s);
    CurrentIsStamps(c, inputs, lab, s, k, v);
    PointGrounded(c, inputs, lab, s, v);
    Transistor.OnlyTransistorsActive(c, inputs, lab, s.solves - 1);
    if InCluster(c, inputs.elements[k]) {
      var e := inputs.elements[k];
      EndsAlike(c, inputs, lab, LastStamps(c, inputs, lab, s), e);
      FedOverIs(c, inputs, lab, s.regions, IndexOf(c.nodes)[e.a]);
      FedOverIs(c, inputs, lab, s.regions, IndexOf(c.nodes)[e.b]);
      StampIs(c, inputs, lab, s.regions, k);
      StampFlows(c, inputs, lab, s.regions, k, v);
    } else {
      NoStamp(c, inputs, lab, s.regions, k);
    }
  }
}
