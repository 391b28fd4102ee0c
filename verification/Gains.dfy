/**
 * Which transistors are safe: those whose gain, alone among passive elements, never lets a base diode take back what
 * it and a collector's leakage conduct. Any other one is singular beside some diode, in a run that gets there.
 */
module Gains {
  import opened Options
  import opened Graph
  import opened Sums
  import opened Circuit
  import opened Passive
  import opened Regions
  import opened Results
  import opened Singular
  import opened Transistor

  // ----- a bench for a gain that is too little -----

  const LEAK := 1.0 / GMIN_OHMS
  const KNEE := 0.7
  const ROOTS: seq<nat> := [0, 1]

  /** The diode this gain takes back with its collector's leakage: no smaller than the impedance floor. */
  function DiodeOhms(hfe: real): real {
    -(hfe + 1.0) * GMIN_OHMS
  }

  function DiodeSiemens(hfe: real): real
    requires !EnoughGain(hfe)
  {
    OhmsAboveFloor(hfe);
    1.0 / DiodeOhms(hfe)
  }

  lemma OhmsAboveFloor(hfe: real)
    requires !EnoughGain(hfe)
    ensures DiodeOhms(hfe) >= IDEAL_SOURCE_FLOOR_OHMS
  {
    assert FLOOR_SIEMENS == 1000000.0;
  }

  lemma TakenBack(hfe: real)
    requires !EnoughGain(hfe)
    ensures DiodeSiemens(hfe) > 0.0 && Times(hfe, DiodeSiemens(hfe)) + DiodeSiemens(hfe) + LEAK == 0.0
  {
    OhmsAboveFloor(hfe);
    var ohms, g := DiodeOhms(hfe), DiodeSiemens(hfe);
    PositiveReciprocal(ohms);
    assert g * ohms == 1.0;
    OneMore(hfe, g);
    assert Times(hfe + 1.0, g) == -(g * ohms) / GMIN_OHMS;
  }

  function Wiring(): Cluster {
    Cluster([0, 1], [])
  }

  /** Base and collector on one node, an ampere into it; the emitter held at 0 V. */
  function Bench(hfe: real): Inputs {
    Inputs([], [Injection(0, Finite(1.0))], [Terminal(1, Finite(0.0))],
           [Element(0, 1, Diode(KNEE, DiodeOhms(hfe)), None), Element(0, 1, Bjt(hfe, 1.0), Some((0, AtLeast(0.6))))])
  }

  lemma Indexed()
    ensures IndexOf(Wiring().nodes) == map[0 := 0, 1 := 1]
  {
    var nodes := Wiring().nodes;
    assert FirstAt(nodes, 0) == 0 && FirstAt(nodes, 1) == 1;
  }

  lemma Labelled(lab: seq<nat>)
    ensures Labelling(Wiring(), lab) <==> lab == ROOTS
  {
    var c := Wiring();
    assert ZeroLinks(IndexOf(c.nodes), c.resistors) == {};
    hide IndexOf, ZeroLinks;
    forall x: nat, y: nat ensures x == y <==> Joined({}, x, y) {
      if Joined({}, x, y) { ClosedHolds({}, iset{x}, x, y); }
      JoinedSelf({}, x);
    }
    hide Joined;
    if Labelling(c, lab) {
      forall x: nat | x < 2 ensures lab[x] == x {
        assert lab[lab[x]] == lab[x];
      }
    }
  }

  lemma Constants(hfe: real)
    ensures var ix, held := IndexOf(Wiring().nodes), Bench(hfe).terminals;
            && (forall root :: !Fought(ix, ROOTS, held, root))
            && Constant(ix, ROOTS, held, 0) == None && Constant(ix, ROOTS, held, 1) == Some(0.0)
  {
    Indexed();
    var ix, held := IndexOf(Wiring().nodes), Bench(hfe).terminals;
    hide IndexOf;
    assert held[0] in held;
    assert HeldAt(ix, ROOTS, held, 1, 0.0);
    forall root, v ensures HeldAt(ix, ROOTS, held, root, v) ==> v == 0.0 && root == 1 {
    }
  }

  lemma Reaches(hfe: real)
    ensures forall x: nat :: x < 2 ==> Reached(Wiring(), Bench(hfe), x)
  {
    Indexed();
    var ix, inputs := IndexOf(Wiring().nodes), Bench(hfe);
    hide IndexOf;
    assert inputs.terminals[0] in inputs.terminals && inputs.elements[0] in inputs.elements;
    var links := WireLinks(ix, Wiring().resistors) + ElementLinks(ix, inputs.elements);
    assert (1, 0) in links && 1 in Seeds(ix, inputs);
    JoinedSelf(links, 1);
    JoinedLink(links, 1, 0);
  }

  lemma Unknowns(hfe: real)
    ensures forall x: nat :: Unknown(Wiring(), Bench(hfe), ROOTS, x) <==> x == 0
  {
    Constants(hfe);
    Reaches(hfe);
    hide Constant, Reached, IndexOf, Fought, Bench;
    forall x: nat ensures Unknown(Wiring(), Bench(hfe), ROOTS, x) <==> x == 0 {
      assert x < 2 ==> x == 0 || x == 1;
    }
  }

  lemma GroundedAt(hfe: real, v0: real)
    ensures Grounded(Wiring(), Bench(hfe), ROOTS, [v0, 0.0])
  {
    Constants(hfe);
    Reaches(hfe);
    hide Constant, Reached, IndexOf, Fought, Bench;
    var v := [v0, 0.0];
    forall x: nat | x < |v| ensures v[x] == Volt(v, At(ROOTS, x)) {
      assert x == 0 || x == 1;
    }
  }

  // ----- its stamps and its law -----

  function DiodeStamp(hfe: real, region: Region): Stamp
    requires !EnoughGain(hfe)
  {
    if region == Off then Stamp(0, 1, LEAK, 0.0, None)
    else Stamp(0, 1, DiodeSiemens(hfe), KNEE * DiodeSiemens(hfe), None)
  }

  function CollectorStamp(hfe: real, region: Region, base: Stamp): Stamp {
    match region
    case Off => Stamp(0, 1, LEAK, 0.0, None)
    case On => Stamp(0, 1, 1.0, 0.0, None)
    case Active => Stamp(0, 1, LEAK, 0.0, Some(Gain(0, 1, Times(hfe, base.g), Times(hfe, base.i))))
  }

  function StampsAt(hfe: real, r: seq<Region>): (s: seq<Option<Stamp>>)
    requires !EnoughGain(hfe) && |r| == 2
  {
    [Some(DiodeStamp(hfe, r[0])), Some(CollectorStamp(hfe, r[1], DiodeStamp(hfe, r[0])))]
  }

  function Elements(hfe: real): seq<Option<Resolved>> {
    [Some(Resolved(0, 1, Diode(KNEE, DiodeOhms(hfe)), None, None)),
     Some(Resolved(0, 1, Bjt(hfe, 1.0), Some((Local(0), AtLeast(0.6))), Some(0)))]
  }

  lemma ResolvesTo(hfe: real)
    ensures Resolve(IndexOf(Wiring().nodes), ROOTS, Bench(hfe)) == Elements(hfe)
  {
    hide DiodeOhms;
    Indexed();
    var ix := IndexOf(Wiring().nodes);
    hide IndexOf;
    var ends := Ends(ix, ROOTS, Bench(hfe));
    assert FirstDiode(ends, 0, 1, 0) == Some(0);
  }

  lemma StampedAs(hfe: real, r: seq<Region>)
    requires !EnoughGain(hfe) && |r| == 2
    ensures |Bench(hfe).elements| == 2 && Stamped(Wiring(), Bench(hfe), ROOTS, r) == StampsAt(hfe, r)
  {
    hide Resolve, IndexOf, DiodeOhms, EnoughGain;
    ResolvesTo(hfe);
    OhmsAboveFloor(hfe);
    var e := Elements(hfe);
    var bare := BareStamps(e, r);
    assert bare[0] == Some(DiodeStamp(hfe, r[0]));
    hide BareStamps;
    var s := StampsOf(e, r);
    forall k: nat | k < 2 ensures s[k] == StampsAt(hfe, r)[k] {
    }
  }

  /** The net current at the node: through its diode and its collector, less the ampere put in. */
  function NetAt(hfe: real, r: seq<Region>, v0: real): real
    requires !EnoughGain(hfe) && |r| == 2
  {
    var v := [v0, 0.0];
    StampCurrent(StampsAt(hfe, r)[0].value, v) + StampCurrent(StampsAt(hfe, r)[1].value, v) - 1.0
  }

  lemma NetIs(hfe: real, r: seq<Region>, v0: real)
    requires !EnoughGain(hfe) && |r| == 2
    ensures NetCurrent(Wiring(), Bench(hfe), ROOTS, StampsAt(hfe, r), 0, [v0, 0.0]) == NetAt(hfe, r, v0)
  {
    hide IndexOf, Constant, Fought, StampCurrent, DiodeStamp, CollectorStamp, DiodeOhms, EnoughGain;
    var ix, v, s := IndexOf(Wiring().nodes), [v0, 0.0], StampsAt(hfe, r);
    Indexed();
    Constants(hfe);
    StampEnds(hfe, r);
    SumTwo(s[0], s[1], StampFlow(0, v));
    SumOne(Bench(hfe).terminals[0], TerminalFlow(ix, ROOTS, 0, false, v));
    SumOne(Bench(hfe).injections[0], InjectionFlow(ix, ROOTS, 0));
  }

  lemma StampEnds(hfe: real, r: seq<Region>)
    requires !EnoughGain(hfe) && |r| == 2
    ensures forall k :: 0 <= k < 2 ==> StampsAt(hfe, r)[k].value.a == 0 && StampsAt(hfe, r)[k].value.b == 1
  {
  }

  // ----- one solve -----

  /** No element in a region of the other's kind, and the transistor not active. */
  predicate Passing(r: seq<Region>) {
    |r| == 2 && r[0] != Active && r[1] != Active
  }

  lemma Determined(hfe: real, r: seq<Region>)
    requires !EnoughGain(hfe) && Passing(r)
    ensures !Undetermined(Wiring(), Bench(hfe), ROOTS, StampsAt(hfe, r))
  {
    assert PassiveRegions(Bench(hfe), r);
    hide Undetermined, Stamped, StampsAt, Labelling, Bench, Wiring, PassiveRegions, EnoughGain;
    Labelled(ROOTS);
    StampedAs(hfe, r);
    PassiveUndetermined(Wiring(), Bench(hfe), ROOTS, r);
  }

  lemma SolvedAt(hfe: real, r: seq<Region>, v0: real)
    requires !EnoughGain(hfe) && Passing(r) && NetAt(hfe, r, v0) == 0.0
    ensures ThePoint(Wiring(), Bench(hfe), ROOTS, StampsAt(hfe, r)) == Some([v0, 0.0])
  {
    hide Undetermined, ThePoint, Unknown, Grounded, NetCurrent, NetAt, StampsAt, Bench, Wiring, Labelling, EnoughGain;
    Unknowns(hfe);
    GroundedAt(hfe, v0);
    NetIs(hfe, r, v0);
    Determined(hfe, r);
    DeterminedPoint(Wiring(), Bench(hfe), ROOTS, StampsAt(hfe, r), [v0, 0.0]);
  }

  lemma VoltagesOf(hfe: real, r: seq<Region>, v0: real)
    requires !EnoughGain(hfe) && |r| == 2
    requires ThePoint(Wiring(), Bench(hfe), ROOTS, StampsAt(hfe, r)) == Some([v0, 0.0])
    ensures VoltagesAt(Wiring(), Bench(hfe), ROOTS, StampsAt(hfe, r)) == [Some(v0), Some(0.0)]
  {
    hide ThePoint, Unknown, StampsAt, Bench, Constant, Fought, IndexOf, EnoughGain;
    Constants(hfe);
    Unknowns(hfe);
    var voltages := VoltagesAt(Wiring(), Bench(hfe), ROOTS, StampsAt(hfe, r));
    assert voltages[0] == Some(v0) && voltages[1] == Some(0.0);
  }

  /** What an element's own test names, given the node's voltage. */
  function Judged(hfe: real, r: seq<Region>, v0: real, i: nat): Region
    requires !EnoughGain(hfe) && |r| == 2 && i < 2
  {
    Names(Elements(hfe)[i].value, r[i], [Some(v0), Some(0.0)], StampsAt(hfe, r))
  }

  lemma Present(hfe: real, i: nat)
    requires i < 2
    ensures Elements(hfe)[i].Some?
  {
  }

  lemma WantedIs(hfe: real, r: seq<Region>, v0: real, i: nat)
    requires !EnoughGain(hfe) && Passing(r) && NetAt(hfe, r, v0) == 0.0 && i < 2
    ensures |r| == |Bench(hfe).elements| == 2 && WantedAt(Wiring(), Bench(hfe), ROOTS, r)[i] == Judged(hfe, r, v0, i)
  {
    hide ThePoint, NetAt, StampsAt, Bench, Wiring, Stamped, Resolve, IndexOf, Names, VoltagesAt, Elements, EnoughGain;
    StampedAs(hfe, r);
    ResolvesTo(hfe);
    SolvedAt(hfe, r, v0);
    VoltagesOf(hfe, r, v0);
    Present(hfe, i);
  }

  /** One step of the run: at this voltage the first element to disagree is `k`, and it moves to `to`. */
  lemma Steps(hfe: real, r: seq<Region>, v0: real, k: nat, to: Region, n: nat)
    requires !EnoughGain(hfe) && Passing(r) && NetAt(hfe, r, v0) == 0.0
    requires RegionsAfter(Wiring(), Bench(hfe), ROOTS, n) == r
    requires k < 2 && to != r[k] && Judged(hfe, r, v0, k) == to
    requires forall i: nat :: i < k ==> Judged(hfe, r, v0, i) == r[i]
    ensures RegionsAfter(Wiring(), Bench(hfe), ROOTS, n + 1) == r[k := to]
    ensures !SettledAfter(Wiring(), Bench(hfe), ROOTS, n)
  {
    hide Judged, WantedAt, NetAt, Bench, Wiring, Flip, EnoughGain;
    WantedIs(hfe, r, v0, k);
    var wanted := WantedAt(Wiring(), Bench(hfe), ROOTS, r);
    forall i: nat | i < k ensures wanted[i] == r[i] {
      WantedIs(hfe, r, v0, i);
    }
    FlipsAt(wanted, r, k);
  }

  // ----- the run -----

  /** The regions the run goes through, what conducts beside the diode's knee, and which element moves. */
  function Way(n: nat): (w: (seq<Region>, nat))
    requires n <= 3
    ensures |w.0| == 2 && w.1 < 2
  {
    match n
    case 0 => ([Off, Off], 0)
    case 1 => ([On, Off], 1)
    case 2 => ([On, On], 1)
    case 3 => ([On, Active], 0)
  }

  /** The node's voltage after the `n`-th solve. */
  function WayVolts(hfe: real, n: nat): real
    requires !EnoughGain(hfe) && n < 3
  {
    TakenBack(hfe);
    match n
    case 0 => 1.0 / (2.0 * LEAK)
    case 1 => (1.0 + KNEE * DiodeSiemens(hfe)) / (DiodeSiemens(hfe) + LEAK)
    case 2 => (1.0 + KNEE * DiodeSiemens(hfe)) / (DiodeSiemens(hfe) + 1.0)
  }

  /** A diode of conductance `g` and a branch of `beside` to ground take an ampere at one voltage, above the knee. */
  lemma Shares(g: real, beside: real)
    requires g > 0.0 && 0.0 < beside <= 1.0
    ensures var v := (1.0 + KNEE * g) / (g + beside);
            g * v - KNEE * g + beside * v == 1.0 && v >= KNEE && g * (v - KNEE) >= 0.0
  {
    var v := (1.0 + KNEE * g) / (g + beside);
    assert v * (g + beside) == 1.0 + KNEE * g;
    assert (v - KNEE) * (g + beside) == 1.0 - KNEE * beside;
    PositiveFactor(v - KNEE, g + beside);
  }

  lemma WayBalances(hfe: real, n: nat)
    requires !EnoughGain(hfe) && n < 3
    ensures NetAt(hfe, Way(n).0, WayVolts(hfe, n)) == 0.0
  {
    TakenBack(hfe);
    Shares(DiodeSiemens(hfe), LEAK);
    Shares(DiodeSiemens(hfe), 1.0);
    hide DiodeSiemens, EnoughGain;
  }

  lemma WayJudged(hfe: real, n: nat, i: nat)
    requires !EnoughGain(hfe) && n < 3 && i <= Way(n).1
    ensures Judged(hfe, Way(n).0, WayVolts(hfe, n), i) == Way(n + 1).0[i]
  {
    TakenBack(hfe);
    Shares(DiodeSiemens(hfe), LEAK);
    Shares(DiodeSiemens(hfe), 1.0);
    hide DiodeSiemens;
  }

  lemma ColdStart(hfe: real)
    ensures RegionsAfter(Wiring(), Bench(hfe), ROOTS, 0) == Way(0).0
  {
    assert AllOff(2) == [Off, Off];
  }

  lemma RunStep(hfe: real, n: nat)
    requires !EnoughGain(hfe) && n < 3 && RegionsAfter(Wiring(), Bench(hfe), ROOTS, n) == Way(n).0
    ensures RegionsAfter(Wiring(), Bench(hfe), ROOTS, n + 1) == Way(n + 1).0
    ensures !SettledAfter(Wiring(), Bench(hfe), ROOTS, n)
  {
    hide Judged, NetAt, SettledAfter, Bench, Wiring, RegionsAfter, WayVolts, EnoughGain;
    var (r, k) := Way(n);
    WayBalances(hfe, n);
    forall i: nat | i <= k ensures Judged(hfe, r, WayVolts(hfe, n), i) == Way(n + 1).0[i] {
      WayJudged(hfe, n, i);
    }
    Steps(hfe, r, WayVolts(hfe, n), k, Way(n + 1).0[k], n);
    assert r[k := Way(n + 1).0[k]] == Way(n + 1).0;
  }

  /** From the cold start the run goes this way, unsettled. */
  lemma {:induction false} WayGone(hfe: real, n: nat)
    requires !EnoughGain(hfe) && n <= 3
    ensures RegionsAfter(Wiring(), Bench(hfe), ROOTS, n) == Way(n).0
    ensures forall m: nat :: m < n ==> !SettledAfter(Wiring(), Bench(hfe), ROOTS, m)
  {
    hide Way, SettledAfter, Bench, Wiring, RegionsAfter, EnoughGain;
    if n == 0 {
      ColdStart(hfe);
    } else {
      WayGone(hfe, n - 1);
      RunStep(hfe, n - 1);
    }
  }

  /** With the transistor active, the node draws the same current at any voltage. */
  lemma ActiveDraws(hfe: real, v0: real)
    requires !EnoughGain(hfe)
    ensures NetAt(hfe, [On, Active], v0) == NetAt(hfe, [On, Active], 0.0)
  {
    TakenBack(hfe);
    var g := DiodeSiemens(hfe);
    assert (Times(hfe, g) + g + LEAK) * v0 == 0.0;
    hide DiodeSiemens, EnoughGain;
  }

  lemma ActiveUndetermined(hfe: real)
    requires !EnoughGain(hfe)
    ensures Undetermined(Wiring(), Bench(hfe), ROOTS, StampsAt(hfe, [On, Active]))
  {
    hide Unknown, Grounded, NetCurrent, NetAt, StampsAt, Bench, Wiring, EnoughGain;
    var v, w := [0.0, 0.0], [1.0, 0.0];
    Unknowns(hfe);
    GroundedAt(hfe, 0.0);
    GroundedAt(hfe, 1.0);
    ActiveDraws(hfe, 1.0);
    NetIs(hfe, [On, Active], 0.0);
    NetIs(hfe, [On, Active], 1.0);
    assert v[0] != w[0];
  }

  lemma Counted(hfe: real)
    ensures CountPresent(Elements(hfe)) == 2
  {
    var e := Elements(hfe);
    assert e[..1][..0] == [];
    assert CountPresent(e[..1]) == 1;
  }

  lemma FourSolves(hfe: real)
    requires !EnoughGain(hfe)
    ensures 3 < SolutionOf(Wiring(), Bench(hfe), ROOTS).solves
  {
    hide Resolve, SettledAfter, SettlesAt, StatesOf, RegionsAfter, IndexOf, Wiring, Bench, UnknownRoots, Elements,
         EnoughGain;
    WayGone(hfe, 3);
    ResolvesTo(hfe);
    Counted(hfe);
    SettlesFirst(Wiring(), Bench(hfe), ROOTS, 4);
  }

  /** Every answer of the solver at this bench has met a singular matrix, at the fourth solve of its run. */
  lemma TooLittleSingular(hfe: real, lab: seq<nat>, s: ClusterSolution)
    requires !EnoughGain(hfe) && Solves(Wiring(), Bench(hfe), lab, s)
    ensures 3 < s.solves && |Bench(hfe).elements| == 2
    ensures ThePoint(Wiring(), Bench(hfe), lab, Stamped(Wiring(), Bench(hfe), lab,
                     RegionsAfter(Wiring(), Bench(hfe), lab, 3))).None?
  {
    hide Undetermined, ThePoint, Stamped, StampsAt, Labelling, Bench, Wiring, RegionsAfter, SettledAfter, SolutionOf,
         DecidedAfter, EnoughGain;
    Labelled(lab);
    WayGone(hfe, 3);
    StampedAs(hfe, [On, Active]);
    ActiveUndetermined(hfe);
    UndeterminedHasNone(Wiring(), Bench(hfe), lab, StampsAt(hfe, [On, Active]));
    FourSolves(hfe);
  }

  // ----- which gains are safe -----

  lemma WayDecided(hfe: real, n: nat)
    requires !EnoughGain(hfe) && n <= 3
    ensures DecidedAfter(Wiring(), Bench(hfe), ROOTS, n)
  {
    hide Undetermined, ThePoint, Stamped, StampsAt, Bench, Wiring, RegionsAfter, NetAt, WayVolts, EnoughGain;
    WayGone(hfe, n);
    StampedAs(hfe, Way(n).0);
    if n < 3 {
      WayBalances(hfe, n);
      SolvedAt(hfe, Way(n).0, WayVolts(hfe, n));
    } else {
      ActiveUndetermined(hfe);
    }
  }

  lemma AtMostFour(hfe: real)
    ensures SolutionOf(Wiring(), Bench(hfe), ROOTS).solves <= 4
  {
    hide Resolve, SettledAfter, SettlesAt, StatesOf, RegionsAfter, IndexOf, Wiring, Bench, UnknownRoots, Elements;
    ResolvesTo(hfe);
    Counted(hfe);
    SettlesFirst(Wiring(), Bench(hfe), ROOTS, 4);
  }

  lemma Answered(hfe: real)
    requires !EnoughGain(hfe)
    ensures Solves(Wiring(), Bench(hfe), ROOTS, SolutionOf(Wiring(), Bench(hfe), ROOTS))
  {
    hide SolutionOf, DecidedAfter, Bench, Wiring, Labelling, EnoughGain;
    Labelled(ROOTS);
    AtMostFour(hfe);
    forall k: nat | k < SolutionOf(Wiring(), Bench(hfe), ROOTS).solves
      ensures DecidedAfter(Wiring(), Bench(hfe), ROOTS, k)
    {
      WayDecided(hfe, k);
    }
  }

  /** One transistor at most, of this gain, among passive elements. */
  ghost predicate OneTransistor(inputs: Inputs, hfe: real) {
    && (forall i, j :: 0 <= i < j < |inputs.elements| ==>
          !(inputs.elements[i].curve.Bjt? && inputs.elements[j].curve.Bjt?))
    && forall k :: 0 <= k < |inputs.elements| ==>
         var curve := inputs.elements[k].curve;
         (curve.Bjt? ==> curve.hfe == hfe) && (curve.Regulator? ==> curve.iReg > 0.0)
  }

  /** A gain is safe: wherever its transistor is put among passive elements, every solve finds voltages. */
  ghost predicate SafeGain(hfe: real) {
    forall c, inputs, lab, s, k: nat ::
      OneTransistor(inputs, hfe) && Solves(c, inputs, lab, s) && k < s.solves ==>
      ThePoint(c, inputs, lab, Stamped(c, inputs, lab, RegionsAfter(c, inputs, lab, k))).Some?
  }

  lemma EnoughIsSafe(hfe: real)
    requires EnoughGain(hfe)
    ensures SafeGain(hfe)
  {
    hide Solves, ThePoint, Stamped, RegionsAfter, EnoughGain;
    forall c, inputs, lab, s, k: nat | OneTransistor(inputs, hfe) && Solves(c, inputs, lab, s) && k < s.solves
      ensures ThePoint(c, inputs, lab, Stamped(c, inputs, lab, RegionsAfter(c, inputs, lab, k))).Some?
    {
      OneTransistorRunSolved(c, inputs, lab, s, k);
    }
  }

  lemma TooLittleIsUnsafe(hfe: real)
    requires !EnoughGain(hfe)
    ensures !SafeGain(hfe)
  {
    assert OneTransistor(Bench(hfe), hfe);
    hide Solves, ThePoint, Stamped, RegionsAfter, SolutionOf, EnoughGain, Bench, Wiring, OneTransistor;
    var s := SolutionOf(Wiring(), Bench(hfe), ROOTS);
    Answered(hfe);
    TooLittleSingular(hfe, ROOTS, s);
  }

  /** Safe are exactly the gains that are enough, whatever the transistor's other figures. */
  lemma GainSafeExactlyWhen(hfe: real)
    ensures SafeGain(hfe) <==> EnoughGain(hfe)
  {
    hide SafeGain, EnoughGain;
    if EnoughGain(hfe) {
      EnoughIsSafe(hfe);
    } else {
      TooLittleIsUnsafe(hfe);
    }
  }
}
