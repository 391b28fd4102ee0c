/**
 * Two transistors are one too many. Each one's collector is the other's base, every figure is positive, and the
 * run switches one element after the other until both are active and the block is singular.
 */
module Latch {
  import opened Options
  import opened Graph
  import opened Sums
  import opened Circuit
  import opened Regions
  import opened Results
  import opened Singular
  import opened Transistor

  // ----- the bench -----

  const LEAK := 1.0 / GMIN_OHMS
  const KNEE := 0.7
  const PULL := 1.4

  /** The gain at which a collector draws from a base's node what that base's own branches do. */
  const HFE := 2.0 + LEAK

  function Wiring(): Cluster {
    Cluster([0, 1, 2], [])
  }

  /** A common emitter at 0 V, two bases pulled up behind an ohm, a diode of an ohm and a collector at each. */
  function Bench(): Inputs {
    Inputs([Source(0, Finite(PULL), Finite(1.0)), Source(1, Finite(PULL), Finite(1.0))], [], [Terminal(2, Finite(0.0))],
           [Element(0, 2, Diode(KNEE, 1.0), None), Element(1, 2, Diode(KNEE, 1.0), None),
            Element(1, 2, Bjt(HFE, 1.0), Some((0, AtLeast(0.6)))),
            Element(0, 2, Bjt(HFE, 1.0), Some((1, AtLeast(0.6))))])
  }

  const ROOTS: seq<nat> := [0, 1, 2]

  lemma Indexed()
    ensures IndexOf(Wiring().nodes) == map[0 := 0, 1 := 1, 2 := 2]
  {
    var nodes := Wiring().nodes;
    assert FirstAt(nodes, 0) == 0 && FirstAt(nodes, 1) == 1 && FirstAt(nodes, 2) == 2;
  }

  lemma Labelled(lab: seq<nat>)
    ensures Labelling(Wiring(), lab) <==> lab == ROOTS
  {
    var c := Wiring();
    assert ZeroLinks(IndexOf(c.nodes), c.resistors) == {};
    hide IndexOf, ZeroLinks;
    forall x: nat, y: nat ensures x == y <==> Joined({}, x, y) {
      if Joined({}, x, y) { ClosedHolds({}, iset{x}, x, y); }
      JoinedSelf({}, x);
    }
    hide Joined;
    if Labelling(c, lab) {
      forall x: nat | x < 3 ensures lab[x] == x {
        assert lab[lab[x]] == lab[x];
      }
    }
  }

  lemma Constants()
    ensures var ix, held := IndexOf(Wiring().nodes), Bench().terminals;
            && (forall root :: !Fought(ix, ROOTS, held, root))
            && Constant(ix, ROOTS, held, 0) == None && Constant(ix, ROOTS, held, 1) == None
            && Constant(ix, ROOTS, held, 2) == Some(0.0)
  {
    Indexed();
    var ix, held := IndexOf(Wiring().nodes), Bench().terminals;
    hide IndexOf;
    assert held[0] in held;
    assert HeldAt(ix, ROOTS, held, 2, 0.0);
    forall root, v ensures HeldAt(ix, ROOTS, held, root, v) ==> v == 0.0 && root == 2 {
    }
  }

  lemma Reaches()
    ensures forall x: nat :: x < 3 ==> Reached(Wiring(), Bench(), x)
  {
    Indexed();
    var ix, inputs := IndexOf(Wiring().nodes), Bench();
    hide IndexOf;
    assert inputs.sources[0] in inputs.sources && inputs.sources[1] in inputs.sources &&
           inputs.terminals[0] in inputs.terminals;
    var links := WireLinks(ix, Wiring().resistors) + ElementLinks(ix, inputs.elements);
    hide WireLinks, ElementLinks;
    forall x: nat | x < 3 ensures Reached(Wiring(), Bench(), x) {
      assert x in Seeds(ix, inputs);
      JoinedSelf(links, x);
    }
  }

  lemma Unknowns()
    ensures forall x: nat :: Unknown(Wiring(), Bench(), ROOTS, x) <==> x < 2
  {
    Constants();
    Reaches();
    hide Constant, Reached, IndexOf, Fought, Bench;
    forall x: nat ensures Unknown(Wiring(), Bench(), ROOTS, x) <==> x < 2 {
      assert x < 3 ==> x == 0 || x == 1 || x == 2;
    }
  }

  lemma GroundedAt(v0: real, v1: real)
    ensures Grounded(Wiring(), Bench(), ROOTS, [v0, v1, 0.0])
  {
    Constants();
    Reaches();
    hide Constant, Reached, IndexOf, Fought, Bench;
    var v := [v0, v1, 0.0];
    forall x: nat | x < |v| ensures v[x] == Volt(v, At(ROOTS, x)) {
      assert x == 0 || x == 1 || x == 2;
    }
  }

  // ----- its stamps -----

  function DiodeStamp(node: nat, region: Region): Stamp {
    if region == Off then Stamp(node, 2, LEAK, 0.0, None) else Stamp(node, 2, 1.0, KNEE, None)
  }

  function CollectorStamp(node: nat, region: Region, base: Stamp): Stamp {
    match region
    case Off => Stamp(node, 2, LEAK, 0.0, None)
    case On => Stamp(node, 2, 1.0, 0.0, None)
    case Active => Stamp(node, 2, LEAK, 0.0, Some(Gain(base.a, 2, Times(HFE, base.g), Times(HFE, base.i))))
  }

  function StampsAt(r: seq<Region>): (s: seq<Option<Stamp>>)
    requires |r| == 4
  {
    [Some(DiodeStamp(0, r[0])), Some(DiodeStamp(1, r[1])),
     Some(CollectorStamp(1, r[2], DiodeStamp(0, r[0]))), Some(CollectorStamp(0, r[3], DiodeStamp(1, r[1])))]
  }

  function Elements(): seq<Option<Resolved>> {
    [Some(Resolved(0, 2, Diode(KNEE, 1.0), None, None)), Some(Resolved(1, 2, Diode(KNEE, 1.0), None, None)),
     Some(Resolved(1, 2, Bjt(HFE, 1.0), Some((Local(0), AtLeast(0.6))), Some(0))),
     Some(Resolved(0, 2, Bjt(HFE, 1.0), Some((Local(1), AtLeast(0.6))), Some(1)))]
  }

  lemma ResolvesTo()
    ensures Resolve(IndexOf(Wiring().nodes), ROOTS, Bench()) == Elements()
  {
    Indexed();
    var ix := IndexOf(Wiring().nodes);
    hide IndexOf;
    var ends := Ends(ix, ROOTS, Bench());
    assert FirstDiode(ends, 0, 2, 0) == Some(0);
    assert FirstDiode(ends, 1, 2, 0) == Some(1);
  }

  lemma StampedAs(r: seq<Region>)
    requires |r| == 4
    ensures |Bench().elements| == 4 && Stamped(Wiring(), Bench(), ROOTS, r) == StampsAt(r)
  {
    ResolvesTo();
    var e := Elements();
    hide Resolve, IndexOf;
    var bare := BareStamps(e, r);
    assert bare[0] == Some(DiodeStamp(0, r[0])) && bare[1] == Some(DiodeStamp(1, r[1]));
    hide BareStamps;
    var s := StampsOf(e, r);
    forall k: nat | k < 4 ensures s[k] == StampsAt(r)[k] {
    }
  }

  // ----- its law -----

  /** The net current at a base: into its pull-up, through its diode and through its collector. */
  function NetAt(r: seq<Region>, root: nat, v0: real, v1: real): real
    requires |r| == 4 && root < 2
  {
    var v := [v0, v1, 0.0];
    Volt(v, root) - PULL + StampCurrent(StampsAt(r)[root].value, v) + StampCurrent(StampsAt(r)[3 - root].value, v)
  }

  lemma SourcesAt(root: nat, v: seq<real>)
    requires root < 2
    ensures Sum(Bench().sources, SourceFlow(IndexOf(Wiring().nodes), ROOTS, root, v)) == Volt(v, root) - PULL
  {
    Indexed();
    var ix, sources := IndexOf(Wiring().nodes), Bench().sources;
    hide IndexOf;
    SumTwo(sources[0], sources[1], SourceFlow(ix, ROOTS, root, v));
    assert Conductance(sources[0]) == 1.0;
  }

  lemma StampsFlow(r: seq<Region>, root: nat, v: seq<real>)
    requires |r| == 4 && root < 2
    ensures Sum(StampsAt(r), StampFlow(root, v)) ==
            StampCurrent(StampsAt(r)[root].value, v) + StampCurrent(StampsAt(r)[3 - root].value, v)
  {
    var s := StampsAt(r);
    SumFour(s[0], s[1], s[2], s[3], StampFlow(root, v));
    hide StampCurrent;
  }

  lemma NetIs(r: seq<Region>, root: nat, v0: real, v1: real)
    requires |r| == 4 && root < 2
    ensures NetCurrent(Wiring(), Bench(), ROOTS, StampsAt(r), root, [v0, v1, 0.0]) == NetAt(r, root, v0, v1)
  {
    var ix, v := IndexOf(Wiring().nodes), [v0, v1, 0.0];
    Constants();
    SourcesAt(root, v);
    StampsFlow(r, root, v);
    hide IndexOf, Constant, Fought, StampCurrent, StampsAt, StampFlow, SourceFlow;
    var t := Bench().terminals;
    assert t[..0] == [];
    assert Sum(t, TerminalFlow(ix, ROOTS, root, Fought(ix, ROOTS, t, root), v)) == 0.0;
  }

  // ----- one solve -----

  /** The bases' currents balance at `v0` and `v1`. */
  predicate Balanced(r: seq<Region>, v0: real, v1: real)
    requires |r| == 4
  {
    NetAt(r, 0, v0, v1) == 0.0 && NetAt(r, 1, v0, v1) == 0.0
  }

  /** No diode is in a transistor's region, and one transistor at most is active. */
  predicate OneAtMost(r: seq<Region>)
    requires |r| == 4
  {
    r[0] != Active && r[1] != Active && !(r[2] == Active && r[3] == Active)
  }

  lemma RegionsAtMost(r: seq<Region>)
    requires |r| == 4 && OneAtMost(r)
    ensures r[2] == Active ==> OneActive(Bench(), r, 2)
    ensures r[3] == Active ==> OneActive(Bench(), r, 3)
    ensures r[2] != Active && r[3] != Active ==> PassiveRegions(Bench(), r)
  {
  }

  lemma Determined(r: seq<Region>)
    requires |r| == 4 && OneAtMost(r)
    ensures !Undetermined(Wiring(), Bench(), ROOTS, StampsAt(r))
  {
    hide Undetermined, Stamped, StampsAt, Labelling, Bench, Wiring, OneActive, PassiveRegions;
    Labelled(ROOTS);
    StampedAs(r);
    RegionsAtMost(r);
    if r[2] == Active {
      ActiveDetermined(Wiring(), Bench(), ROOTS, r, 2);
    } else if r[3] == Active {
      ActiveDetermined(Wiring(), Bench(), ROOTS, r, 3);
    } else {
      PassiveUndetermined(Wiring(), Bench(), ROOTS, r);
    }
  }

  /** Voltages that balance both bases, with one transistor active at most, are the solve's. */
  lemma SolvedAt(r: seq<Region>, v0: real, v1: real)
    requires |r| == 4 && OneAtMost(r)
    requires Balanced(r, v0, v1)
    ensures ThePoint(Wiring(), Bench(), ROOTS, StampsAt(r)) == Some([v0, v1, 0.0])
  {
    Labelled(ROOTS);
    StampedAs(r);
    Unknowns();
    GroundedAt(v0, v1);
    NetIs(r, 0, v0, v1);
    NetIs(r, 1, v0, v1);
    Determined(r);
    hide Undetermined, ThePoint, Unknown, Grounded, NetCurrent, NetAt, StampsAt, Bench, Wiring, Labelling;
    DeterminedPoint(Wiring(), Bench(), ROOTS, StampsAt(r), [v0, v1, 0.0]);
  }

  lemma VoltagesOf(r: seq<Region>, v0: real, v1: real)
    requires |r| == 4 && ThePoint(Wiring(), Bench(), ROOTS, StampsAt(r)) == Some([v0, v1, 0.0])
    ensures VoltagesAt(Wiring(), Bench(), ROOTS, StampsAt(r)) == [Some(v0), Some(v1), Some(0.0)]
  {
    Constants();
    Unknowns();
    hide ThePoint, Unknown, StampsAt, Bench, Constant, Fought, IndexOf;
    var voltages := VoltagesAt(Wiring(), Bench(), ROOTS, StampsAt(r));
    assert voltages[0] == Some(v0) && voltages[1] == Some(v1) && voltages[2] == Some(0.0);
  }

  /** What an element's own test names, given the voltages of the two bases. */
  function Judged(r: seq<Region>, v0: real, v1: real, i: nat): Region
    requires |r| == 4 && i < 4
  {
    Names(Elements()[i].value, r[i], [Some(v0), Some(v1), Some(0.0)], StampsAt(r))
  }

  lemma Present(i: nat)
    requires i < 4
    ensures Elements()[i].Some?
  {
  }

  /** What the tests name after such a solve. */
  lemma WantedIs(r: seq<Region>, v0: real, v1: real, i: nat)
    requires |r| == 4 && OneAtMost(r) && Balanced(r, v0, v1) && i < 4
    ensures |Bench().elements| == 4 && WantedAt(Wiring(), Bench(), ROOTS, r)[i] == Judged(r, v0, v1, i)
  {
    hide ThePoint, Balanced, StampsAt, Bench, Wiring, Stamped, Resolve, IndexOf, Names, VoltagesAt, OneAtMost, Elements;
    StampedAs(r);
    ResolvesTo();
    SolvedAt(r, v0, v1);
    VoltagesOf(r, v0, v1);
    Present(i);
  }

  /** One step of the run: at these voltages the first element to disagree is `k`, and it moves to `to`. */
  lemma Steps(r: seq<Region>, v0: real, v1: real, k: nat, to: Region, n: nat)
    requires |r| == 4 && OneAtMost(r) && Balanced(r, v0, v1)
    requires RegionsAfter(Wiring(), Bench(), ROOTS, n) == r
    requires k < 4 && to != r[k] && Judged(r, v0, v1, k) == to
    requires forall i: nat :: i < k ==> Judged(r, v0, v1, i) == r[i]
    ensures RegionsAfter(Wiring(), Bench(), ROOTS, n + 1) == r[k := to]
    ensures !SettledAfter(Wiring(), Bench(), ROOTS, n)
  {
    hide Judged, WantedAt, Balanced, OneAtMost, Bench, Wiring, Flip;
    WantedIs(r, v0, v1, k);
    var wanted := WantedAt(Wiring(), Bench(), ROOTS, r);
    forall i: nat | i < k ensures wanted[i] == r[i] {
      WantedIs(r, v0, v1, i);
    }
    FlipsAt(wanted, r, k);
  }

  // ----- the run -----

  /** The regions the run goes through, the voltages it finds on the way, and which element moves. */
  function Way(n: nat): (w: (seq<Region>, real, real, nat))
    requires n <= 6
    ensures |w.0| == 4 && w.3 < 4
  {
    match n
    case 0 => ([Off, Off, Off, Off], PULL / (1.0 + 2.0 * LEAK), PULL / (1.0 + 2.0 * LEAK), 0)
    case 1 => ([On, Off, Off, Off], (PULL + KNEE) / HFE, PULL / (1.0 + 2.0 * LEAK), 1)
    case 2 => ([On, On, Off, Off], (PULL + KNEE) / HFE, (PULL + KNEE) / HFE, 2)
    case 3 => ([On, On, On, Off], (PULL + KNEE) / HFE, KNEE, 2)
    case 4 => ([On, On, Active, Off], (PULL + KNEE) / HFE, KNEE, 3)
    case 5 => ([On, On, Active, On], KNEE, (PULL + KNEE) / HFE, 3)
    case 6 => ([On, On, Active, Active], 0.0, 0.0, 0)
  }

  /** What each figure on the way is there for: a share of the pull-up, and the gain's share of the base's. */
  lemma Shares()
    ensures (1.0 + 2.0 * LEAK) * (PULL / (1.0 + 2.0 * LEAK)) == PULL
    ensures HFE * ((PULL + KNEE) / HFE) == PULL + KNEE
  {
  }

  lemma BalancesBefore(n: nat, root: nat)
    requires n < 4 && root < 2
    ensures var (r, v0, v1, k) := Way(n); NetAt(r, root, v0, v1) == 0.0
  {
    Shares();
  }

  lemma BalancesAfter(n: nat, root: nat)
    requires 4 <= n < 6 && root < 2
    ensures var (r, v0, v1, k) := Way(n); NetAt(r, root, v0, v1) == 0.0
  {
    Shares();
  }

  lemma WayBalances(n: nat)
    requires n < 6
    ensures var (r, v0, v1, k) := Way(n); OneAtMost(r) && Balanced(r, v0, v1)
  {
    hide NetAt;
    if n < 4 {
      BalancesBefore(n, 0);
      BalancesBefore(n, 1);
    } else {
      BalancesAfter(n, 0);
      BalancesAfter(n, 1);
    }
  }

  lemma DiodesJudged(n: nat, i: nat)
    requires n < 6 && i <= Way(n).3 && i < 2
    ensures var (r, v0, v1, k) := Way(n); Judged(r, v0, v1, i) == Way(n + 1).0[i]
  {
    Shares();
  }

  lemma CollectorsJudged(n: nat, i: nat)
    requires n < 6 && 2 <= i <= Way(n).3
    ensures var (r, v0, v1, k) := Way(n); i < 4 && Judged(r, v0, v1, i) == Way(n + 1).0[i]
  {
    Shares();
  }

  lemma WayJudged(n: nat, i: nat)
    requires n < 6 && i <= Way(n).3
    ensures var (r, v0, v1, k) := Way(n); i < 4 && Judged(r, v0, v1, i) == Way(n + 1).0[i]
  {
    hide Way, Judged;
    if i < 2 {
      DiodesJudged(n, i);
    } else {
      CollectorsJudged(n, i);
    }
  }

  lemma WayMoves(n: nat)
    requires n < 6
    ensures var (r, v0, v1, k) := Way(n);
            k < 4 && Way(n + 1).0[k] != r[k] && Way(n + 1).0 == r[k := Way(n + 1).0[k]]
  {
  }

  lemma ColdStart()
    ensures RegionsAfter(Wiring(), Bench(), ROOTS, 0) == Way(0).0
  {
    assert AllOff(4) == [Off, Off, Off, Off];
  }

  lemma RunStep(n: nat)
    requires n < 6 && RegionsAfter(Wiring(), Bench(), ROOTS, n) == Way(n).0
    ensures RegionsAfter(Wiring(), Bench(), ROOTS, n + 1) == Way(n + 1).0 && !SettledAfter(Wiring(), Bench(), ROOTS, n)
  {
    hide Way, Judged, Balanced, SettledAfter, Bench, Wiring, RegionsAfter, OneAtMost;
    var (r, v0, v1, k) := Way(n);
    WayBalances(n);
    WayMoves(n);
    forall i: nat | i <= k ensures Judged(r, v0, v1, i) == Way(n + 1).0[i] {
      WayJudged(n, i);
    }
    Steps(r, v0, v1, k, Way(n + 1).0[k], n);
  }

  /** From the cold start the run goes this way, unsettled. */
  lemma {:induction false} Runs(n: nat)
    requires n <= 6
    ensures RegionsAfter(Wiring(), Bench(), ROOTS, n) == Way(n).0
    ensures forall m: nat :: m < n ==> !SettledAfter(Wiring(), Bench(), ROOTS, m)
  {
    hide Way, SettledAfter, Bench, Wiring, RegionsAfter;
    if n == 0 {
      ColdStart();
    } else {
      Runs(n - 1);
      RunStep(n - 1);
    }
  }

  /** With both transistors active, the bases can move apart by any amount and draw no other current. */
  lemma BothActive(volts: real)
    ensures var r := [On, On, Active, Active];
            NetAt(r, 0, volts, -volts) == NetAt(r, 0, 0.0, 0.0) && NetAt(r, 1, volts, -volts) == NetAt(r, 1, 0.0, 0.0)
  {
  }

  lemma BothActiveUndetermined()
    ensures Undetermined(Wiring(), Bench(), ROOTS, StampsAt([On, On, Active, Active]))
  {
    var r := [On, On, Active, Active];
    var v, w := [0.0, 0.0, 0.0], [1.0, -1.0, 0.0];
    Unknowns();
    GroundedAt(0.0, 0.0);
    GroundedAt(1.0, -1.0);
    BothActive(1.0);
    hide Unknown, Grounded, NetCurrent, NetAt, StampsAt, Bench, Wiring;
    forall x: nat | Unknown(Wiring(), Bench(), ROOTS, x)
      ensures NetCurrent(Wiring(), Bench(), ROOTS, StampsAt(r), At(ROOTS, x), v) ==
              NetCurrent(Wiring(), Bench(), ROOTS, StampsAt(r), At(ROOTS, x), w)
    {
      NetIs(r, x, 0.0, 0.0);
      NetIs(r, x, 1.0, -1.0);
    }
    assert v[0] != w[0];
  }

  /**
   * Every answer of the solver at this bench has met a singular matrix: the seventh solve of its run, of a block
   * all reached and of figures all positive, finds no operating point.
   */
  lemma LatchRunSingular(lab: seq<nat>, s: ClusterSolution)
    requires Solves(Wiring(), Bench(), lab, s)
    ensures forall x: nat :: x < 3 ==> Reached(Wiring(), Bench(), x)
    ensures 6 < s.solves
    ensures |Bench().elements| == 4 && RegionsAfter(Wiring(), Bench(), lab, 6) == [On, On, Active, Active]
    ensures ThePoint(Wiring(), Bench(), lab, Stamped(Wiring(), Bench(), lab, [On, On, Active, Active])).None?
  {
    hide Undetermined, ThePoint, Stamped, StampsAt, Labelling, Bench, Wiring, RegionsAfter, Reached, SettledAfter,
         SolutionOf, DecidedAfter;
    Labelled(lab);
    Reaches();
    Runs(6);
    assert Way(6).0 == [On, On, Active, Active];
    hide Way;
    StampedAs([On, On, Active, Active]);
    BothActiveUndetermined();
    UndeterminedHasNone(Wiring(), Bench(), lab, StampsAt([On, On, Active, Active]));
    SevenSolves();
  }

  lemma SevenSolves()
    ensures 6 < SolutionOf(Wiring(), Bench(), ROOTS).solves
  {
    Runs(6);
    ResolvesTo();
    Counted();
    hide Resolve, SettledAfter, SettlesAt, StatesOf, RegionsAfter, IndexOf, Wiring, Bench, UnknownRoots, Elements;
    SettlesFirst(Wiring(), Bench(), ROOTS, 8);
  }

  lemma Counted()
    ensures CountPresent(Elements()) == 4
  {
    var e := Elements();
    var e3, e2, e1 := e[..3], e[..2], e[..1];
    assert e3[..2] == e2 && e2[..1] == e1 && e1[..0] == [];
    assert CountPresent(e1) == 1;
    assert CountPresent(e2) == 2;
    assert CountPresent(e3) == 3;
  }
}
