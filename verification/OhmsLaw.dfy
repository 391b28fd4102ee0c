/**
 * The solver's answers in ohms, volts and amps: a source behind its impedance, a resistor, an injected current and a
 * terminal, whatever their figures are, down to the ones that count for nothing.
 */
module OhmsLaw {
  import opened Options
  import opened Graph
  import opened Sums
  import opened Circuit
  import opened Prepare
  import opened Linear
  import opened Regions
  import opened Results

  /** A source and an injection at node 0, a resistor from it to node 1, a terminal there. */
  function Wiring(ohms: Num): Cluster {
    Cluster([0, 1], [Resistor(0, 1, ohms)])
  }

  function Bench(volts: Num, impedance: Num, amps: Num, held: Num): Inputs {
    Inputs([Source(0, volts, impedance)], [Injection(0, amps)], [Terminal(1, held)], [])
  }

  /** The source counts: its figures are finite and its impedance no less than nothing. */
  predicate Counts(volts: Num, impedance: Num) {
    volts.Finite? && impedance.Finite? && impedance.r >= 0.0
  }

  function Ohms(r: real): real {
    if r < 0.000001 then 0.000001 else r
  }

  function Amps(amps: Num): real {
    if amps.Finite? then amps.r else 0.0
  }

  /** The resistor joins the two nodes into one, conducts between them, or is an open circuit. */
  datatype Join = Merged | Over(r: real) | Apart

  function JoinOf(ohms: Num): Join {
    if ohms == Finite(0.0) then Merged else if ohms.Finite? && ohms.r > 0.0 then Over(ohms.r) else Apart
  }

  /** What node 0 is at: none where nothing feeds it. */
  function Node0(ohms: Num, volts: Num, impedance: Num, amps: Num, held: Num): Option<real> {
    match JoinOf(ohms)
    case Merged =>
      if held.Finite? then Some(held.r)
      else if Counts(volts, impedance) then Some(volts.r + Amps(amps) * Ohms(impedance.r)) else None
    case Over(r) =>
      if held.Finite? && Counts(volts, impedance) then
        Some((volts.r / Ohms(impedance.r) + held.r / r + Amps(amps)) / (1.0 / Ohms(impedance.r) + 1.0 / r))
      else if held.Finite? then Some(held.r + Amps(amps) * r)
      else if Counts(volts, impedance) then Some(volts.r + Amps(amps) * Ohms(impedance.r)) else None
    case Apart =>
      if Counts(volts, impedance) then Some(volts.r + Amps(amps) * Ohms(impedance.r)) else None
  }

  function Node1(ohms: Num, volts: Num, impedance: Num, amps: Num, held: Num): Option<real> {
    if held.Finite? then Some(held.r)
    else if JoinOf(ohms).Apart? then None
    else Node0(ohms, volts, impedance, amps, held)
  }

  /** How many voltages there are to find: a supernode's, where it is fed and not held. */
  function Unknowns(ohms: Num, volts: Num, impedance: Num, amps: Num, held: Num): nat {
    var fed0, fed1 := Node0(ohms, volts, impedance, amps, held).Some?, Node1(ohms, volts, impedance, amps, held).Some?;
    if JoinOf(ohms).Merged? then (if fed0 && !held.Finite? then 1 else 0)
    else (if fed0 then 1 else 0) + if fed1 && !held.Finite? then 1 else 0
  }

  function Shown(volts: Option<real>): NetState {
    if volts.Some? then Analog(volts.value) else Floating
  }

  // ----- the two nodes -----

  lemma Indexed(ohms: Num)
    ensures IndexOf(Wiring(ohms).nodes) == map[0 := 0, 1 := 1]
  {
    var nodes := Wiring(ohms).nodes;
    assert FirstAt(nodes, 0) == 0 && FirstAt(nodes, 1) == 1;
  }

  lemma Links(ohms: Num)
    ensures var ix := IndexOf(Wiring(ohms).nodes);
            var both := {(0, 1), (1, 0)};
            && ZeroLinks(ix, Wiring(ohms).resistors) == (if JoinOf(ohms).Merged? then both else {})
            && WireLinks(ix, Wiring(ohms).resistors) == (if JoinOf(ohms).Apart? then {} else both)
  {
    Indexed(ohms);
    var r := Wiring(ohms).resistors[0];
    assert r in Wiring(ohms).resistors;
  }

  lemma NoLinks(x: nat, y: nat)
    ensures Joined({}, x, y) <==> x == y
  {
    JoinedSelf({}, x);
    if Joined({}, x, y) { ClosedHolds({}, iset{x}, x, y); }
  }

  lemma BothLinks()
    ensures Joined({(0, 1), (1, 0)}, 0, 1) && Joined({(0, 1), (1, 0)}, 1, 0)
    ensures Joined({(0, 1), (1, 0)}, 0, 0) && Joined({(0, 1), (1, 0)}, 1, 1)
  {
    JoinedLink({(0, 1), (1, 0)}, 0, 1);
    JoinedLink({(0, 1), (1, 0)}, 1, 0);
    JoinedSelf({(0, 1), (1, 0)}, 0);
    JoinedSelf({(0, 1), (1, 0)}, 1);
  }

  lemma Labels01(ohms: Num, lab: seq<nat>)
    requires Labelling(Wiring(ohms), lab)
    ensures |lab| == 2 && lab[0] < 2 && lab[1] < 2
    ensures if JoinOf(ohms).Merged? then lab[0] == lab[1] else lab == [0, 1]
  {
    Links(ohms);
    hide IndexOf, ZeroLinks, JoinOf;
    BothLinks();
    NoLinks(0, 1);
    NoLinks(lab[0], 0);
    NoLinks(lab[1], 1);
  }

  lemma HeldHere(ohms: Num, volts: Num, impedance: Num, amps: Num, held: Num, lab: seq<nat>, root: nat)
    requires |lab| == 2
    ensures var (ix, terminals) := (IndexOf(Wiring(ohms).nodes), Bench(volts, impedance, amps, held).terminals);
            && !Fought(ix, lab, terminals, root)
            && Constant(ix, lab, terminals, root) == if held.Finite? && lab[1] == root then Some(held.r) else None
  {
    Indexed(ohms);
    var (ix, terminals) := (IndexOf(Wiring(ohms).nodes), Bench(volts, impedance, amps, held).terminals);
    hide IndexOf;
    assert terminals[0] in terminals;
    forall v ensures HeldAt(ix, lab, terminals, root, v) <==> held.Finite? && lab[1] == root && v == held.r {
    }
    if held.Finite? && lab[1] == root {
      assert HeldAt(ix, lab, terminals, root, held.r);
    }
  }

  lemma SeedsThere(ohms: Num, volts: Num, impedance: Num, amps: Num, held: Num)
    ensures var seeds := Seeds(map[0 := 0, 1 := 1], Bench(volts, impedance, amps, held));
            && (0 in seeds <==> Counts(volts, impedance))
            && (1 in seeds <==> held.Finite?)
            && (forall s: nat :: s in seeds ==> s == 0 || s == 1)
  {
    var inputs := Bench(volts, impedance, amps, held);
    assert inputs.sources[0] in inputs.sources && inputs.terminals[0] in inputs.terminals;
  }

  lemma Fed(ohms: Num, volts: Num, impedance: Num, amps: Num, held: Num, x: nat)
    requires x < 2
    ensures Wired(Wiring(ohms), Bench(volts, impedance, amps, held), x) <==>
              || (Counts(volts, impedance) && (x == 0 || !JoinOf(ohms).Apart?))
              || (held.Finite? && (x == 1 || !JoinOf(ohms).Apart?))
  {
    hide IndexOf, WireLinks, Seeds, Joined, JoinOf, Counts;
    Indexed(ohms);
    Links(ohms);
    BothLinks();
    NoLinks(0, x);
    NoLinks(1, x);
    SeedsThere(ohms, volts, impedance, amps, held);
  }

  lemma Feeds(ohms: Num, volts: Num, impedance: Num, amps: Num, held: Num, x: nat)
    requires x < 2
    ensures Wired(Wiring(ohms), Bench(volts, impedance, amps, held), x) <==>
              if x == 0 then Node0(ohms, volts, impedance, amps, held).Some?
              else Node1(ohms, volts, impedance, amps, held).Some?
  {
    hide Wired, Counts, Ohms, Amps;
    Fed(ohms, volts, impedance, amps, held, x);
  }

  // ----- the law there -----

  /** The voltages, nought where nothing feeds. */
  function Point(ohms: Num, volts: Num, impedance: Num, amps: Num, held: Num): seq<real> {
    [Node0(ohms, volts, impedance, amps, held).GetOr(0.0), Node1(ohms, volts, impedance, amps, held).GetOr(0.0)]
  }

  /** The net current at a supernode, in ohms and volts. */
  function Net(ohms: Num, volts: Num, impedance: Num, amps: Num, lab: seq<nat>, root: nat, v: seq<real>): real
    requires |lab| == 2 && |v| == 2
  {
    var through := if JoinOf(ohms).Over? then (v[0] - v[1]) / JoinOf(ohms).r else 0.0;
    (if lab[0] == root then through else 0.0) - (if lab[1] == root then through else 0.0) +
    (if lab[0] == root && Counts(volts, impedance) then (v[0] - volts.r) / Ohms(impedance.r) else 0.0) -
    (if lab[0] == root then Amps(amps) else 0.0)
  }

  lemma Scaled(m: real, x: real)
    requires m != 0.0
    ensures (1.0 / m) * x == x / m
  {
    var g := 1.0 / m;
    assert g * m == 1.0;
    assert (g * x) * m == x;
    assert (x / m) * m == x;
    assert (g * x - x / m) * m == 0.0;
  }

  lemma FlowsThrough(ohms: Num, lab: seq<nat>, root: nat, v: seq<real>)
    requires |lab| == 2 && |v| == 2
    ensures var through := if JoinOf(ohms).Over? then (v[0] - v[1]) / JoinOf(ohms).r else 0.0;
            ResistorFlow(map[0 := 0, 1 := 1], lab, root, v)(Resistor(0, 1, ohms)) ==
              (if lab[0] == root then through else 0.0) - (if lab[1] == root then through else 0.0)
  {
    if ohms.Finite? && ohms.r > 0.0 {
      Scaled(ohms.r, v[0] - v[1]);
    }
  }

  lemma SinksInto(volts: Num, impedance: Num, lab: seq<nat>, root: nat, v: seq<real>)
    requires |lab| == 2 && |v| == 2
    ensures SourceFlow(map[0 := 0, 1 := 1], lab, root, v)(Source(0, volts, impedance)) ==
              if lab[0] == root && Counts(volts, impedance) then (v[0] - volts.r) / Ohms(impedance.r) else 0.0
  {
    if Counts(volts, impedance) {
      Scaled(Ohms(impedance.r), v[0] - volts.r);
      assert Max(impedance.r, IDEAL_SOURCE_FLOOR_OHMS) == Ohms(impedance.r);
      hide Max, Ohms;
    }
  }

  lemma NetIs(ohms: Num, volts: Num, impedance: Num, amps: Num, held: Num, lab: seq<nat>, root: nat, v: seq<real>)
    requires |lab| == 2 && |v| == 2
    ensures NetCurrent(Wiring(ohms), Bench(volts, impedance, amps, held), lab, [], root, v) ==
              Net(ohms, volts, impedance, amps, lab, root, v)
  {
    hide IndexOf, Fought, Constant, ResistorFlow, SourceFlow, Counts, JoinOf, Ohms;
    Indexed(ohms);
    HeldHere(ohms, volts, impedance, amps, held, lab, root);
    var inputs := Bench(volts, impedance, amps, held);
    var ix: Index := map[0 := 0, 1 := 1];
    SumOne(Resistor(0, 1, ohms), ResistorFlow(ix, lab, root, v));
    SumOne(inputs.sources[0], SourceFlow(ix, lab, root, v));
    SumOne(inputs.terminals[0], TerminalFlow(ix, lab, root, false, v));
    SumOne(inputs.injections[0], InjectionFlow(ix, lab, root));
    FlowsThrough(ohms, lab, root, v);
    SinksInto(volts, impedance, lab, root, v);
  }

  lemma Divider(e: real, z: real, t: real, r: real, j: real)
    requires z > 0.0 && r > 0.0
    ensures 1.0 / z + 1.0 / r > 0.0
    ensures var v := (e / z + t / r + j) / (1.0 / z + 1.0 / r); (v - t) / r + (v - e) / z - j == 0.0
  {
    var (a, b) := (1.0 / z, 1.0 / r);
    assert a * z == 1.0 && b * r == 1.0;
    assert a > 0.0 && b > 0.0;
    var v := (e / z + t / r + j) / (a + b);
    Scaled(z, e);
    Scaled(r, t);
    Scaled(r, v - t);
    Scaled(z, v - e);
    Balances(a, b, e, t, j, v);
  }

  lemma Balances(a: real, b: real, e: real, t: real, j: real, v: real)
    requires a + b > 0.0 && v == (a * e + b * t + j) / (a + b)
    ensures b * (v - t) + a * (v - e) - j == 0.0
  {
    assert v * (a + b) == a * e + b * t + j;
  }

  lemma Loaded(e: real, z: real, j: real)
    requires z > 0.0
    ensures (e + j * z - e) / z == j
  {
    assert ((j * z) / z) * z == j * z;
    assert ((j * z) / z - j) * z == 0.0;
  }

  /** With nothing through the resistor, the source alone takes what is put in. */
  lemma SourceBalances(volts: Num, impedance: Num, amps: Num, v0: real)
    requires Counts(volts, impedance) && v0 == volts.r + Amps(amps) * Ohms(impedance.r)
    ensures (v0 - volts.r) / Ohms(impedance.r) - Amps(amps) == 0.0
  {
    Loaded(volts.r, Ohms(impedance.r), Amps(amps));
  }

  lemma OverBalances(r: real, volts: Num, impedance: Num, amps: Num, held: Num, v0: real)
    requires r > 0.0 && Node0(Finite(r), volts, impedance, amps, held) == Some(v0)
    ensures var v1 := Node1(Finite(r), volts, impedance, amps, held);
            v1.Some? &&
            (v0 - v1.value) / r + (if Counts(volts, impedance) then (v0 - volts.r) / Ohms(impedance.r) else 0.0) -
            Amps(amps) == 0.0
    ensures !held.Finite? ==> Node1(Finite(r), volts, impedance, amps, held).value == v0
  {
    if held.Finite? && Counts(volts, impedance) {
      Divider(volts.r, Ohms(impedance.r), held.r, r, Amps(amps));
    } else if held.Finite? {
      Loaded(held.r, r, Amps(amps));
    } else {
      SourceBalances(volts, impedance, amps, v0);
      assert (v0 - v0) / r == 0.0;
    }
  }

  /** Kirchhoff's law holds there at every supernode that has no constant. */
  lemma PointBalances(ohms: Num, volts: Num, impedance: Num, amps: Num, held: Num, lab: seq<nat>, root: nat)
    requires Labelling(Wiring(ohms), lab) && (root == lab[0] || root == lab[1]) && !(held.Finite? && root == lab[1])
    requires if root == lab[0] then Node0(ohms, volts, impedance, amps, held).Some?
             else Node1(ohms, volts, impedance, amps, held).Some?
    ensures |lab| == 2
    ensures Net(ohms, volts, impedance, amps, lab, root, Point(ohms, volts, impedance, amps, held)) == 0.0
  {
    Labels01(ohms, lab);
    hide Labelling, Amps, Ohms;
    if JoinOf(ohms).Over? {
      OverPoint(ohms, volts, impedance, amps, held, lab, root);
    } else {
      ApartPoint(ohms, volts, impedance, amps, held, lab, root);
    }
  }

  lemma ApartPoint(ohms: Num, volts: Num, impedance: Num, amps: Num, held: Num, lab: seq<nat>, root: nat)
    requires |lab| == 2 && !JoinOf(ohms).Over? && (if JoinOf(ohms).Merged? then lab[0] == lab[1] else lab == [0, 1])
    requires (root == lab[0] || root == lab[1]) && !(held.Finite? && root == lab[1])
    requires if root == lab[0] then Node0(ohms, volts, impedance, amps, held).Some?
             else Node1(ohms, volts, impedance, amps, held).Some?
    ensures Net(ohms, volts, impedance, amps, lab, root, Point(ohms, volts, impedance, amps, held)) == 0.0
  {
    hide Amps, Ohms;
    if Counts(volts, impedance) {
      SourceBalances(volts, impedance, amps, volts.r + Amps(amps) * Ohms(impedance.r));
    }
  }

  lemma OverPoint(ohms: Num, volts: Num, impedance: Num, amps: Num, held: Num, lab: seq<nat>, root: nat)
    requires JoinOf(ohms).Over? && lab == [0, 1] && (root == 0 || root == 1) && !(held.Finite? && root == 1)
    requires Node0(ohms, volts, impedance, amps, held).Some?
    ensures Net(ohms, volts, impedance, amps, lab, root, Point(ohms, volts, impedance, amps, held)) == 0.0
  {
    var v0 := Node0(ohms, volts, impedance, amps, held).value;
    OverBalances(ohms.r, volts, impedance, amps, held, v0);
    hide Node0, Node1, Amps, Ohms;
    if root == 1 {
      assert (v0 - v0) / ohms.r == 0.0;
    }
  }

  // ----- the answers -----

  lemma MergedAlike(ohms: Num, volts: Num, impedance: Num, amps: Num, held: Num)
    ensures JoinOf(ohms).Merged? ==>
              Node0(ohms, volts, impedance, amps, held) == Node1(ohms, volts, impedance, amps, held)
  {
  }

  lemma AlikeWhereMerged(ohms: Num, volts: Num, impedance: Num, amps: Num, held: Num, lab: seq<nat>, x: nat)
    requires |lab| == 2 && (if JoinOf(ohms).Merged? then lab[0] == lab[1] < 2 else lab == [0, 1]) && x < 2
    ensures var v := Point(ohms, volts, impedance, amps, held); v[x] == Volt(v, At(lab, x))
  {
    hide Node0, Node1;
    MergedAlike(ohms, volts, impedance, amps, held);
  }

  lemma HeldThere(ohms: Num, volts: Num, impedance: Num, amps: Num, held: Num, lab: seq<nat>, x: nat)
    requires |lab| == 2 && (if JoinOf(ohms).Merged? then lab[0] == lab[1] else lab == [0, 1]) && x < 2
    requires held.Finite? && lab[1] == lab[x]
    ensures Point(ohms, volts, impedance, amps, held)[x] == held.r
  {
    hide Ohms, Amps, Counts;
  }

  lemma NoughtWhereUnfed(ohms: Num, volts: Num, impedance: Num, amps: Num, held: Num, x: nat)
    requires x < 2 && !Reached(Wiring(ohms), Bench(volts, impedance, amps, held), x)
    ensures Point(ohms, volts, impedance, amps, held)[x] == 0.0
  {
    hide Wired, Reached, Node0, Node1, IndexOf;
    Feeds(ohms, volts, impedance, amps, held, x);
    WiredIsReached(Wiring(ohms), Bench(volts, impedance, amps, held), x);
  }

  lemma ConstantThere(ohms: Num, volts: Num, impedance: Num, amps: Num, held: Num, lab: seq<nat>, x: nat)
    requires |lab| == 2 && (if JoinOf(ohms).Merged? then lab[0] == lab[1] else lab == [0, 1]) && x < 2
    ensures var (ix, terminals) := (IndexOf(Wiring(ohms).nodes), Bench(volts, impedance, amps, held).terminals);
            Constant(ix, lab, terminals, lab[x]).Some? ==>
              Point(ohms, volts, impedance, amps, held)[x] == Constant(ix, lab, terminals, lab[x]).value
  {
    hide IndexOf, Constant, Point, JoinOf;
    HeldHere(ohms, volts, impedance, amps, held, lab, lab[x]);
    if held.Finite? && lab[1] == lab[x] {
      HeldThere(ohms, volts, impedance, amps, held, lab, x);
    }
  }

  lemma PointGrounded(ohms: Num, volts: Num, impedance: Num, amps: Num, held: Num, lab: seq<nat>)
    requires Labelling(Wiring(ohms), lab)
    ensures Grounded(Wiring(ohms), Bench(volts, impedance, amps, held), lab, Point(ohms, volts, impedance, amps, held))
  {
    hide Reached, Constant, Labelling, IndexOf, JoinOf, Node0, Node1;
    Labels01(ohms, lab);
    forall x: nat | x < 2
      ensures var (c, inputs, v) :=
                (Wiring(ohms), Bench(volts, impedance, amps, held), Point(ohms, volts, impedance, amps, held));
              && v[x] == Volt(v, At(lab, x))
              && (Constant(IndexOf(c.nodes), lab, inputs.terminals, At(lab, x)).Some? ==>
                    v[x] == Constant(IndexOf(c.nodes), lab, inputs.terminals, At(lab, x)).value)
              && (!Reached(c, inputs, x) ==> v[x] == 0.0)
    {
      AlikeWhereMerged(ohms, volts, impedance, amps, held, lab, x);
      ConstantThere(ohms, volts, impedance, amps, held, lab, x);
      if !Reached(Wiring(ohms), Bench(volts, impedance, amps, held), x) {
        NoughtWhereUnfed(ohms, volts, impedance, amps, held, x);
      }
    }
  }

  lemma IsPoint(ohms: Num, volts: Num, impedance: Num, amps: Num, held: Num, lab: seq<nat>)
    requires Labelling(Wiring(ohms), lab)
    ensures OperatingPoint(Wiring(ohms), Bench(volts, impedance, amps, held), lab, [],
                           Point(ohms, volts, impedance, amps, held))
  {
    hide Wired, Reached, Constant, Fought, Labelling, IndexOf, Grounded, NetCurrent, Net, Node0, Node1;
    var (c, inputs, v) :=
      (Wiring(ohms), Bench(volts, impedance, amps, held), Point(ohms, volts, impedance, amps, held));
    Labels01(ohms, lab);
    PointGrounded(ohms, volts, impedance, amps, held, lab);
    forall x: nat | Unknown(c, inputs, lab, x) ensures NetCurrent(c, inputs, lab, [], At(lab, x), v) == 0.0 {
      assert x == 0 || x == 1;
      HeldHere(ohms, volts, impedance, amps, held, lab, lab[x]);
      Feeds(ohms, volts, impedance, amps, held, x);
      WiredIsReached(c, inputs, x);
      MergedAlike(ohms, volts, impedance, amps, held);
      NetIs(ohms, volts, impedance, amps, held, lab, lab[x], v);
      PointBalances(ohms, volts, impedance, amps, held, lab, lab[x]);
    }
  }

  lemma UnknownThere(ohms: Num, volts: Num, impedance: Num, amps: Num, held: Num, lab: seq<nat>, x: nat)
    requires Labelling(Wiring(ohms), lab) && x < 2
    ensures |lab| == 2
    ensures Unknown(Wiring(ohms), Bench(volts, impedance, amps, held), lab, x) <==>
              && (if x == 0 then Node0(ohms, volts, impedance, amps, held).Some?
                  else Node1(ohms, volts, impedance, amps, held).Some?)
              && !(held.Finite? && lab[x] == lab[1])
  {
    hide Labelling, Reached, Wired, Constant, IndexOf, Node0, Node1;
    Labels01(ohms, lab);
    HeldHere(ohms, volts, impedance, amps, held, lab, lab[x]);
    Feeds(ohms, volts, impedance, amps, held, x);
    WiredIsReached(Wiring(ohms), Bench(volts, impedance, amps, held), x);
  }

  lemma OfTwo(s: set<nat>)
    requires forall x :: x in s ==> x < 2
    ensures |s| == (if 0 in s then 1 else 0) + if 1 in s then 1 else 0
  {
    assert s == (if 0 in s then {0} else {}) + if 1 in s then {1} else {};
  }

  lemma RootsIn(ohms: Num, volts: Num, impedance: Num, amps: Num, held: Num, lab: seq<nat>)
    ensures forall x :: x in UnknownRoots(Wiring(ohms), Bench(volts, impedance, amps, held), lab) <==>
              x < 2 && At(lab, x) == x && Unknown(Wiring(ohms), Bench(volts, impedance, amps, held), lab, x)
  {
    hide Unknown;
  }

  lemma RootsThere(ohms: Num, volts: Num, impedance: Num, amps: Num, held: Num, lab: seq<nat>)
    requires Labelling(Wiring(ohms), lab)
    ensures |UnknownRoots(Wiring(ohms), Bench(volts, impedance, amps, held), lab)| ==
            Unknowns(ohms, volts, impedance, amps, held)
  {
    hide Labelling, Unknown, UnknownRoots, Wiring, Bench, Node0, Node1, JoinOf;
    Labels01(ohms, lab);
    UnknownThere(ohms, volts, impedance, amps, held, lab, 0);
    UnknownThere(ohms, volts, impedance, amps, held, lab, 1);
    MergedAlike(ohms, volts, impedance, amps, held);
    RootsIn(ohms, volts, impedance, amps, held, lab);
    OfTwo(UnknownRoots(Wiring(ohms), Bench(volts, impedance, amps, held), lab));
  }

  lemma SolvedUnknowns(c: Cluster, inputs: Inputs, lab: seq<nat>, s: ClusterSolution)
    requires Solves(c, inputs, lab, s) && inputs.elements == []
    ensures s.unknowns == |UnknownRoots(c, inputs, lab)|
  {
    hide UnknownRoots, StatesOf, Labelling, DecidedAfter, Stamped, BranchCurrents;
  }

  /** Every answer of the solver, for whatever figures. */
  lemma Answers(ohms: Num, volts: Num, impedance: Num, amps: Num, held: Num, lab: seq<nat>, s: ClusterSolution)
    requires Solves(Wiring(ohms), Bench(volts, impedance, amps, held), lab, s)
    ensures s.nodeStates == [(0, Shown(Node0(ohms, volts, impedance, amps, held))),
                             (1, Shown(Node1(ohms, volts, impedance, amps, held)))]
    ensures s.unknowns == Unknowns(ohms, volts, impedance, amps, held)
  {
    hide Solves, Node0, Node1, Wired, OperatingPoint, LinearPoint, Unknowns, UnknownRoots;
    var (c, inputs) := (Wiring(ohms), Bench(volts, impedance, amps, held));
    SolvesLabelled(c, inputs, lab, s);
    SolvedUnknowns(c, inputs, lab, s);
    RootsThere(ohms, volts, impedance, amps, held, lab);
    IsPoint(ohms, volts, impedance, amps, held, lab);
    LinearSolved(c, inputs, lab, s);
    NoStampsAtAll(c, inputs, lab);
    assert LinearPoint(c, inputs, lab).value == Point(ohms, volts, impedance, amps, held);
    Indexed(ohms);
    Feeds(ohms, volts, impedance, amps, held, 0);
    Feeds(ohms, volts, impedance, amps, held, 1);
    LinearStates(c, inputs, lab, s, 0);
    LinearStates(c, inputs, lab, s, 1);
  }

  lemma SolvesLabelled(c: Cluster, inputs: Inputs, lab: seq<nat>, s: ClusterSolution)
    requires Solves(c, inputs, lab, s)
    ensures Labelling(c, lab)
  {
  }

  lemma NoStampsAtAll(c: Cluster, inputs: Inputs, lab: seq<nat>)
    requires inputs.elements == []
    ensures Stamped(c, inputs, lab, AllOff(0)) == []
  {
  }
}
