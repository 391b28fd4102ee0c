/** When a solve finds voltages, and a reached block it finds none for. */
module Singular {
  import opened Options
  import opened Graph
  import opened Sums
  import opened Circuit
  import opened Regions
  import opened Results

  // ----- exactly when a solve finds voltages -----

  lemma {:induction false} SumAffine<T>(s: seq<T>, f: T -> real, p: T -> real, v: T -> real, w: T -> real)
    requires forall x :: x in s ==> f(x) == p(x) + v(x) - w(x)
    ensures Sum(s, f) == Sum(s, p) + Sum(s, v) - Sum(s, w)
  {
    if |s| > 0 {
      SumAffine(s[..|s| - 1], f, p, v, w);
    }
  }

  /** `z` is `p` shifted by the difference of `v` and `w`, node by node. */
  ghost predicate Shifted(z: seq<real>, p: seq<real>, v: seq<real>, w: seq<real>) {
    |z| == |p| == |v| == |w| && forall x: nat :: x < |z| ==> z[x] == p[x] + v[x] - w[x]
  }

  lemma OhmicAffine(a: nat, b: nat, g: real, z: seq<real>, p: seq<real>, v: seq<real>, w: seq<real>)
    requires Shifted(z, p, v, w)
    ensures Ohmic(a, b, g, z) == Ohmic(a, b, g, p) + Ohmic(a, b, g, v) - Ohmic(a, b, g, w)
  {
    var dp, dv, dw := Volt(p, a) - Volt(p, b), Volt(v, a) - Volt(v, b), Volt(w, a) - Volt(w, b);
    assert Volt(z, a) - Volt(z, b) == dp + dv - dw;
    assert g * (dp + dv - dw) == g * dp + g * dv - g * dw;
  }

  lemma SinksAffine(x: nat, g: real, e: real, z: seq<real>, p: seq<real>, v: seq<real>, w: seq<real>)
    requires Shifted(z, p, v, w)
    ensures Sinks(x, g, e, z) == Sinks(x, g, e, p) + Sinks(x, g, e, v) - Sinks(x, g, e, w)
  {
    var dp, dv, dw := Volt(p, x) - e, Volt(v, x) - e, Volt(w, x) - e;
    assert Volt(z, x) - e == dp + dv - dw;
    assert g * (dp + dv - dw) == g * dp + g * dv - g * dw;
  }

  lemma BranchAffine(g: real, i: real, a: nat, b: nat, z: seq<real>, p: seq<real>, v: seq<real>, w: seq<real>)
    requires Shifted(z, p, v, w)
    ensures BranchAmps(g, i, Volt(z, a), Volt(z, b)) ==
            BranchAmps(g, i, Volt(p, a), Volt(p, b)) + BranchAmps(g, i, Volt(v, a), Volt(v, b)) -
            BranchAmps(g, i, Volt(w, a), Volt(w, b))
  {
    OhmicAffine(a, b, g, z, p, v, w);
  }

  lemma StampAffine(s: Stamp, z: seq<real>, p: seq<real>, v: seq<real>, w: seq<real>)
    requires Shifted(z, p, v, w)
    ensures StampCurrent(s, z) == StampCurrent(s, p) + StampCurrent(s, v) - StampCurrent(s, w)
  {
    hide BranchAmps, Shifted;
    BranchAffine(s.g, s.i, s.a, s.b, z, p, v, w);
    if s.gain.Some? {
      BranchAffine(s.gain.value.k, s.gain.value.i0, s.gain.value.bn, s.gain.value.en, z, p, v, w);
    }
  }

  /** Kirchhoff's sum is affine in the voltages. */
  lemma NetCurrentAffine(c: Cluster, inputs: Inputs, lab: seq<nat>, stamps: seq<Option<Stamp>>, root: nat,
                         z: seq<real>, p: seq<real>, v: seq<real>, w: seq<real>)
    requires Shifted(z, p, v, w)
    ensures NetCurrent(c, inputs, lab, stamps, root, z) ==
            NetCurrent(c, inputs, lab, stamps, root, p) + NetCurrent(c, inputs, lab, stamps, root, v) -
            NetCurrent(c, inputs, lab, stamps, root, w)
  {
    var ix := IndexOf(c.nodes);
    var fought := Fought(ix, lab, inputs.terminals, root);
    hide Ohmic, Sinks, StampCurrent, IndexOf, Fought, Shifted, Siemens, Conductance;
    forall r | r in c.resistors && Conducts(ix, r)
      ensures ResistorLeaves(ix, lab, root, z, r) ==
              ResistorLeaves(ix, lab, root, p, r) + ResistorLeaves(ix, lab, root, v, r) -
              ResistorLeaves(ix, lab, root, w, r)
    {
      OhmicAffine(ix[r.a], ix[r.b], Siemens(r), z, p, v, w);
    }
    SumAffine(c.resistors, ResistorFlow(ix, lab, root, z), ResistorFlow(ix, lab, root, p),
              ResistorFlow(ix, lab, root, v), ResistorFlow(ix, lab, root, w));
    forall s | s in inputs.sources && ValidSource(ix, s)
      ensures SourceLeaves(ix, lab, root, z, s) ==
              SourceLeaves(ix, lab, root, p, s) + SourceLeaves(ix, lab, root, v, s) - SourceLeaves(ix, lab, root, w, s)
    {
      SinksAffine(ix[s.node], Conductance(s), s.volts.r, z, p, v, w);
    }
    SumAffine(inputs.sources, SourceFlow(ix, lab, root, z), SourceFlow(ix, lab, root, p), SourceFlow(ix, lab, root, v),
              SourceFlow(ix, lab, root, w));
    forall t | t in inputs.terminals && ValidTerminal(ix, t)
      ensures TerminalLeaves(ix, lab, root, fought, z, t) ==
              TerminalLeaves(ix, lab, root, fought, p, t) + TerminalLeaves(ix, lab, root, fought, v, t) -
              TerminalLeaves(ix, lab, root, fought, w, t)
    {
      SinksAffine(ix[t.node], FLOOR_SIEMENS, t.volts.r, z, p, v, w);
    }
    SumAffine(inputs.terminals, TerminalFlow(ix, lab, root, fought, z), TerminalFlow(ix, lab, root, fought, p),
              TerminalFlow(ix, lab, root, fought, v), TerminalFlow(ix, lab, root, fought, w));
    forall s | s in stamps && s.Some?
      ensures StampFlow(root, z)(s) == StampFlow(root, p)(s) + StampFlow(root, v)(s) - StampFlow(root, w)(s)
    {
      StampAffine(s.value, z, p, v, w);
    }
    SumAffine(stamps, StampFlow(root, z), StampFlow(root, p), StampFlow(root, v), StampFlow(root, w));
  }

  /** Two grounded voltages the law cannot tell apart: shifting an operating point by their difference gives another. */
  lemma ShiftedPoint(c: Cluster, inputs: Inputs, lab: seq<nat>, stamps: seq<Option<Stamp>>, p: seq<real>, v: seq<real>,
                     w: seq<real>)
    returns (z: seq<real>)
    requires Labelling(c, lab) && OperatingPoint(c, inputs, lab, stamps, p) && v != w
    requires Grounded(c, inputs, lab, v) && Grounded(c, inputs, lab, w)
    requires forall x: nat :: Unknown(c, inputs, lab, x) ==>
               NetCurrent(c, inputs, lab, stamps, At(lab, x), v) == NetCurrent(c, inputs, lab, stamps, At(lab, x), w)
    ensures OperatingPoint(c, inputs, lab, stamps, z) && z != p
  {
    assert |p| == |v| == |w|;
    hide NetCurrent, Grounded, Unknown, Labelling;
    z := seq(|p|, x requires 0 <= x < |p| == |v| == |w| => p[x] + v[x] - w[x]);
    assert Shifted(z, p, v, w);
    ShiftedGrounded(c, inputs, lab, z, p, v, w);
    forall x: nat | Unknown(c, inputs, lab, x) ensures NetCurrent(c, inputs, lab, stamps, At(lab, x), z) == 0.0 {
      NetCurrentAffine(c, inputs, lab, stamps, At(lab, x), z, p, v, w);
    }
    var x: nat :| x < |v| && v[x] != w[x];
    assert z[x] != p[x];
  }

  /** Where the law cannot tell two voltages apart there is no one operating point. */
  lemma UndeterminedHasNone(c: Cluster, inputs: Inputs, lab: seq<nat>, stamps: seq<Option<Stamp>>)
    requires Labelling(c, lab) && Undetermined(c, inputs, lab, stamps)
    ensures ThePoint(c, inputs, lab, stamps).None?
  {
    hide NetCurrent, Grounded, Unknown, Labelling, OperatingPoint;
    if ThePoint(c, inputs, lab, stamps).Some? {
      var p := ThePoint(c, inputs, lab, stamps).value;
      var v, w :| Grounded(c, inputs, lab, v) && Grounded(c, inputs, lab, w) && v != w &&
        forall x: nat :: Unknown(c, inputs, lab, x) ==>
          NetCurrent(c, inputs, lab, stamps, At(lab, x), v) == NetCurrent(c, inputs, lab, stamps, At(lab, x), w);
      assert OnlyPoint(c, inputs, lab, stamps, p);
      var z := ShiftedPoint(c, inputs, lab, stamps, p, v, w);
    }
  }

  lemma ShiftedGrounded(c: Cluster, inputs: Inputs, lab: seq<nat>, z: seq<real>, p: seq<real>, v: seq<real>,
                        w: seq<real>)
    requires Labelling(c, lab) && Shifted(z, p, v, w)
    requires Grounded(c, inputs, lab, p) && Grounded(c, inputs, lab, v) && Grounded(c, inputs, lab, w)
    ensures Grounded(c, inputs, lab, z)
  {
    hide Constant, Reached, IndexOf;
  }

  /**
   * Every solve of every run, whatever the regions: it finds voltages exactly when the law tells any two
   * grounded voltages apart.
   */
  lemma SolvedExactlyWhen(c: Cluster, inputs: Inputs, lab: seq<nat>, s: ClusterSolution, k: nat)
    requires Solves(c, inputs, lab, s) && k < s.solves
    ensures var stamps := Stamped(c, inputs, lab, RegionsAfter(c, inputs, lab, k));
            ThePoint(c, inputs, lab, stamps).Some? <==> !Undetermined(c, inputs, lab, stamps)
  {
    assert DecidedAfter(c, inputs, lab, k);
    hide ThePoint, Undetermined, RegionsAfter, Stamped, Labelling, SolutionOf;
    var stamps := Stamped(c, inputs, lab, RegionsAfter(c, inputs, lab, k));
    if Undetermined(c, inputs, lab, stamps) {
      UndeterminedHasNone(c, inputs, lab, stamps);
    }
  }

  /** An operating point of a law that tells any two voltages apart is the only one. */
  lemma DeterminedPoint(c: Cluster, inputs: Inputs, lab: seq<nat>, stamps: seq<Option<Stamp>>, v: seq<real>)
    requires OperatingPoint(c, inputs, lab, stamps, v) && !Undetermined(c, inputs, lab, stamps)
    ensures ThePoint(c, inputs, lab, stamps) == Some(v)
  {
    hide Grounded, Unknown, NetCurrent;
    assert OnlyPoint(c, inputs, lab, stamps, v);
  }

  // ----- which regulators are safe -----

  /**
   * A node joined to a terminal by a regulator of no positive current: its ohmic segment conducts nothing, or
   * less than nothing, and then a resistor beside it makes up for exactly that.
   */
  function Cancelled(iReg: real, vReg: real): (Cluster, Inputs)
    requires iReg <= 0.0
  {
    var resistors := if iReg < 0.0 then [Resistor(0, 1, Finite(Max(vReg, IDEAL_SOURCE_FLOOR_OHMS) / -iReg))] else [];
    (Cluster([0, 1], resistors),
     Inputs([], [], [Terminal(1, Finite(0.0))], [Element(0, 1, Regulator(iReg, vReg), None)]))
  }

  /** What times `ohms` is one, by way of a figure it scales. */
  lemma ReciprocalBy(q: real, ohms: real, n: real, floor: real)
    requires n > 0.0 && ohms * n == floor && q * floor == n
    ensures q * ohms == 1.0
  {
    assert (q * ohms) * n == Times(q, ohms * n);
    assert Times(q, ohms * n) == Times(q, floor);
    assert (q * ohms - 1.0) * n == 0.0;
  }

  lemma PositiveFactor(x: real, n: real)
    requires n > 0.0 && x * n > 0.0
    ensures x > 0.0
  {
  }

  lemma CancelledOhms(iReg: real, vReg: real)
    requires iReg < 0.0
    ensures var floor := Max(vReg, IDEAL_SOURCE_FLOOR_OHMS);
            floor / -iReg > 0.0 && 1.0 / (floor / -iReg) == -(iReg / floor)
  {
    var floor := Max(vReg, IDEAL_SOURCE_FLOOR_OHMS);
    var ohms, q := floor / -iReg, -(iReg / floor);
    assert ohms * -iReg == floor;
    PositiveFactor(ohms, -iReg);
    assert q * floor == -iReg;
    ReciprocalBy(q, ohms, -iReg, floor);
    assert (1.0 / ohms) * ohms == 1.0;
    assert (q - 1.0 / ohms) * ohms == 0.0;
  }

  lemma CancelledIndex(iReg: real, vReg: real)
    requires iReg <= 0.0
    ensures var (c, inputs) := Cancelled(iReg, vReg);
            && IndexOf(c.nodes) == map[0 := 0, 1 := 1] && Labelling(c, [0, 1])
            && Constant(IndexOf(c.nodes), [0, 1], inputs.terminals, 0) == None
            && Constant(IndexOf(c.nodes), [0, 1], inputs.terminals, 1) == Some(0.0)
            && !Fought(IndexOf(c.nodes), [0, 1], inputs.terminals, 0)
  {
    var (c, inputs) := Cancelled(iReg, vReg);
    var ix := IndexOf(c.nodes);
    assert FirstAt(c.nodes, 0) == 0 && FirstAt(c.nodes, 1) == 1;
    assert ix == map[0 := 0, 1 := 1];
    if iReg < 0.0 {
      CancelledOhms(iReg, vReg);
    }
    assert ZeroLinks(ix, c.resistors) == {};
    forall x: nat, y: nat | x < 2 && y < 2 ensures x == y <==> Joined({}, x, y) {
      if Joined({}, x, y) { ClosedHolds({}, iset{x}, x, y); }
      JoinedSelf({}, x);
    }
    assert inputs.terminals[0] in inputs.terminals;
    assert HeldAt(ix, [0, 1], inputs.terminals, 1, 0.0);
    forall v ensures HeldAt(ix, [0, 1], inputs.terminals, 1, v) ==> v == 0.0 {
    }
  }

  lemma CancelledNodes(iReg: real, vReg: real)
    requires iReg <= 0.0
    ensures |Cancelled(iReg, vReg).0.nodes| == 2
  {
  }

  lemma CancelledReached(iReg: real, vReg: real)
    requires iReg <= 0.0
    ensures var (c, inputs) := Cancelled(iReg, vReg); Reached(c, inputs, 0) && Reached(c, inputs, 1)
  {
    var (c, inputs) := Cancelled(iReg, vReg);
    var ix := IndexOf(c.nodes);
    CancelledIndex(iReg, vReg);
    hide Constant, Labelling, IndexOf;
    assert inputs.terminals[0] in inputs.terminals;
    assert 1 in Seeds(ix, inputs);
    var links := WireLinks(ix, c.resistors) + ElementLinks(ix, inputs.elements);
    assert inputs.elements[0] in inputs.elements;
    assert (1, 0) in links;
    JoinedSelf(links, 1);
    JoinedLink(links, 1, 0);
  }

  lemma CancelledStamps(iReg: real, vReg: real)
    requires iReg <= 0.0
    ensures var (c, inputs) := Cancelled(iReg, vReg);
            && Resolve(IndexOf(c.nodes), [0, 1], inputs) == [Some(Resolved(0, 1, Regulator(iReg, vReg), None, None))]
            && Stamped(c, inputs, [0, 1], [Off]) ==
                 [Some(Stamp(0, 1, iReg / Max(vReg, IDEAL_SOURCE_FLOOR_OHMS), 0.0, None))]
            && ElementCount(c, inputs, [0, 1]) == 1
  {
    var (c, inputs) := Cancelled(iReg, vReg);
    CancelledIndex(iReg, vReg);
    hide Constant, Labelling, IndexOf, Fought;
    var elements := Resolve(IndexOf(c.nodes), [0, 1], inputs);
    assert elements == [Some(Resolved(0, 1, Regulator(iReg, vReg), None, None))];
    assert elements[..0] == [];
  }

  lemma CancelledResistor(iReg: real, vReg: real, volts: real)
    requires iReg <= 0.0
    ensures var (c, inputs) := Cancelled(iReg, vReg);
            Sum(c.resistors, ResistorFlow(IndexOf(c.nodes), [0, 1], 0, [volts, 0.0])) ==
            -(iReg / Max(vReg, IDEAL_SOURCE_FLOOR_OHMS)) * volts
  {
    var (c, inputs) := Cancelled(iReg, vReg);
    var ix := IndexOf(c.nodes);
    var v := [volts, 0.0];
    CancelledIndex(iReg, vReg);
    hide Constant, Labelling, IndexOf, Fought;
    if iReg < 0.0 {
      CancelledOhms(iReg, vReg);
      SumOne(c.resistors[0], ResistorFlow(ix, [0, 1], 0, v));
      assert Siemens(c.resistors[0]) == -(iReg / Max(vReg, IDEAL_SOURCE_FLOOR_OHMS));
    } else {
      assert iReg / Max(vReg, IDEAL_SOURCE_FLOOR_OHMS) == 0.0;
    }
  }

  /** Whatever the node's voltage, the resistor and the segment cancel. */
  lemma CancelledBalance(iReg: real, vReg: real, volts: real)
    requires iReg <= 0.0
    ensures var (c, inputs) := Cancelled(iReg, vReg);
            NetCurrent(c, inputs, [0, 1], Stamped(c, inputs, [0, 1], [Off]), 0, [volts, 0.0]) == 0.0
  {
    hide Constant, Labelling, IndexOf, Resolve, Stamped, Fought, Cancelled;
    var (c, inputs) := Cancelled(iReg, vReg);
    var v := [volts, 0.0];
    CancelledIndex(iReg, vReg);
    CancelledStamps(iReg, vReg);
    CancelledResistor(iReg, vReg, volts);
    var g := iReg / Max(vReg, IDEAL_SOURCE_FLOOR_OHMS);
    var stamp := Some(Stamp(0, 1, g, 0.0, None));
    SumOne(stamp, StampFlow(0, v));
    assert StampFlow(0, v)(stamp) == g * volts;
    CancelledRest(iReg, vReg, v);
  }

  /** Nothing else is at the node: its terminal holds the other end, and nothing is injected. */
  lemma CancelledRest(iReg: real, vReg: real, v: seq<real>)
    requires iReg <= 0.0
    ensures var (c, inputs) := Cancelled(iReg, vReg);
            var ix := IndexOf(c.nodes);
            && Sum(inputs.sources, SourceFlow(ix, [0, 1], 0, v)) == 0.0 &&
               Sum(inputs.injections, InjectionFlow(ix, [0, 1], 0)) == 0.0
            && Sum(inputs.terminals, TerminalFlow(ix, [0, 1], 0, Fought(ix, [0, 1], inputs.terminals, 0), v)) == 0.0
  {
    var (c, inputs) := Cancelled(iReg, vReg);
    CancelledIndex(iReg, vReg);
    hide Constant, Labelling, IndexOf, Fought;
    SumOne(inputs.terminals[0], TerminalFlow(IndexOf(c.nodes), [0, 1], 0, false, v));
  }

  lemma CancelledUnknown(iReg: real, vReg: real)
    requires iReg <= 0.0
    ensures var (c, inputs) := Cancelled(iReg, vReg);
            forall x: nat :: Unknown(c, inputs, [0, 1], x) <==> x == 0
  {
    hide Constant, Reached, IndexOf, Labelling, Fought, Cancelled;
    var (c, inputs) := Cancelled(iReg, vReg);
    CancelledIndex(iReg, vReg);
    CancelledReached(iReg, vReg);
    CancelledNodes(iReg, vReg);
    forall x: nat ensures Unknown(c, inputs, [0, 1], x) <==> x == 0 {
      assert x < 2 ==> x == 0 || x == 1;
    }
  }

  lemma CancelledGrounded(iReg: real, vReg: real, volts: real)
    requires iReg <= 0.0
    ensures var (c, inputs) := Cancelled(iReg, vReg); Grounded(c, inputs, [0, 1], [volts, 0.0])
  {
    hide Constant, Reached, IndexOf, Labelling, Fought, Cancelled;
    var (c, inputs) := Cancelled(iReg, vReg);
    CancelledIndex(iReg, vReg);
    CancelledReached(iReg, vReg);
    CancelledNodes(iReg, vReg);
    var v := [volts, 0.0];
    forall x: nat | x < |v| ensures v[x] == Volt(v, At([0, 1], x)) {
      assert x == 0 || x == 1;
    }
  }

  lemma CancelledUndetermined(iReg: real, vReg: real)
    requires iReg <= 0.0
    ensures var (c, inputs) := Cancelled(iReg, vReg);
            Undetermined(c, inputs, [0, 1], Stamped(c, inputs, [0, 1], [Off]))
  {
    var (c, inputs) := Cancelled(iReg, vReg);
    CancelledUnknown(iReg, vReg);
    CancelledGrounded(iReg, vReg, 0.0);
    CancelledGrounded(iReg, vReg, 1.0);
    CancelledBalance(iReg, vReg, 0.0);
    CancelledBalance(iReg, vReg, 1.0);
    hide Grounded, Unknown, NetCurrent, Stamped, Cancelled;
    var v, w := [0.0, 0.0], [1.0, 0.0];
    assert v[0] != w[0];
  }

  lemma CancelledCold(iReg: real, vReg: real)
    requires iReg <= 0.0
    ensures var (c, inputs) := Cancelled(iReg, vReg); RegionsAfter(c, inputs, [0, 1], 0) == [Off]
  {
    assert AllOff(1) == [Off];
  }

  /** The solve at such a figure: no voltage for the reached node, a test that has nothing to judge, a settled run. */
  lemma CancelledSettles(iReg: real, vReg: real)
    requires iReg <= 0.0
    ensures var (c, inputs) := Cancelled(iReg, vReg);
            && RegionsAfter(c, inputs, [0, 1], 0) == [Off] && SettledAfter(c, inputs, [0, 1], 0)
            && ThePoint(c, inputs, [0, 1], Stamped(c, inputs, [0, 1], [Off])).None?
            && SettlesAt(c, inputs, [0, 1], 2) == Some(0) && DecidedAfter(c, inputs, [0, 1], 0)
  {
    hide Constant, Labelling, IndexOf, Resolve, Stamped, Fought, ThePoint, Undetermined, SettlesAt, Unknown;
    var (c, inputs) := Cancelled(iReg, vReg);
    var stamps := Stamped(c, inputs, [0, 1], [Off]);
    CancelledIndex(iReg, vReg);
    CancelledStamps(iReg, vReg);
    CancelledUndetermined(iReg, vReg);
    UndeterminedHasNone(c, inputs, [0, 1], stamps);
    CancelledCold(iReg, vReg);
    var voltages := VoltagesAt(c, inputs, [0, 1], stamps);
    assert voltages[0] == None;
    assert WantedAt(c, inputs, [0, 1], [Off]) == [Off];
    SettlesAtIs(c, inputs, [0, 1], 2, 0);
  }

  /** The answer there: the reached node floats, beside a terminal that is still its constant. */
  lemma CancelledAnswer(iReg: real, vReg: real)
    requires iReg <= 0.0
    ensures var (c, inputs) := Cancelled(iReg, vReg);
            var s := SolutionOf(c, inputs, [0, 1]);
            && Solves(c, inputs, [0, 1], s) && Reached(c, inputs, 0)
            && s.nodeStates == [(0, Floating), (1, Analog(0.0))] && s.regions == [Off]
            && s.converged && s.solves == 1 && s.unknowns == 1
  {
    hide Constant, Labelling, IndexOf, Resolve, Stamped, Fought, ThePoint, SettlesAt, SettledAfter, DecidedAfter,
         RegionsAfter, Reached, ElementCount, StatesOf, SolutionOf, Solves, Unknown;
    var (c, inputs) := Cancelled(iReg, vReg);
    CancelledIndex(iReg, vReg);
    CancelledReached(iReg, vReg);
    CancelledStamps(iReg, vReg);
    CancelledSettles(iReg, vReg);
    CancelledStates(iReg, vReg);
    CancelledUnknown(iReg, vReg);
    assert UnknownRoots(c, inputs, [0, 1]) == {0};
    SettledAtOnce(c, inputs, [0, 1]);
  }

  lemma CancelledStates(iReg: real, vReg: real)
    requires iReg <= 0.0
    ensures var (c, inputs) := Cancelled(iReg, vReg);
            StatesOf(c, inputs, [0, 1], Stamped(c, inputs, [0, 1], [Off]), true) == [(0, Floating), (1, Analog(0.0))]
  {
    hide Constant, Labelling, Resolve, Stamped, Fought, ThePoint, SettlesAt, SettledAfter, DecidedAfter, RegionsAfter,
         Published, Unknown, IndexOf;
    var (c, inputs) := Cancelled(iReg, vReg);
    CancelledIndex(iReg, vReg);
    CancelledSettles(iReg, vReg);
    var stamps := Stamped(c, inputs, [0, 1], [Off]);
    assert StateEntry(c, inputs, [0, 1], stamps, true, 0) == (0, Floating);
    assert StateEntry(c, inputs, [0, 1], stamps, true, 1) == (1, Analog(0.0));
  }

  /** A single element whose test agrees with the cold start: the answer is the first solve's. */
  lemma SettledAtOnce(c: Cluster, inputs: Inputs, lab: seq<nat>)
    requires Labelling(c, lab) && ElementCount(c, inputs, lab) == 1
    requires SettlesAt(c, inputs, lab, 2) == Some(0) && DecidedAfter(c, inputs, lab, 0)
    ensures var s := SolutionOf(c, inputs, lab);
            && Solves(c, inputs, lab, s) && s.converged && s.solves == 1 && s.regions == RegionsAfter(c, inputs, lab, 0)
            && s.nodeStates == StatesOf(c, inputs, lab, Stamped(c, inputs, lab, s.regions), true)
            && s.unknowns == |UnknownRoots(c, inputs, lab)|
  {
    hide Labelling, ElementCount, SettlesAt, DecidedAfter, RegionsAfter, StatesOf, UnknownRoots, BranchCurrents,
         Stamped;
  }

  /** Every element passive, but for regulators of the figures in question. */
  ghost predicate OtherwisePassive(inputs: Inputs, iReg: real, vReg: real) {
    forall e :: e in inputs.elements ==>
      !e.curve.Bjt? && (e.curve.Regulator? ==> e.curve.iReg > 0.0 || e.curve == Regulator(iReg, vReg))
  }

  /** A regulator's figures are safe: wherever it is put among passive elements, every solve finds voltages. */
  ghost predicate SafeRegulator(iReg: real, vReg: real) {
    forall c, inputs, lab, s, k: nat ::
      OtherwisePassive(inputs, iReg, vReg) && Solves(c, inputs, lab, s) && k < s.solves ==>
      ThePoint(c, inputs, lab, Stamped(c, inputs, lab, RegionsAfter(c, inputs, lab, k))).Some?
  }

  lemma PositiveIsSafe(iReg: real, vReg: real)
    requires iReg > 0.0
    ensures SafeRegulator(iReg, vReg)
  {
    hide Solves, ThePoint, Stamped, RegionsAfter;
    forall c, inputs, lab, s, k: nat | OtherwisePassive(inputs, iReg, vReg) && Solves(c, inputs, lab, s) && k < s.solves
      ensures ThePoint(c, inputs, lab, Stamped(c, inputs, lab, RegionsAfter(c, inputs, lab, k))).Some?
    {
      assert PassiveElements(inputs);
      PassiveRunSolved(c, inputs, lab, s, k);
    }
  }

  lemma NotPositiveIsUnsafe(iReg: real, vReg: real)
    requires iReg <= 0.0
    ensures !SafeRegulator(iReg, vReg)
  {
    hide Solves, ThePoint, Stamped, RegionsAfter, SolutionOf, Reached, SettledAfter, SettlesAt, DecidedAfter;
    var (c, inputs) := Cancelled(iReg, vReg);
    CancelledAnswer(iReg, vReg);
    CancelledSettles(iReg, vReg);
    assert OtherwisePassive(inputs, iReg, vReg);
    assert Solves(c, inputs, [0, 1], SolutionOf(c, inputs, [0, 1])) && 0 < SolutionOf(c, inputs, [0, 1]).solves;
    assert RegionsAfter(c, inputs, [0, 1], 0) == [Off];
  }

  /** Safe are exactly the regulators of positive current, whatever their knee. */
  lemma RegulatorSafeExactlyWhen(iReg: real, vReg: real)
    ensures SafeRegulator(iReg, vReg) <==> iReg > 0.0
  {
    hide SafeRegulator;
    if iReg > 0.0 {
      PositiveIsSafe(iReg, vReg);
    } else {
      NotPositiveIsUnsafe(iReg, vReg);
    }
  }
}
