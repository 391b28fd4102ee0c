/** One assembly and one elimination: the circuit's operating point, or proof that it has no single one. */
module Linear {
  import opened Options
  import opened Graph
  import opened Sums
  import opened Dense
  import opened Circuit
  import opened Stamping
  import opened Prepare
  import opened Tables

  // ----- what is reached is known -----

  ghost function AllLinks(c: Cluster, inputs: Inputs): set<Link> {
    WireLinks(IndexOf(c.nodes), c.resistors) + ElementLinks(IndexOf(c.nodes), inputs.elements)
  }

  lemma ReachedAcross(c: Cluster, inputs: Inputs, x: nat, y: nat)
    requires Reached(c, inputs, x) && (x, y) in AllLinks(c, inputs)
    ensures Reached(c, inputs, y)
  {
    JoinedLink(AllLinks(c, inputs), x, y);
    FedStep(AllLinks(c, inputs), Seeds(IndexOf(c.nodes), inputs), x, y);
  }

  lemma ReachedLabel(c: Cluster, inputs: Inputs, lab: seq<nat>, x: nat)
    requires Labelling(c, lab) && x < |lab|
    ensures Reached(c, inputs, lab[x]) <==> Reached(c, inputs, x)
  {
    var ix := IndexOf(c.nodes);
    ZeroAmongWires(ix, c.resistors);
    JoinedMonotone(ZeroLinks(ix, c.resistors), AllLinks(c, inputs), x, lab[x]);
    JoinedMonotone(ZeroLinks(ix, c.resistors), AllLinks(c, inputs), lab[x], x);
    if Reached(c, inputs, x) {
      FedStep(AllLinks(c, inputs), Seeds(ix, inputs), x, lab[x]);
    }
    if Reached(c, inputs, lab[x]) {
      FedStep(AllLinks(c, inputs), Seeds(ix, inputs), lab[x], x);
    }
  }

  /** A supernode has a voltage exactly where its nodes are reached. */
  lemma KnownReached(c: Cluster, inputs: Inputs, t: Table, x: nat)
    requires Prepared(c, inputs, t) && x < |c.nodes|
    ensures Reached(c, inputs, x) ==> t.frame.Known(At(t.lab, x))
    ensures t.frame.Compact(At(t.lab, x)).Some? <==> Unknown(c, inputs, t.lab, x)
    ensures t.frame.ConstantAt(At(t.lab, x)) == Constant(t.ix, t.lab, inputs.terminals, At(t.lab, x))
  {
    ReachedLabel(c, inputs, t.lab, x);
  }

  lemma EdgesAreKnown(c: Cluster, inputs: Inputs, t: Table)
    requires Prepared(c, inputs, t)
    ensures EdgesKnown(t.frame, t.edges)
  {
    IndexBounds(c.nodes);
    forall e | e in t.edges
      ensures e.a != e.b && (t.frame.Compact(e.a).Some? ==> t.frame.Known(e.b)) &&
              (t.frame.Compact(e.b).Some? ==> t.frame.Known(e.a))
    {
      var r := EdgeOrigin(t.ix, t.lab, c.resistors, e);
      var a, b := t.ix[r.a], t.ix[r.b];
      assert (a, b) in AllLinks(c, inputs) && (b, a) in AllLinks(c, inputs);
      BothKnown(c, inputs, t, a, b);
    }
  }

  /** Ends of one link: where one is an unknown, both have voltages. */
  lemma BothKnown(c: Cluster, inputs: Inputs, t: Table, a: nat, b: nat)
    requires Prepared(c, inputs, t) && a < |c.nodes| && b < |c.nodes|
    requires (a, b) in AllLinks(c, inputs) && (b, a) in AllLinks(c, inputs)
    ensures t.frame.Compact(At(t.lab, a)).Some? || t.frame.Compact(At(t.lab, b)).Some? ==>
              t.frame.Known(At(t.lab, a)) && t.frame.Known(At(t.lab, b)) && Reached(c, inputs, a) &&
              Reached(c, inputs, b)
  {
    KnownReached(c, inputs, t, a);
    KnownReached(c, inputs, t, b);
    if Reached(c, inputs, a) { ReachedAcross(c, inputs, a, b); }
    if Reached(c, inputs, b) { ReachedAcross(c, inputs, b, a); }
  }

  lemma ElementLinked(c: Cluster, inputs: Inputs, k: nat)
    requires k < |inputs.elements|
    requires inputs.elements[k].a in IndexOf(c.nodes) && inputs.elements[k].b in IndexOf(c.nodes)
    ensures var ix := IndexOf(c.nodes);
            var e := inputs.elements[k];
            (ix[e.a], ix[e.b]) in AllLinks(c, inputs) && (ix[e.b], ix[e.a]) in AllLinks(c, inputs)
  {
    assert inputs.elements[k] in inputs.elements;
  }

  /** A stamp's ends are its element's, and its gain's are its base diode's. */
  lemma StampEnds(ix: Index, lab: seq<nat>, inputs: Inputs, regions: seq<Region>, k: nat) returns (j: nat)
    requires |regions| == |inputs.elements| && k < |regions|
    requires StampsOf(Resolve(ix, lab, inputs), regions)[k].Some?
    ensures var s := StampsOf(Resolve(ix, lab, inputs), regions)[k].value;
            var e := inputs.elements[k];
            && e.a in ix && e.b in ix && s.a == At(lab, ix[e.a]) && s.b == At(lab, ix[e.b])
            && (s.gain.Some? ==>
                  j < |regions| && inputs.elements[j].a in ix && inputs.elements[j].b in ix
                  && s.gain.value.bn == At(lab, ix[inputs.elements[j].a])
                  && s.gain.value.en == At(lab, ix[inputs.elements[j].b]) == s.b)
  {
    ResolvedEnds(ix, lab, inputs, k);
    var e := Resolve(ix, lab, inputs)[k].value;
    j := if e.base.Some? then e.base.value else 0;
    if StampsOf(Resolve(ix, lab, inputs), regions)[k].value.gain.Some? {
      ResolvedEnds(ix, lab, inputs, j);
      var ends := Ends(ix, lab, inputs);
      assert Resolve(ix, lab, inputs)[k] == WithBase(ends, ends[k]);
      assert ends[j].Some? && ends[j].value.b == ends[k].value.b;
    }
  }

  lemma StampsAreKnown(c: Cluster, inputs: Inputs, t: Table, regions: seq<Region>)
    requires Prepared(c, inputs, t) && |regions| == |inputs.elements| == |t.elements|
    ensures forall s :: s in StampsOf(t.elements, regions) && s.Some? ==> StampKnown(t.frame, s.value)
  {
    IndexBounds(c.nodes);
    var stamps := StampsOf(t.elements, regions);
    forall s | s in stamps && s.Some? ensures StampKnown(t.frame, s.value) {
      var k: nat :| k < |stamps| && stamps[k] == s;
      var j := StampEnds(t.ix, t.lab, inputs, regions, k);
      var e := inputs.elements[k];
      ElementLinked(c, inputs, k);
      BothKnown(c, inputs, t, t.ix[e.a], t.ix[e.b]);
      if s.value.gain.Some? {
        var d := inputs.elements[j];
        ElementLinked(c, inputs, j);
        ReachedLabel(c, inputs, t.lab, t.ix[d.b]);
        ReachedLabel(c, inputs, t.lab, t.ix[e.b]);
        if Reached(c, inputs, t.ix[d.b]) {
          ReachedAcross(c, inputs, t.ix[d.b], t.ix[d.a]);
        }
        KnownReached(c, inputs, t, t.ix[d.a]);
      }
    }
  }

  // ----- what is stamped is the circuit -----

  /** Voltages that are equal over supernodes. */
  ghost predicate Even(c: Cluster, lab: seq<nat>, v: seq<real>) {
    Labelling(c, lab) && |v| == |lab| && forall x: nat :: x < |v| ==> v[x] == Volt(v, At(lab, x))
  }

  lemma EdgeTerm(c: Cluster, lab: seq<nat>, root: nat, v: seq<real>, r: Resistor)
    requires Even(c, lab, v)
    ensures var ix := IndexOf(c.nodes);
            ResistorFlow(ix, lab, root, v)(r) ==
            if EdgeOf(ix, lab)(r).Some? then EdgeFlow(root, v)(EdgeOf(ix, lab)(r).value) else 0.0
  {
    var ix := IndexOf(c.nodes);
    IndexBounds(c.nodes);
    if Conducts(ix, r) {
      var a, b := ix[r.a], ix[r.b];
      assert v[a] == Volt(v, At(lab, a)) && v[b] == Volt(v, At(lab, b));
      assert Ohmic(a, b, Siemens(r), v) == Ohmic(At(lab, a), At(lab, b), Siemens(r), v);
    }
  }

  lemma EdgeSum(c: Cluster, lab: seq<nat>, root: nat, v: seq<real>)
    requires Even(c, lab, v)
    ensures var ix := IndexOf(c.nodes);
            Sum(Collect(c.resistors, EdgeOf(ix, lab)), EdgeFlow(root, v)) ==
              Sum(c.resistors, ResistorFlow(ix, lab, root, v))
  {
    var ix := IndexOf(c.nodes);
    forall r | r in c.resistors
      ensures ResistorFlow(ix, lab, root, v)(r) ==
                if EdgeOf(ix, lab)(r).Some? then EdgeFlow(root, v)(EdgeOf(ix, lab)(r).value) else 0.0
    {
      EdgeTerm(c, lab, root, v, r);
    }
    CollectSum(c.resistors, EdgeOf(ix, lab), EdgeFlow(root, v), ResistorFlow(ix, lab, root, v));
  }

  lemma SourceSum(c: Cluster, lab: seq<nat>, given: seq<Source>, root: nat, v: seq<real>)
    requires Even(c, lab, v)
    ensures var ix := IndexOf(c.nodes);
            Sum(Collect(given, NortonOf(ix, lab)), NortonFlow(root, v)) == Sum(given, SourceFlow(ix, lab, root, v))
  {
    var ix := IndexOf(c.nodes);
    IndexBounds(c.nodes);
    forall s | s in given
      ensures SourceFlow(ix, lab, root, v)(s) ==
                if NortonOf(ix, lab)(s).Some? then NortonFlow(root, v)(NortonOf(ix, lab)(s).value) else 0.0
    {
      if ValidSource(ix, s) {
        assert v[ix[s.node]] == Volt(v, At(lab, ix[s.node]));
        SourceFactor(Conductance(s), Volt(v, ix[s.node]), s.volts.r);
      }
    }
    CollectSum(given, NortonOf(ix, lab), NortonFlow(root, v), SourceFlow(ix, lab, root, v));
  }

  lemma SourceFactor(g: real, v: real, e: real)
    ensures g * (v - e) == g * v - e * g
  {
  }

  function PinLeaves(fought: seq<bool>, root: nat, v: seq<real>, pin: (nat, real)): real {
    if pin.0 < |fought| && fought[pin.0] then NortonFlow(root, v)(FloorNorton(pin.0, pin.1)) else 0.0
  }

  function PinFlow(fought: seq<bool>, root: nat, v: seq<real>): ((nat, real)) -> real {
    (pin: (nat, real)) => PinLeaves(fought, root, v, pin)
  }

  lemma PinTerm(fought: seq<bool>, root: nat, v: seq<real>, pin: (nat, real))
    ensures PinFlow(fought, root, v)(pin) ==
            if FoughtNorton(fought)(pin).Some? then NortonFlow(root, v)(FoughtNorton(fought)(pin).value) else 0.0
  {
  }

  lemma TerminalTerm(ix: Index, lab: seq<nat>, fought: seq<bool>, root: nat, isFought: bool, v: seq<real>, t: Terminal)
    requires (root < |fought| && fought[root]) <==> isFought
    requires t.node in ix ==> Volt(v, ix[t.node]) == Volt(v, At(lab, ix[t.node]))
    ensures TerminalFlow(ix, lab, root, isFought, v)(t) ==
            if PinOf(ix, lab)(t).Some? then PinFlow(fought, root, v)(PinOf(ix, lab)(t).value) else 0.0
  {
    if ValidTerminal(ix, t) {
      SourceFactor(FLOOR_SIEMENS, Volt(v, ix[t.node]), t.volts.r);
    }
  }

  lemma TerminalSum(c: Cluster, terminals: seq<Terminal>, lab: seq<nat>, fought: seq<bool>, root: nat, isFought: bool,
                    v: seq<real>)
    requires Even(c, lab, v) && ((root < |fought| && fought[root]) <==> isFought)
    ensures var ix := IndexOf(c.nodes);
            Sum(Collect(Collect(terminals, PinOf(ix, lab)), FoughtNorton(fought)), NortonFlow(root, v)) ==
            Sum(terminals, TerminalFlow(ix, lab, root, isFought, v))
  {
    var ix := IndexOf(c.nodes);
    IndexBounds(c.nodes);
    var pins := Collect(terminals, PinOf(ix, lab));
    forall pin | pin in pins
      ensures PinFlow(fought, root, v)(pin) ==
              if FoughtNorton(fought)(pin).Some? then NortonFlow(root, v)(FoughtNorton(fought)(pin).value) else 0.0
    {
      PinTerm(fought, root, v, pin);
    }
    CollectSum(pins, FoughtNorton(fought), NortonFlow(root, v), PinFlow(fought, root, v));
    forall t | t in terminals
      ensures TerminalFlow(ix, lab, root, isFought, v)(t) ==
              if PinOf(ix, lab)(t).Some? then PinFlow(fought, root, v)(PinOf(ix, lab)(t).value) else 0.0
    {
      if t.node in ix {
        assert v[ix[t.node]] == Volt(v, At(lab, ix[t.node]));
      }
      TerminalTerm(ix, lab, fought, root, isFought, v, t);
    }
    CollectSum(terminals, PinOf(ix, lab), PinFlow(fought, root, v), TerminalFlow(ix, lab, root, isFought, v));
  }

  /** The balance of what was stamped is Kirchhoff's law of the circuit itself. */
  lemma BalanceIsNetCurrent(c: Cluster, inputs: Inputs, t: Table, stamps: seq<Option<Stamp>>, root: nat, v: seq<real>)
    requires Prepared(c, inputs, t) && t.frame.Respects(v)
    ensures Balance(t.ix, t.frame, root, v, t.edges, t.sources, inputs.injections, stamps) ==
            NetCurrent(c, inputs, t.lab, stamps, root, v)
  {
    var fought :| Listed(c, inputs, t, fought);
    assert Even(c, t.lab, v);
    EdgeSum(c, t.lab, root, v);
    SourceSum(c, t.lab, inputs.sources, root, v);
    TerminalSum(c, inputs.terminals, t.lab, fought, root, Fought(t.ix, t.lab, inputs.terminals, root), v);
    SumConcat(Collect(inputs.sources, NortonOf(t.ix, t.lab)), Collect(t.pins, FoughtNorton(fought)),
              NortonFlow(root, v));
  }

  // ----- matrix solutions are operating points -----

  /** The node voltages a solved vector stands for. */
  ghost function Extend(c: Cluster, inputs: Inputs, t: Table, solved: Vector): seq<real> {
    seq(|c.nodes|, x requires 0 <= x < |c.nodes| =>
      if !Reached(c, inputs, x) then 0.0
      else if t.frame.ConstantAt(At(t.lab, x)).Some? then t.frame.ConstantAt(At(t.lab, x)).value
      else if t.frame.Compact(At(t.lab, x)).Some? then Volt(solved, t.frame.Compact(At(t.lab, x)).value)
      else 0.0)
  }

  lemma GroundedRespects(c: Cluster, inputs: Inputs, t: Table, v: seq<real>)
    requires Prepared(c, inputs, t) && Grounded(c, inputs, t.lab, v)
    ensures t.frame.Respects(v)
  {
    forall x: nat | x < |v| && t.frame.ConstantAt(x).Some? ensures v[x] == t.frame.ConstantAt(x).value {
      ConstantIsRoot(c, inputs, t, x);
    }
  }

  lemma ConstantIsRoot(c: Cluster, inputs: Inputs, t: Table, x: nat)
    requires Prepared(c, inputs, t) && t.frame.ConstantAt(x).Some?
    ensures x < |c.nodes| && At(t.lab, x) == x && Reached(c, inputs, x)
  {
    IndexBounds(c.nodes);
    var v := t.frame.ConstantAt(x).value;
    assert HeldAt(t.ix, t.lab, inputs.terminals, x, v);
    var terminal :| terminal in inputs.terminals && ValidTerminal(t.ix, terminal)
                 && At(t.lab, t.ix[terminal.node]) == x && terminal.volts.r == v;
    var node := t.ix[terminal.node];
    assert node in Seeds(t.ix, inputs);
    JoinedSelf(AllLinks(c, inputs), node);
    ReachedLabel(c, inputs, t.lab, node);
  }

  lemma ExtendGrounded(c: Cluster, inputs: Inputs, t: Table, solved: Vector)
    requires Prepared(c, inputs, t) && |solved| == |t.frame.unknowns|
    ensures Grounded(c, inputs, t.lab, Extend(c, inputs, t, solved))
    ensures t.frame.Pick(Extend(c, inputs, t, solved)) == solved
  {
    var v := Extend(c, inputs, t, solved);
    forall x: nat | x < |v|
      ensures v[x] == Volt(v, At(t.lab, x))
      ensures Constant(t.ix, t.lab, inputs.terminals, At(t.lab, x)).Some? ==>
                v[x] == Constant(t.ix, t.lab, inputs.terminals, At(t.lab, x)).value
    {
      ReachedLabel(c, inputs, t.lab, x);
      if t.frame.ConstantAt(At(t.lab, x)).Some? {
        ConstantIsRoot(c, inputs, t, At(t.lab, x));
      }
    }
    forall k: nat | k < |solved| ensures t.frame.Pick(v)[k] == solved[k] {
      var x := t.frame.unknowns[k];
      assert t.frame.Compact(x) == Some(k) && At(t.lab, x) == x;
      KnownReached(c, inputs, t, x);
    }
  }

  lemma GroundedAt(c: Cluster, inputs: Inputs, t: Table, v: seq<real>, x: nat)
    requires Prepared(c, inputs, t) && Grounded(c, inputs, t.lab, v) && x < |v|
    ensures v[x] == Extend(c, inputs, t, t.frame.Pick(v))[x]
  {
    KnownReached(c, inputs, t, x);
    hide Reached, Constant, Labelling, IndexOf, Unknown;
    if Reached(c, inputs, x) && t.frame.ConstantAt(At(t.lab, x)).None? {
      var root := At(t.lab, x);
      assert t.frame.unknowns[t.frame.Compact(root).value] == root;
    }
  }

  /** Grounded voltages are determined by the unknowns. */
  lemma GroundedExtends(c: Cluster, inputs: Inputs, t: Table, v: seq<real>)
    requires Prepared(c, inputs, t) && Grounded(c, inputs, t.lab, v)
    ensures v == Extend(c, inputs, t, t.frame.Pick(v))
  {
    forall x: nat | x < |v| ensures v[x] == Extend(c, inputs, t, t.frame.Pick(v))[x] {
      GroundedAt(c, inputs, t, v, x);
    }
  }

  ghost predicate Assembled(c: Cluster, inputs: Inputs, t: Table, stamps: seq<Option<Stamp>>, sys: System) {
    Prepared(c, inputs, t) && Means(t.ix, t.frame, sys, t.edges, t.sources, inputs.injections, stamps)
  }

  /** A row of the assembled system is Kirchhoff's law at its supernode. */
  lemma RowIsKirchhoff(c: Cluster, inputs: Inputs, t: Table, stamps: seq<Option<Stamp>>, sys: System, v: seq<real>,
                       x: nat)
    requires Assembled(c, inputs, t, stamps, sys) && Grounded(c, inputs, t.lab, v) && Unknown(c, inputs, t.lab, x)
    ensures t.frame.Compact(At(t.lab, x)).Some?
    ensures Residue(t.frame, sys, v, t.frame.Compact(At(t.lab, x)).value) ==
              NetCurrent(c, inputs, t.lab, stamps, At(t.lab, x), v)
  {
    GroundedRespects(c, inputs, t, v);
    KnownReached(c, inputs, t, x);
    BalanceIsNetCurrent(c, inputs, t, stamps, At(t.lab, x), v);
  }

  lemma SolutionIsPoint(c: Cluster, inputs: Inputs, t: Table, stamps: seq<Option<Stamp>>, sys: System, solved: Vector)
    requires Assembled(c, inputs, t, stamps, sys) && Solution(sys.matrix, sys.rhs, solved)
    ensures OperatingPoint(c, inputs, t.lab, stamps, Extend(c, inputs, t, solved))
  {
    var v := Extend(c, inputs, t, solved);
    ExtendGrounded(c, inputs, t, solved);
    forall x: nat | Unknown(c, inputs, t.lab, x) ensures NetCurrent(c, inputs, t.lab, stamps, At(t.lab, x), v) == 0.0 {
      RowIsKirchhoff(c, inputs, t, stamps, sys, v, x);
      var k := t.frame.Compact(At(t.lab, x)).value;
      assert Dot(sys.matrix[k], solved) == sys.rhs[k] * 1.0;
    }
  }

  lemma PointIsSolution(c: Cluster, inputs: Inputs, t: Table, stamps: seq<Option<Stamp>>, sys: System, v: seq<real>)
    requires Assembled(c, inputs, t, stamps, sys) && OperatingPoint(c, inputs, t.lab, stamps, v)
    ensures Solution(sys.matrix, sys.rhs, t.frame.Pick(v))
  {
    forall k | 0 <= k < |sys.rhs| ensures Dot(sys.matrix[k], t.frame.Pick(v)) == sys.rhs[k] * 1.0 {
      var x := t.frame.unknowns[k];
      assert t.frame.Compact(x) == Some(k) && At(t.lab, x) == x;
      KnownReached(c, inputs, t, x);
      RowIsKirchhoff(c, inputs, t, stamps, sys, v, x);
    }
  }

  lemma SolvedIsThePoint(c: Cluster, inputs: Inputs, t: Table, stamps: seq<Option<Stamp>>, sys: System, solved: Vector)
    requires Assembled(c, inputs, t, stamps, sys) && Solution(sys.matrix, sys.rhs, solved)
    requires forall w :: Solution(sys.matrix, sys.rhs, w) ==> w == solved
    ensures ThePoint(c, inputs, t.lab, stamps) == Some(Extend(c, inputs, t, solved))
  {
    var v := Extend(c, inputs, t, solved);
    SolutionIsPoint(c, inputs, t, stamps, sys, solved);
    forall w | OperatingPoint(c, inputs, t.lab, stamps, w) ensures w == v {
      PointIsSolution(c, inputs, t, stamps, sys, w);
      GroundedExtends(c, inputs, t, w);
    }
    assert OnlyPoint(c, inputs, t.lab, stamps, v);
  }

  /** What leaves a supernode at the voltages a vector stands for: its row at that vector. */
  lemma RowAt(c: Cluster, inputs: Inputs, t: Table, stamps: seq<Option<Stamp>>, sys: System, w: Vector, x: nat)
    returns (k: nat)
    requires Assembled(c, inputs, t, stamps, sys) && |w| == |sys.rhs| && Unknown(c, inputs, t.lab, x)
    ensures k < |sys.rhs| && |sys.matrix| == |sys.rhs| && |sys.matrix[k]| == |w|
    ensures t.frame.Compact(At(t.lab, x)) == Some(k)
    ensures NetCurrent(c, inputs, t.lab, stamps, At(t.lab, x), Extend(c, inputs, t, w)) ==
              Dot(sys.matrix[k], w) - sys.rhs[k]
  {
    ExtendGrounded(c, inputs, t, w);
    RowIsKirchhoff(c, inputs, t, stamps, sys, Extend(c, inputs, t, w), x);
    k := t.frame.Compact(At(t.lab, x)).value;
  }

  lemma KernelSameCurrent(c: Cluster, inputs: Inputs, t: Table, stamps: seq<Option<Stamp>>, sys: System, w: Vector,
                          zero: Vector, x: nat)
    requires Assembled(c, inputs, t, stamps, sys) && |w| == |sys.rhs| && KernelVector(sys.matrix, w)
    requires Unknown(c, inputs, t.lab, x) && zero == seq(|w|, _ => 0.0)
    ensures NetCurrent(c, inputs, t.lab, stamps, At(t.lab, x), Extend(c, inputs, t, zero)) ==
            NetCurrent(c, inputs, t.lab, stamps, At(t.lab, x), Extend(c, inputs, t, w))
  {
    var k := RowAt(c, inputs, t, stamps, sys, zero, x);
    var k' := RowAt(c, inputs, t, stamps, sys, w, x);
    DotZero(sys.matrix[k], zero, |w|);
    assert Dot(sys.matrix[k], w) == 0.0;
  }

  lemma ExtendApart(c: Cluster, inputs: Inputs, t: Table, v: Vector, w: Vector)
    requires Prepared(c, inputs, t) && |v| == |w| == |t.frame.unknowns| && v != w
    ensures Extend(c, inputs, t, v) != Extend(c, inputs, t, w)
  {
    ExtendGrounded(c, inputs, t, v);
    ExtendGrounded(c, inputs, t, w);
  }

  /** Voltages moved along a kernel vector of the matrix draw the same currents. */
  lemma KernelUndetermined(c: Cluster, inputs: Inputs, t: Table, stamps: seq<Option<Stamp>>, sys: System, w: Vector)
    requires Assembled(c, inputs, t, stamps, sys) && |w| == |sys.rhs| && KernelVector(sys.matrix, w)
    ensures Undetermined(c, inputs, t.lab, stamps)
    ensures ThePoint(c, inputs, t.lab, stamps).None?
  {
    var zero := seq(|w|, _ => 0.0);
    var j :| 0 <= j < |w| && w[j] != 0.0;
    assert zero[j] != w[j];
    ExtendApart(c, inputs, t, zero, w);
    assert Grounded(c, inputs, t.lab, Extend(c, inputs, t, zero)) by { ExtendGrounded(c, inputs, t, zero); }
    assert Grounded(c, inputs, t.lab, Extend(c, inputs, t, w)) by { ExtendGrounded(c, inputs, t, w); }
    forall x: nat | Unknown(c, inputs, t.lab, x)
      ensures NetCurrent(c, inputs, t.lab, stamps, At(t.lab, x), Extend(c, inputs, t, zero)) ==
              NetCurrent(c, inputs, t.lab, stamps, At(t.lab, x), Extend(c, inputs, t, w))
    {
      KernelSameCurrent(c, inputs, t, stamps, sys, w, zero, x);
    }
    if ThePoint(c, inputs, t.lab, stamps).Some? {
      NotOnly(c, inputs, t, stamps, sys, w, ThePoint(c, inputs, t.lab, stamps).value);
    }
  }

  lemma NotOnly(c: Cluster, inputs: Inputs, t: Table, stamps: seq<Option<Stamp>>, sys: System, w: Vector, v: seq<real>)
    requires Assembled(c, inputs, t, stamps, sys) && |w| == |sys.rhs| && KernelVector(sys.matrix, w)
    requires OperatingPoint(c, inputs, t.lab, stamps, v)
    ensures !OnlyPoint(c, inputs, t.lab, stamps, v)
  {
    PointIsSolution(c, inputs, t, stamps, sys, v);
    var p := t.frame.Pick(v);
    var moved := seq(|w|, k requires 0 <= k < |w| == |p| => p[k] + w[k]);
    forall k | 0 <= k < |w| ensures Dot(sys.matrix[k], moved) == sys.rhs[k] * 1.0 {
      DotDifference(sys.matrix[k], moved, w, p, |w|);
      assert Dot(sys.matrix[k], w) == 0.0 && Dot(sys.matrix[k], p) == sys.rhs[k] * 1.0;
    }
    SolutionIsPoint(c, inputs, t, stamps, sys, moved);
    ExtendGrounded(c, inputs, t, moved);
    var j :| 0 <= j < |w| && w[j] != 0.0;
    assert p[j] != moved[j];
  }

  /**
   * One assembly and elimination with the elements in the given regions: the operating point when there is
   * exactly one, and otherwise nothing, the law being unable to tell two voltages apart.
   */
  method SolveOnce(c: Cluster, inputs: Inputs, t: Table, stamps: seq<Option<Stamp>>, ghost regions: seq<Region>)
    returns (solved: Option<Vector>)
    requires Prepared(c, inputs, t) && |regions| == |inputs.elements| == |t.elements|
    requires stamps == StampsOf(t.elements, regions)
    ensures solved.Some? ==> |solved.value| == |t.frame.unknowns|
                             && ThePoint(c, inputs, t.lab, stamps) == Some(Extend(c, inputs, t, solved.value))
    ensures solved.None? ==> ThePoint(c, inputs, t.lab, stamps).None? && Undetermined(c, inputs, t.lab, stamps)
  {
    EdgesAreKnown(c, inputs, t);
    StampsAreKnown(c, inputs, t, regions);
    var sys := AssembleLinear(t.ix, t.frame, t.edges, t.sources, inputs.injections);
    sys := StampElements(t.ix, t.frame, t.edges, t.sources, inputs.injections, stamps, sys);
    assert Assembled(c, inputs, t, stamps, sys);
    solved := SolveDense(sys.matrix, sys.rhs);
    if solved.Some? {
      SolvedIsThePoint(c, inputs, t, stamps, sys, solved.value);
    } else {
      ghost var w :| KernelVector(sys.matrix, w);
      KernelUndetermined(c, inputs, t, stamps, sys, w);
    }
  }
}
