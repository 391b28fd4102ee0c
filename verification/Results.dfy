/** What a solve's answer promises about the circuit it was handed. */
module Results {
  import opened Options
  import opened Graph
  import opened Circuit
  import opened Prepare
  import opened Tables
  import opened Linear
  import opened Passive
  import opened Regions

  // ----- clusters without an element -----

  ghost predicate NoElements(c: Cluster, inputs: Inputs) {
    var ix := IndexOf(c.nodes);
    forall e :: e in inputs.elements ==> e.a !in ix || e.b !in ix
  }

  lemma {:induction false} NonePresent(elements: seq<Option<Resolved>>)
    requires forall k :: 0 <= k < |elements| ==> elements[k].None?
    ensures CountPresent(elements) == 0
  {
    if |elements| > 0 {
      NonePresent(elements[..|elements| - 1]);
    }
  }

  lemma {:induction false} SomePresent(elements: seq<Option<Resolved>>, k: nat)
    requires k < |elements| && elements[k].Some?
    ensures CountPresent(elements) > 0
  {
    if k < |elements| - 1 {
      SomePresent(elements[..|elements| - 1], k);
    }
  }

  /** The solver takes its linear path exactly when no element has both ends inside. */
  lemma NoElementsCounted(c: Cluster, inputs: Inputs, lab: seq<nat>)
    ensures NoElements(c, inputs) <==> ElementCount(c, inputs, lab) == 0
  {
    var ix := IndexOf(c.nodes);
    var elements := Resolve(ix, lab, inputs);
    forall k: nat | k < |elements|
      ensures elements[k].Some? <==> inputs.elements[k].a in ix && inputs.elements[k].b in ix
    {
      ResolvedEnds(ix, lab, inputs, k);
    }
    if NoElements(c, inputs) {
      forall k: nat | k < |elements| ensures elements[k].None? {
        assert inputs.elements[k] in inputs.elements;
      }
      NonePresent(elements);
    } else {
      var e :| e in inputs.elements && e.a in ix && e.b in ix;
      var k: nat :| k < |inputs.elements| && inputs.elements[k] == e;
      SomePresent(elements, k);
    }
  }

  lemma NoStamps(c: Cluster, inputs: Inputs, lab: seq<nat>, regions: seq<Region>)
    requires NoElements(c, inputs) && |regions| == |inputs.elements|
    ensures PlainStamps(Stamped(c, inputs, lab, regions))
  {
    var stamps := Stamped(c, inputs, lab, regions);
    forall s | s in stamps ensures s.None? {
      var k: nat :| k < |stamps| && stamps[k] == s;
      ResolvedEnds(IndexOf(c.nodes), lab, inputs, k);
      assert inputs.elements[k] in inputs.elements;
    }
  }

  /** What a path of zero-ohm edges and finite positive resistors joins to a valid source or finite terminal. */
  ghost predicate Wired(c: Cluster, inputs: Inputs, x: nat) {
    FedFrom(WireLinks(IndexOf(c.nodes), c.resistors), Seeds(IndexOf(c.nodes), inputs), x)
  }

  lemma WiredIsReached(c: Cluster, inputs: Inputs, x: nat)
    requires NoElements(c, inputs)
    ensures Wired(c, inputs, x) <==> Reached(c, inputs, x)
  {
    var ix := IndexOf(c.nodes);
    assert ElementLinks(ix, inputs.elements) == {};
    assert WireLinks(ix, c.resistors) + {} == WireLinks(ix, c.resistors);
  }

  /** The voltages a solve without elements found: the circuit's one operating point. */
  ghost function LinearPoint(c: Cluster, inputs: Inputs, lab: seq<nat>): Option<seq<real>> {
    ThePoint(c, inputs, lab, Stamped(c, inputs, lab, AllOff(|inputs.elements|)))
  }

  /** Without elements the solve always has its one operating point: the reach leaves nothing singular. */
  lemma LinearSolved(c: Cluster, inputs: Inputs, lab: seq<nat>, s: ClusterSolution)
    requires Solves(c, inputs, lab, s) && NoElements(c, inputs)
    ensures s.converged && s.solves == 1
    ensures LinearPoint(c, inputs, lab).Some?
    ensures OnlyPoint(c, inputs, lab, Stamped(c, inputs, lab, AllOff(|inputs.elements|)),
                      LinearPoint(c, inputs, lab).value)
  {
    NoElementsCounted(c, inputs, lab);
    var off := AllOff(|inputs.elements|);
    assert DecidedAfter(c, inputs, lab, 0);
    assert RegionsAfter(c, inputs, lab, 0) == off;
    NoStamps(c, inputs, lab, off);
    PassiveDetermined(c, inputs, lab, off);
  }

  lemma ConstantReached(c: Cluster, inputs: Inputs, lab: seq<nat>, x: nat)
    requires Labelling(c, lab) && x < |c.nodes|
    ensures Constant(IndexOf(c.nodes), lab, inputs.terminals, At(lab, x)).Some? ==> Reached(c, inputs, x)
  {
    var ix := IndexOf(c.nodes);
    var held := Constant(ix, lab, inputs.terminals, At(lab, x));
    if held.Some? {
      IndexBounds(c.nodes);
      var t :| t in inputs.terminals && ValidTerminal(ix, t) && At(lab, ix[t.node]) == At(lab, x) &&
               t.volts.r == held.value;
      var node := ix[t.node];
      assert node in Seeds(ix, inputs);
      JoinedSelf(AllLinks(c, inputs), node);
      ReachedLabel(c, inputs, lab, node);
      ReachedLabel(c, inputs, lab, x);
    }
  }

  /**
   * Without elements: a node floats exactly where nothing wires it to a source or terminal, and every other
   * node is at its voltage in the one solution of Kirchhoff's law.
   */
  lemma LinearStates(c: Cluster, inputs: Inputs, lab: seq<nat>, s: ClusterSolution, k: nat)
    requires Solves(c, inputs, lab, s) && NoElements(c, inputs) && k < |c.nodes|
    ensures |s.nodeStates| == |c.nodes| && s.nodeStates[k].0 == c.nodes[k]
    ensures c.nodes[k] in IndexOf(c.nodes) && LinearPoint(c, inputs, lab).Some?
    ensures var x := IndexOf(c.nodes)[c.nodes[k]];
            && (s.nodeStates[k].1 == Floating <==> !Wired(c, inputs, x))
            && (Wired(c, inputs, x) ==> s.nodeStates[k].1 == Analog(Volt(LinearPoint(c, inputs, lab).value, x)))
  {
    LinearSolved(c, inputs, lab, s);
    NoElementsCounted(c, inputs, lab);
    IndexBounds(c.nodes);
    var x := IndexOf(c.nodes)[c.nodes[k]];
    var off := AllOff(|inputs.elements|);
    var stamps := Stamped(c, inputs, lab, off);
    WiredIsReached(c, inputs, x);
    ConstantReached(c, inputs, lab, x);
    assert s.nodeStates[k] == StateEntry(c, inputs, lab, stamps, true, k);
    assert Grounded(c, inputs, lab, LinearPoint(c, inputs, lab).value);
  }

  /**
   * The maximum principle, of the answer: without elements or injections every published voltage lies
   * between the lowest and the highest a valid source or finite terminal declares.
   */
  lemma LinearMaximum(c: Cluster, inputs: Inputs, lab: seq<nat>, s: ClusterSolution, low: real, high: real, k: nat)
    requires Solves(c, inputs, lab, s) && NoElements(c, inputs) && k < |c.nodes|
    requires NoInjections(IndexOf(c.nodes), inputs.injections)
    requires DrivenAbove(IndexOf(c.nodes), inputs, low) && DrivenBelow(IndexOf(c.nodes), inputs, high)
    ensures |s.nodeStates| == |c.nodes|
    ensures s.nodeStates[k].1.Analog? ==> low <= s.nodeStates[k].1.volts <= high
  {
    var off := AllOff(|inputs.elements|);
    LinearSolved(c, inputs, lab, s);
    LinearStates(c, inputs, lab, s, k);
    NoStamps(c, inputs, lab, off);
    IndexBounds(c.nodes);
    var x := IndexOf(c.nodes)[c.nodes[k]];
    WiredIsReached(c, inputs, x);
    MaximumPrinciple(c, inputs, lab, off, LinearPoint(c, inputs, lab).value, low, high);
  }

  /** A cluster whose sources all agree sits exactly at their voltage. */
  lemma LinearAgreement(c: Cluster, inputs: Inputs, lab: seq<nat>, s: ClusterSolution, volts: real, k: nat)
    requires Solves(c, inputs, lab, s) && NoElements(c, inputs) && k < |c.nodes|
    requires NoInjections(IndexOf(c.nodes), inputs.injections)
    requires DrivenAbove(IndexOf(c.nodes), inputs, volts) && DrivenBelow(IndexOf(c.nodes), inputs, volts)
    ensures |s.nodeStates| == |c.nodes| && (s.nodeStates[k].1 == Floating || s.nodeStates[k].1 == Analog(volts))
  {
    LinearMaximum(c, inputs, lab, s, volts, volts, k);
  }

  // ----- every cluster -----

  /** The elements' stamps of the last solve. */
  ghost function LastStamps(c: Cluster, inputs: Inputs, lab: seq<nat>, s: ClusterSolution): (stamps: seq<Option<Stamp>>)
    ensures |stamps| == |inputs.elements|
  {
    Stamped(c, inputs, lab, RegionsAfter(c, inputs, lab, if s.solves > 0 then s.solves - 1 else 0))
  }

  lemma ColdStart(c: Cluster, inputs: Inputs, lab: seq<nat>)
    ensures RegionsAfter(c, inputs, lab, 0) == AllOff(|inputs.elements|)
  {
  }

  lemma AnswerState(c: Cluster, inputs: Inputs, lab: seq<nat>, s: ClusterSolution, k: nat)
    requires Solves(c, inputs, lab, s) && k < |c.nodes|
    ensures Labelling(c, lab) && s.solves >= 1 && |s.nodeStates| == |c.nodes|
    ensures c.nodes[k] in IndexOf(c.nodes) && IndexOf(c.nodes)[c.nodes[k]] < |c.nodes|
    ensures var x := IndexOf(c.nodes)[c.nodes[k]];
            var stamps := LastStamps(c, inputs, lab, s);
            s.nodeStates[k] ==
              (c.nodes[k], StateAt(c, inputs, lab, stamps, Published(c, inputs, lab, stamps, s.converged, x), x))
  {
    IndexBounds(c.nodes);
    hide StateAt, Published, Labelling, SettlesAt, SettledAfter, RegionsAfter, Stamped, BranchCurrents, UnknownRoots,
         DecidedAfter, ElementCount;
    assert RegionsAfter(c, inputs, lab, 0) == AllOff(|inputs.elements|) by { ColdStart(c, inputs, lab); }
    assert s.nodeStates[k] == StateEntry(c, inputs, lab, LastStamps(c, inputs, lab, s), s.converged, k);
  }

  lemma FedOverZero(c: Cluster, inputs: Inputs, stamps: seq<Option<Stamp>>, x: nat, y: nat)
    requires Fed(c, inputs, stamps, x) && Joined(ZeroLinks(IndexOf(c.nodes), c.resistors), x, y)
    ensures Fed(c, inputs, stamps, y)
  {
    var ix := IndexOf(c.nodes);
    var links := WireLinks(ix, c.resistors) + ConductLinks(ix, inputs.elements, stamps);
    ZeroAmongWires(ix, c.resistors);
    JoinedMonotone(ZeroLinks(ix, c.resistors), links, x, y);
    FedStep(links, Seeds(ix, inputs), x, y);
  }

  lemma SameState(c: Cluster, inputs: Inputs, lab: seq<nat>, stamps: seq<Option<Stamp>>, converged: bool, x: nat,
                  y: nat)
    requires Labelling(c, lab) && x < |lab| && y < |lab| && lab[x] == lab[y]
    ensures StateAt(c, inputs, lab, stamps, Published(c, inputs, lab, stamps, converged, x), x) ==
            StateAt(c, inputs, lab, stamps, Published(c, inputs, lab, stamps, converged, y), y)
  {
    ReachedLabel(c, inputs, lab, x);
    ReachedLabel(c, inputs, lab, y);
    if Fed(c, inputs, stamps, x) { FedOverZero(c, inputs, stamps, x, y); }
    if Fed(c, inputs, stamps, y) { FedOverZero(c, inputs, stamps, y, x); }
    var point := ThePoint(c, inputs, lab, stamps);
    if point.Some? {
      assert Grounded(c, inputs, lab, point.value);
      assert point.value[x] == Volt(point.value, At(lab, x)) && point.value[y] == Volt(point.value, At(lab, y));
    }
  }

  /** Nodes a chain of zero-ohm edges joins share one state, whatever the elements do. */
  lemma SupernodeStates(c: Cluster, inputs: Inputs, lab: seq<nat>, s: ClusterSolution, j: nat, k: nat)
    requires Solves(c, inputs, lab, s) && j < |c.nodes| && k < |c.nodes|
    requires Joined(ZeroLinks(IndexOf(c.nodes), c.resistors), IndexOf(c.nodes)[c.nodes[j]],
                    IndexOf(c.nodes)[c.nodes[k]])
    ensures |s.nodeStates| == |c.nodes| && s.nodeStates[j].1 == s.nodeStates[k].1
  {
    hide Solves, StateAt, Published, LastStamps;
    AnswerState(c, inputs, lab, s, j);
    AnswerState(c, inputs, lab, s, k);
    SameState(c, inputs, lab, LastStamps(c, inputs, lab, s), s.converged, IndexOf(c.nodes)[c.nodes[j]],
              IndexOf(c.nodes)[c.nodes[k]]);
  }

  /** A node whose supernode's terminals agree on a voltage is at exactly that voltage, whatever else happens. */
  lemma TerminalHolds(c: Cluster, inputs: Inputs, lab: seq<nat>, s: ClusterSolution, k: nat, volts: real)
    requires Solves(c, inputs, lab, s) && k < |c.nodes|
    requires HeldAt(IndexOf(c.nodes), lab, inputs.terminals, At(lab, IndexOf(c.nodes)[c.nodes[k]]), volts)
    requires !Fought(IndexOf(c.nodes), lab, inputs.terminals, At(lab, IndexOf(c.nodes)[c.nodes[k]]))
    ensures |s.nodeStates| == |c.nodes| && s.nodeStates[k].1 == Analog(volts)
  {
    hide Solves, LastStamps;
    AnswerState(c, inputs, lab, s, k);
  }

  // ----- clusters with elements -----

  /**
   * The flip loop: between one and `2N` solves, ending at the first whose tests all agree or at the bound;
   * an unsettled run reports every element off and no branch current.
   */
  lemma FlipLoopBounded(c: Cluster, inputs: Inputs, lab: seq<nat>, s: ClusterSolution)
    requires Solves(c, inputs, lab, s) && !NoElements(c, inputs)
    ensures 1 <= s.solves <= 2 * ElementCount(c, inputs, lab)
    ensures s.converged <==> SettledAfter(c, inputs, lab, s.solves - 1)
    ensures forall j: nat :: j < s.solves - 1 ==> !SettledAfter(c, inputs, lab, j)
    ensures !s.converged ==> s.solves == 2 * ElementCount(c, inputs, lab)
    ensures s.regions == if s.converged then RegionsAfter(c, inputs, lab, s.solves - 1) else AllOff(|inputs.elements|)
    ensures |s.branchCurrents| == |inputs.elements|
    ensures !s.converged ==> forall k :: 0 <= k < |s.branchCurrents| ==> s.branchCurrents[k] == None
  {
    NoElementsCounted(c, inputs, lab);
    hide Labelling, SettledAfter, DecidedAfter, SettlesAt, StatesOf, UnknownRoots, ElementCount, NoElements;
    SettlesFirst(c, inputs, lab, PWL_SOLVES_PER_ELEMENT * ElementCount(c, inputs, lab));
  }

  /** Each flip moves the lowest-index element whose test disagrees, to the region its test names, and no other. */
  lemma FlipMovesOne(c: Cluster, inputs: Inputs, lab: seq<nat>, k: nat) returns (i: nat)
    requires !SettledAfter(c, inputs, lab, k)
    ensures var before := RegionsAfter(c, inputs, lab, k);
            var wanted := WantedAt(c, inputs, lab, before);
            && i < |before| && wanted[i] != before[i] && wanted[..i] == before[..i]
            && RegionsAfter(c, inputs, lab, k + 1) == before[i := wanted[i]]
  {
    hide WantedAt;
    var before := RegionsAfter(c, inputs, lab, k);
    i := FirstDisagreement(WantedAt(c, inputs, lab, before), before).value;
  }

  lemma SettledNames(c: Cluster, inputs: Inputs, lab: seq<nat>, regions: seq<Region>, k: nat)
    requires |regions| == |inputs.elements| && Settled(c, inputs, lab, regions) && k < |regions|
    ensures var stamps := Stamped(c, inputs, lab, regions);
            var e := Resolve(IndexOf(c.nodes), lab, inputs)[k];
            e.Some? ==> regions[k] == Names(e.value, regions[k], VoltagesAt(c, inputs, lab, stamps), stamps)
  {
    hide Names, VoltagesAt, Stamped, Resolve;
    assert WantedAt(c, inputs, lab, regions)[k] == regions[k];
  }

  /** A settled answer: every element is in the region its own test names at the answer's own voltages. */
  lemma ConvergedAgrees(c: Cluster, inputs: Inputs, lab: seq<nat>, s: ClusterSolution, k: nat)
    requires Solves(c, inputs, lab, s) && !NoElements(c, inputs) && s.converged && k < |inputs.elements|
    ensures |s.regions| == |inputs.elements| && LastStamps(c, inputs, lab, s) == Stamped(c, inputs, lab, s.regions)
    ensures var stamps := Stamped(c, inputs, lab, s.regions);
            var e := Resolve(IndexOf(c.nodes), lab, inputs)[k];
            e.Some? ==> s.regions[k] == Names(e.value, s.regions[k], VoltagesAt(c, inputs, lab, stamps), stamps)
  {
    hide Solves, Settled, NoElements, RegionsAfter, Stamped, ElementCount, Names, VoltagesAt, Resolve;
    FlipLoopBounded(c, inputs, lab, s);
    SettledNames(c, inputs, lab, s.regions, k);
  }

  /**
   * A published voltage that is no terminal's constant is the circuit's one operating point, at a node fed
   * from a source over resistors and more-than-leakage stamps, in a settled run.
   */
  lemma PublishedIsFed(c: Cluster, inputs: Inputs, lab: seq<nat>, s: ClusterSolution, k: nat)
    requires Solves(c, inputs, lab, s) && !NoElements(c, inputs) && k < |c.nodes|
    ensures |s.nodeStates| == |c.nodes| && c.nodes[k] in IndexOf(c.nodes)
    ensures var x := IndexOf(c.nodes)[c.nodes[k]];
            var stamps := LastStamps(c, inputs, lab, s);
            var held := Constant(IndexOf(c.nodes), lab, inputs.terminals, At(lab, x));
            if held.Some? then s.nodeStates[k].1 == Analog(held.value)
            else s.nodeStates[k].1.Analog? <==>
                   s.converged && Fed(c, inputs, stamps, x) && Unknown(c, inputs, lab, x) &&
                   ThePoint(c, inputs, lab, stamps).Some?
    ensures var x := IndexOf(c.nodes)[c.nodes[k]];
            s.nodeStates[k].1.Analog? && Constant(IndexOf(c.nodes), lab, inputs.terminals, At(lab, x)).None? ==>
              s.nodeStates[k].1.volts == Volt(ThePoint(c, inputs, lab, LastStamps(c, inputs, lab, s)).value, x)
  {
    NoElementsCounted(c, inputs, lab);
    hide Solves, LastStamps, Fed, Unknown, ThePoint, Constant, ElementCount, NoElements;
    AnswerState(c, inputs, lab, s, k);
  }

  /** An unsettled run publishes exactly the terminals' constants. */
  lemma UnsettledFloats(c: Cluster, inputs: Inputs, lab: seq<nat>, s: ClusterSolution, k: nat)
    requires Solves(c, inputs, lab, s) && !NoElements(c, inputs) && !s.converged && k < |c.nodes|
    ensures |s.nodeStates| == |c.nodes| && c.nodes[k] in IndexOf(c.nodes)
    ensures var held := Constant(IndexOf(c.nodes), lab, inputs.terminals, At(lab, IndexOf(c.nodes)[c.nodes[k]]));
            s.nodeStates[k].1 == if held.Some? then Analog(held.value) else Floating
  {
    hide Solves, LastStamps, Fed, Unknown, ThePoint, Constant, NoElements;
    PublishedIsFed(c, inputs, lab, s, k);
  }

  // ----- branch currents -----

  lemma AnswerCurrents(c: Cluster, inputs: Inputs, lab: seq<nat>, s: ClusterSolution)
    requires Solves(c, inputs, lab, s) && !NoElements(c, inputs)
    ensures s.branchCurrents == BranchCurrents(c, inputs, lab, LastStamps(c, inputs, lab, s), s.converged)
  {
    NoElementsCounted(c, inputs, lab);
    hide NoElements, ElementCount, BranchCurrents, StatesOf, UnknownRoots, RegionsAfter, Stamped, SettlesAt, Labelling,
         DecidedAfter;
  }

  ghost predicate Reads(voltages: Voltages, v: seq<real>, x: nat) {
    VoltAt(voltages, x) == Some(Volt(v, x))
  }

  lemma CurrentRead(s: Stamp, voltages: Voltages, v: seq<real>)
    requires Reads(voltages, v, s.a) && Reads(voltages, v, s.b)
    requires s.gain.Some? ==> Reads(voltages, v, s.gain.value.bn) && Reads(voltages, v, s.gain.value.en)
    ensures CurrentAt(s, voltages) == Some(StampCurrent(s, v))
  {
  }

  /** Every supernode a stamp names is reached where its ends are. */
  lemma StampReached(c: Cluster, inputs: Inputs, lab: seq<nat>, regions: seq<Region>, k: nat)
    requires Labelling(c, lab) && |regions| == |inputs.elements| && k < |regions|
    requires Stamped(c, inputs, lab, regions)[k].Some?
    ensures var s := Stamped(c, inputs, lab, regions)[k].value;
            && At(lab, s.a) == s.a < |lab| && At(lab, s.b) == s.b < |lab|
            && (s.gain.Some? ==> At(lab, s.gain.value.bn) == s.gain.value.bn < |lab| && s.gain.value.en == s.b
                                 && (Reached(c, inputs, s.b) ==> Reached(c, inputs, s.gain.value.bn)))
  {
    var ix := IndexOf(c.nodes);
    IndexBounds(c.nodes);
    var s := Stamped(c, inputs, lab, regions)[k].value;
    var j := StampEnds(ix, lab, inputs, regions, k);
    hide Reached, Resolve, StampsOf;
    if s.gain.Some? && Reached(c, inputs, s.b) {
      var d := inputs.elements[j];
      ElementLinked(c, inputs, j);
      ReachedLabel(c, inputs, lab, ix[d.b]);
      ReachedAcross(c, inputs, ix[d.b], ix[d.a]);
      ReachedLabel(c, inputs, lab, ix[d.a]);
    }
  }

  /** A stamp's current read off the solve's voltages is its current in Kirchhoff's law. */
  lemma CurrentInLaw(c: Cluster, inputs: Inputs, lab: seq<nat>, regions: seq<Region>, k: nat, v: seq<real>)
    requires Labelling(c, lab) && |regions| == |inputs.elements| && k < |regions|
    requires ThePoint(c, inputs, lab, Stamped(c, inputs, lab, regions)) == Some(v)
    requires Stamped(c, inputs, lab, regions)[k].Some?
    requires Reached(c, inputs, Stamped(c, inputs, lab, regions)[k].value.a) &&
             Reached(c, inputs, Stamped(c, inputs, lab, regions)[k].value.b)
    ensures var stamps := Stamped(c, inputs, lab, regions);
            CurrentAt(stamps[k].value, VoltagesAt(c, inputs, lab, stamps)) == Some(StampCurrent(stamps[k].value, v))
  {
    hide Labelling, ThePoint, Stamped, Reached, VoltagesAt, CurrentAt, StampCurrent;
    var stamps := Stamped(c, inputs, lab, regions);
    var s := stamps[k].value;
    StampReached(c, inputs, lab, regions, k);
    LabelVoltage(c, inputs, lab, stamps, v, s.a);
    LabelVoltage(c, inputs, lab, stamps, v, s.b);
    if s.gain.Some? {
      LabelVoltage(c, inputs, lab, stamps, v, s.gain.value.bn);
    }
    CurrentRead(s, VoltagesAt(c, inputs, lab, stamps), v);
  }

  lemma LabelVoltage(c: Cluster, inputs: Inputs, lab: seq<nat>, stamps: seq<Option<Stamp>>, v: seq<real>, x: nat)
    requires Labelling(c, lab) && x < |lab| && At(lab, x) == x && Reached(c, inputs, x)
    requires ThePoint(c, inputs, lab, stamps) == Some(v)
    ensures Reads(VoltagesAt(c, inputs, lab, stamps), v, x)
  {
    assert Grounded(c, inputs, lab, v);
  }

  lemma ConductAmongElements(c: Cluster, inputs: Inputs, stamps: seq<Option<Stamp>>)
    ensures ConductLinks(IndexOf(c.nodes), inputs.elements, stamps) <= ElementLinks(IndexOf(c.nodes), inputs.elements)
  {
    var ix := IndexOf(c.nodes);
    forall k: nat | k < |inputs.elements| && inputs.elements[k].a in ix && inputs.elements[k].b in ix
      ensures (ix[inputs.elements[k].a], ix[inputs.elements[k].b]) in ElementLinks(ix, inputs.elements)
      ensures (ix[inputs.elements[k].b], ix[inputs.elements[k].a]) in ElementLinks(ix, inputs.elements)
    {
      assert inputs.elements[k] in inputs.elements;
    }
  }

  /** What more than leakage feeds is reached: an element conducts in every region. */
  lemma FedIsReached(c: Cluster, inputs: Inputs, stamps: seq<Option<Stamp>>, x: nat)
    requires Fed(c, inputs, stamps, x)
    ensures Reached(c, inputs, x)
  {
    var ix := IndexOf(c.nodes);
    var narrow := WireLinks(ix, c.resistors) + ConductLinks(ix, inputs.elements, stamps);
    var wide := WireLinks(ix, c.resistors) + ElementLinks(ix, inputs.elements);
    ConductAmongElements(c, inputs, stamps);
    var s :| s in Seeds(ix, inputs) && Joined(narrow, s, x);
    JoinedMonotone(narrow, wide, s, x);
  }

  /** A supernode has a voltage between solves exactly where it is reached, once the solve has found its point. */
  lemma VoltageWhereReached(c: Cluster, inputs: Inputs, lab: seq<nat>, stamps: seq<Option<Stamp>>, x: nat)
    requires Labelling(c, lab) && x < |lab| && At(lab, x) == x && ThePoint(c, inputs, lab, stamps).Some?
    ensures VoltAt(VoltagesAt(c, inputs, lab, stamps), x).Some? <==> Reached(c, inputs, x)
  {
    ConstantReached(c, inputs, lab, x);
    hide ThePoint, Reached, Constant, Labelling;
  }

  lemma FedCurrent(c: Cluster, inputs: Inputs, lab: seq<nat>, regions: seq<Region>, k: nat, v: seq<real>)
    requires Labelling(c, lab) && |regions| == |inputs.elements| && k < |regions|
    requires ThePoint(c, inputs, lab, Stamped(c, inputs, lab, regions)) == Some(v)
    requires Stamped(c, inputs, lab, regions)[k].Some?
    ensures var stamps := Stamped(c, inputs, lab, regions);
            var s := stamps[k].value;
            BranchCurrent(c, inputs, lab, stamps, stamps[k]) ==
              if !Reached(c, inputs, s.a) || !Reached(c, inputs, s.b) then None
              else if Fed(c, inputs, stamps, s.a) && Fed(c, inputs, stamps, s.b) then Some(StampCurrent(s, v))
              else Some(0.0)
  {
    hide Labelling, ThePoint, Stamped, Reached, VoltagesAt, CurrentAt, StampCurrent, Fed;
    var stamps := Stamped(c, inputs, lab, regions);
    var s := stamps[k].value;
    StampReached(c, inputs, lab, regions, k);
    VoltageWhereReached(c, inputs, lab, stamps, s.a);
    VoltageWhereReached(c, inputs, lab, stamps, s.b);
    if Reached(c, inputs, s.a) && Reached(c, inputs, s.b) {
      CurrentInLaw(c, inputs, lab, regions, k, v);
    }
  }

  /**
   * The currents of a settled answer at its operating point: with both ends fed over more than leakage, what
   * Kirchhoff's law counts through the element; zero where leakage alone feeds an end; none at an end nothing
   * reaches.
   */
  lemma CurrentIsStamps(c: Cluster, inputs: Inputs, lab: seq<nat>, s: ClusterSolution, k: nat, v: seq<real>)
    requires Solves(c, inputs, lab, s) && !NoElements(c, inputs) && s.converged && k < |inputs.elements|
    requires ThePoint(c, inputs, lab, LastStamps(c, inputs, lab, s)) == Some(v)
    ensures |s.branchCurrents| == |inputs.elements|
    ensures LastStamps(c, inputs, lab, s)[k].None? ==> s.branchCurrents[k] == None
    ensures LastStamps(c, inputs, lab, s)[k].Some? ==>
              var stamps := LastStamps(c, inputs, lab, s);
              var stamp := stamps[k].value;
              && (Fed(c, inputs, stamps, stamp.a) && Fed(c, inputs, stamps, stamp.b) ==>
                    s.branchCurrents[k] == Some(StampCurrent(stamp, v)))
              && (Reached(c, inputs, stamp.a) && Reached(c, inputs, stamp.b)
                  && !(Fed(c, inputs, stamps, stamp.a) && Fed(c, inputs, stamps, stamp.b)) ==>
                    s.branchCurrents[k] == Some(0.0))
              && (!Reached(c, inputs, stamp.a) || !Reached(c, inputs, stamp.b) ==> s.branchCurrents[k] == None)
  {
    AnswerCurrents(c, inputs, lab, s);
    AnswerRegions(c, inputs, lab, s);
    hide Solves, NoElements, RegionsAfter, Labelling, ThePoint, Stamped, Reached, Fed, StampCurrent, VoltagesAt,
         CurrentAt;
    var regions := RegionsAfter(c, inputs, lab, s.solves - 1);
    var stamps := Stamped(c, inputs, lab, regions);
    if stamps[k].Some? {
      FedCurrent(c, inputs, lab, regions, k, v);
      if Fed(c, inputs, stamps, stamps[k].value.a) { FedIsReached(c, inputs, stamps, stamps[k].value.a); }
      if Fed(c, inputs, stamps, stamps[k].value.b) { FedIsReached(c, inputs, stamps, stamps[k].value.b); }
    }
  }

  lemma AnswerRegions(c: Cluster, inputs: Inputs, lab: seq<nat>, s: ClusterSolution)
    requires Solves(c, inputs, lab, s) && !NoElements(c, inputs)
    ensures s.solves >= 1 && Labelling(c, lab)
    ensures LastStamps(c, inputs, lab, s) == Stamped(c, inputs, lab, RegionsAfter(c, inputs, lab, s.solves - 1))
  {
    hide NoElements, ElementCount, BranchCurrents, StatesOf, UnknownRoots, RegionsAfter, Stamped, SettlesAt, Labelling,
         DecidedAfter;
  }

  // ----- the outputs' lengths -----

  /**
   * The regions and the currents are parallel to the elements handed over exactly when there are none, or
   * some element has both ends in the cluster.
   */
  lemma ParallelOutputs(c: Cluster, inputs: Inputs, lab: seq<nat>, s: ClusterSolution)
    requires Solves(c, inputs, lab, s)
    ensures |s.regions| == |inputs.elements| && |s.branchCurrents| == |inputs.elements| <==>
            inputs.elements == [] || !NoElements(c, inputs)
  {
    NoElementsCounted(c, inputs, lab);
    if !NoElements(c, inputs) {
      FlipLoopBounded(c, inputs, lab, s);
    }
    hide ElementCount, NoElements, BranchCurrents, StatesOf, UnknownRoots, RegionsAfter, Stamped, SettlesAt, Labelling,
         DecidedAfter;
  }

  /** A diode out of the cluster: one element handed over, no region and no current for it. */
  lemma OutputsShort(lab: seq<nat>, s: ClusterSolution)
    requires Solves(Cluster([0], []), Inputs([], [], [], [Element(0, 1, Diode(0.7, 1.0), None)]), lab, s)
    ensures s.regions == [] && s.branchCurrents == []
  {
    var c, inputs := Cluster([0], []), Inputs([], [], [], [Element(0, 1, Diode(0.7, 1.0), None)]);
    assert NoElements(c, inputs);
    NoElementsCounted(c, inputs, lab);
    hide ElementCount, NoElements, BranchCurrents, StatesOf, UnknownRoots, RegionsAfter, Stamped, SettlesAt, Labelling,
         DecidedAfter;
  }

  // ----- nonsingular with elements -----

  /** No transistor is active and no ohmic regulator has a current that is not positive. */
  ghost predicate PassiveRegions(inputs: Inputs, regions: seq<Region>) {
    |regions| == |inputs.elements| && forall k :: 0 <= k < |regions| ==>
      regions[k] != Active &&
      (inputs.elements[k].curve.Regulator? && regions[k] == Off ==> inputs.elements[k].curve.iReg > 0.0)
  }

  lemma FigurePositive(curve: Curve, region: Region)
    requires region != Active && (curve.Regulator? && region == Off ==> curve.iReg > 0.0)
    ensures StampFigures(curve, region).0 > 0.0
  {
    match curve {
      case Diode(vf, rd) => PositiveReciprocal(Max(rd, IDEAL_SOURCE_FLOOR_OHMS));
      case Channel(ron) => PositiveReciprocal(Max(ron, IDEAL_SOURCE_FLOOR_OHMS));
      case Bjt(hfe, rSat) => PositiveReciprocal(Max(rSat, IDEAL_SOURCE_FLOOR_OHMS));
      case Regulator(iReg, vReg) =>
        var floor := Max(vReg, IDEAL_SOURCE_FLOOR_OHMS);
        PositiveReciprocal(floor);
        if region == Off {
          ProductSign(iReg, 1.0 / floor);
          assert iReg / floor == iReg * (1.0 / floor);
          ProductSign(1.0 / floor, iReg);
        }
    }
  }

  lemma PassiveRegionsStamp(c: Cluster, inputs: Inputs, lab: seq<nat>, regions: seq<Region>)
    requires PassiveRegions(inputs, regions)
    ensures PassiveStamps(Stamped(c, inputs, lab, regions))
  {
    var ix := IndexOf(c.nodes);
    var stamps := Stamped(c, inputs, lab, regions);
    forall s | s in stamps && s.Some? ensures s.value.g > 0.0 && s.value.gain.None? {
      var k: nat :| k < |stamps| && stamps[k] == s;
      var j := StampEnds(ix, lab, inputs, regions, k);
      StampsPresent(ix, lab, inputs, regions, k);
      FigurePositive(inputs.elements[k].curve, regions[k]);
    }
  }

  /** Every solve with positive conductances and no active transistor finds its one operating point. */
  lemma PassiveSolved(c: Cluster, inputs: Inputs, lab: seq<nat>, s: ClusterSolution, k: nat)
    requires Solves(c, inputs, lab, s) && k < s.solves && PassiveRegions(inputs, RegionsAfter(c, inputs, lab, k))
    ensures ThePoint(c, inputs, lab, Stamped(c, inputs, lab, RegionsAfter(c, inputs, lab, k))).Some?
  {
    var regions := RegionsAfter(c, inputs, lab, k);
    assert DecidedAfter(c, inputs, lab, k);
    hide ThePoint, Undetermined, RegionsAfter, Stamped;
    PassiveRegionsStamp(c, inputs, lab, regions);
    assert !Undetermined(c, inputs, lab, Stamped(c, inputs, lab, regions)) by {
      PassiveUndetermined(c, inputs, lab, regions);
    }
  }

  lemma PassiveUndetermined(c: Cluster, inputs: Inputs, lab: seq<nat>, regions: seq<Region>)
    requires Labelling(c, lab) && PassiveRegions(inputs, regions)
    ensures !Undetermined(c, inputs, lab, Stamped(c, inputs, lab, regions))
  {
    PassiveRegionsStamp(c, inputs, lab, regions);
    PassiveDetermined(c, inputs, lab, regions);
  }

  /** Diodes, channels and regulators of positive current: no transistor among the elements. */
  ghost predicate PassiveElements(inputs: Inputs) {
    forall e :: e in inputs.elements ==> !e.curve.Bjt? && (e.curve.Regulator? ==> e.curve.iReg > 0.0)
  }

  /** Only a transistor's test names the active region. */
  lemma NamesNotActive(e: Resolved, region: Region, voltages: Voltages, stamps: seq<Option<Stamp>>)
    requires !e.curve.Bjt?
    ensures Names(e, region, voltages, stamps) != Active
  {
  }

  lemma WantedNotActive(c: Cluster, inputs: Inputs, lab: seq<nat>, regions: seq<Region>, j: nat)
    requires PassiveElements(inputs) && PassiveRegions(inputs, regions) && j < |regions|
    ensures WantedAt(c, inputs, lab, regions)[j] != Active
  {
    assert inputs.elements[j] in inputs.elements;
    ResolvedEnds(IndexOf(c.nodes), lab, inputs, j);
    var e := Resolve(IndexOf(c.nodes), lab, inputs)[j];
    hide Names, Resolve, VoltagesAt, Stamped;
    if e.Some? {
      var stamps := Stamped(c, inputs, lab, regions);
      NamesNotActive(e.value, regions[j], VoltagesAt(c, inputs, lab, stamps), stamps);
    }
  }

  lemma {:induction false} NeverActive(c: Cluster, inputs: Inputs, lab: seq<nat>, k: nat)
    requires PassiveElements(inputs)
    ensures PassiveRegions(inputs, RegionsAfter(c, inputs, lab, k))
  {
    hide WantedAt;
    forall j: nat | j < |inputs.elements| && inputs.elements[j].curve.Regulator?
      ensures inputs.elements[j].curve.iReg > 0.0
    {
      assert inputs.elements[j] in inputs.elements;
    }
    if k > 0 {
      NeverActive(c, inputs, lab, k - 1);
      var before := RegionsAfter(c, inputs, lab, k - 1);
      forall j: nat | j < |before| ensures WantedAt(c, inputs, lab, before)[j] != Active {
        WantedNotActive(c, inputs, lab, before, j);
      }
    }
  }

  /** Without transistors the run never meets a singular matrix: each solve has exactly one operating point. */
  lemma PassiveRunSolved(c: Cluster, inputs: Inputs, lab: seq<nat>, s: ClusterSolution, k: nat)
    requires Solves(c, inputs, lab, s) && PassiveElements(inputs) && k < s.solves
    ensures ThePoint(c, inputs, lab, Stamped(c, inputs, lab, RegionsAfter(c, inputs, lab, k))).Some?
  {
    hide Solves, ThePoint, RegionsAfter, Stamped;
    NeverActive(c, inputs, lab, k);
    PassiveSolved(c, inputs, lab, s, k);
  }
}
