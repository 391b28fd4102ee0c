/**
 * Circuits of positive conductances: the discrete comparison principle, and from it uniqueness, the maximum
 * principle and the nonsingularity that reachability buys.
 */
module Passive {
  import opened Options
  import opened Graph
  import opened Sums
  import opened Circuit
  import opened Stamping
  import opened Prepare
  import opened Tables
  import opened Linear

  /** Every element is stamped as a plain positive conductance: no controlled source among them. */
  ghost predicate PassiveStamps(stamps: seq<Option<Stamp>>) {
    forall s :: s in stamps && s.Some? ==> s.value.g > 0.0 && s.value.gain.None?
  }

  function Less(v: seq<real>, w: seq<real>): seq<real>
    requires |v| == |w|
  {
    seq(|v|, x requires 0 <= x < |v| == |w| => v[x] - w[x])
  }

  // ----- the law is linear in the voltages -----

  function SourceLoad(ix: Index, lab: seq<nat>, root: nat, d: seq<real>): Source -> real {
    (s: Source) => if ValidSource(ix, s) && At(lab, ix[s.node]) == root then Conductance(s) * Volt(d, ix[s.node])
                   else 0.0
  }

  function TerminalLoad(ix: Index, lab: seq<nat>, root: nat, fought: bool, d: seq<real>): Terminal -> real {
    (t: Terminal) =>
      if fought && ValidTerminal(ix, t) && At(lab, ix[t.node]) == root then FLOOR_SIEMENS * Volt(d, ix[t.node]) else 0.0
  }

  function StampLoad(root: nat, d: seq<real>): Option<Stamp> -> real {
    (s: Option<Stamp>) => if s.Some? then Leaving(root, s.value.a, s.value.b, Ohmic(s.value.a, s.value.b, s.value.g, d))
                          else 0.0
  }

  /** How much more current leaves `root` when every voltage moves by `d`. */
  ghost function Load(c: Cluster, inputs: Inputs, lab: seq<nat>, stamps: seq<Option<Stamp>>, root: nat,
                      d: seq<real>): real {
    var ix := IndexOf(c.nodes);
    Sum(c.resistors, ResistorFlow(ix, lab, root, d)) +
    Sum(inputs.sources, SourceLoad(ix, lab, root, d)) +
    Sum(inputs.terminals, TerminalLoad(ix, lab, root, Fought(ix, lab, inputs.terminals, root), d)) +
    Sum(stamps, StampLoad(root, d))
  }

  lemma OhmicDifference(a: nat, b: nat, g: real, v: seq<real>, w: seq<real>)
    requires |v| == |w|
    ensures Ohmic(a, b, g, Less(v, w)) == Ohmic(a, b, g, v) - Ohmic(a, b, g, w)
  {
    var d := Less(v, w);
    var x, y := Volt(v, a) - Volt(v, b), Volt(w, a) - Volt(w, b);
    assert Volt(d, a) - Volt(d, b) == x - y;
    assert g * (x - y) == g * x - g * y;
  }

  lemma SinksDifference(x: nat, g: real, e: real, v: seq<real>, w: seq<real>)
    requires |v| == |w|
    ensures g * Volt(Less(v, w), x) == Sinks(x, g, e, v) - Sinks(x, g, e, w)
  {
    var p, q := Volt(v, x), Volt(w, x);
    assert g * (p - q) == g * (p - e) - g * (q - e);
  }

  lemma NetCurrentDifference(c: Cluster, inputs: Inputs, lab: seq<nat>, stamps: seq<Option<Stamp>>, root: nat,
                             v: seq<real>, w: seq<real>)
    requires |v| == |w| && PassiveStamps(stamps)
    ensures NetCurrent(c, inputs, lab, stamps, root, v) - NetCurrent(c, inputs, lab, stamps, root, w) ==
            Load(c, inputs, lab, stamps, root, Less(v, w))
  {
    var ix := IndexOf(c.nodes);
    var d := Less(v, w);
    var fought := Fought(ix, lab, inputs.terminals, root);
    forall r | r in c.resistors
      ensures ResistorFlow(ix, lab, root, d)(r) == ResistorFlow(ix, lab, root, v)(r) - ResistorFlow(ix, lab, root, w)(r)
    {
      if Conducts(ix, r) { OhmicDifference(ix[r.a], ix[r.b], Siemens(r), v, w); }
    }
    SumDifference(c.resistors, ResistorFlow(ix, lab, root, d), ResistorFlow(ix, lab, root, v),
                  ResistorFlow(ix, lab, root, w));
    forall s | s in inputs.sources
      ensures SourceLoad(ix, lab, root, d)(s) == SourceFlow(ix, lab, root, v)(s) - SourceFlow(ix, lab, root, w)(s)
    {
      if ValidSource(ix, s) { SinksDifference(ix[s.node], Conductance(s), s.volts.r, v, w); }
    }
    SumDifference(inputs.sources, SourceLoad(ix, lab, root, d), SourceFlow(ix, lab, root, v),
                  SourceFlow(ix, lab, root, w));
    TerminalsDifference(ix, inputs.terminals, lab, root, fought, v, w);
    StampsDifference(stamps, root, v, w);
  }

  lemma TerminalsDifference(ix: Index, terminals: seq<Terminal>, lab: seq<nat>, root: nat, fought: bool, v: seq<real>,
                            w: seq<real>)
    requires |v| == |w|
    ensures Sum(terminals, TerminalLoad(ix, lab, root, fought, Less(v, w))) ==
            Sum(terminals, TerminalFlow(ix, lab, root, fought, v)) -
            Sum(terminals, TerminalFlow(ix, lab, root, fought, w))
  {
    var d := Less(v, w);
    forall t | t in terminals
      ensures TerminalLoad(ix, lab, root, fought, d)(t) ==
                TerminalFlow(ix, lab, root, fought, v)(t) - TerminalFlow(ix, lab, root, fought, w)(t)
    {
      if ValidTerminal(ix, t) { SinksDifference(ix[t.node], FLOOR_SIEMENS, t.volts.r, v, w); }
    }
    SumDifference(terminals, TerminalLoad(ix, lab, root, fought, d), TerminalFlow(ix, lab, root, fought, v),
                  TerminalFlow(ix, lab, root, fought, w));
  }

  lemma StampsDifference(stamps: seq<Option<Stamp>>, root: nat, v: seq<real>, w: seq<real>)
    requires |v| == |w| && PassiveStamps(stamps)
    ensures Sum(stamps, StampLoad(root, Less(v, w))) ==
              Sum(stamps, StampFlow(root, v)) - Sum(stamps, StampFlow(root, w))
  {
    forall s | s in stamps ensures StampLoad(root, Less(v, w))(s) == StampFlow(root, v)(s) - StampFlow(root, w)(s) {
      if s.Some? { OhmicDifference(s.value.a, s.value.b, s.value.g, v, w); }
    }
    SumDifference(stamps, StampLoad(root, Less(v, w)), StampFlow(root, v), StampFlow(root, w));
  }

  // ----- the comparison principle -----

  /** `d` is the most any reached node has. */
  ghost predicate Peak(c: Cluster, inputs: Inputs, d: seq<real>, top: real) {
    forall x: nat :: x < |d| && Reached(c, inputs, x) ==> d[x] <= top
  }

  lemma PositiveReciprocal(x: real)
    requires x > 0.0
    ensures 1.0 / x > 0.0
  {
    assert (1.0 / x) * x == 1.0;
  }

  lemma ProductSign(g: real, x: real)
    requires g > 0.0
    ensures x >= 0.0 ==> g * x >= 0.0
    ensures g * x == 0.0 <==> x == 0.0
  {
  }

  /** Every node of `x`'s supernode is at `x`'s voltage. */
  ghost predicate LevelAt(ix: Index, lab: seq<nat>, d: seq<real>, x: nat) {
    && |d| == |lab| && x < |d|
    && (forall id :: id in ix ==> ix[id] < |d|)
    && forall y: nat :: y < |d| && lab[y] == lab[x] ==> d[y] == d[x]
  }

  lemma BranchPeak(root: nat, a: nat, b: nat, g: real, da: real, db: real, top: real)
    requires g > 0.0
    requires a == root ==> da == top && db <= top
    requires b == root ==> db == top && da <= top
    ensures Leaving(root, a, b, g * (da - db)) >= 0.0
    ensures Leaving(root, a, b, g * (da - db)) == 0.0 && (a == root || b == root) ==> da == db
  {
    ProductSign(g, da - db);
    ProductSign(g, db - da);
    assert g * (db - da) == -(g * (da - db));
  }

  /** A link's end on the peak's supernode is at the peak, and its other end is not above it. */
  ghost predicate UnderPeak(lab: seq<nat>, d: seq<real>, x: nat, a: nat, b: nat) {
    x < |d| == |lab| && a < |d| && b < |d| &&
    (lab[a] == lab[x] ==> d[a] == d[x] && d[b] <= d[x]) && (lab[b] == lab[x] ==> d[b] == d[x] && d[a] <= d[x])
  }

  lemma PeakEnds(c: Cluster, inputs: Inputs, lab: seq<nat>, d: seq<real>, x: nat, a: nat, b: nat)
    requires Even(c, lab, d) && x < |d| && a < |d| && b < |d|
    requires Reached(c, inputs, x) && Peak(c, inputs, d, d[x])
    requires (a, b) in AllLinks(c, inputs) && (b, a) in AllLinks(c, inputs)
    ensures UnderPeak(lab, d, x, a, b)
  {
    ReachedLabel(c, inputs, lab, x);
    assert d[x] == Volt(d, At(lab, x)) && d[a] == Volt(d, At(lab, a)) && d[b] == Volt(d, At(lab, b));
    if lab[a] == lab[x] {
      ReachedLabel(c, inputs, lab, a);
      ReachedAcross(c, inputs, a, b);
    }
    if lab[b] == lab[x] {
      ReachedLabel(c, inputs, lab, b);
      ReachedAcross(c, inputs, b, a);
    }
  }

  lemma ResistorPeak(ix: Index, lab: seq<nat>, d: seq<real>, x: nat, r: Resistor)
    requires LevelAt(ix, lab, d, x)
    requires Conducts(ix, r) ==> UnderPeak(lab, d, x, ix[r.a], ix[r.b])
    ensures ResistorFlow(ix, lab, lab[x], d)(r) >= 0.0
    ensures (Conducts(ix, r) && ResistorFlow(ix, lab, lab[x], d)(r) == 0.0 &&
             (At(lab, ix[r.a]) == lab[x] || At(lab, ix[r.b]) == lab[x])) ==>
              Volt(d, ix[r.a]) == Volt(d, ix[r.b])
  {
    if Conducts(ix, r) {
      var a, b := ix[r.a], ix[r.b];
      PositiveReciprocal(r.ohms.r);
      BranchPeak(lab[x], lab[a], lab[b], Siemens(r), d[a], d[b], d[x]);
    }
  }

  lemma SourcePeak(ix: Index, lab: seq<nat>, d: seq<real>, x: nat, s: Source)
    requires LevelAt(ix, lab, d, x) && d[x] > 0.0
    ensures SourceLoad(ix, lab, lab[x], d)(s) >= 0.0
    ensures ValidSource(ix, s) && At(lab, ix[s.node]) == lab[x] ==> SourceLoad(ix, lab, lab[x], d)(s) != 0.0
  {
    if ValidSource(ix, s) && At(lab, ix[s.node]) == lab[x] {
      PositiveReciprocal(Max(s.impedance.r, IDEAL_SOURCE_FLOOR_OHMS));
      ProductSign(Conductance(s), d[x]);
    }
  }

  lemma TerminalPeak(ix: Index, lab: seq<nat>, d: seq<real>, x: nat, fought: bool, t: Terminal)
    requires LevelAt(ix, lab, d, x) && d[x] > 0.0
    ensures TerminalLoad(ix, lab, lab[x], fought, d)(t) >= 0.0
    ensures fought && ValidTerminal(ix, t) && At(lab, ix[t.node]) == lab[x] ==>
              TerminalLoad(ix, lab, lab[x], fought, d)(t) != 0.0
  {
    if fought && ValidTerminal(ix, t) && At(lab, ix[t.node]) == lab[x] {
      ProductSign(FLOOR_SIEMENS, d[x]);
    }
  }

  lemma StampPeak(lab: seq<nat>, d: seq<real>, x: nat, s: Stamp, a: nat, b: nat)
    requires UnderPeak(lab, d, x, a, b) && s.g > 0.0 && s.a == lab[a] && s.b == lab[b]
    requires Volt(d, lab[a]) == d[a] && Volt(d, lab[b]) == d[b]
    ensures StampLoad(lab[x], d)(Some(s)) >= 0.0
    ensures StampLoad(lab[x], d)(Some(s)) == 0.0 && (s.a == lab[x] || s.b == lab[x]) ==> d[a] == d[b]
  {
    BranchPeak(lab[x], lab[a], lab[b], s.g, d[a], d[b], d[x]);
  }

  /** Where `d` peaks above zero and no extra current leaves, nothing is attached that could draw any. */
  ghost predicate Flat(c: Cluster, inputs: Inputs, lab: seq<nat>, stamps: seq<Option<Stamp>>, d: seq<real>, x: nat) {
    var ix := IndexOf(c.nodes);
    && x < |lab|
    && (forall r ::
          r in c.resistors && Conducts(ix, r) && (At(lab, ix[r.a]) == lab[x] || At(lab, ix[r.b]) == lab[x]) ==>
          Volt(d, ix[r.a]) == Volt(d, ix[r.b]))
    && (forall s :: s in inputs.sources && ValidSource(ix, s) ==> At(lab, ix[s.node]) != lab[x])
    && (Fought(ix, lab, inputs.terminals, lab[x]) ==>
          forall t :: t in inputs.terminals && ValidTerminal(ix, t) ==> At(lab, ix[t.node]) != lab[x])
    && (forall k: nat ::
          k < |stamps| && stamps[k].Some? && (stamps[k].value.a == lab[x] || stamps[k].value.b == lab[x]) ==>
          Volt(d, stamps[k].value.a) == Volt(d, stamps[k].value.b))
  }

  lemma ResistorsFlat(c: Cluster, inputs: Inputs, lab: seq<nat>, d: seq<real>, x: nat)
    requires Even(c, lab, d) && x < |d| && Reached(c, inputs, x) && Peak(c, inputs, d, d[x])
    requires LevelAt(IndexOf(c.nodes), lab, d, x)
    ensures var ix := IndexOf(c.nodes);
            var total := Sum(c.resistors, ResistorFlow(ix, lab, lab[x], d));
            && total >= 0.0
            && (total == 0.0 ==>
                  forall r ::
                    r in c.resistors && Conducts(ix, r) &&
                    (At(lab, ix[r.a]) == lab[x] || At(lab, ix[r.b]) == lab[x]) ==>
                    Volt(d, ix[r.a]) == Volt(d, ix[r.b]))
  {
    var ix := IndexOf(c.nodes);
    forall r | r in c.resistors && Conducts(ix, r) ensures UnderPeak(lab, d, x, ix[r.a], ix[r.b]) {
      PeakEnds(c, inputs, lab, d, x, ix[r.a], ix[r.b]);
    }
    forall r | r in c.resistors ensures ResistorFlow(ix, lab, lab[x], d)(r) >= 0.0 {
      ResistorPeak(ix, lab, d, x, r);
    }
    SumNonNegative(c.resistors, ResistorFlow(ix, lab, lab[x], d));
    forall r | r in c.resistors && Conducts(ix, r) && (At(lab, ix[r.a]) == lab[x] || At(lab, ix[r.b]) == lab[x])
      ensures ResistorFlow(ix, lab, lab[x], d)(r) == 0.0 ==> Volt(d, ix[r.a]) == Volt(d, ix[r.b])
    {
      ResistorPeak(ix, lab, d, x, r);
    }
  }

  lemma SourcesFlat(ix: Index, sources: seq<Source>, lab: seq<nat>, d: seq<real>, x: nat)
    requires LevelAt(ix, lab, d, x) && d[x] > 0.0
    ensures Sum(sources, SourceLoad(ix, lab, lab[x], d)) >= 0.0
    ensures Sum(sources, SourceLoad(ix, lab, lab[x], d)) == 0.0 ==>
              forall s :: s in sources && ValidSource(ix, s) ==> At(lab, ix[s.node]) != lab[x]
  {
    forall s | s in sources
      ensures SourceLoad(ix, lab, lab[x], d)(s) >= 0.0
      ensures ValidSource(ix, s) && At(lab, ix[s.node]) == lab[x] ==> SourceLoad(ix, lab, lab[x], d)(s) != 0.0
    {
      SourcePeak(ix, lab, d, x, s);
    }
    SumNonNegative(sources, SourceLoad(ix, lab, lab[x], d));
  }

  lemma TerminalsFlat(ix: Index, terminals: seq<Terminal>, lab: seq<nat>, d: seq<real>, x: nat, fought: bool)
    requires LevelAt(ix, lab, d, x) && d[x] > 0.0
    ensures Sum(terminals, TerminalLoad(ix, lab, lab[x], fought, d)) >= 0.0
    ensures Sum(terminals, TerminalLoad(ix, lab, lab[x], fought, d)) == 0.0 && fought ==>
              forall t :: t in terminals && ValidTerminal(ix, t) ==> At(lab, ix[t.node]) != lab[x]
  {
    forall t | t in terminals
      ensures TerminalLoad(ix, lab, lab[x], fought, d)(t) >= 0.0
      ensures fought && ValidTerminal(ix, t) && At(lab, ix[t.node]) == lab[x] ==>
                TerminalLoad(ix, lab, lab[x], fought, d)(t) != 0.0
    {
      TerminalPeak(ix, lab, d, x, fought, t);
    }
    SumNonNegative(terminals, TerminalLoad(ix, lab, lab[x], fought, d));
  }

  lemma StampFlat(c: Cluster, inputs: Inputs, lab: seq<nat>, regions: seq<Region>, stamps: seq<Option<Stamp>>,
                  d: seq<real>, x: nat, k: nat)
    requires Even(c, lab, d) && PassiveStamps(stamps)
    requires |regions| == |inputs.elements| && stamps == StampsOf(Resolve(IndexOf(c.nodes), lab, inputs), regions)
    requires x < |d| && Reached(c, inputs, x) && Peak(c, inputs, d, d[x]) && k < |stamps|
    ensures StampLoad(lab[x], d)(stamps[k]) >= 0.0
    ensures StampLoad(lab[x], d)(stamps[k]) == 0.0 && stamps[k].Some? &&
            (stamps[k].value.a == lab[x] || stamps[k].value.b == lab[x]) ==>
              Volt(d, stamps[k].value.a) == Volt(d, stamps[k].value.b)
  {
    if stamps[k].Some? {
      var ix := IndexOf(c.nodes);
      IndexBounds(c.nodes);
      var j := StampEnds(ix, lab, inputs, regions, k);
      ElementLinked(c, inputs, k);
      var a, b := ix[inputs.elements[k].a], ix[inputs.elements[k].b];
      PeakEnds(c, inputs, lab, d, x, a, b);
      assert d[a] == Volt(d, At(lab, a)) && d[b] == Volt(d, At(lab, b));
      assert stamps[k] in stamps;
      StampPeak(lab, d, x, stamps[k].value, a, b);
    }
  }

  lemma StampsFlat(c: Cluster, inputs: Inputs, lab: seq<nat>, regions: seq<Region>, stamps: seq<Option<Stamp>>,
                   d: seq<real>, x: nat)
    requires Even(c, lab, d) && PassiveStamps(stamps)
    requires |regions| == |inputs.elements| && stamps == StampsOf(Resolve(IndexOf(c.nodes), lab, inputs), regions)
    requires x < |d| && Reached(c, inputs, x) && Peak(c, inputs, d, d[x])
    ensures Sum(stamps, StampLoad(lab[x], d)) >= 0.0
    ensures Sum(stamps, StampLoad(lab[x], d)) == 0.0 ==>
              forall k: nat ::
                k < |stamps| && stamps[k].Some? && (stamps[k].value.a == lab[x] || stamps[k].value.b == lab[x]) ==>
                Volt(d, stamps[k].value.a) == Volt(d, stamps[k].value.b)
  {
    forall k: nat | k < |stamps|
      ensures StampLoad(lab[x], d)(stamps[k]) >= 0.0
      ensures StampLoad(lab[x], d)(stamps[k]) == 0.0 && stamps[k].Some? &&
              (stamps[k].value.a == lab[x] || stamps[k].value.b == lab[x]) ==>
                Volt(d, stamps[k].value.a) == Volt(d, stamps[k].value.b)
    {
      StampFlat(c, inputs, lab, regions, stamps, d, x, k);
    }
    forall s | s in stamps ensures StampLoad(lab[x], d)(s) >= 0.0 {
      var k: nat :| k < |stamps| && stamps[k] == s;
    }
    SumNonNegative(stamps, StampLoad(lab[x], d));
  }

  lemma PeakIsFlat(c: Cluster, inputs: Inputs, lab: seq<nat>, regions: seq<Region>, stamps: seq<Option<Stamp>>,
                   d: seq<real>, x: nat)
    requires Even(c, lab, d) && PassiveStamps(stamps)
    requires |regions| == |inputs.elements| && stamps == StampsOf(Resolve(IndexOf(c.nodes), lab, inputs), regions)
    requires x < |d| && Reached(c, inputs, x) && d[x] > 0.0 && Peak(c, inputs, d, d[x])
    requires Load(c, inputs, lab, stamps, lab[x], d) <= 0.0
    ensures Flat(c, inputs, lab, stamps, d, x)
  {
    var ix := IndexOf(c.nodes);
    IndexBounds(c.nodes);
    forall y: nat | y < |d| && lab[y] == lab[x] ensures d[y] == d[x] {
      assert d[y] == Volt(d, At(lab, y)) && d[x] == Volt(d, At(lab, x));
    }
    assert LevelAt(ix, lab, d, x);
    ResistorsFlat(c, inputs, lab, d, x);
    SourcesFlat(ix, inputs.sources, lab, d, x);
    TerminalsFlat(ix, inputs.terminals, lab, d, x, Fought(ix, lab, inputs.terminals, lab[x]));
    StampsFlat(c, inputs, lab, regions, stamps, d, x);
  }

  lemma AllLinksSymmetric(c: Cluster, inputs: Inputs)
    ensures Symmetric(AllLinks(c, inputs))
  {
  }

  lemma FlatWire(c: Cluster, inputs: Inputs, lab: seq<nat>, stamps: seq<Option<Stamp>>, d: seq<real>, y: nat, z: nat)
    requires Even(c, lab, d) && Flat(c, inputs, lab, stamps, d, y) && (y, z) in WireLinks(IndexOf(c.nodes), c.resistors)
    ensures z < |d| && d[z] == d[y]
  {
    var ix := IndexOf(c.nodes);
    IndexBounds(c.nodes);
    var r :| r in c.resistors && (Merges(ix, r) || Conducts(ix, r)) &&
             ((y, z) == (ix[r.a], ix[r.b]) || (y, z) == (ix[r.b], ix[r.a]));
    if Merges(ix, r) {
      JoinedLink(ZeroLinks(ix, c.resistors), y, z);
      assert d[y] == Volt(d, At(lab, y)) && d[z] == Volt(d, At(lab, z));
    }
  }

  lemma FlatElement(c: Cluster, inputs: Inputs, lab: seq<nat>, regions: seq<Region>, stamps: seq<Option<Stamp>>,
                    d: seq<real>, k: nat, y: nat, z: nat)
    requires Even(c, lab, d) && Flat(c, inputs, lab, stamps, d, y) && k < |inputs.elements| == |regions| == |stamps|
    requires stamps[k] == StampsOf(Resolve(IndexOf(c.nodes), lab, inputs), regions)[k]
    requires inputs.elements[k].a in IndexOf(c.nodes) && inputs.elements[k].b in IndexOf(c.nodes)
    requires var e := inputs.elements[k];
             var ix := IndexOf(c.nodes);
             (y, z) == (ix[e.a], ix[e.b]) || (y, z) == (ix[e.b], ix[e.a])
    ensures z < |d| && d[z] == d[y]
  {
    IndexBounds(c.nodes);
    StampsPresent(IndexOf(c.nodes), lab, inputs, regions, k);
    assert d[y] == Volt(d, At(lab, y)) && d[z] == Volt(d, At(lab, z));
  }

  /** From a flat peak, every link leads to the same height. */
  lemma FlatAcross(c: Cluster, inputs: Inputs, lab: seq<nat>, regions: seq<Region>, stamps: seq<Option<Stamp>>,
                   d: seq<real>, y: nat, z: nat)
    requires Even(c, lab, d) && Flat(c, inputs, lab, stamps, d, y)
    requires |regions| == |inputs.elements| && stamps == StampsOf(Resolve(IndexOf(c.nodes), lab, inputs), regions)
    requires (y, z) in AllLinks(c, inputs)
    ensures z < |d| && d[z] == d[y]
  {
    var ix := IndexOf(c.nodes);
    if (y, z) in WireLinks(ix, c.resistors) {
      FlatWire(c, inputs, lab, stamps, d, y, z);
    } else {
      var e :| e in inputs.elements && e.a in ix && e.b in ix &&
               ((y, z) == (ix[e.a], ix[e.b]) || (y, z) == (ix[e.b], ix[e.a]));
      var k: nat :| k < |inputs.elements| && inputs.elements[k] == e;
      FlatElement(c, inputs, lab, regions, stamps, d, k, y, z);
    }
  }

  /** A stamp is missing only where the element names a node outside, or an active transistor has none. */
  lemma StampsPresent(ix: Index, lab: seq<nat>, inputs: Inputs, regions: seq<Region>, k: nat)
    requires |regions| == |inputs.elements| && k < |regions|
    requires inputs.elements[k].a in ix && inputs.elements[k].b in ix
    ensures StampsOf(Resolve(ix, lab, inputs), regions)[k].Some?
    ensures var s := StampsOf(Resolve(ix, lab, inputs), regions)[k].value;
            && s.a == At(lab, ix[inputs.elements[k].a]) && s.b == At(lab, ix[inputs.elements[k].b])
            && (s.g, s.i) == StampFigures(inputs.elements[k].curve, regions[k])
  {
    ResolvedEnds(ix, lab, inputs, k);
    var e := Resolve(ix, lab, inputs)[k].value;
    if e.base.Some? {
      ResolvedEnds(ix, lab, inputs, e.base.value);
    }
  }

  /** The marked place where `d` is highest. */
  lemma {:induction false} Highest(d: seq<real>, marked: iset<nat>, x: nat, n: nat) returns (top: nat)
    requires x < n <= |d| && x in marked
    ensures top < n && top in marked
    ensures forall y: nat :: y < n && y in marked ==> d[y] <= d[top]
    decreases n
  {
    var last := n - 1;
    if y: nat :| y < last && y in marked {
      top := Highest(d, marked, y, last);
      if last in marked && d[last] > d[top] {
        top := last;
      }
    } else {
      top := last;
    }
  }

  lemma EvenLess(c: Cluster, lab: seq<nat>, v: seq<real>, w: seq<real>)
    requires Even(c, lab, v) && Even(c, lab, w)
    ensures Even(c, lab, Less(v, w))
  {
    var d := Less(v, w);
    forall x: nat | x < |d| ensures d[x] == Volt(d, At(lab, x)) {
      assert v[x] == Volt(v, At(lab, x)) && w[x] == Volt(w, At(lab, x));
    }
  }

  lemma PeakSpreads(c: Cluster, inputs: Inputs, lab: seq<nat>, regions: seq<Region>, stamps: seq<Option<Stamp>>,
                    v: seq<real>, w: seq<real>, y: nat)
    requires Even(c, lab, v) && Even(c, lab, w) && PassiveStamps(stamps)
    requires |regions| == |inputs.elements| && stamps == StampsOf(Resolve(IndexOf(c.nodes), lab, inputs), regions)
    requires Unknown(c, inputs, lab, y)
    requires NetCurrent(c, inputs, lab, stamps, At(lab, y), v) <= NetCurrent(c, inputs, lab, stamps, At(lab, y), w)
    requires Peak(c, inputs, Less(v, w), Less(v, w)[y]) && v[y] > w[y]
    ensures Flat(c, inputs, lab, stamps, Less(v, w), y)
  {
    EvenLess(c, lab, v, w);
    NetCurrentDifference(c, inputs, lab, stamps, At(lab, y), v, w);
    PeakIsFlat(c, inputs, lab, regions, stamps, Less(v, w), y);
  }

  /** A source or terminal feeds no flat peak but a constant. */
  lemma SeedNotFlat(c: Cluster, inputs: Inputs, lab: seq<nat>, stamps: seq<Option<Stamp>>, d: seq<real>, s: nat)
    requires Labelling(c, lab) && s in Seeds(IndexOf(c.nodes), inputs)
    ensures Constant(IndexOf(c.nodes), lab, inputs.terminals, At(lab, s)).Some? || !Flat(c, inputs, lab, stamps, d, s)
  {
    var ix := IndexOf(c.nodes);
    IndexBounds(c.nodes);
    if source :| source in inputs.sources && ValidSource(ix, source) && ix[source.node] == s {
      assert At(lab, ix[source.node]) == lab[s];
    } else {
      var t :| t in inputs.terminals && ValidTerminal(ix, t) && ix[t.node] == s;
      assert HeldAt(ix, lab, inputs.terminals, At(lab, s), t.volts.r);
    }
  }

  /**
   * What the comparison principle asks: positive conductances, no more current anywhere, no higher at the constants.
   */
  ghost predicate NoHigher(c: Cluster, inputs: Inputs, lab: seq<nat>, regions: seq<Region>, v: seq<real>,
                           w: seq<real>) {
    && Even(c, lab, v) && Even(c, lab, w) && |regions| == |inputs.elements|
    && PassiveStamps(StampsOf(Resolve(IndexOf(c.nodes), lab, inputs), regions))
    && (forall x: nat :: Unknown(c, inputs, lab, x) ==>
          NetCurrent(c, inputs, lab, StampsOf(Resolve(IndexOf(c.nodes), lab, inputs), regions), At(lab, x), v) <=
          NetCurrent(c, inputs, lab, StampsOf(Resolve(IndexOf(c.nodes), lab, inputs), regions), At(lab, x), w))
    && forall x: nat :: x < |v| && Constant(IndexOf(c.nodes), lab, inputs.terminals, At(lab, x)).Some? ==> v[x] <= w[x]
  }

  ghost function Crest(c: Cluster, inputs: Inputs, d: seq<real>, height: real): iset<nat> {
    iset y: nat | y < |d| && Reached(c, inputs, y) && d[y] == height
  }

  lemma CrestFlat(c: Cluster, inputs: Inputs, lab: seq<nat>, regions: seq<Region>, v: seq<real>, w: seq<real>,
                  height: real, y: nat)
    requires NoHigher(c, inputs, lab, regions, v, w) && height > 0.0
    requires Peak(c, inputs, Less(v, w), height) && y in Crest(c, inputs, Less(v, w), height)
    ensures Unknown(c, inputs, lab, y) && Even(c, lab, Less(v, w))
    ensures Flat(c, inputs, lab, StampsOf(Resolve(IndexOf(c.nodes), lab, inputs), regions), Less(v, w), y)
  {
    EvenLess(c, lab, v, w);
    PeakSpreads(c, inputs, lab, regions, StampsOf(Resolve(IndexOf(c.nodes), lab, inputs), regions), v, w, y);
  }

  lemma CrestClosed(c: Cluster, inputs: Inputs, lab: seq<nat>, regions: seq<Region>, v: seq<real>, w: seq<real>,
                    height: real)
    requires NoHigher(c, inputs, lab, regions, v, w) && height > 0.0 && Peak(c, inputs, Less(v, w), height)
    ensures Closed(AllLinks(c, inputs), Crest(c, inputs, Less(v, w), height))
  {
    var ix := IndexOf(c.nodes);
    var stamps := StampsOf(Resolve(ix, lab, inputs), regions);
    var d := Less(v, w);
    forall y: nat, z: nat | y in Crest(c, inputs, d, height) && (y, z) in AllLinks(c, inputs)
      ensures z in Crest(c, inputs, d, height)
    {
      CrestFlat(c, inputs, lab, regions, v, w, height, y);
      FlatAcross(c, inputs, lab, regions, stamps, d, y, z);
      ReachedAcross(c, inputs, y, z);
    }
  }

  lemma CrestFed(c: Cluster, inputs: Inputs, d: seq<real>, height: real, x: nat) returns (s: nat)
    requires Closed(AllLinks(c, inputs), Crest(c, inputs, d, height)) && x in Crest(c, inputs, d, height)
    ensures s in Seeds(IndexOf(c.nodes), inputs) && s in Crest(c, inputs, d, height)
  {
    s :| s in Seeds(IndexOf(c.nodes), inputs) && Joined(AllLinks(c, inputs), s, x);
    AllLinksSymmetric(c, inputs);
    JoinedSymmetric(AllLinks(c, inputs), s, x);
    ClosedHolds(AllLinks(c, inputs), Crest(c, inputs, d, height), x, s);
  }

  /**
   * The discrete comparison principle: where positive conductances are all there is, voltages that draw no
   * more current anywhere and start no higher at the constants are no higher at any reached node.
   */
  lemma Comparison(c: Cluster, inputs: Inputs, lab: seq<nat>, regions: seq<Region>, v: seq<real>, w: seq<real>)
    requires NoHigher(c, inputs, lab, regions, v, w)
    ensures forall x: nat :: x < |v| && Reached(c, inputs, x) ==> v[x] <= w[x]
  {
    var d := Less(v, w);
    if x: nat :| x < |v| && Reached(c, inputs, x) && v[x] > w[x] {
      var marked := iset y: nat | y < |d| && Reached(c, inputs, y);
      var top := Highest(d, marked, x, |d|);
      assert x in marked && d[x] > 0.0;
      CrestClosed(c, inputs, lab, regions, v, w, d[top]);
      var s := CrestFed(c, inputs, d, d[top], top);
      CrestFlat(c, inputs, lab, regions, v, w, d[top], s);
      SeedNotFlat(c, inputs, lab, StampsOf(Resolve(IndexOf(c.nodes), lab, inputs), regions), d, s);
    }
  }

  // ----- what it gives -----

  /** Reachability makes a passive circuit determined: no two grounded voltages draw the same currents. */
  lemma PassiveDetermined(c: Cluster, inputs: Inputs, lab: seq<nat>, regions: seq<Region>)
    requires Labelling(c, lab) && |regions| == |inputs.elements|
    requires PassiveStamps(StampsOf(Resolve(IndexOf(c.nodes), lab, inputs), regions))
    ensures !Undetermined(c, inputs, lab, StampsOf(Resolve(IndexOf(c.nodes), lab, inputs), regions))
  {
    var stamps := StampsOf(Resolve(IndexOf(c.nodes), lab, inputs), regions);
    forall v, w | Grounded(c, inputs, lab, v) && Grounded(c, inputs, lab, w) &&
      (forall x: nat :: Unknown(c, inputs, lab, x) ==>
        NetCurrent(c, inputs, lab, stamps, At(lab, x), v) == NetCurrent(c, inputs, lab, stamps, At(lab, x), w))
      ensures v == w
    {
      Comparison(c, inputs, lab, regions, v, w);
      Comparison(c, inputs, lab, regions, w, v);
      forall x: nat | x < |v| ensures v[x] == w[x] {
      }
    }
  }

  /** Plain conductances: no knee sources, no regulation currents, no controlled sources. */
  ghost predicate PlainStamps(stamps: seq<Option<Stamp>>) {
    PassiveStamps(stamps) && forall s :: s in stamps && s.Some? ==> s.value.i == 0.0
  }

  ghost predicate NoInjections(ix: Index, injections: seq<Injection>) {
    forall j :: j in injections && ValidInjection(ix, j) ==> j.amps.r == 0.0
  }

  /** No valid source or terminal is above `high`. */
  ghost predicate DrivenBelow(ix: Index, inputs: Inputs, high: real) {
    && (forall s :: s in inputs.sources && ValidSource(ix, s) ==> s.volts.r <= high)
    && (forall t :: t in inputs.terminals && ValidTerminal(ix, t) ==> t.volts.r <= high)
  }

  ghost predicate DrivenAbove(ix: Index, inputs: Inputs, low: real) {
    && (forall s :: s in inputs.sources && ValidSource(ix, s) ==> low <= s.volts.r)
    && (forall t :: t in inputs.terminals && ValidTerminal(ix, t) ==> low <= t.volts.r)
  }

  function Level(n: nat, volts: real): seq<real> {
    seq(n, _ => volts)
  }

  lemma SinksAtLevel(x: nat, g: real, e: real, n: nat, volts: real)
    requires x < n && g > 0.0
    ensures e <= volts ==> Sinks(x, g, e, Level(n, volts)) >= 0.0
    ensures e >= volts ==> Sinks(x, g, e, Level(n, volts)) <= 0.0
  {
    ProductSign(g, volts - e);
    ProductSign(g, e - volts);
    assert g * (e - volts) == -(g * (volts - e));
  }

  /** At one voltage everywhere, a branch carries nothing. */
  lemma BranchesAtLevel(c: Cluster, lab: seq<nat>, stamps: seq<Option<Stamp>>, root: nat, volts: real)
    requires PlainStamps(stamps)
    requires forall s :: s in stamps && s.Some? ==> s.value.a < |c.nodes| && s.value.b < |c.nodes|
    ensures Sum(c.resistors, ResistorFlow(IndexOf(c.nodes), lab, root, Level(|c.nodes|, volts))) == 0.0
    ensures Sum(stamps, StampFlow(root, Level(|c.nodes|, volts))) == 0.0
  {
    var ix := IndexOf(c.nodes);
    var v := Level(|c.nodes|, volts);
    IndexBounds(c.nodes);
    forall r | r in c.resistors ensures ResistorFlow(ix, lab, root, v)(r) == 0.0 {
      if Conducts(ix, r) {
        assert Ohmic(ix[r.a], ix[r.b], Siemens(r), v) == Siemens(r) * 0.0;
      }
    }
    SumZero(c.resistors, ResistorFlow(ix, lab, root, v));
    forall s | s in stamps ensures StampFlow(root, v)(s) == 0.0 {
      if s.Some? {
        assert StampCurrent(s.value, v) == s.value.g * 0.0;
      }
    }
    SumZero(stamps, StampFlow(root, v));
  }

  /** At one voltage everywhere, a supernode's sources sink current when that voltage is above them all. */
  lemma SourcesAtLevel(ix: Index, inputs: Inputs, lab: seq<nat>, root: nat, fought: bool, n: nat, volts: real)
    requires forall id :: id in ix ==> ix[id] < n
    ensures DrivenBelow(ix, inputs, volts) ==>
              Sum(inputs.sources, SourceFlow(ix, lab, root, Level(n, volts))) >= 0.0 &&
              Sum(inputs.terminals, TerminalFlow(ix, lab, root, fought, Level(n, volts))) >= 0.0
    ensures DrivenAbove(ix, inputs, volts) ==>
              Sum(inputs.sources, SourceFlow(ix, lab, root, Level(n, volts))) <= 0.0 &&
              Sum(inputs.terminals, TerminalFlow(ix, lab, root, fought, Level(n, volts))) <= 0.0
  {
    var v := Level(n, volts);
    forall s | s in inputs.sources
      ensures DrivenBelow(ix, inputs, volts) ==> SourceFlow(ix, lab, root, v)(s) >= 0.0
      ensures DrivenAbove(ix, inputs, volts) ==> SourceFlow(ix, lab, root, v)(s) <= 0.0
    {
      if ValidSource(ix, s) {
        PositiveReciprocal(Max(s.impedance.r, IDEAL_SOURCE_FLOOR_OHMS));
        SinksAtLevel(ix[s.node], Conductance(s), s.volts.r, n, volts);
      }
    }
    SumSigned(inputs.sources, SourceFlow(ix, lab, root, v));
    forall t | t in inputs.terminals
      ensures DrivenBelow(ix, inputs, volts) ==> TerminalFlow(ix, lab, root, fought, v)(t) >= 0.0
      ensures DrivenAbove(ix, inputs, volts) ==> TerminalFlow(ix, lab, root, fought, v)(t) <= 0.0
    {
      if ValidTerminal(ix, t) {
        SinksAtLevel(ix[t.node], FLOOR_SIEMENS, t.volts.r, n, volts);
      }
    }
    SumSigned(inputs.terminals, TerminalFlow(ix, lab, root, fought, v));
  }

  lemma LevelCurrent(c: Cluster, inputs: Inputs, lab: seq<nat>, stamps: seq<Option<Stamp>>, root: nat, volts: real)
    requires PlainStamps(stamps) && NoInjections(IndexOf(c.nodes), inputs.injections)
    requires forall s :: s in stamps && s.Some? ==> s.value.a < |c.nodes| && s.value.b < |c.nodes|
    ensures DrivenBelow(IndexOf(c.nodes), inputs, volts) ==>
              NetCurrent(c, inputs, lab, stamps, root, Level(|c.nodes|, volts)) >= 0.0
    ensures DrivenAbove(IndexOf(c.nodes), inputs, volts) ==>
              NetCurrent(c, inputs, lab, stamps, root, Level(|c.nodes|, volts)) <= 0.0
  {
    var ix := IndexOf(c.nodes);
    IndexBounds(c.nodes);
    BranchesAtLevel(c, lab, stamps, root, volts);
    SourcesAtLevel(ix, inputs, lab, root, Fought(ix, lab, inputs.terminals, root), |c.nodes|, volts);
    SumZero(inputs.injections, InjectionFlow(ix, lab, root));
  }

  lemma StampsInRange(c: Cluster, inputs: Inputs, lab: seq<nat>, regions: seq<Region>)
    requires Labelling(c, lab) && |regions| == |inputs.elements|
    ensures forall s :: s in StampsOf(Resolve(IndexOf(c.nodes), lab, inputs), regions) && s.Some? ==>
              s.value.a < |c.nodes| && s.value.b < |c.nodes|
  {
    var ix := IndexOf(c.nodes);
    IndexBounds(c.nodes);
    var stamps := StampsOf(Resolve(ix, lab, inputs), regions);
    forall s | s in stamps && s.Some? ensures s.value.a < |c.nodes| && s.value.b < |c.nodes| {
      var k: nat :| k < |stamps| && stamps[k] == s;
      var j := StampEnds(ix, lab, inputs, regions, k);
    }
  }

  lemma ConstantDriven(c: Cluster, inputs: Inputs, lab: seq<nat>, root: nat)
    ensures var held := Constant(IndexOf(c.nodes), lab, inputs.terminals, root);
            held.Some? ==> exists t ::
              t in inputs.terminals && ValidTerminal(IndexOf(c.nodes), t) && t.volts.r == held.value
  {
    var ix := IndexOf(c.nodes);
    var held := Constant(ix, lab, inputs.terminals, root);
    if held.Some? {
      assert HeldAt(ix, lab, inputs.terminals, root, held.value);
    }
  }

  /** What the maximum principle asks: plain conductances, no injected current, an operating point. */
  ghost predicate PlainPoint(c: Cluster, inputs: Inputs, lab: seq<nat>, regions: seq<Region>, v: seq<real>) {
    && Labelling(c, lab) && |regions| == |inputs.elements|
    && PlainStamps(StampsOf(Resolve(IndexOf(c.nodes), lab, inputs), regions)) &&
       NoInjections(IndexOf(c.nodes), inputs.injections)
    && OperatingPoint(c, inputs, lab, StampsOf(Resolve(IndexOf(c.nodes), lab, inputs), regions), v)
  }

  lemma BelowTop(c: Cluster, inputs: Inputs, lab: seq<nat>, regions: seq<Region>, v: seq<real>, high: real)
    requires PlainPoint(c, inputs, lab, regions, v) && DrivenBelow(IndexOf(c.nodes), inputs, high)
    ensures NoHigher(c, inputs, lab, regions, v, Level(|c.nodes|, high))
  {
    StampsInRange(c, inputs, lab, regions);
    var stamps := StampsOf(Resolve(IndexOf(c.nodes), lab, inputs), regions);
    forall x: nat | Unknown(c, inputs, lab, x)
      ensures NetCurrent(c, inputs, lab, stamps, At(lab, x), v) <=
                NetCurrent(c, inputs, lab, stamps, At(lab, x), Level(|c.nodes|, high))
    {
      LevelCurrent(c, inputs, lab, stamps, At(lab, x), high);
    }
    forall x: nat | x < |v| && Constant(IndexOf(c.nodes), lab, inputs.terminals, At(lab, x)).Some?
      ensures v[x] <= high
    {
      ConstantDriven(c, inputs, lab, At(lab, x));
    }
  }

  lemma AboveBottom(c: Cluster, inputs: Inputs, lab: seq<nat>, regions: seq<Region>, v: seq<real>, low: real)
    requires PlainPoint(c, inputs, lab, regions, v) && DrivenAbove(IndexOf(c.nodes), inputs, low)
    ensures NoHigher(c, inputs, lab, regions, Level(|c.nodes|, low), v)
  {
    StampsInRange(c, inputs, lab, regions);
    var stamps := StampsOf(Resolve(IndexOf(c.nodes), lab, inputs), regions);
    forall x: nat | Unknown(c, inputs, lab, x)
      ensures NetCurrent(c, inputs, lab, stamps, At(lab, x), Level(|c.nodes|, low)) <=
                NetCurrent(c, inputs, lab, stamps, At(lab, x), v)
    {
      LevelCurrent(c, inputs, lab, stamps, At(lab, x), low);
    }
    forall x: nat | x < |v| && Constant(IndexOf(c.nodes), lab, inputs.terminals, At(lab, x)).Some? ensures low <= v[x] {
      ConstantDriven(c, inputs, lab, At(lab, x));
    }
  }

  /**
   * The maximum principle: with plain conductances and no injected current, every reached node lies between
   * the lowest and the highest voltage any valid source or terminal declares.
   */
  lemma MaximumPrinciple(c: Cluster, inputs: Inputs, lab: seq<nat>, regions: seq<Region>, v: seq<real>, low: real,
                         high: real)
    requires PlainPoint(c, inputs, lab, regions, v)
    requires DrivenAbove(IndexOf(c.nodes), inputs, low) && DrivenBelow(IndexOf(c.nodes), inputs, high)
    ensures forall x: nat :: x < |v| && Reached(c, inputs, x) ==> low <= v[x] <= high
  {
    AboveBottom(c, inputs, lab, regions, v, low);
    BelowTop(c, inputs, lab, regions, v, high);
    Comparison(c, inputs, lab, regions, Level(|c.nodes|, low), v);
    Comparison(c, inputs, lab, regions, v, Level(|c.nodes|, high));
  }
}
