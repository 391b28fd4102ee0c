/**
 * Kirchhoff's current law in the answer's own figures: at every published supernode the volts and amps the answer
 * names, over the ohms the cluster declares, leave no current over.
 */
module Kirchhoff {
  import opened Options
  import opened Graph
  import opened Sums
  import opened Circuit
  import opened Prepare
  import opened Tables
  import opened Linear
  import opened Regions
  import opened Results
  import opened Answers

  type States = seq<(NetId, NetState)>

  /** The voltage published for a node, if one is. */
  function VoltsOf(states: States, id: NetId): Option<real> {
    if |states| == 0 then None
    else if states[0].0 == id then (if states[0].1.Analog? then Some(states[0].1.volts) else None)
    else VoltsOf(states[1..], id)
  }

  function DropOf(states: States, a: NetId, b: NetId): real {
    VoltsOf(states, a).GetOr(0.0) - VoltsOf(states, b).GetOr(0.0)
  }

  /** A node and those chains of zero-ohm resistors join to it. */
  ghost function Supernode(c: Cluster, one: NetId): set<NetId>
    requires one in c.nodes
  {
    var ix := IndexOf(c.nodes);
    set id | id in c.nodes && Joined(ZeroLinks(ix, c.resistors), ix[one], ix[id])
  }

  // ----- what leaves a set of nodes, by part -----

  /** A branch between two members, carrying `amps` from `a` to `b`. */
  function Leaves(nodes: seq<NetId>, part: set<NetId>, a: NetId, b: NetId, amps: real): real {
    if a in nodes && b in nodes then (if a in part then amps else 0.0) - (if b in part then amps else 0.0) else 0.0
  }

  function ResistorAmps(states: States, r: Resistor): real {
    if r.ohms.Finite? && r.ohms.r > 0.0 then DropOf(states, r.a, r.b) / r.ohms.r else 0.0
  }

  function ResistorOut(nodes: seq<NetId>, states: States, part: set<NetId>): Resistor -> real {
    (r: Resistor) => Leaves(nodes, part, r.a, r.b, ResistorAmps(states, r))
  }

  /** Into a source of finite figures, behind its impedance and no less than a microohm. */
  function SourceOut(states: States, part: set<NetId>): Source -> real {
    (z: Source) =>
      if z.node in part && z.volts.Finite? && z.impedance.Finite? && z.impedance.r >= 0.0
      then (VoltsOf(states, z.node).GetOr(0.0) - z.volts.r) / Ohms(z.impedance.r) else 0.0
  }

  /** Into a terminal, behind a microohm. */
  function TerminalOut(states: States, part: set<NetId>): Terminal -> real {
    (t: Terminal) =>
      if t.node in part && t.volts.Finite? then (VoltsOf(states, t.node).GetOr(0.0) - t.volts.r) / 0.000001 else 0.0
  }

  function InjectedIn(part: set<NetId>): Injection -> real {
    (j: Injection) => if j.node in part && j.amps.Finite? then j.amps.r else 0.0
  }

  function AmpsOf(currents: seq<Option<real>>, k: nat): real {
    if k < |currents| then currents[k].GetOr(0.0) else 0.0
  }

  /** Into the first `n` elements, at the currents reported for them. */
  function ElementsOut(nodes: seq<NetId>, part: set<NetId>, elements: seq<Element>, currents: seq<Option<real>>,
                       n: nat): real
    requires n <= |elements|
  {
    if n == 0 then 0.0
    else ElementsOut(nodes, part, elements, currents, n - 1) +
         Leaves(nodes, part, elements[n - 1].a, elements[n - 1].b, AmpsOf(currents, n - 1))
  }

  /** All that leaves the nodes of `part`, less what is injected there. */
  function NetOut(c: Cluster, inputs: Inputs, s: ClusterSolution, part: set<NetId>): real {
    Sum(c.resistors, ResistorOut(c.nodes, s.nodeStates, part)) +
    Sum(inputs.sources, SourceOut(s.nodeStates, part)) +
    Sum(inputs.terminals, TerminalOut(s.nodeStates, part)) +
    ElementsOut(c.nodes, part, inputs.elements, s.branchCurrents, |inputs.elements|) -
    Sum(inputs.injections, InjectedIn(part))
  }

  /** Another finite terminal there says otherwise. */
  predicate Contradicted(terminals: seq<Terminal>, part: set<NetId>, volts: real) {
    exists u :: u in terminals && u.node in part && u.volts.Finite? && u.volts.r != volts
  }

  /** No terminal there has its way: each finite one is contradicted. */
  predicate Unheld(terminals: seq<Terminal>, part: set<NetId>) {
    forall t :: t in terminals && t.node in part && t.volts.Finite? ==> Contradicted(terminals, part, t.volts.r)
  }

  /** Every element there has both its ends published. */
  predicate EndsPublished(c: Cluster, elements: seq<Element>, states: States, part: set<NetId>) {
    forall e :: e in elements && e.a in c.nodes && e.b in c.nodes && (e.a in part || e.b in part) ==>
      VoltsOf(states, e.a).Some? && VoltsOf(states, e.b).Some?
  }

  // ----- what is published -----

  lemma {:induction false} VoltsAtFirst(states: States, nodes: seq<NetId>, id: NetId)
    requires |states| == |nodes| && id in nodes && forall k :: 0 <= k < |nodes| ==> states[k].0 == nodes[k]
    ensures var state := states[FirstAt(nodes, id)].1;
            VoltsOf(states, id) == if state.Analog? then Some(state.volts) else None
  {
    if nodes[0] != id {
      VoltsAtFirst(states[1..], nodes[1..], id);
    }
  }

  ghost predicate Shows(c: Cluster, inputs: Inputs, lab: seq<nat>, s: ClusterSolution, x: nat) {
    Published(c, inputs, lab, LastStamps(c, inputs, lab, s), s.converged, x)
  }

  ghost function Holds(c: Cluster, inputs: Inputs, lab: seq<nat>, x: nat): Option<real> {
    Constant(IndexOf(c.nodes), lab, inputs.terminals, At(lab, x))
  }

  lemma PublishedIs(c: Cluster, inputs: Inputs, lab: seq<nat>, s: ClusterSolution, id: NetId)
    requires Solves(c, inputs, lab, s) && id in c.nodes
    ensures id in IndexOf(c.nodes)
    ensures var x := IndexOf(c.nodes)[id];
            var point := ThePoint(c, inputs, lab, LastStamps(c, inputs, lab, s));
            VoltsOf(s.nodeStates, id) ==
              if Holds(c, inputs, lab, x).Some? then Holds(c, inputs, lab, x)
              else if Unknown(c, inputs, lab, x) && point.Some? && Shows(c, inputs, lab, s, x)
              then Some(Volt(point.value, x)) else None
  {
    hide Solves, Published, LastStamps, Unknown, ThePoint, Constant, IndexOf;
    FirstIndex(c.nodes, id);
    forall k: nat | k < |c.nodes| ensures |s.nodeStates| == |c.nodes| && s.nodeStates[k].0 == c.nodes[k] {
      AnswerState(c, inputs, lab, s, k);
    }
    AnswerState(c, inputs, lab, s, FirstAt(c.nodes, id));
    VoltsAtFirst(s.nodeStates, c.nodes, id);
  }

  lemma FirstIndex(nodes: seq<NetId>, id: NetId)
    requires id in nodes
    ensures id in IndexOf(nodes) && IndexOf(nodes)[id] == FirstAt(nodes, id)
  {
  }

  // ----- at one supernode -----

  /** What is known of a published supernode that no terminal holds. */
  ghost predicate Stands(c: Cluster, inputs: Inputs, lab: seq<nat>, s: ClusterSolution, part: set<NetId>, root: nat,
                         v: seq<real>)
  {
    && Labelling(c, lab) && Grounded(c, inputs, lab, v)
    && ThePoint(c, inputs, lab, LastStamps(c, inputs, lab, s)) == Some(v)
    && InPart(c, lab, part, root)
    && (forall id :: id in c.nodes && VoltsOf(s.nodeStates, id).Some? ==> ReadsAt(c, s, v, id))
    && (forall id :: id in part ==> Live(c, inputs, lab, s, id))
  }

  ghost predicate InPart(c: Cluster, lab: seq<nat>, part: set<NetId>, root: nat) {
    && (forall id :: id in part ==> id in IndexOf(c.nodes))
    && (forall id :: id in IndexOf(c.nodes) ==> (id in part <==> At(lab, IndexOf(c.nodes)[id]) == root))
  }

  ghost predicate ReadsAt(c: Cluster, s: ClusterSolution, v: seq<real>, id: NetId) {
    id in IndexOf(c.nodes) && VoltsOf(s.nodeStates, id) == Some(Volt(v, IndexOf(c.nodes)[id]))
  }

  /** Published, and what wires lead to from there is published too. */
  ghost predicate Live(c: Cluster, inputs: Inputs, lab: seq<nat>, s: ClusterSolution, id: NetId) {
    && id in IndexOf(c.nodes) && VoltsOf(s.nodeStates, id).Some?
    && Reached(c, inputs, IndexOf(c.nodes)[id]) && Shows(c, inputs, lab, s, IndexOf(c.nodes)[id])
  }

  lemma PartIs(c: Cluster, lab: seq<nat>, one: NetId)
    requires Labelling(c, lab) && one in c.nodes
    ensures one in Supernode(c, one)
    ensures InPart(c, lab, Supernode(c, one), At(lab, IndexOf(c.nodes)[one]))
  {
    IndexBounds(c.nodes);
    JoinedSelf(ZeroLinks(IndexOf(c.nodes), c.resistors), IndexOf(c.nodes)[one]);
    hide ZeroLinks, Joined, IndexOf;
  }

  lemma Rival(terminals: seq<Terminal>, part: set<NetId>, volts: real) returns (u: Terminal)
    requires Contradicted(terminals, part, volts)
    ensures u in terminals && u.node in part && u.volts.Finite? && u.volts.r != volts
  {
    u :| u in terminals && u.node in part && u.volts.Finite? && u.volts.r != volts;
  }

  lemma HeldInPart(c: Cluster, lab: seq<nat>, terminals: seq<Terminal>, part: set<NetId>, root: nat, t: Terminal)
    requires InPart(c, lab, part, root) && t in terminals && t.node in part && t.volts.Finite?
    ensures HeldAt(IndexOf(c.nodes), lab, terminals, root, t.volts.r)
  {
    hide IndexOf;
  }

  lemma FoughtThere(c: Cluster, lab: seq<nat>, terminals: seq<Terminal>, part: set<NetId>, root: nat, t: Terminal)
    requires InPart(c, lab, part, root) && Unheld(terminals, part)
    requires t in terminals && t.node in part && t.volts.Finite?
    ensures Fought(IndexOf(c.nodes), lab, terminals, root)
  {
    hide IndexOf, Contradicted, HeldAt, InPart;
    assert Contradicted(terminals, part, t.volts.r);
    var u := Rival(terminals, part, t.volts.r);
    HeldInPart(c, lab, terminals, part, root, t);
    HeldInPart(c, lab, terminals, part, root, u);
  }

  lemma HeldFrom(c: Cluster, lab: seq<nat>, terminals: seq<Terminal>, part: set<NetId>, root: nat, held: real)
    returns (t: Terminal)
    requires InPart(c, lab, part, root) && HeldAt(IndexOf(c.nodes), lab, terminals, root, held)
    ensures t in terminals && t.node in part && t.volts.Finite?
  {
    hide IndexOf;
    t :| t in terminals && ValidTerminal(IndexOf(c.nodes), t) &&
         At(lab, IndexOf(c.nodes)[t.node]) == root && t.volts.r == held;
  }

  /** Where no terminal has its way, none holds. */
  lemma UnheldIs(c: Cluster, inputs: Inputs, lab: seq<nat>, part: set<NetId>, root: nat)
    requires InPart(c, lab, part, root) && Unheld(inputs.terminals, part)
    ensures Constant(IndexOf(c.nodes), lab, inputs.terminals, root).None?
  {
    hide IndexOf, Unheld, HeldAt, InPart, Fought;
    var held := Constant(IndexOf(c.nodes), lab, inputs.terminals, root);
    if held.Some? {
      var t := HeldFrom(c, lab, inputs.terminals, part, root, held.value);
      FoughtThere(c, lab, inputs.terminals, part, root, t);
    }
  }

  lemma PointGroundedThere(c: Cluster, inputs: Inputs, lab: seq<nat>, stamps: seq<Option<Stamp>>, v: seq<real>)
    requires ThePoint(c, inputs, lab, stamps) == Some(v)
    ensures Grounded(c, inputs, lab, v)
    ensures forall x: nat :: Unknown(c, inputs, lab, x) ==> NetCurrent(c, inputs, lab, stamps, At(lab, x), v) == 0.0
  {
    hide Grounded, Unknown, NetCurrent;
  }

  lemma GroundedHolds(c: Cluster, inputs: Inputs, lab: seq<nat>, v: seq<real>, x: nat)
    requires Grounded(c, inputs, lab, v) && x < |c.nodes| && Holds(c, inputs, lab, x).Some?
    ensures Holds(c, inputs, lab, x) == Some(Volt(v, x))
  {
  }

  lemma UnknownIs(c: Cluster, inputs: Inputs, lab: seq<nat>, x: nat)
    ensures Unknown(c, inputs, lab, x) <==> x < |c.nodes| && Reached(c, inputs, x) && Holds(c, inputs, lab, x).None?
  {
  }

  lemma ShownReads(c: Cluster, inputs: Inputs, lab: seq<nat>, s: ClusterSolution, v: seq<real>, id: NetId)
    requires Solves(c, inputs, lab, s) && id in c.nodes && VoltsOf(s.nodeStates, id).Some?
    requires ThePoint(c, inputs, lab, LastStamps(c, inputs, lab, s)) == Some(v)
    ensures ReadsAt(c, s, v, id)
  {
    hide Solves, LastStamps, Unknown, ThePoint, Grounded, Holds, Shows, IndexOf;
    PublishedIs(c, inputs, lab, s, id);
    PointGroundedThere(c, inputs, lab, LastStamps(c, inputs, lab, s), v);
    IndexBounds(c.nodes);
    var x := IndexOf(c.nodes)[id];
    if Holds(c, inputs, lab, x).Some? {
      GroundedHolds(c, inputs, lab, v, x);
    }
  }

  /** What is shown at a node is shown wherever wires lead from it. */
  lemma WiredAlike(c: Cluster, inputs: Inputs, lab: seq<nat>, s: ClusterSolution, x: nat, y: nat)
    requires Reached(c, inputs, x) && Shows(c, inputs, lab, s, x)
    requires Joined(WireLinks(IndexOf(c.nodes), c.resistors), x, y)
    ensures Reached(c, inputs, y) && Shows(c, inputs, lab, s, y)
  {
    var ix := IndexOf(c.nodes);
    var wires := WireLinks(ix, c.resistors);
    hide IndexOf, WireLinks, ConductLinks, ElementLinks, Seeds, Joined, ElementCount, FedFrom, LastStamps;
    var all := wires + ElementLinks(ix, inputs.elements);
    var fed := wires + ConductLinks(ix, inputs.elements, LastStamps(c, inputs, lab, s));
    JoinedMonotone(wires, all, x, y);
    JoinedMonotone(wires, fed, x, y);
    FedStep(all, Seeds(ix, inputs), x, y);
    if Fed(c, inputs, LastStamps(c, inputs, lab, s), x) {
      FedStep(fed, Seeds(ix, inputs), x, y);
    }
  }

  lemma ShownThere(c: Cluster, inputs: Inputs, lab: seq<nat>, s: ClusterSolution, v: seq<real>, id: NetId)
    requires Solves(c, inputs, lab, s) && id in c.nodes && id in IndexOf(c.nodes)
    requires ThePoint(c, inputs, lab, LastStamps(c, inputs, lab, s)) == Some(v)
    requires Reached(c, inputs, IndexOf(c.nodes)[id]) && Shows(c, inputs, lab, s, IndexOf(c.nodes)[id])
    ensures Live(c, inputs, lab, s, id)
  {
    hide Solves, LastStamps, Unknown, ThePoint, Holds, Shows, IndexOf, Reached;
    PublishedIs(c, inputs, lab, s, id);
    IndexBounds(c.nodes);
    UnknownIs(c, inputs, lab, IndexOf(c.nodes)[id]);
  }

  lemma MembersLive(c: Cluster, inputs: Inputs, lab: seq<nat>, s: ClusterSolution, v: seq<real>, one: NetId, id: NetId)
    requires Solves(c, inputs, lab, s) && one in c.nodes && id in Supernode(c, one)
    requires ThePoint(c, inputs, lab, LastStamps(c, inputs, lab, s)) == Some(v)
    requires one in IndexOf(c.nodes)
    requires Reached(c, inputs, IndexOf(c.nodes)[one]) && Shows(c, inputs, lab, s, IndexOf(c.nodes)[one])
    ensures Live(c, inputs, lab, s, id)
  {
    hide Solves, LastStamps, ThePoint, Shows, IndexOf, Reached, ZeroLinks, WireLinks, Joined, Live;
    var ix := IndexOf(c.nodes);
    FirstIndex(c.nodes, id);
    ZeroAmongWires(ix, c.resistors);
    JoinedMonotone(ZeroLinks(ix, c.resistors), WireLinks(ix, c.resistors), ix[one], ix[id]);
    WiredAlike(c, inputs, lab, s, ix[one], ix[id]);
    ShownThere(c, inputs, lab, s, v, id);
  }

  lemma StandsThere(c: Cluster, inputs: Inputs, lab: seq<nat>, s: ClusterSolution, one: NetId) returns (v: seq<real>)
    requires Solves(c, inputs, lab, s) && one in c.nodes && VoltsOf(s.nodeStates, one).Some?
    requires Unheld(inputs.terminals, Supernode(c, one))
    ensures one in IndexOf(c.nodes)
    ensures var root := At(lab, IndexOf(c.nodes)[one]);
            && Stands(c, inputs, lab, s, Supernode(c, one), root, v)
            && Constant(IndexOf(c.nodes), lab, inputs.terminals, root).None?
            && NetCurrent(c, inputs, lab, LastStamps(c, inputs, lab, s), root, v) == 0.0
  {
    hide Solves, LastStamps, Unknown, ThePoint, Shows, IndexOf, Reached, Live, ReadsAt, InPart, Supernode, Unheld,
         Constant, Grounded, NetCurrent, Labelling;
    var part := Supernode(c, one);
    SolvedLabelling(c, inputs, lab, s);
    PartIs(c, lab, one);
    FirstIndex(c.nodes, one);
    var x := IndexOf(c.nodes)[one];
    UnheldIs(c, inputs, lab, part, At(lab, x));
    PublishedIs(c, inputs, lab, s, one);
    v := ThePoint(c, inputs, lab, LastStamps(c, inputs, lab, s)).value;
    PointGroundedThere(c, inputs, lab, LastStamps(c, inputs, lab, s), v);
    UnknownIs(c, inputs, lab, x);
    forall id | id in c.nodes && VoltsOf(s.nodeStates, id).Some? ensures ReadsAt(c, s, v, id) {
      ShownReads(c, inputs, lab, s, v, id);
    }
    forall id | id in part ensures Live(c, inputs, lab, s, id) {
      MembersLive(c, inputs, lab, s, v, one, id);
    }
  }

  lemma SolvedLabelling(c: Cluster, inputs: Inputs, lab: seq<nat>, s: ClusterSolution)
    requires Solves(c, inputs, lab, s)
    ensures Labelling(c, lab)
  {
  }

  // ----- the law, part by part -----

  lemma AcrossReads(c: Cluster, inputs: Inputs, lab: seq<nat>, s: ClusterSolution, v: seq<real>, id: NetId, over: NetId)
    requires Solves(c, inputs, lab, s) && ThePoint(c, inputs, lab, LastStamps(c, inputs, lab, s)) == Some(v)
    requires Live(c, inputs, lab, s, id) && over in c.nodes && over in IndexOf(c.nodes)
    requires (IndexOf(c.nodes)[id], IndexOf(c.nodes)[over]) in WireLinks(IndexOf(c.nodes), c.resistors)
    ensures ReadsAt(c, s, v, over)
  {
    hide Solves, LastStamps, ThePoint, Shows, IndexOf, Reached, WireLinks, ReadsAt;
    var ix := IndexOf(c.nodes);
    JoinedLink(WireLinks(ix, c.resistors), ix[id], ix[over]);
    WiredAlike(c, inputs, lab, s, ix[id], ix[over]);
    ShownThere(c, inputs, lab, s, v, over);
    ShownReads(c, inputs, lab, s, v, over);
  }

  lemma NodesIndexed(nodes: seq<NetId>)
    ensures forall id :: id in IndexOf(nodes) <==> id in nodes
  {
  }

  lemma ResistorAgrees(c: Cluster, inputs: Inputs, lab: seq<nat>, s: ClusterSolution, part: set<NetId>, root: nat,
                       v: seq<real>, r: Resistor)
    requires Solves(c, inputs, lab, s) && Stands(c, inputs, lab, s, part, root, v) && r in c.resistors
    ensures ResistorFlow(IndexOf(c.nodes), lab, root, v)(r) == ResistorOut(c.nodes, s.nodeStates, part)(r)
  {
    hide Solves, LastStamps, ThePoint, IndexOf, Live, ReadsAt, Grounded, Labelling;
    var ix := IndexOf(c.nodes);
    NodesIndexed(c.nodes);
    if Conducts(ix, r) && (r.a in part || r.b in part) {
      WireOf(c, r);
      hide WireLinks;
      if r.a in part { AcrossReads(c, inputs, lab, s, v, r.a, r.b); }
      if r.b in part { AcrossReads(c, inputs, lab, s, v, r.b, r.a); }
      MemberReads(c, inputs, lab, s, part, root, v, if r.a in part then r.a else r.b);
      DropReads(c, s, v, r.a, r.b);
      Answers.Divides(Siemens(r), r.ohms.r, Volt(v, ix[r.a]), Volt(v, ix[r.b]));
    }
  }

  lemma WireOf(c: Cluster, r: Resistor)
    requires r in c.resistors && Conducts(IndexOf(c.nodes), r)
    ensures var ix := IndexOf(c.nodes);
            && (ix[r.a], ix[r.b]) in WireLinks(ix, c.resistors) && (ix[r.b], ix[r.a]) in WireLinks(ix, c.resistors)
  {
  }

  lemma MemberReads(c: Cluster, inputs: Inputs, lab: seq<nat>, s: ClusterSolution, part: set<NetId>, root: nat,
                    v: seq<real>, id: NetId)
    requires Stands(c, inputs, lab, s, part, root, v) && id in part
    ensures id in c.nodes && ReadsAt(c, s, v, id)
  {
    hide LastStamps, ThePoint, Grounded, Labelling, Shows, Reached, IndexOf, ReadsAt;
    NodesIndexed(c.nodes);
    assert Live(c, inputs, lab, s, id);
  }

  lemma DropReads(c: Cluster, s: ClusterSolution, v: seq<real>, a: NetId, b: NetId)
    requires ReadsAt(c, s, v, a) && ReadsAt(c, s, v, b)
    ensures DropOf(s.nodeStates, a, b) == Volt(v, IndexOf(c.nodes)[a]) - Volt(v, IndexOf(c.nodes)[b])
  {
  }

  lemma SourceAgrees(c: Cluster, inputs: Inputs, lab: seq<nat>, s: ClusterSolution, part: set<NetId>, root: nat,
                     v: seq<real>, z: Source)
    requires Stands(c, inputs, lab, s, part, root, v)
    ensures SourceFlow(IndexOf(c.nodes), lab, root, v)(z) == SourceOut(s.nodeStates, part)(z)
  {
    hide LastStamps, ThePoint, IndexOf, Live, Grounded, Labelling, Ohms, Max;
    if z.node in part && z.volts.Finite? && z.impedance.Finite? && z.impedance.r >= 0.0 {
      MemberReads(c, inputs, lab, s, part, root, v, z.node);
      OhmsAreFloored(z.impedance.r);
      Answers.Divides(Conductance(z), Ohms(z.impedance.r), Volt(v, IndexOf(c.nodes)[z.node]), z.volts.r);
    }
  }

  lemma TerminalAgrees(c: Cluster, inputs: Inputs, lab: seq<nat>, s: ClusterSolution, part: set<NetId>, root: nat,
                       v: seq<real>, t: Terminal)
    requires Stands(c, inputs, lab, s, part, root, v) && Unheld(inputs.terminals, part) && t in inputs.terminals
    ensures var ix := IndexOf(c.nodes);
            TerminalFlow(ix, lab, root, Fought(ix, lab, inputs.terminals, root), v)(t) ==
              TerminalOut(s.nodeStates, part)(t)
  {
    hide LastStamps, ThePoint, IndexOf, Live, Grounded, Labelling, Fought, Unheld;
    if t.node in part && t.volts.Finite? {
      MemberReads(c, inputs, lab, s, part, root, v, t.node);
      FoughtThere(c, lab, inputs.terminals, part, root, t);
      Answers.Divides(FLOOR_SIEMENS, 0.000001, Volt(v, IndexOf(c.nodes)[t.node]), t.volts.r);
    }
  }

  lemma InjectionAgrees(c: Cluster, lab: seq<nat>, part: set<NetId>, root: nat, j: Injection)
    requires InPart(c, lab, part, root)
    ensures InjectionFlow(IndexOf(c.nodes), lab, root)(j) == InjectedIn(part)(j)
  {
    hide IndexOf;
  }

  // ----- the elements -----

  lemma HeldIsFed(c: Cluster, inputs: Inputs, lab: seq<nat>, stamps: seq<Option<Stamp>>, x: nat)
    requires Labelling(c, lab) && x < |c.nodes| && Holds(c, inputs, lab, x).Some?
    ensures Fed(c, inputs, stamps, x)
  {
    var ix := IndexOf(c.nodes);
    IndexBounds(c.nodes);
    hide IndexOf, Fed, ZeroLinks, Joined;
    var t :| t in inputs.terminals && ValidTerminal(ix, t) && At(lab, ix[t.node]) == At(lab, x) &&
             t.volts.r == Holds(c, inputs, lab, x).value;
    SeedIsFed(c, inputs, stamps, t);
    FedOverZero(c, inputs, stamps, ix[t.node], x);
  }

  lemma SeedIsFed(c: Cluster, inputs: Inputs, stamps: seq<Option<Stamp>>, t: Terminal)
    requires t in inputs.terminals && ValidTerminal(IndexOf(c.nodes), t)
    ensures Fed(c, inputs, stamps, IndexOf(c.nodes)[t.node])
  {
    var ix := IndexOf(c.nodes);
    hide IndexOf, WireLinks, ConductLinks, Joined;
    JoinedSelf(WireLinks(ix, c.resistors) + ConductLinks(ix, inputs.elements, stamps), ix[t.node]);
    assert ix[t.node] in Seeds(ix, inputs);
  }

  lemma ShownIsFed(c: Cluster, inputs: Inputs, lab: seq<nat>, s: ClusterSolution, id: NetId)
    requires Solves(c, inputs, lab, s) && !NoElements(c, inputs)
    requires id in c.nodes && VoltsOf(s.nodeStates, id).Some?
    ensures id in IndexOf(c.nodes) && Fed(c, inputs, LastStamps(c, inputs, lab, s), IndexOf(c.nodes)[id])
  {
    hide Solves, NoElements, LastStamps, Unknown, ThePoint, Holds, IndexOf, Fed, Labelling, ElementCount;
    PublishedIs(c, inputs, lab, s, id);
    SolvedLabelling(c, inputs, lab, s);
    IndexBounds(c.nodes);
    NoElementsCounted(c, inputs, lab);
    if Holds(c, inputs, lab, IndexOf(c.nodes)[id]).Some? {
      HeldIsFed(c, inputs, lab, LastStamps(c, inputs, lab, s), IndexOf(c.nodes)[id]);
    }
  }

  lemma ShownConverged(c: Cluster, inputs: Inputs, lab: seq<nat>, s: ClusterSolution, id: NetId)
    requires !NoElements(c, inputs) && Live(c, inputs, lab, s, id)
    ensures s.converged
  {
    hide NoElements, Fed, LastStamps, IndexOf, Reached;
    NoElementsCounted(c, inputs, lab);
  }

  lemma ElementReported(c: Cluster, inputs: Inputs, lab: seq<nat>, s: ClusterSolution, k: nat, v: seq<real>)
    requires Solves(c, inputs, lab, s) && s.converged && k < |inputs.elements| && InCluster(c, inputs.elements[k])
    requires ThePoint(c, inputs, lab, LastStamps(c, inputs, lab, s)) == Some(v)
    requires VoltsOf(s.nodeStates, inputs.elements[k].a).Some? && VoltsOf(s.nodeStates, inputs.elements[k].b).Some?
    ensures LastStamps(c, inputs, lab, s)[k].Some?
    ensures AmpsOf(s.branchCurrents, k) == StampCurrent(LastStamps(c, inputs, lab, s)[k].value, v)
  {
    hide Solves, NoElements, ThePoint, IndexOf, Fed, Labelling, Stamped, RegionsAfter, StampCurrent, Reached;
    var e := inputs.elements[k];
    NotWithout(c, inputs, e);
    NodesIndexed(c.nodes);
    SolvedLabelling(c, inputs, lab, s);
    IndexBounds(c.nodes);
    ShownIsFed(c, inputs, lab, s, e.a);
    ShownIsFed(c, inputs, lab, s, e.b);
    LastEnds(c, inputs, lab, s, k);
    LabelFed(c, inputs, lab, LastStamps(c, inputs, lab, s), IndexOf(c.nodes)[e.a]);
    LabelFed(c, inputs, lab, LastStamps(c, inputs, lab, s), IndexOf(c.nodes)[e.b]);
    CurrentIsStamps(c, inputs, lab, s, k, v);
  }

  lemma NotWithout(c: Cluster, inputs: Inputs, e: Element)
    requires e in inputs.elements && InCluster(c, e)
    ensures !NoElements(c, inputs)
  {
  }

  lemma LabelFed(c: Cluster, inputs: Inputs, lab: seq<nat>, stamps: seq<Option<Stamp>>, x: nat)
    requires Labelling(c, lab) && x < |c.nodes| && Fed(c, inputs, stamps, x)
    ensures Fed(c, inputs, stamps, At(lab, x))
  {
    hide Fed;
    FedLabel(c, inputs, lab, stamps, x);
  }

  lemma LastEnds(c: Cluster, inputs: Inputs, lab: seq<nat>, s: ClusterSolution, k: nat)
    requires k < |inputs.elements| && InCluster(c, inputs.elements[k])
    ensures var (e, stamp) := (inputs.elements[k], LastStamps(c, inputs, lab, s)[k]);
            && stamp.Some? && stamp.value.a == At(lab, IndexOf(c.nodes)[e.a])
            && stamp.value.b == At(lab, IndexOf(c.nodes)[e.b])
  {
    hide RegionsAfter, Stamped, IsBase, StampFigures, Times, IndexOf;
    StampIs(c, inputs, lab, RegionsAfter(c, inputs, lab, if s.solves > 0 then s.solves - 1 else 0), k);
  }

  lemma ElementAgrees(c: Cluster, inputs: Inputs, lab: seq<nat>, s: ClusterSolution, part: set<NetId>, root: nat,
                      v: seq<real>, one: NetId, k: nat)
    requires Solves(c, inputs, lab, s) && Stands(c, inputs, lab, s, part, root, v) && one in part
    requires k < |inputs.elements| && EndsPublished(c, inputs.elements, s.nodeStates, part)
    ensures StampFlow(root, v)(LastStamps(c, inputs, lab, s)[k]) ==
            Leaves(c.nodes, part, inputs.elements[k].a, inputs.elements[k].b, AmpsOf(s.branchCurrents, k))
  {
    hide Solves, NoElements, ThePoint, IndexOf, Fed, Labelling, LastStamps, StampCurrent, Grounded, Live, ReadsAt,
         AmpsOf;
    var e := inputs.elements[k];
    NodesIndexed(c.nodes);
    if InCluster(c, e) {
      LastEnds(c, inputs, lab, s, k);
      if e.a in part || e.b in part {
        assert e in inputs.elements;
        NotWithout(c, inputs, e);
        ShownConverged(c, inputs, lab, s, one);
        ElementReported(c, inputs, lab, s, k, v);
      }
    } else {
      LastNone(c, inputs, lab, s, k);
    }
  }

  lemma LastNone(c: Cluster, inputs: Inputs, lab: seq<nat>, s: ClusterSolution, k: nat)
    requires k < |inputs.elements| && !InCluster(c, inputs.elements[k])
    ensures LastStamps(c, inputs, lab, s)[k].None?
  {
    hide RegionsAfter, Stamped, IndexOf;
    NoStamp(c, inputs, lab, RegionsAfter(c, inputs, lab, if s.solves > 0 then s.solves - 1 else 0), k);
  }

  lemma {:induction false} ElementsAgree(c: Cluster, inputs: Inputs, lab: seq<nat>, s: ClusterSolution,
                                         part: set<NetId>, root: nat, v: seq<real>, one: NetId, n: nat)
    requires Solves(c, inputs, lab, s) && Stands(c, inputs, lab, s, part, root, v) && one in part
    requires n <= |inputs.elements| && EndsPublished(c, inputs.elements, s.nodeStates, part)
    ensures Sum(LastStamps(c, inputs, lab, s)[..n], StampFlow(root, v)) ==
            ElementsOut(c.nodes, part, inputs.elements, s.branchCurrents, n)
  {
    hide Solves, Stands, EndsPublished, LastStamps, StampFlow, Leaves, AmpsOf;
    if n > 0 {
      var stamps := LastStamps(c, inputs, lab, s);
      ElementsAgree(c, inputs, lab, s, part, root, v, one, n - 1);
      ElementAgrees(c, inputs, lab, s, part, root, v, one, n - 1);
      assert stamps[..n][..n - 1] == stamps[..n - 1];
    }
  }

  // ----- the law -----

  lemma PartsAgree(c: Cluster, inputs: Inputs, lab: seq<nat>, s: ClusterSolution, part: set<NetId>, root: nat,
                   v: seq<real>, one: NetId)
    requires Solves(c, inputs, lab, s) && Stands(c, inputs, lab, s, part, root, v) && one in part
    requires Unheld(inputs.terminals, part) && EndsPublished(c, inputs.elements, s.nodeStates, part)
    ensures NetOut(c, inputs, s, part) == NetCurrent(c, inputs, lab, LastStamps(c, inputs, lab, s), root, v)
  {
    hide Solves, Stands, EndsPublished, LastStamps, Unheld, IndexOf, Fought, StampFlow, ResistorFlow, SourceFlow,
         TerminalFlow, InjectionFlow, ResistorOut, SourceOut, TerminalOut, InjectedIn, ElementsOut;
    var ix := IndexOf(c.nodes);
    var fought := Fought(ix, lab, inputs.terminals, root);
    StandsPart(c, inputs, lab, s, part, root, v);
    forall r | r in c.resistors
      ensures ResistorFlow(ix, lab, root, v)(r) == ResistorOut(c.nodes, s.nodeStates, part)(r)
    {
      ResistorAgrees(c, inputs, lab, s, part, root, v, r);
    }
    forall z | z in inputs.sources ensures SourceFlow(ix, lab, root, v)(z) == SourceOut(s.nodeStates, part)(z) {
      SourceAgrees(c, inputs, lab, s, part, root, v, z);
    }
    forall t | t in inputs.terminals
      ensures TerminalFlow(ix, lab, root, fought, v)(t) == TerminalOut(s.nodeStates, part)(t)
    {
      TerminalAgrees(c, inputs, lab, s, part, root, v, t);
    }
    forall j | j in inputs.injections ensures InjectionFlow(ix, lab, root)(j) == InjectedIn(part)(j) {
      InjectionAgrees(c, lab, part, root, j);
    }
    SumEqual(c.resistors, ResistorFlow(ix, lab, root, v), ResistorOut(c.nodes, s.nodeStates, part));
    SumEqual(inputs.sources, SourceFlow(ix, lab, root, v), SourceOut(s.nodeStates, part));
    SumEqual(inputs.terminals, TerminalFlow(ix, lab, root, fought, v), TerminalOut(s.nodeStates, part));
    SumEqual(inputs.injections, InjectionFlow(ix, lab, root), InjectedIn(part));
    ElementsAgree(c, inputs, lab, s, part, root, v, one, |inputs.elements|);
    var stamps := LastStamps(c, inputs, lab, s);
    assert stamps[..|inputs.elements|] == stamps;
  }

  lemma StandsPart(c: Cluster, inputs: Inputs, lab: seq<nat>, s: ClusterSolution, part: set<NetId>, root: nat,
                   v: seq<real>)
    requires Stands(c, inputs, lab, s, part, root, v)
    ensures InPart(c, lab, part, root)
  {
  }

  /**
   * At every published supernode that no terminal holds and whose elements hang from nothing unpublished: what the
   * published volts drive through the declared ohms and into sources and fought terminals, with the currents reported
   * for the elements, is exactly what is injected there.
   */
  lemma CurrentLaw(c: Cluster, inputs: Inputs, lab: seq<nat>, s: ClusterSolution, one: NetId)
    requires Solves(c, inputs, lab, s) && one in c.nodes && VoltsOf(s.nodeStates, one).Some?
    requires Unheld(inputs.terminals, Supernode(c, one))
    requires EndsPublished(c, inputs.elements, s.nodeStates, Supernode(c, one))
    ensures NetOut(c, inputs, s, Supernode(c, one)) == 0.0
  {
    hide Solves, LastStamps, IndexOf, Supernode, Stands, NetOut, NetCurrent, Unheld, EndsPublished, Constant;
    SolvedLabelling(c, inputs, lab, s);
    PartIs(c, lab, one);
    var v := StandsThere(c, inputs, lab, s, one);
    PartsAgree(c, inputs, lab, s, Supernode(c, one), At(lab, IndexOf(c.nodes)[one]), v, one);
  }
}
