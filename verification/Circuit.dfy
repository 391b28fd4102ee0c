/**
 * A cluster, its boundary inputs, and the circuit they describe: what it means for node voltages to be
 * an operating point of it. Volts, ohms and amps are exact reals; a non-finite figure is only recognised.
 */
module Circuit {
  import opened Options
  import opened Graph
  import opened Sums

  type NetId = nat

  /** A figure as handed over: a finite number, or an infinity or a NaN. */
  datatype Num = Finite(r: real) | NonFinite

  const IDEAL_SOURCE_FLOOR_OHMS: real := 0.000001
  const GMIN_OHMS: real := 1000000000.0
  const PWL_SOLVES_PER_ELEMENT: nat := 2

  datatype Resistor = Resistor(a: NetId, b: NetId, ohms: Num)
  datatype Source = Source(node: NetId, volts: Num, impedance: Num)
  datatype Terminal = Terminal(node: NetId, volts: Num)
  datatype Injection = Injection(node: NetId, amps: Num)

  datatype Region = Off | On | Active

  datatype RegionTest = AtLeast(threshold: real) | AtMost(threshold: real) {
    /** The test itself: is the control far enough above `b`, or low enough? */
    predicate Passes(controlMinusB: real) {
      match this
      case AtLeast(t) => controlMinusB >= t
      case AtMost(t) => controlMinusB <= t
    }
  }

  datatype Curve =
    | Diode(vf: real, rd: real)
    | Channel(ron: real)
    | Regulator(iReg: real, vReg: real)
    | Bjt(hfe: real, rSat: real)

  datatype Element = Element(a: NetId, b: NetId, curve: Curve, control: Option<(NetId, RegionTest)>)

  datatype Cluster = Cluster(nodes: seq<NetId>, resistors: seq<Resistor>)

  datatype Inputs = Inputs(
    sources: seq<Source>, injections: seq<Injection>, terminals: seq<Terminal>, elements: seq<Element>)

  datatype NetState = Analog(volts: real) | Floating

  datatype ClusterSolution = ClusterSolution(
    nodeStates: seq<(NetId, NetState)>,
    regions: seq<Region>,
    branchCurrents: seq<Option<real>>,
    converged: bool,
    solves: nat,
    unknowns: nat)

  // ----- which inputs count -----

  /** Each member node's dense index: the first place it is listed at. */
  type Index = map<NetId, nat>

  function FirstAt(nodes: seq<NetId>, id: NetId): (k: nat)
    requires id in nodes
    ensures k < |nodes| && nodes[k] == id && id !in nodes[..k]
  {
    if nodes[0] == id then 0 else 1 + FirstAt(nodes[1..], id)
  }

  function IndexOf(nodes: seq<NetId>): Index {
    map id <- nodes :: FirstAt(nodes, id)
  }

  function Max(x: real, y: real): real {
    if x < y then y else x
  }

  predicate Inside(ix: Index, r: Resistor) {
    r.a in ix && r.b in ix
  }

  /** A zero-ohm edge between members: a hard merge. */
  predicate Merges(ix: Index, r: Resistor) {
    Inside(ix, r) && r.ohms == Finite(0.0)
  }

  /** A finite positive resistance between members; every other non-zero value is an open circuit. */
  predicate Conducts(ix: Index, r: Resistor) {
    Inside(ix, r) && r.ohms.Finite? && r.ohms.r > 0.0
  }

  predicate ValidSource(ix: Index, s: Source) {
    s.node in ix && s.volts.Finite? && s.impedance.Finite? && s.impedance.r >= 0.0
  }

  predicate ValidTerminal(ix: Index, t: Terminal) {
    t.node in ix && t.volts.Finite?
  }

  predicate ValidInjection(ix: Index, j: Injection) {
    j.node in ix && j.amps.Finite?
  }

  function Conductance(s: Source): real
    requires s.impedance.Finite?
  {
    1.0 / Max(s.impedance.r, IDEAL_SOURCE_FLOOR_OHMS)
  }

  function Siemens(r: Resistor): real
    requires r.ohms.Finite? && r.ohms.r > 0.0
  {
    1.0 / r.ohms.r
  }

  const FLOOR_SIEMENS: real := 1.0 / IDEAL_SOURCE_FLOOR_OHMS

  // ----- supernodes -----

  ghost function ZeroLinks(ix: Index, resistors: seq<Resistor>): set<Link> {
    (set r <- resistors | Merges(ix, r) :: (ix[r.a], ix[r.b])) +
    (set r <- resistors | Merges(ix, r) :: (ix[r.b], ix[r.a]))
  }

  function At(lab: seq<nat>, x: nat): nat {
    if x < |lab| then lab[x] else x
  }

  /** `lab` names every node's supernode by one of its nodes: equal names are chains of zero-ohm edges. */
  ghost predicate Labelling(c: Cluster, lab: seq<nat>) {
    |lab| == |c.nodes| && Labels(lab, ZeroLinks(IndexOf(c.nodes), c.resistors))
  }

  // ----- terminals -----

  /** Some valid terminal of supernode `root` is declared at `v`. */
  ghost predicate HeldAt(ix: Index, lab: seq<nat>, terminals: seq<Terminal>, root: nat, v: real) {
    exists t :: t in terminals && ValidTerminal(ix, t) && At(lab, ix[t.node]) == root && t.volts.r == v
  }

  ghost predicate Fought(ix: Index, lab: seq<nat>, terminals: seq<Terminal>, root: nat) {
    exists v, w :: HeldAt(ix, lab, terminals, root, v) && HeldAt(ix, lab, terminals, root, w) && v != w
  }

  /** The voltage a supernode is a constant at: the one its terminals agree on. */
  ghost function Constant(ix: Index, lab: seq<nat>, terminals: seq<Terminal>, root: nat): (v: Option<real>)
    ensures v.Some? ==> HeldAt(ix, lab, terminals, root, v.value)
  {
    if !Fought(ix, lab, terminals, root) && exists v :: HeldAt(ix, lab, terminals, root, v)
    then var v :| HeldAt(ix, lab, terminals, root, v); Some(v)
    else None
  }

  // ----- elements, resolved to supernodes -----

  datatype ControlNode = Local(node: nat) | Held(volts: real) | Unheld

  datatype Resolved = Resolved(
    a: nat, b: nat, curve: Curve, control: Option<(ControlNode, RegionTest)>, base: Option<nat>)

  function FirstHeld(terminals: seq<Terminal>, id: NetId): ControlNode {
    if |terminals| == 0 then Unheld
    else if terminals[0].node == id && terminals[0].volts.Finite? then Held(terminals[0].volts.r)
    else FirstHeld(terminals[1..], id)
  }

  /** A control node outside the cluster reads the first finite terminal of its id. */
  function ControlOf(ix: Index, lab: seq<nat>, terminals: seq<Terminal>, id: NetId): ControlNode {
    if id in ix then Local(At(lab, ix[id])) else FirstHeld(terminals, id)
  }

  function ResolveEnds(ix: Index, lab: seq<nat>, terminals: seq<Terminal>, e: Element): Option<Resolved> {
    if e.a in ix && e.b in ix then
      Some(Resolved(
             At(lab, ix[e.a]), At(lab, ix[e.b]), e.curve,
             if e.control.None? then None
             else Some((ControlOf(ix, lab, terminals, e.control.value.0), e.control.value.1)),
             None))
    else None
  }

  /** The first diode from supernode `base` to supernode `emitter`, at or after position `k`. */
  function FirstDiode(ends: seq<Option<Resolved>>, base: nat, emitter: nat, k: nat): (j: Option<nat>)
    requires k <= |ends|
    ensures j.Some? ==> k <= j.value < |ends| && ends[j.value].Some? && ends[j.value].value.curve.Diode?
                        && ends[j.value].value.a == base && ends[j.value].value.b == emitter
    decreases |ends| - k
  {
    if k == |ends| then None
    else if ends[k].Some? && ends[k].value.curve.Diode?
            && ends[k].value.a == base && ends[k].value.b == emitter then Some(k)
    else FirstDiode(ends, base, emitter, k + 1)
  }

  /** Which diode a transistor's gain follows: among those between its control and its `b`, the one listed earliest. */
  function WithBase(ends: seq<Option<Resolved>>, e: Option<Resolved>): Option<Resolved> {
    if e.Some? && e.value.curve.Bjt? && e.value.control.Some? && e.value.control.value.0.Local?
    then Some(e.value.(base := FirstDiode(ends, e.value.control.value.0.node, e.value.b, 0)))
    else e
  }

  function Ends(ix: Index, lab: seq<nat>, inputs: Inputs): (r: seq<Option<Resolved>>)
    ensures |r| == |inputs.elements|
  {
    seq(|inputs.elements|, k requires 0 <= k < |inputs.elements| =>
      ResolveEnds(ix, lab, inputs.terminals, inputs.elements[k]))
  }

  /** The elements resolved to supernodes; one naming a node outside keeps its slot, empty. */
  function Resolve(ix: Index, lab: seq<nat>, inputs: Inputs): (r: seq<Option<Resolved>>)
    ensures |r| == |inputs.elements|
  {
    var ends := Ends(ix, lab, inputs);
    seq(|ends|, k requires 0 <= k < |ends| => WithBase(ends, ends[k]))
  }

  // ----- element stamps -----

  /** The collector current `k * (V(bn) - V(en)) - i0` of an active transistor. */
  datatype Gain = Gain(bn: nat, en: nat, k: real, i0: real)

  /** A branch from `a` to `b` carrying `g * (V(a) - V(b)) - i`, and the gain term. */
  datatype Stamp = Stamp(a: nat, b: nat, g: real, i: real, gain: Option<Gain>)

  function StampFigures(curve: Curve, region: Region): (real, real) {
    match (curve, region)
    case (Regulator(iReg, vReg), Off) => (iReg / Max(vReg, IDEAL_SOURCE_FLOOR_OHMS), 0.0)
    case (_, Off) => (1.0 / GMIN_OHMS, 0.0)
    case (Diode(vf, rd), _) =>
      (1.0 / Max(rd, IDEAL_SOURCE_FLOOR_OHMS), vf * (1.0 / Max(rd, IDEAL_SOURCE_FLOOR_OHMS)))
    case (Channel(ron), _) => (1.0 / Max(ron, IDEAL_SOURCE_FLOOR_OHMS), 0.0)
    case (Regulator(iReg, _), _) => (1.0 / GMIN_OHMS, -iReg)
    case (Bjt(_, rSat), On) => (1.0 / Max(rSat, IDEAL_SOURCE_FLOOR_OHMS), 0.0)
    case (Bjt(_, _), Active) => (1.0 / GMIN_OHMS, 0.0)
  }

  function BareStamp(e: Option<Resolved>, region: Region): Option<Stamp> {
    if e.None? then None
    else
      var (g, i) := StampFigures(e.value.curve, region);
      Some(Stamp(e.value.a, e.value.b, g, i, None))
  }

  function BareStamps(elements: seq<Option<Resolved>>, regions: seq<Region>): (s: seq<Option<Stamp>>)
    requires |regions| == |elements|
    ensures |s| == |elements|
  {
    seq(|elements|, k requires 0 <= k < |elements| == |regions| => BareStamp(elements[k], regions[k]))
  }

  function Times(hfe: real, figure: real): real {
    hfe * figure
  }

  /** An active transistor's stamp with its base diode's own stamp multiplied in; none without one. */
  function WithGain(bare: seq<Option<Stamp>>, e: Option<Resolved>, s: Option<Stamp>, region: Region): Option<Stamp> {
    if s.None? || e.None? then None
    else if e.value.curve.Bjt? && region == Active && e.value.base.Some? then
      if e.value.base.value < |bare| && bare[e.value.base.value].Some? then
        var diode := bare[e.value.base.value].value;
        var hfe := e.value.curve.hfe;
        Some(s.value.(gain := Some(Gain(diode.a, diode.b, Times(hfe, diode.g), Times(hfe, diode.i)))))
      else None
    else s
  }

  /** Every element's stamp in its current region. */
  function StampsOf(elements: seq<Option<Resolved>>, regions: seq<Region>): (s: seq<Option<Stamp>>)
    requires |regions| == |elements|
    ensures |s| == |elements|
  {
    var bare := BareStamps(elements, regions);
    seq(|elements|, k requires 0 <= k < |elements| == |regions| == |bare| =>
      WithGain(bare, elements[k], bare[k], regions[k]))
  }

  // ----- the circuit's law -----

  function Volt(v: seq<real>, x: nat): real {
    if x < |v| then v[x] else 0.0
  }

  /** What a branch carrying `amps` from supernode `a` to supernode `b` takes out of supernode `root`. */
  function Leaving(root: nat, a: nat, b: nat, amps: real): real {
    (if a == root then amps else 0.0) - (if b == root then amps else 0.0)
  }

  /** The current from `a` to `b` through conductance `g`. */
  function Ohmic(a: nat, b: nat, g: real, v: seq<real>): real {
    g * (Volt(v, a) - Volt(v, b))
  }

  /** What node `x` sinks into a source of `e` volts behind conductance `g`. */
  function Sinks(x: nat, g: real, e: real, v: seq<real>): real {
    g * (Volt(v, x) - e)
  }

  function ResistorLeaves(ix: Index, lab: seq<nat>, root: nat, v: seq<real>, r: Resistor): real {
    if Conducts(ix, r)
    then Leaving(root, At(lab, ix[r.a]), At(lab, ix[r.b]), Ohmic(ix[r.a], ix[r.b], Siemens(r), v))
    else 0.0
  }

  function SourceLeaves(ix: Index, lab: seq<nat>, root: nat, v: seq<real>, s: Source): real {
    if ValidSource(ix, s) && At(lab, ix[s.node]) == root then Sinks(ix[s.node], Conductance(s), s.volts.r, v) else 0.0
  }

  /** The terminals of a fought supernode are ideal sources behind the floor. */
  function TerminalLeaves(ix: Index, lab: seq<nat>, root: nat, fought: bool, v: seq<real>, t: Terminal): real {
    if fought && ValidTerminal(ix, t) && At(lab, ix[t.node]) == root then Sinks(ix[t.node], FLOOR_SIEMENS, t.volts.r, v)
    else 0.0
  }

  function ResistorFlow(ix: Index, lab: seq<nat>, root: nat, v: seq<real>): Resistor -> real {
    (r: Resistor) => ResistorLeaves(ix, lab, root, v, r)
  }

  function SourceFlow(ix: Index, lab: seq<nat>, root: nat, v: seq<real>): Source -> real {
    (s: Source) => SourceLeaves(ix, lab, root, v, s)
  }

  function TerminalFlow(ix: Index, lab: seq<nat>, root: nat, fought: bool, v: seq<real>): Terminal -> real {
    (t: Terminal) => TerminalLeaves(ix, lab, root, fought, v, t)
  }

  function InjectionFlow(ix: Index, lab: seq<nat>, root: nat): Injection -> real {
    (j: Injection) => if ValidInjection(ix, j) && At(lab, ix[j.node]) == root then j.amps.r else 0.0
  }

  /** A linear branch: conductance `g` beside a Norton current `i`. */
  function BranchAmps(g: real, i: real, va: real, vb: real): real {
    g * (va - vb) - i
  }

  /** The current through a stamp from `a` to `b`. */
  function StampCurrent(s: Stamp, v: seq<real>): real {
    BranchAmps(s.g, s.i, Volt(v, s.a), Volt(v, s.b)) +
    if s.gain.Some? then BranchAmps(s.gain.value.k, s.gain.value.i0, Volt(v, s.gain.value.bn), Volt(v, s.gain.value.en))
    else 0.0
  }

  function StampFlow(root: nat, v: seq<real>): Option<Stamp> -> real {
    (s: Option<Stamp>) => if s.Some? then Leaving(root, s.value.a, s.value.b, StampCurrent(s.value, v)) else 0.0
  }

  /**
   * Kirchhoff's current law at one supernode, as the net current leaving it: through its resistors, into
   * its sources, through its elements, less what is injected.
   */
  ghost function NetCurrent(
    c: Cluster, inputs: Inputs, lab: seq<nat>, stamps: seq<Option<Stamp>>, root: nat, v: seq<real>): real
  {
    var ix := IndexOf(c.nodes);
    Sum(c.resistors, ResistorFlow(ix, lab, root, v)) +
    Sum(inputs.sources, SourceFlow(ix, lab, root, v)) +
    Sum(inputs.terminals, TerminalFlow(ix, lab, root, Fought(ix, lab, inputs.terminals, root), v)) +
    Sum(stamps, StampFlow(root, v)) -
    Sum(inputs.injections, InjectionFlow(ix, lab, root))
  }

  // ----- what a source reaches -----

  ghost function WireLinks(ix: Index, resistors: seq<Resistor>): set<Link> {
    (set r <- resistors | Merges(ix, r) || Conducts(ix, r) :: (ix[r.a], ix[r.b])) +
    (set r <- resistors | Merges(ix, r) || Conducts(ix, r) :: (ix[r.b], ix[r.a]))
  }

  ghost function ElementLinks(ix: Index, elements: seq<Element>): set<Link> {
    (set e <- elements | e.a in ix && e.b in ix :: (ix[e.a], ix[e.b])) +
    (set e <- elements | e.a in ix && e.b in ix :: (ix[e.b], ix[e.a]))
  }

  /** The nodes of the valid sources and terminals. */
  ghost function Seeds(ix: Index, inputs: Inputs): iset<nat> {
    (iset s | s in inputs.sources && ValidSource(ix, s) :: ix[s.node]) +
    (iset t | t in inputs.terminals && ValidTerminal(ix, t) :: ix[t.node])
  }

  /** A path of zero-ohm edges, conducting resistors and elements joins `x` to a valid source or terminal. */
  ghost predicate Reached(c: Cluster, inputs: Inputs, x: nat) {
    var ix := IndexOf(c.nodes);
    FedFrom(WireLinks(ix, c.resistors) + ElementLinks(ix, inputs.elements), Seeds(ix, inputs), x)
  }

  /** A node the solve has to find a voltage for: reached, and of no constant supernode. */
  ghost predicate Unknown(c: Cluster, inputs: Inputs, lab: seq<nat>, x: nat) {
    && x < |c.nodes| && Reached(c, inputs, x)
    && Constant(IndexOf(c.nodes), lab, inputs.terminals, At(lab, x)).None?
  }

  /** Voltages that are equal over supernodes, at the constants, and zero where nothing reaches. */
  ghost predicate Grounded(c: Cluster, inputs: Inputs, lab: seq<nat>, v: seq<real>) {
    && |v| == |c.nodes|
    && (forall x: nat :: x < |v| ==> v[x] == Volt(v, At(lab, x)))
    && (forall x: nat :: x < |v| && Constant(IndexOf(c.nodes), lab, inputs.terminals, At(lab, x)).Some? ==>
          v[x] == Constant(IndexOf(c.nodes), lab, inputs.terminals, At(lab, x)).value)
    && (forall x: nat :: x < |v| && !Reached(c, inputs, x) ==> v[x] == 0.0)
  }

  /**
   * Node voltages of the circuit with the elements stamped as `stamps`: grounded, and balanced at every
   * unknown supernode. An unreached node reads zero here and has no voltage in any result.
   */
  ghost predicate OperatingPoint(
    c: Cluster, inputs: Inputs, lab: seq<nat>, stamps: seq<Option<Stamp>>, v: seq<real>)
  {
    && Grounded(c, inputs, lab, v)
    && forall x: nat :: Unknown(c, inputs, lab, x) ==> NetCurrent(c, inputs, lab, stamps, At(lab, x), v) == 0.0
  }

  ghost predicate OnlyPoint(
    c: Cluster, inputs: Inputs, lab: seq<nat>, stamps: seq<Option<Stamp>>, v: seq<real>)
  {
    && OperatingPoint(c, inputs, lab, stamps, v)
    && forall w :: OperatingPoint(c, inputs, lab, stamps, w) ==> w == v
  }

  /** The operating point, where the circuit has exactly one. */
  ghost function ThePoint(c: Cluster, inputs: Inputs, lab: seq<nat>, stamps: seq<Option<Stamp>>): (p: Option<seq<real>>)
    ensures p.Some? <==> exists v :: OnlyPoint(c, inputs, lab, stamps, v)
    ensures p.Some? ==> OnlyPoint(c, inputs, lab, stamps, p.value)
  {
    if exists v :: OnlyPoint(c, inputs, lab, stamps, v)
    then var v :| OnlyPoint(c, inputs, lab, stamps, v); Some(v)
    else None
  }

  /** Two different grounded voltages draw the same current everywhere: the law cannot tell them apart. */
  ghost predicate Undetermined(c: Cluster, inputs: Inputs, lab: seq<nat>, stamps: seq<Option<Stamp>>) {
    exists v, w :: Grounded(c, inputs, lab, v) && Grounded(c, inputs, lab, w) && v != w &&
      forall x: nat :: Unknown(c, inputs, lab, x) ==>
        NetCurrent(c, inputs, lab, stamps, At(lab, x), v) == NetCurrent(c, inputs, lab, stamps, At(lab, x), w)
  }
}
