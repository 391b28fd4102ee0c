/**
 * Stamping the circuit into `G * V = I` over the unknown supernodes. Whatever is stamped, a row's left side
 * less its right side is the current leaving its supernode: the matrix means the circuit.
 */
module Stamping {
  import opened Options
  import opened Sums
  import opened Dense
  import opened Circuit

  datatype Edge = Edge(a: nat, b: nat, g: real)
  datatype Norton = Norton(root: nat, g: real, i: real)

  /** Labels, terminal constants and matrix positions of a cluster's supernodes. */
  datatype Frame = Frame(
    lab: seq<nat>, constants: seq<Option<real>>, compact: seq<Option<nat>>, unknowns: seq<nat>)
  {
    predicate Valid() {
      && |compact| == |lab| && |constants| <= |lab|
      && (forall x: nat :: x < |lab| ==> lab[x] < |lab| && lab[lab[x]] == lab[x])
      && (forall x: nat :: x < |lab| && compact[x].Some? ==>
            compact[x].value < |unknowns| && unknowns[compact[x].value] == x && ConstantAt(x).None? && lab[x] == x)
      && (forall k: nat :: k < |unknowns| ==> unknowns[k] < |lab| && compact[unknowns[k]] == Some(k))
    }

    function ConstantAt(root: nat): Option<real> {
      if root < |constants| then constants[root] else None
    }

    function Compact(root: nat): Option<nat> {
      if root < |compact| then compact[root] else None
    }

    /** The supernode is an unknown or a constant: its voltage means something. */
    predicate Known(root: nat) {
      Compact(root).Some? || ConstantAt(root).Some?
    }

    /** Node voltages that are equal over a supernode and at the constants. */
    ghost predicate Respects(v: seq<real>) {
      && |v| == |lab|
      && (forall x: nat :: x < |v| ==> v[x] == Volt(v, At(lab, x)))
      && (forall x: nat :: x < |v| && ConstantAt(x).Some? ==> v[x] == ConstantAt(x).value)
    }

    /** The unknowns' voltages, in matrix order. */
    ghost function Pick(v: seq<real>): Vector {
      seq(|unknowns|, k requires 0 <= k < |unknowns| => Volt(v, unknowns[k]))
    }
  }

  datatype System = System(matrix: Matrix, rhs: Vector)

  ghost predicate Shaped(f: Frame, sys: System) {
    f.Valid() && |sys.rhs| == |f.unknowns| && Square(sys.matrix, |sys.rhs|)
  }

  /** A row at voltages `v`: what the matrix says, less the right-hand side. */
  ghost function Residue(f: Frame, sys: System, v: seq<real>, k: nat): real
    requires Shaped(f, sys) && k < |f.unknowns|
  {
    Dot(sys.matrix[k], f.Pick(v)) - sys.rhs[k]
  }

  function AddAt(m: Matrix, r: nat, c: nat, amount: real): (m': Matrix)
    requires Square(m, |m|) && r < |m| && c < |m|
    ensures Square(m', |m|) && |m'| == |m|
  {
    m[r := m[r][c := m[r][c] + amount]]
  }

  lemma AddAtDot(m: Matrix, r: nat, c: nat, amount: real, k: nat, y: Vector)
    requires Square(m, |m|) && r < |m| && c < |m| && k < |m| && |y| == |m|
    ensures Dot(AddAt(m, r, c, amount)[k], y) == Dot(m[k], y) + if k == r then amount * y[c] else 0.0
  {
    DotBump(m[r], y, c, amount, |y|);
  }

  // ----- one conductance -----

  /** `sys'` is `sys` with the conductance `g` between `a` and `b` stamped in. */
  ghost predicate Adds(f: Frame, sys: System, sys': System, a: nat, b: nat, g: real) {
    && Shaped(f, sys) && Shaped(f, sys')
    && forall v: seq<real>, k: nat :: f.Respects(v) && k < |f.unknowns| ==>
         Residue(f, sys', v, k) == Residue(f, sys, v, k) + Leaving(f.unknowns[k], a, b, Ohmic(a, b, g, v))
  }

  /** Between two unknowns: on both diagonals, and against each other. */
  method StampBetween(f: Frame, a: nat, b: nat, ca: nat, cb: nat, g: real, sys: System) returns (sys': System)
    requires Shaped(f, sys) && a != b && f.Compact(a) == Some(ca) && f.Compact(b) == Some(cb)
    ensures Adds(f, sys, sys', a, b, g)
  {
    hide AddAt, Dot;
    var m := sys.matrix;
    var m1 := AddAt(m, ca, ca, g);
    var m2 := AddAt(m1, cb, cb, g);
    var m3 := AddAt(m2, ca, cb, -g);
    var m4 := AddAt(m3, cb, ca, -g);
    sys' := System(m4, sys.rhs);
    forall v: seq<real>, k: nat | f.Respects(v) && k < |f.unknowns|
      ensures Residue(f, sys', v, k) == Residue(f, sys, v, k) + Leaving(f.unknowns[k], a, b, Ohmic(a, b, g, v))
    {
      var y := f.Pick(v);
      AddAtDot(m, ca, ca, g, k, y);
      AddAtDot(m1, cb, cb, g, k, y);
      AddAtDot(m2, ca, cb, -g, k, y);
      AddAtDot(m3, cb, ca, -g, k, y);
      assert y[ca] == Volt(v, a) && y[cb] == Volt(v, b);
      assert g * Volt(v, a) + -g * Volt(v, b) == Ohmic(a, b, g, v);
    }
  }

  method StampConductance(f: Frame, a: nat, b: nat, g: real, sys: System) returns (sys': System)
    requires Shaped(f, sys) && a != b
    requires f.Compact(a).Some? ==> f.Known(b)
    requires f.Compact(b).Some? ==> f.Known(a)
    ensures Adds(f, sys, sys', a, b, g)
  {
    match (f.Compact(a), f.Compact(b)) {
      case (Some(ca), Some(cb)) =>
        sys' := StampBetween(f, a, b, ca, cb, g, sys);
      case (Some(ca), None) =>
        sys' := StampAgainst(f, a, b, ca, g, sys);
      case (None, Some(cb)) =>
        sys' := StampAgainst(f, b, a, cb, g, sys);
        AddsBothWays(f, sys, sys', b, a, g);
      case (None, None) =>
        sys' := sys;
    }
  }

  lemma AddsBothWays(f: Frame, sys: System, sys': System, a: nat, b: nat, g: real)
    requires Adds(f, sys, sys', a, b, g)
    ensures Adds(f, sys, sys', b, a, g)
  {
    forall v: seq<real>, k: nat | f.Respects(v) && k < |f.unknowns|
      ensures Residue(f, sys', v, k) == Residue(f, sys, v, k) + Leaving(f.unknowns[k], b, a, Ohmic(b, a, g, v))
    {
      assert Ohmic(a, b, g, v) == -Ohmic(b, a, g, v);
    }
  }

  /** Against a constant: on the near diagonal, and the constant's share on the near right-hand side. */
  method StampAgainst(f: Frame, near: nat, far: nat, c: nat, g: real, sys: System) returns (sys': System)
    requires Shaped(f, sys) && near != far
    requires f.Compact(near) == Some(c) && f.Compact(far).None? && f.ConstantAt(far).Some?
    ensures Adds(f, sys, sys', near, far, g)
  {
    var held := f.ConstantAt(far).value;
    sys' := System(AddAt(sys.matrix, c, c, g), sys.rhs[c := sys.rhs[c] + g * held]);
    forall v: seq<real>, k: nat | f.Respects(v) && k < |f.unknowns|
      ensures Residue(f, sys', v, k) ==
                Residue(f, sys, v, k) + Leaving(f.unknowns[k], near, far, Ohmic(near, far, g, v))
    {
      AddAtDot(sys.matrix, c, c, g, k, f.Pick(v));
    }
  }

  // ----- one element -----

  /** Adding `amount` to a row's right-hand side. */
  method AddRhs(f: Frame, k: nat, amount: real, sys: System) returns (sys': System)
    requires Shaped(f, sys) && k < |f.unknowns|
    ensures Shaped(f, sys')
    ensures forall v: seq<real>, j: nat :: f.Respects(v) && j < |f.unknowns| ==>
              Residue(f, sys', v, j) == Residue(f, sys, v, j) - if j == k then amount else 0.0
  {
    sys' := System(sys.matrix, sys.rhs[k := sys.rhs[k] + amount]);
  }

  /** One factor of a controlled source: on the left at an unknown, on the right at a constant. */
  method AddControl(f: Frame, k: nat, node: nat, amount: real, sys: System) returns (sys': System)
    requires Shaped(f, sys) && k < |f.unknowns| && f.Known(node)
    ensures Shaped(f, sys')
    ensures forall v: seq<real>, j: nat :: f.Respects(v) && j < |f.unknowns| ==>
              Residue(f, sys', v, j) == Residue(f, sys, v, j) + if j == k then amount * Volt(v, node) else 0.0
  {
    match (f.Compact(node), f.ConstantAt(node)) {
      case (Some(c), _) =>
        sys' := System(AddAt(sys.matrix, k, c, amount), sys.rhs);
        forall v: seq<real>, j: nat | f.Respects(v) && j < |f.unknowns|
          ensures Residue(f, sys', v, j) == Residue(f, sys, v, j) + if j == k then amount * Volt(v, node) else 0.0
        {
          AddAtDot(sys.matrix, k, c, amount, j, f.Pick(v));
        }
      case (None, Some(held)) =>
        sys' := AddRhs(f, k, -(amount * held), sys);
      case (None, None) =>
        sys' := sys;
    }
  }

  /** The controlled source of an active transistor, in the row of one end of its branch. */
  method StampGain(f: Frame, end: nat, sign: real, gain: Gain, sys: System) returns (sys': System)
    requires Shaped(f, sys)
    requires f.Compact(end).Some? ==> f.Known(gain.bn) && f.Known(gain.en)
    ensures Shaped(f, sys')
    ensures forall v: seq<real>, k: nat :: f.Respects(v) && k < |f.unknowns| ==>
              Residue(f, sys', v, k) == Residue(f, sys, v, k) +
                if f.unknowns[k] == end then sign * GainCurrent(gain, v) else 0.0
  {
    sys' := sys;
    if f.Compact(end).Some? {
      var r := f.Compact(end).value;
      var s1 := AddControl(f, r, gain.bn, sign * gain.k, sys);
      var s2 := AddControl(f, r, gain.en, -(sign * gain.k), s1);
      sys' := AddRhs(f, r, sign * gain.i0, s2);
      forall v: seq<real>, k: nat | f.Respects(v) && k < |f.unknowns|
        ensures Residue(f, sys', v, k) == Residue(f, sys, v, k) +
                  if f.unknowns[k] == end then sign * GainCurrent(gain, v) else 0.0
      {
        GainFactors(sign, gain, v);
      }
    }
  }

  ghost function GainCurrent(gain: Gain, v: seq<real>): real {
    gain.k * (Volt(v, gain.bn) - Volt(v, gain.en)) - gain.i0
  }

  lemma GainFactors(sign: real, gain: Gain, v: seq<real>)
    ensures sign * gain.k * Volt(v, gain.bn) + -(sign * gain.k) * Volt(v, gain.en) - sign * gain.i0
         == sign * GainCurrent(gain, v)
  {
    var b, e := Volt(v, gain.bn), Volt(v, gain.en);
    assert sign * (gain.k * (b - e)) == sign * gain.k * b - sign * gain.k * e;
  }

  /** Every node the stamp's branch and gain name has a voltage, wherever one end is an unknown. */
  ghost predicate StampKnown(f: Frame, s: Stamp) {
    f.Compact(s.a).Some? || f.Compact(s.b).Some? ==>
      f.Known(s.a) && f.Known(s.b) && (s.gain.Some? ==> f.Known(s.gain.value.bn) && f.Known(s.gain.value.en))
  }

  /** The conductance and the Norton current of an element's branch. */
  method StampBranch(f: Frame, s: Stamp, sys: System) returns (sys': System)
    requires Shaped(f, sys) && StampKnown(f, s) && s.a != s.b
    ensures Shaped(f, sys')
    ensures forall v: seq<real>, k: nat :: f.Respects(v) && k < |f.unknowns| ==>
              Residue(f, sys', v, k) == Residue(f, sys, v, k) +
                Leaving(f.unknowns[k], s.a, s.b, Ohmic(s.a, s.b, s.g, v)) - Leaving(f.unknowns[k], s.a, s.b, s.i)
  {
    var s1 := StampConductance(f, s.a, s.b, s.g, sys);
    var s2 := s1;
    if f.Compact(s.a).Some? {
      s2 := AddRhs(f, f.Compact(s.a).value, s.i, s1);
    }
    assert forall v: seq<real>, k: nat :: f.Respects(v) && k < |f.unknowns| ==>
             Residue(f, s2, v, k) == Residue(f, s1, v, k) - if s.a == f.unknowns[k] then s.i else 0.0;
    sys' := s2;
    if f.Compact(s.b).Some? {
      sys' := AddRhs(f, f.Compact(s.b).value, -s.i, s2);
    }
  }

  lemma CurrentSplits(root: nat, s: Stamp, v: seq<real>)
    ensures StampFlow(root, v)(Some(s)) ==
            Leaving(root, s.a, s.b, Ohmic(s.a, s.b, s.g, v)) - Leaving(root, s.a, s.b, s.i) +
            if s.gain.Some? then Leaving(root, s.a, s.b, GainCurrent(s.gain.value, v)) else 0.0
  {
  }

  /** Both rows of an active transistor's controlled source. */
  method StampGains(f: Frame, s: Stamp, gain: Gain, sys: System) returns (sys': System)
    requires Shaped(f, sys) && StampKnown(f, s) && s.a != s.b && s.gain == Some(gain)
    ensures Shaped(f, sys')
    ensures forall v: seq<real>, k: nat :: f.Respects(v) && k < |f.unknowns| ==>
              Residue(f, sys', v, k) == Residue(f, sys, v, k) + Leaving(f.unknowns[k], s.a, s.b, GainCurrent(gain, v))
  {
    var half := StampGain(f, s.a, 1.0, gain, sys);
    sys' := StampGain(f, s.b, -1.0, gain, half);
  }

  /** One element in its region: its branch and, for an active transistor, its controlled source. */
  method StampElement(f: Frame, s: Stamp, sys: System) returns (sys': System)
    requires Shaped(f, sys) && StampKnown(f, s)
    ensures Shaped(f, sys')
    ensures forall v: seq<real>, k: nat :: f.Respects(v) && k < |f.unknowns| ==>
              Residue(f, sys', v, k) == Residue(f, sys, v, k) + StampFlow(f.unknowns[k], v)(Some(s))
  {
    if s.a == s.b {
      return sys; // both ends on one supernode: no branch
    }
    var branch := StampBranch(f, s, sys);
    sys' := branch;
    if s.gain.Some? {
      sys' := StampGains(f, s, s.gain.value, branch);
    }
    forall v: seq<real>, k: nat | f.Respects(v) && k < |f.unknowns|
      ensures Residue(f, sys', v, k) == Residue(f, sys, v, k) + StampFlow(f.unknowns[k], v)(Some(s))
    {
      CurrentSplits(f.unknowns[k], s, v);
    }
  }

  // ----- the whole assembly -----

  function EdgeFlow(root: nat, v: seq<real>): Edge -> real {
    (e: Edge) => Leaving(root, e.a, e.b, Ohmic(e.a, e.b, e.g, v))
  }

  function NortonFlow(root: nat, v: seq<real>): Norton -> real {
    (s: Norton) => if s.root == root then s.g * Volt(v, root) - s.i else 0.0
  }

  /** The current leaving supernode `root` through what has been stamped so far. */
  ghost function Balance(
    ix: Index, f: Frame, root: nat, v: seq<real>,
    edges: seq<Edge>, sources: seq<Norton>, injections: seq<Injection>, stamps: seq<Option<Stamp>>): real
  {
    Sum(edges, EdgeFlow(root, v)) + Sum(sources, NortonFlow(root, v)) +
    Sum(stamps, StampFlow(root, v)) - Sum(injections, InjectionFlow(ix, f.lab, root))
  }

  /** Each row, at any voltages, is the current balance of its supernode. */
  ghost predicate Means(
    ix: Index, f: Frame, sys: System,
    edges: seq<Edge>, sources: seq<Norton>, injections: seq<Injection>, stamps: seq<Option<Stamp>>)
  {
    && Shaped(f, sys)
    && forall v: seq<real>, k: nat :: f.Respects(v) && k < |f.unknowns| ==>
         Residue(f, sys, v, k) == Balance(ix, f, f.unknowns[k], v, edges, sources, injections, stamps)
  }

  ghost predicate EdgesKnown(f: Frame, edges: seq<Edge>) {
    forall e :: e in edges ==>
      e.a != e.b && (f.Compact(e.a).Some? ==> f.Known(e.b)) && (f.Compact(e.b).Some? ==> f.Known(e.a))
  }

  method EmptySystem(ghost ix: Index, f: Frame) returns (sys: System)
    requires f.Valid()
    ensures Means(ix, f, sys, [], [], [], [])
  {
    var m := |f.unknowns|;
    sys := System(seq(m, _ => seq(m, _ => 0.0)), seq(m, _ => 0.0));
    forall v: seq<real>, k: nat | f.Respects(v) && k < |f.unknowns|
      ensures Residue(f, sys, v, k) == 0.0
    {
      DotZero(sys.matrix[k], f.Pick(v), m);
    }
  }

  lemma EdgeStamped(ix: Index, f: Frame, edges: seq<Edge>, e: Edge, sys: System, sys': System)
    requires Means(ix, f, sys, edges, [], [], []) && Adds(f, sys, sys', e.a, e.b, e.g)
    ensures Means(ix, f, sys', edges + [e], [], [], [])
  {
    forall v: seq<real>, k: nat | f.Respects(v) && k < |f.unknowns|
      ensures Residue(f, sys', v, k) == Balance(ix, f, f.unknowns[k], v, edges + [e], [], [], [])
    {
      SumAppend(edges, e, EdgeFlow(f.unknowns[k], v));
    }
  }

  method StampEdges(ghost ix: Index, f: Frame, edges: seq<Edge>) returns (sys: System)
    requires f.Valid() && EdgesKnown(f, edges)
    ensures Means(ix, f, sys, edges, [], [], [])
  {
    sys := EmptySystem(ix, f);
    for j := 0 to |edges|
      invariant Means(ix, f, sys, edges[..j], [], [], [])
    {
      var e := edges[j];
      assert e in edges;
      var stamped := StampConductance(f, e.a, e.b, e.g, sys);
      EdgeStamped(ix, f, edges[..j], e, sys, stamped);
      assert edges[..j + 1] == edges[..j] + [e];
      sys := stamped;
    }
    assert edges[..|edges|] == edges;
  }

  method StampSource(f: Frame, s: Norton, sys: System) returns (sys': System)
    requires Shaped(f, sys)
    ensures Shaped(f, sys')
    ensures forall v: seq<real>, k: nat :: f.Respects(v) && k < |f.unknowns| ==>
              Residue(f, sys', v, k) == Residue(f, sys, v, k) + NortonFlow(f.unknowns[k], v)(s)
  {
    sys' := sys;
    if f.Compact(s.root).Some? {
      var c := f.Compact(s.root).value;
      var diagonal := AddControl(f, c, s.root, s.g, sys);
      sys' := AddRhs(f, c, s.i, diagonal);
    }
  }

  method StampSources(ghost ix: Index, f: Frame, ghost edges: seq<Edge>, sources: seq<Norton>, start: System)
    returns (sys: System)
    requires Means(ix, f, start, edges, [], [], [])
    ensures Means(ix, f, sys, edges, sources, [], [])
  {
    sys := start;
    for j := 0 to |sources|
      invariant Means(ix, f, sys, edges, sources[..j], [], [])
    {
      var stamped := StampSource(f, sources[j], sys);
      forall v: seq<real>, k: nat | f.Respects(v) && k < |f.unknowns|
        ensures Residue(f, stamped, v, k) ==
                  Balance(ix, f, f.unknowns[k], v, edges, sources[..j] + [sources[j]], [], [])
      {
        SumAppend(sources[..j], sources[j], NortonFlow(f.unknowns[k], v));
      }
      assert sources[..j + 1] == sources[..j] + [sources[j]];
      sys := stamped;
    }
    assert sources[..|sources|] == sources;
  }

  /** A bare injection: right-hand side only; one into an unreached or constant supernode is dropped. */
  method StampInjection(ix: Index, f: Frame, injection: Injection, sys: System) returns (sys': System)
    requires Shaped(f, sys)
    ensures Shaped(f, sys')
    ensures forall v: seq<real>, k: nat :: f.Respects(v) && k < |f.unknowns| ==>
              Residue(f, sys', v, k) == Residue(f, sys, v, k) - InjectionFlow(ix, f.lab, f.unknowns[k])(injection)
  {
    sys' := sys;
    if ValidInjection(ix, injection) && f.Compact(At(f.lab, ix[injection.node])).Some? {
      sys' := AddRhs(f, f.Compact(At(f.lab, ix[injection.node])).value, injection.amps.r, sys);
    }
  }

  method StampInjections(ix: Index, f: Frame, ghost edges: seq<Edge>, ghost sources: seq<Norton>,
                         injections: seq<Injection>,
                         start: System)
    returns (sys: System)
    requires Means(ix, f, start, edges, sources, [], [])
    ensures Means(ix, f, sys, edges, sources, injections, [])
  {
    sys := start;
    for j := 0 to |injections|
      invariant Means(ix, f, sys, edges, sources, injections[..j], [])
    {
      var stamped := StampInjection(ix, f, injections[j], sys);
      forall v: seq<real>, k: nat | f.Respects(v) && k < |f.unknowns|
        ensures Residue(f, stamped, v, k) ==
                  Balance(ix, f, f.unknowns[k], v, edges, sources, injections[..j] + [injections[j]], [])
      {
        SumAppend(injections[..j], injections[j], InjectionFlow(ix, f.lab, f.unknowns[k]));
      }
      assert injections[..j + 1] == injections[..j] + [injections[j]];
      sys := stamped;
    }
    assert injections[..|injections|] == injections;
  }

  /** `G * V = I` of everything but the elements. */
  method AssembleLinear(ix: Index, f: Frame, edges: seq<Edge>, sources: seq<Norton>, injections: seq<Injection>)
    returns (sys: System)
    requires f.Valid() && EdgesKnown(f, edges)
    ensures Means(ix, f, sys, edges, sources, injections, [])
  {
    sys := StampEdges(ix, f, edges);
    sys := StampSources(ix, f, edges, sources, sys);
    sys := StampInjections(ix, f, edges, sources, injections, sys);
  }

  /** The elements' stamps on top of the linear assembly. */
  method StampElements(ghost ix: Index, f: Frame, ghost edges: seq<Edge>, ghost sources: seq<Norton>,
                       ghost injections: seq<Injection>, stamps: seq<Option<Stamp>>, start: System)
    returns (sys: System)
    requires Means(ix, f, start, edges, sources, injections, [])
    requires forall s :: s in stamps && s.Some? ==> StampKnown(f, s.value)
    ensures Means(ix, f, sys, edges, sources, injections, stamps)
  {
    sys := start;
    for j := 0 to |stamps|
      invariant Means(ix, f, sys, edges, sources, injections, stamps[..j])
    {
      var stamped := sys;
      assert stamps[j] in stamps;
      if stamps[j].Some? {
        stamped := StampElement(f, stamps[j].value, sys);
      }
      forall v: seq<real>, k: nat | f.Respects(v) && k < |f.unknowns|
        ensures Residue(f, stamped, v, k) ==
                  Balance(ix, f, f.unknowns[k], v, edges, sources, injections, stamps[..j] + [stamps[j]])
      {
        SumAppend(stamps[..j], stamps[j], StampFlow(f.unknowns[k], v));
        assert Residue(f, stamped, v, k) == Residue(f, sys, v, k) + StampFlow(f.unknowns[k], v)(stamps[j]);
      }
      assert stamps[..j + 1] == stamps[..j] + [stamps[j]];
      sys := stamped;
    }
    assert stamps[..|stamps|] == stamps;
  }
}
