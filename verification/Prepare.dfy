/** From a cluster and its inputs to the solver's tables: index, supernodes, edges, constants, sources, reach. */
module Prepare {
  import opened Options
  import opened Graph
  import opened Sums
  import opened UnionFind
  import opened Circuit
  import opened Stamping

  // ----- keeping what counts, in order -----

  function Collect<S, T>(s: seq<S>, f: S -> Option<T>): seq<T> {
    if |s| == 0 then []
    else Collect(s[..|s| - 1], f) + if f(s[|s| - 1]).Some? then [f(s[|s| - 1]).value] else []
  }

  lemma CollectAppend<S, T>(s: seq<S>, x: S, f: S -> Option<T>)
    ensures Collect(s + [x], f) == Collect(s, f) + if f(x).Some? then [f(x).value] else []
  {
    assert (s + [x])[..|s|] == s;
  }

  lemma {:induction false} CollectMember<S, T>(s: seq<S>, f: S -> Option<T>, y: T)
    ensures y in Collect(s, f) <==> exists x :: x in s && f(x) == Some(y)
  {
    if |s| > 0 {
      var last := s[|s| - 1];
      CollectMember(s[..|s| - 1], f, y);
      assert s == s[..|s| - 1] + [last];
      if f(last) == Some(y) {
        assert last in s;
      }
    }
  }

  lemma {:induction false} CollectSum<S, T>(s: seq<S>, f: S -> Option<T>, g: T -> real, h: S -> real)
    requires forall x :: x in s ==> h(x) == if f(x).Some? then g(f(x).value) else 0.0
    ensures Sum(Collect(s, f), g) == Sum(s, h)
  {
    if |s| > 0 {
      var last := s[|s| - 1];
      CollectSum(s[..|s| - 1], f, g, h);
      if f(last).Some? {
        SumAppend(Collect(s[..|s| - 1], f), f(last).value, g);
      } else {
        assert Collect(s, f) == Collect(s[..|s| - 1], f);
      }
    }
  }

  // ----- index and supernodes -----

  lemma {:induction false} FirstAtUnique(nodes: seq<NetId>, id: NetId, k: nat)
    requires k < |nodes| && nodes[k] == id && id !in nodes[..k]
    ensures id in nodes && FirstAt(nodes, id) == k
  {
    if k > 0 {
      assert nodes[..k] == [nodes[0]] + nodes[1..k];
      assert nodes[1..k] == nodes[1..][..k - 1];
      assert nodes[0] in nodes[..k];
      FirstAtUnique(nodes[1..], id, k - 1);
    }
  }

  /** A dense index per node; the first place a node is listed at wins. */
  method IndexNodes(nodes: seq<NetId>) returns (ix: Index)
    ensures ix == IndexOf(nodes)
  {
    ix := map[];
    for k := 0 to |nodes|
      invariant forall id :: id in ix <==> id in nodes[..k]
      invariant forall id :: id in ix ==> id in nodes && ix[id] == FirstAt(nodes, id)
    {
      if nodes[k] !in ix {
        FirstAtUnique(nodes, nodes[k], k);
        ix := ix[nodes[k] := k];
      }
      assert nodes[..k + 1] == nodes[..k] + [nodes[k]];
    }
    assert nodes[..|nodes|] == nodes;
  }

  lemma ZeroLinksStep(ix: Index, resistors: seq<Resistor>, k: nat)
    requires k < |resistors|
    ensures Symmetric(ZeroLinks(ix, resistors[..k]))
    ensures ZeroLinks(ix, resistors[..k + 1]) ==
            ZeroLinks(ix, resistors[..k]) +
            if Merges(ix, resistors[k])
              then {(ix[resistors[k].a], ix[resistors[k].b]), (ix[resistors[k].b], ix[resistors[k].a])}
            else {}
  {
    assert resistors[..k + 1] == resistors[..k] + [resistors[k]];
  }

  /** Zero-ohm edges merge their ends into one supernode, named by its representative. */
  method MergeZeroOhm(c: Cluster, ix: Index) returns (rootOf: seq<nat>)
    requires ix == IndexOf(c.nodes)
    ensures Labelling(c, rootOf)
  {
    var n := |c.nodes|;
    var dsu := new Dsu(n);
    SingletonsPartition(n);
    assert ZeroLinks(ix, c.resistors[..0]) == {};
    IndexBounds(c.nodes);
    hide ZeroLinks, Partitions, IndexOf;
    for k := 0 to |c.resistors|
      invariant dsu.Valid() && |dsu.parent| == n && fresh(dsu)
      invariant Partitions(dsu.root, ZeroLinks(ix, c.resistors[..k]))
    {
      var r := c.resistors[k];
      ZeroLinksStep(ix, c.resistors, k);
      if Merges(ix, r) {
        UnionPartitions(dsu.root, ZeroLinks(ix, c.resistors[..k]), ix[r.a], ix[r.b]);
        dsu.Union(ix[r.a], ix[r.b]);
      } else {
        assert ZeroLinks(ix, c.resistors[..k + 1]) == ZeroLinks(ix, c.resistors[..k]);
      }
    }
    assert c.resistors[..|c.resistors|] == c.resistors;
    rootOf := [];
    for i := 0 to n
      invariant dsu.Valid() && |dsu.parent| == n && fresh(dsu)
      invariant Partitions(dsu.root, ZeroLinks(ix, c.resistors))
      invariant rootOf == dsu.root[..i]
    {
      var r := dsu.Find(i);
      rootOf := rootOf + [r];
    }
    assert rootOf == dsu.root;
    PartitionLabels(c, dsu.parent, dsu.root, dsu.depth);
  }

  lemma IndexBounds(nodes: seq<NetId>)
    ensures forall id :: id in IndexOf(nodes) ==> IndexOf(nodes)[id] < |nodes|
  {
  }

  lemma PartitionLabels(c: Cluster, parent: seq<nat>, root: seq<nat>, depth: seq<nat>)
    requires Consistent(parent, root, depth) && |root| == |c.nodes|
    requires Partitions(root, ZeroLinks(IndexOf(c.nodes), c.resistors))
    ensures Labelling(c, root)
  {
    forall x: nat | x < |root| ensures root[x] < |root| && root[root[x]] == root[x] {
      assert Placed(parent, root, depth, x);
    }
  }

  // ----- edges, terminals, sources -----

  function EdgeOf(ix: Index, lab: seq<nat>): Resistor -> Option<Edge> {
    (r: Resistor) =>
      if Conducts(ix, r) && At(lab, ix[r.a]) != At(lab, ix[r.b])
      then Some(Edge(At(lab, ix[r.a]), At(lab, ix[r.b]), Siemens(r))) else None
  }

  function PinOf(ix: Index, lab: seq<nat>): Terminal -> Option<(nat, real)> {
    (t: Terminal) => if ValidTerminal(ix, t) then Some((At(lab, ix[t.node]), t.volts.r)) else None
  }

  /** A Thevenin source as a current injection beside a shunt conductance. */
  function NortonAt(ix: Index, lab: seq<nat>, s: Source): Norton
    requires ValidSource(ix, s)
  {
    var g := Conductance(s);
    Norton(At(lab, ix[s.node]), g, s.volts.r * g)
  }

  function NortonOf(ix: Index, lab: seq<nat>): Source -> Option<Norton> {
    (s: Source) => if ValidSource(ix, s) then Some(NortonAt(ix, lab, s)) else None
  }

  function FoughtNorton(fought: seq<bool>): ((nat, real)) -> Option<Norton> {
    (pin: (nat, real)) =>
      if pin.0 < |fought| && fought[pin.0]
      then Some(FloorNorton(pin.0, pin.1)) else None
  }

  /** An ideal source: the floor is its impedance. */
  function FloorNorton(root: nat, volts: real): Norton {
    Norton(root, FLOOR_SIEMENS, volts * FLOOR_SIEMENS)
  }

  /** Conductive edges between distinct supernodes. */
  method ConductiveEdges(ix: Index, rootOf: seq<nat>, resistors: seq<Resistor>) returns (edges: seq<Edge>)
    ensures edges == Collect(resistors, EdgeOf(ix, rootOf))
  {
    edges := [];
    for k := 0 to |resistors|
      invariant edges == Collect(resistors[..k], EdgeOf(ix, rootOf))
    {
      var r := resistors[k];
      assert resistors[..k + 1] == resistors[..k] + [r];
      CollectAppend(resistors[..k], r, EdgeOf(ix, rootOf));
      if Conducts(ix, r) {
        var ra, rb := At(rootOf, ix[r.a]), At(rootOf, ix[r.b]);
        if ra != rb {
          edges := edges + [Edge(ra, rb, Siemens(r))];
        }
      }
    }
    assert resistors[..|resistors|] == resistors;
  }

  lemma HeldStep(ix: Index, lab: seq<nat>, terminals: seq<Terminal>, k: nat, root: nat, v: real)
    requires k < |terminals|
    ensures HeldAt(ix, lab, terminals[..k + 1], root, v) <==>
            (HeldAt(ix, lab, terminals[..k], root, v) ||
             (ValidTerminal(ix, terminals[k]) && At(lab, ix[terminals[k].node]) == root && terminals[k].volts.r == v))
  {
    assert terminals[..k + 1] == terminals[..k] + [terminals[k]];
  }

  ghost predicate HeldElsewhere(ix: Index, lab: seq<nat>, terminals: seq<Terminal>, root: nat, v: real) {
    exists w :: HeldAt(ix, lab, terminals, root, w) && w != v
  }

  lemma HeldElsewhereStep(ix: Index, lab: seq<nat>, terminals: seq<Terminal>, k: nat, root: nat, v: real)
    requires k < |terminals|
    ensures HeldElsewhere(ix, lab, terminals[..k + 1], root, v) <==>
            (HeldElsewhere(ix, lab, terminals[..k], root, v) ||
             (ValidTerminal(ix, terminals[k]) && At(lab, ix[terminals[k].node]) == root && terminals[k].volts.r != v))
  {
    if HeldElsewhere(ix, lab, terminals[..k + 1], root, v) {
      var w :| HeldAt(ix, lab, terminals[..k + 1], root, w) && w != v;
      HeldStep(ix, lab, terminals, k, root, w);
    }
    if HeldElsewhere(ix, lab, terminals[..k], root, v) {
      var w :| HeldAt(ix, lab, terminals[..k], root, w) && w != v;
      HeldStep(ix, lab, terminals, k, root, w);
    }
    if ValidTerminal(ix, terminals[k]) && At(lab, ix[terminals[k].node]) == root && terminals[k].volts.r != v {
      HeldStep(ix, lab, terminals, k, root, terminals[k].volts.r);
    }
  }

  /** What the terminals seen so far make of a supernode: the first voltage held, and whether another differs. */
  ghost predicate Tracks(ix: Index, lab: seq<nat>, terminals: seq<Terminal>, root: nat, held: Option<real>,
                         fought: bool) {
    match held
    case Some(v) => HeldAt(ix, lab, terminals, root, v) && (fought <==> HeldElsewhere(ix, lab, terminals, root, v))
    case None => !fought && forall v :: !HeldAt(ix, lab, terminals, root, v)
  }

  lemma TracksStep(ix: Index, lab: seq<nat>, terminals: seq<Terminal>, k: nat, root: nat, held: Option<real>,
                   fought: bool)
    requires k < |terminals| && Tracks(ix, lab, terminals[..k], root, held, fought)
    ensures var t := terminals[k];
            var hit := ValidTerminal(ix, t) && At(lab, ix[t.node]) == root;
            Tracks(ix, lab, terminals[..k + 1], root,
                   if hit && held.None? then Some(t.volts.r) else held,
                   fought || (hit && held.Some? && held.value != t.volts.r))
  {
    var t := terminals[k];
    match held {
      case Some(v) =>
        HeldStep(ix, lab, terminals, k, root, v);
        HeldElsewhereStep(ix, lab, terminals, k, root, v);
      case None =>
        var more := terminals[..k + 1];
        if ValidTerminal(ix, t) && At(lab, ix[t.node]) == root {
          HeldStep(ix, lab, terminals, k, root, t.volts.r);
          if HeldElsewhere(ix, lab, more, root, t.volts.r) {
            HeldElsewhereStep(ix, lab, terminals, k, root, t.volts.r);
          }
        } else {
          forall v ensures !HeldAt(ix, lab, more, root, v) { HeldStep(ix, lab, terminals, k, root, v); }
        }
    }
  }

  lemma TracksConstant(ix: Index, lab: seq<nat>, terminals: seq<Terminal>, root: nat, held: Option<real>, fought: bool)
    requires Tracks(ix, lab, terminals, root, held, fought)
    ensures fought <==> Fought(ix, lab, terminals, root)
    ensures Constant(ix, lab, terminals, root) == if fought then None else held
  {
    if held.Some? && Fought(ix, lab, terminals, root) {
      var v, w :| HeldAt(ix, lab, terminals, root, v) && HeldAt(ix, lab, terminals, root, w) && v != w;
      assert v != held.value || w != held.value;
    }
  }

  function ConstantIn(dirichlet: seq<Option<real>>, root: nat): Option<real> {
    if root < |dirichlet| then dirichlet[root] else None
  }

  /** The terminals' supernodes and voltages, which of them are fought, and the constants of the rest. */
  method HoldTerminals(ix: Index, rootOf: seq<nat>, terminals: seq<Terminal>)
    returns (pins: seq<(nat, real)>, fought: seq<bool>, dirichlet: seq<Option<real>>)
    requires forall id :: id in ix ==> ix[id] < |rootOf| && rootOf[ix[id]] < |rootOf|
    ensures pins == Collect(terminals, PinOf(ix, rootOf))
    ensures |dirichlet| == |fought| <= |rootOf|
    ensures forall root: nat :: ConstantIn(dirichlet, root) == Constant(ix, rootOf, terminals, root)
    ensures forall root: nat :: (root < |fought| && fought[root]) <==> Fought(ix, rootOf, terminals, root)
  {
    var n := |rootOf|;
    pins, fought, dirichlet := [], [], [];
    if |terminals| == 0 {
      return;
    }
    var held: seq<Option<real>> := seq(n, _ => None);
    fought := seq(n, _ => false);
    for k := 0 to |terminals|
      invariant |held| == |fought| == n
      invariant pins == Collect(terminals[..k], PinOf(ix, rootOf))
      invariant forall root: nat :: root < n ==> Tracks(ix, rootOf, terminals[..k], root, held[root], fought[root])
    {
      var t := terminals[k];
      assert terminals[..k + 1] == terminals[..k] + [t];
      CollectAppend(terminals[..k], t, PinOf(ix, rootOf));
      forall root: nat | root < n { TracksStep(ix, rootOf, terminals, k, root, held[root], fought[root]); }
      if ValidTerminal(ix, t) {
        var root := At(rootOf, ix[t.node]);
        pins := pins + [(root, t.volts.r)];
        if held[root].None? {
          held := held[root := Some(t.volts.r)];
        } else if held[root].value != t.volts.r {
          fought := fought[root := true];
        }
      }
    }
    assert terminals[..|terminals|] == terminals;
    dirichlet :=
      seq(n, root requires 0 <= root < n && |fought| == |held| == n => if fought[root] then None else held[root]);
    forall root: nat ensures ConstantIn(dirichlet, root) == Constant(ix, rootOf, terminals, root)
                     ensures (root < |fought| && fought[root]) <==> Fought(ix, rootOf, terminals, root) {
      if root < n {
        TracksConstant(ix, rootOf, terminals, root, held[root], fought[root]);
      }
    }
  }

  /** Norton equivalents of the valid sources. */
  method SlotNortons(ix: Index, rootOf: seq<nat>, given: seq<Source>) returns (sources: seq<Norton>)
    ensures sources == Collect(given, NortonOf(ix, rootOf))
  {
    sources := [];
    for k := 0 to |given|
      invariant sources == Collect(given[..k], NortonOf(ix, rootOf))
    {
      var s := given[k];
      if ValidSource(ix, s) {
        sources := sources + [NortonAt(ix, rootOf, s)];
      }
      CollectAppend(given[..k], s, NortonOf(ix, rootOf));
      assert given[..k + 1] == given[..k] + [s];
    }
    assert given[..|given|] == given;
  }

  /** Norton equivalents of the valid sources, then of the terminals of fought supernodes. */
  method NortonSources(ix: Index, rootOf: seq<nat>, given: seq<Source>, pins: seq<(nat, real)>, fought: seq<bool>)
    returns (sources: seq<Norton>)
    ensures sources == Collect(given, NortonOf(ix, rootOf)) + Collect(pins, FoughtNorton(fought))
  {
    sources := SlotNortons(ix, rootOf, given);
    ghost var slots := sources;
    ghost var kept: seq<Norton> := [];
    for k := 0 to |pins|
      invariant kept == Collect(pins[..k], FoughtNorton(fought)) && sources == slots + kept
    {
      CollectAppend(pins[..k], pins[k], FoughtNorton(fought));
      assert pins[..k + 1] == pins[..k] + [pins[k]];
      if pins[k].0 < |fought| && fought[pins[k].0] {
        var norton := FloorNorton(pins[k].0, pins[k].1);
        assert FoughtNorton(fought)(pins[k]) == Some(norton);
        sources := sources + [norton];
        kept := kept + [norton];
      }
    }
    assert pins[..|pins|] == pins;
  }

  // ----- adjacency and reach -----

  /** One two-way link more. */
  method Connect(adjacency: seq<seq<nat>>, a: nat, b: nat) returns (more: seq<seq<nat>>)
    requires InRange(adjacency) && a < |adjacency| && b < |adjacency|
    ensures |more| == |adjacency| && InRange(more)
    ensures LinksOf(more) == LinksOf(adjacency) + {(a, b), (b, a)}
  {
    more := adjacency[a := adjacency[a] + [b]];
    PushLinks(adjacency, a, b);
    PushLinks(more, b, a);
    more := more[b := more[b] + [a]];
  }

  lemma PushLinks(adjacency: seq<seq<nat>>, a: nat, b: nat)
    requires InRange(adjacency) && a < |adjacency| && b < |adjacency|
    ensures InRange(adjacency[a := adjacency[a] + [b]])
    ensures LinksOf(adjacency[a := adjacency[a] + [b]]) == LinksOf(adjacency) + {(a, b)}
  {
    var more := adjacency[a := adjacency[a] + [b]];
    forall x: nat, y: nat | (x, y) in LinksOf(adjacency) ensures (x, y) in LinksOf(more) {
      var k: nat :| k < |adjacency[x]| && adjacency[x][k] == y;
      assert more[x][k] == y;
    }
    assert more[a][|adjacency[a]|] == b;
    forall x: nat, y: nat | (x, y) in LinksOf(more) ensures (x, y) in LinksOf(adjacency) + {(a, b)} {
      var k: nat :| k < |more[x]| && more[x][k] == y;
      if x != a || k < |adjacency[a]| {
        assert adjacency[x][k] == y;
      }
    }
  }

  ghost function BranchLinks(branches: seq<Option<Link>>): set<Link> {
    (set b <- branches | b.Some? && b.value.0 != b.value.1 :: b.value) +
    (set b <- branches | b.Some? && b.value.0 != b.value.1 :: (b.value.1, b.value.0))
  }

  ghost function EdgeLinks(edges: seq<Edge>): set<Link> {
    (set e <- edges :: (e.a, e.b)) + (set e <- edges :: (e.b, e.a))
  }

  /** Neighbours over the resistive edges. */
  method EdgeAdjacency(n: nat, edges: seq<Edge>) returns (adjacency: seq<seq<nat>>)
    requires forall e :: e in edges ==> e.a < n && e.b < n
    ensures |adjacency| == n && InRange(adjacency)
    ensures LinksOf(adjacency) == EdgeLinks(edges)
  {
    adjacency := seq(n, _ => []);
    assert LinksOf(adjacency) == EdgeLinks(edges[..0]);
    for k := 0 to |edges|
      invariant |adjacency| == n && InRange(adjacency)
      invariant LinksOf(adjacency) == EdgeLinks(edges[..k])
    {
      assert edges[..k + 1] == edges[..k] + [edges[k]];
      assert edges[k] in edges;
      assert EdgeLinks(edges[..k + 1]) == EdgeLinks(edges[..k]) + {(edges[k].a, edges[k].b), (edges[k].b, edges[k].a)};
      adjacency := Connect(adjacency, edges[k].a, edges[k].b);
    }
    assert edges[..|edges|] == edges;
  }

  /** Neighbours over the branches too, those with both ends on one supernode left out. */
  method AddBranches(start: seq<seq<nat>>, branches: seq<Option<Link>>) returns (adjacency: seq<seq<nat>>)
    requires InRange(start)
    requires forall b :: b in branches && b.Some? ==> b.value.0 < |start| && b.value.1 < |start|
    ensures |adjacency| == |start| && InRange(adjacency)
    ensures LinksOf(adjacency) == LinksOf(start) + BranchLinks(branches)
  {
    adjacency := start;
    for k := 0 to |branches|
      invariant |adjacency| == |start| && InRange(adjacency)
      invariant LinksOf(adjacency) == LinksOf(start) + BranchLinks(branches[..k])
    {
      BranchLinksStep(branches, k);
      assert branches[k] in branches;
      if branches[k].Some? && branches[k].value.0 != branches[k].value.1 {
        adjacency := Connect(adjacency, branches[k].value.0, branches[k].value.1);
      }
    }
    assert branches[..|branches|] == branches;
  }

  lemma BranchLinksStep(branches: seq<Option<Link>>, k: nat)
    requires k < |branches|
    ensures BranchLinks(branches[..k + 1]) == BranchLinks(branches[..k]) +
            if branches[k].Some? && branches[k].value.0 != branches[k].value.1
            then {branches[k].value, (branches[k].value.1, branches[k].value.0)} else {}
  {
    assert branches[..k + 1] == branches[..k] + [branches[k]];
  }
}
