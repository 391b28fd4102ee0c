/** The tables one solve works on, and what they say of the circuit. */
module Tables {
  import opened Options
  import opened Graph
  import opened Sums
  import opened Circuit
  import opened Stamping
  import opened Prepare

  datatype Table = Table(
    ix: Index, lab: seq<nat>, edges: seq<Edge>, pins: seq<(nat, real)>, sources: seq<Norton>,
    elements: seq<Option<Resolved>>, reachable: seq<bool>, frame: Frame)

  ghost predicate Listed(c: Cluster, inputs: Inputs, t: Table, fought: seq<bool>) {
    && t.ix == IndexOf(c.nodes) && Labelling(c, t.lab)
    && t.edges == Collect(c.resistors, EdgeOf(t.ix, t.lab))
    && t.pins == Collect(inputs.terminals, PinOf(t.ix, t.lab))
    && t.sources == Collect(inputs.sources, NortonOf(t.ix, t.lab)) + Collect(t.pins, FoughtNorton(fought))
    && t.elements == Resolve(t.ix, t.lab, inputs)
    && forall root: nat :: (root < |fought| && fought[root]) <==> Fought(t.ix, t.lab, inputs.terminals, root)
  }

  predicate ReachedAt(t: Table, root: nat) {
    root < |t.reachable| && t.reachable[root]
  }

  ghost predicate Placed(c: Cluster, inputs: Inputs, t: Table) {
    && |t.reachable| == |c.nodes|
    && (forall x: nat :: x < |c.nodes| ==> (ReachedAt(t, At(t.lab, x)) <==> Reached(c, inputs, x)))
    && t.frame.lab == t.lab && t.frame.Valid()
    && (forall root: nat :: t.frame.ConstantAt(root) == Constant(t.ix, t.lab, inputs.terminals, root))
    && (forall x: nat :: x < |c.nodes| ==>
          (t.frame.Compact(x).Some? <==> At(t.lab, x) == x && Unknown(c, inputs, t.lab, x)))
  }

  ghost predicate Prepared(c: Cluster, inputs: Inputs, t: Table) {
    && Labelling(c, t.lab)
    && (exists fought :: Listed(c, inputs, t, fought))
    && Placed(c, inputs, t)
  }

  // ----- the tables mirror the circuit -----

  function BranchOf(e: Option<Resolved>): Option<Link> {
    if e.Some? then Some((e.value.a, e.value.b)) else None
  }

  function Branches(elements: seq<Option<Resolved>>): (b: seq<Option<Link>>)
    ensures |b| == |elements|
  {
    seq(|elements|, k requires 0 <= k < |elements| => BranchOf(elements[k]))
  }

  lemma EdgeMember(ix: Index, lab: seq<nat>, resistors: seq<Resistor>, r: Resistor)
    requires r in resistors && Conducts(ix, r) && At(lab, ix[r.a]) != At(lab, ix[r.b])
    ensures Edge(At(lab, ix[r.a]), At(lab, ix[r.b]), Siemens(r)) in Collect(resistors, EdgeOf(ix, lab))
  {
    CollectMember(resistors, EdgeOf(ix, lab), Edge(At(lab, ix[r.a]), At(lab, ix[r.b]), Siemens(r)));
    assert EdgeOf(ix, lab)(r) == Some(Edge(At(lab, ix[r.a]), At(lab, ix[r.b]), Siemens(r)));
  }

  lemma EdgeOrigin(ix: Index, lab: seq<nat>, resistors: seq<Resistor>, e: Edge) returns (r: Resistor)
    requires e in Collect(resistors, EdgeOf(ix, lab))
    ensures r in resistors && Conducts(ix, r) && e == Edge(At(lab, ix[r.a]), At(lab, ix[r.b]), Siemens(r))
    ensures e.a != e.b
  {
    CollectMember(resistors, EdgeOf(ix, lab), e);
    r :| r in resistors && EdgeOf(ix, lab)(r) == Some(e);
  }

  lemma WireMirrored(c: Cluster, lab: seq<nat>, x: nat, y: nat)
    requires Labelling(c, lab) && (x, y) in WireLinks(IndexOf(c.nodes), c.resistors)
    ensures x < |lab| && y < |lab|
    ensures lab[x] == lab[y] || (lab[x], lab[y]) in EdgeLinks(Collect(c.resistors, EdgeOf(IndexOf(c.nodes), lab)))
  {
    var ix := IndexOf(c.nodes);
    IndexBounds(c.nodes);
    var r :| r in c.resistors && (Merges(ix, r) || Conducts(ix, r)) &&
             ((x, y) == (ix[r.a], ix[r.b]) || (x, y) == (ix[r.b], ix[r.a]));
    if Merges(ix, r) {
      JoinedLink(ZeroLinks(ix, c.resistors), x, y);
    } else if lab[x] != lab[y] {
      EdgeMember(ix, lab, c.resistors, r);
    }
  }

  lemma EdgeCrosses(c: Cluster, lab: seq<nat>, p: nat, q: nat)
    requires Labelling(c, lab) && (p, q) in EdgeLinks(Collect(c.resistors, EdgeOf(IndexOf(c.nodes), lab)))
    ensures Crosses(lab, WireLinks(IndexOf(c.nodes), c.resistors), p, q)
  {
    var ix := IndexOf(c.nodes);
    IndexBounds(c.nodes);
    var e :| e in Collect(c.resistors, EdgeOf(ix, lab)) && ((p, q) == (e.a, e.b) || (p, q) == (e.b, e.a));
    var r := EdgeOrigin(ix, lab, c.resistors, e);
    assert (ix[r.a], ix[r.b]) in WireLinks(ix, c.resistors) && (ix[r.b], ix[r.a]) in WireLinks(ix, c.resistors);
  }

  lemma EdgesMirror(c: Cluster, lab: seq<nat>)
    requires Labelling(c, lab)
    ensures Mirrors(lab, EdgeLinks(Collect(c.resistors, EdgeOf(IndexOf(c.nodes), lab))),
                    WireLinks(IndexOf(c.nodes), c.resistors))
  {
    var ix := IndexOf(c.nodes);
    var edges := Collect(c.resistors, EdgeOf(ix, lab));
    forall x: nat, y: nat | (x, y) in WireLinks(ix, c.resistors)
      ensures x < |lab| && y < |lab| && (lab[x] == lab[y] || (lab[x], lab[y]) in EdgeLinks(edges))
    {
      WireMirrored(c, lab, x, y);
    }
    forall p: nat, q: nat | (p, q) in EdgeLinks(edges) ensures Crosses(lab, WireLinks(ix, c.resistors), p, q) {
      EdgeCrosses(c, lab, p, q);
    }
  }

  lemma MirrorsUnion(lab: seq<nat>, p: set<Link>, links: set<Link>, q: set<Link>, more: set<Link>)
    requires Mirrors(lab, p, links) && Mirrors(lab, q, more)
    ensures Mirrors(lab, p + q, links + more)
  {
    forall x: nat, y: nat | (x, y) in p + q ensures Crosses(lab, links + more, x, y) {
      if (x, y) in p {
        var u: nat, v: nat :| (u, v) in links && u < |lab| && v < |lab| && lab[u] == x && lab[v] == y;
      } else {
        var u: nat, v: nat :| (u, v) in more && u < |lab| && v < |lab| && lab[u] == x && lab[v] == y;
      }
    }
  }

  lemma ResolvedEnds(ix: Index, lab: seq<nat>, inputs: Inputs, k: nat)
    requires k < |inputs.elements|
    ensures var e := inputs.elements[k];
            var r := Resolve(ix, lab, inputs)[k];
            && (r.Some? <==> e.a in ix && e.b in ix)
            && (r.Some? ==> r.value.a == At(lab, ix[e.a]) && r.value.b == At(lab, ix[e.b]) && r.value.curve == e.curve)
  {
  }

  lemma ElementMirrored(c: Cluster, inputs: Inputs, lab: seq<nat>, x: nat, y: nat)
    requires Labelling(c, lab) && (x, y) in ElementLinks(IndexOf(c.nodes), inputs.elements)
    ensures x < |lab| && y < |lab|
    ensures lab[x] == lab[y] || (lab[x], lab[y]) in BranchLinks(Branches(Resolve(IndexOf(c.nodes), lab, inputs)))
  {
    var ix := IndexOf(c.nodes);
    IndexBounds(c.nodes);
    var branches := Branches(Resolve(ix, lab, inputs));
    var e :| e in inputs.elements && e.a in ix && e.b in ix &&
             ((x, y) == (ix[e.a], ix[e.b]) || (x, y) == (ix[e.b], ix[e.a]));
    var k: nat :| k < |inputs.elements| && inputs.elements[k] == e;
    ResolvedEnds(ix, lab, inputs, k);
    assert branches[k] in branches;
  }

  lemma BranchCrosses(c: Cluster, inputs: Inputs, lab: seq<nat>, p: nat, q: nat)
    requires Labelling(c, lab) && (p, q) in BranchLinks(Branches(Resolve(IndexOf(c.nodes), lab, inputs)))
    ensures Crosses(lab, ElementLinks(IndexOf(c.nodes), inputs.elements), p, q)
  {
    var ix := IndexOf(c.nodes);
    IndexBounds(c.nodes);
    var branches := Branches(Resolve(ix, lab, inputs));
    var b :| b in branches && b.Some? && ((p, q) == b.value || (p, q) == (b.value.1, b.value.0));
    var k: nat :| k < |branches| && branches[k] == b;
    ResolvedEnds(ix, lab, inputs, k);
    var e := inputs.elements[k];
    assert e in inputs.elements;
    assert (ix[e.a], ix[e.b]) in ElementLinks(ix, inputs.elements) &&
           (ix[e.b], ix[e.a]) in ElementLinks(ix, inputs.elements);
  }

  lemma ElementsMirror(c: Cluster, inputs: Inputs, lab: seq<nat>)
    requires Labelling(c, lab)
    ensures var ix := IndexOf(c.nodes);
            Mirrors(lab, BranchLinks(Branches(Resolve(ix, lab, inputs))), ElementLinks(ix, inputs.elements))
  {
    var ix := IndexOf(c.nodes);
    var branches := Branches(Resolve(ix, lab, inputs));
    forall x: nat, y: nat | (x, y) in ElementLinks(ix, inputs.elements)
      ensures x < |lab| && y < |lab| && (lab[x] == lab[y] || (lab[x], lab[y]) in BranchLinks(branches))
    {
      ElementMirrored(c, inputs, lab, x, y);
    }
    forall p: nat, q: nat | (p, q) in BranchLinks(branches)
      ensures Crosses(lab, ElementLinks(ix, inputs.elements), p, q)
    {
      BranchCrosses(c, inputs, lab, p, q);
    }
  }

  function SeedRoots(sources: seq<Norton>, pins: seq<(nat, real)>): (roots: seq<nat>) {
    seq(|sources|, k requires 0 <= k < |sources| => sources[k].root) +
    seq(|pins|, k requires 0 <= k < |pins| => pins[k].0)
  }

  lemma SeedMember(sources: seq<Norton>, pins: seq<(nat, real)>, p: nat)
    ensures p in SeedRoots(sources, pins) <==>
              (exists s :: s in sources && s.root == p) || (exists pin :: pin in pins && pin.0 == p)
  {
    var roots := SeedRoots(sources, pins);
    if p in roots {
      var k :| 0 <= k < |roots| && roots[k] == p;
      if k < |sources| {
        assert sources[k] in sources;
      } else {
        assert pins[k - |sources|] in pins;
      }
    }
    if s :| s in sources && s.root == p {
      var k :| 0 <= k < |sources| && sources[k] == s;
      assert roots[k] == p;
    }
    if pin :| pin in pins && pin.0 == p {
      var k :| 0 <= k < |pins| && pins[k] == pin;
      assert roots[|sources| + k] == p;
    }
  }

  lemma NortonMember(ix: Index, lab: seq<nat>, inputs: Inputs, pins: seq<(nat, real)>, fought: seq<bool>, p: nat)
    requires pins == Collect(inputs.terminals, PinOf(ix, lab))
    ensures var sources := Collect(inputs.sources, NortonOf(ix, lab)) + Collect(pins, FoughtNorton(fought));
            p in SeedRoots(sources, pins) <==>
            (exists s :: s in inputs.sources && ValidSource(ix, s) && At(lab, ix[s.node]) == p)
            || (exists t :: t in inputs.terminals && ValidTerminal(ix, t) && At(lab, ix[t.node]) == p)
  {
    var slots, extra := Collect(inputs.sources, NortonOf(ix, lab)), Collect(pins, FoughtNorton(fought));
    SeedMember(slots + extra, pins, p);
    if s: Norton :| s in slots + extra && s.root == p {
      if s in slots {
        CollectMember(inputs.sources, NortonOf(ix, lab), s);
      } else {
        CollectMember(pins, FoughtNorton(fought), s);
        var pin :| pin in pins && FoughtNorton(fought)(pin) == Some(s);
        CollectMember(inputs.terminals, PinOf(ix, lab), pin);
      }
    }
    if pin :| pin in pins && pin.0 == p {
      CollectMember(inputs.terminals, PinOf(ix, lab), pin);
    }
    if s :| s in inputs.sources && ValidSource(ix, s) && At(lab, ix[s.node]) == p {
      var norton := NortonOf(ix, lab)(s).value;
      CollectMember(inputs.sources, NortonOf(ix, lab), norton);
      assert norton in slots + extra && norton.root == p;
    }
    if t :| t in inputs.terminals && ValidTerminal(ix, t) && At(lab, ix[t.node]) == p {
      CollectMember(inputs.terminals, PinOf(ix, lab), (p, t.volts.r));
      assert PinOf(ix, lab)(t) == Some((p, t.volts.r));
    }
  }

  lemma SeedsMirrored(c: Cluster, inputs: Inputs, lab: seq<nat>, pins: seq<(nat, real)>, fought: seq<bool>)
    requires Labelling(c, lab) && pins == Collect(inputs.terminals, PinOf(IndexOf(c.nodes), lab))
    ensures var ix := IndexOf(c.nodes);
            var sources := Collect(inputs.sources, NortonOf(ix, lab)) + Collect(pins, FoughtNorton(fought));
            SeedsMirror(lab, SeedSet(SeedRoots(sources, pins)), Seeds(ix, inputs))
  {
    var ix := IndexOf(c.nodes);
    IndexBounds(c.nodes);
    var roots := SeedRoots(Collect(inputs.sources, NortonOf(ix, lab)) + Collect(pins, FoughtNorton(fought)), pins);
    forall x: nat | x in Seeds(ix, inputs) ensures x < |lab| && lab[x] in SeedSet(roots) {
      NortonMember(ix, lab, inputs, pins, fought, At(lab, x));
    }
    forall p: nat | p in SeedSet(roots) ensures exists x: nat :: x in Seeds(ix, inputs) && x < |lab| && lab[x] == p {
      NortonMember(ix, lab, inputs, pins, fought, p);
      if s :| s in inputs.sources && ValidSource(ix, s) && At(lab, ix[s.node]) == p {
        assert ix[s.node] in Seeds(ix, inputs);
      } else {
        var t :| t in inputs.terminals && ValidTerminal(ix, t) && At(lab, ix[t.node]) == p;
        assert ix[t.node] in Seeds(ix, inputs);
      }
    }
  }

  // ----- building them -----

  lemma ZeroAmongWires(ix: Index, resistors: seq<Resistor>)
    ensures ZeroLinks(ix, resistors) <= WireLinks(ix, resistors)
  {
  }

  lemma EdgesInRange(c: Cluster, lab: seq<nat>)
    requires Labelling(c, lab)
    ensures forall e :: e in Collect(c.resistors, EdgeOf(IndexOf(c.nodes), lab)) ==>
              e.a < |lab| && e.b < |lab| && e.a != e.b
  {
    var ix := IndexOf(c.nodes);
    IndexBounds(c.nodes);
    forall e | e in Collect(c.resistors, EdgeOf(ix, lab)) ensures e.a < |lab| && e.b < |lab| && e.a != e.b {
      var r := EdgeOrigin(ix, lab, c.resistors, e);
    }
  }

  lemma BranchesInRange(c: Cluster, inputs: Inputs, lab: seq<nat>)
    requires Labelling(c, lab)
    ensures forall b :: b in Branches(Resolve(IndexOf(c.nodes), lab, inputs)) && b.Some? ==>
              b.value.0 < |lab| && b.value.1 < |lab|
  {
    var ix := IndexOf(c.nodes);
    IndexBounds(c.nodes);
    forall b | b in Branches(Resolve(ix, lab, inputs)) && b.Some? ensures b.value.0 < |lab| && b.value.1 < |lab| {
      var k: nat :| k < |inputs.elements| && Branches(Resolve(ix, lab, inputs))[k] == b;
      ResolvedEnds(ix, lab, inputs, k);
    }
  }

  lemma SeedsInRange(c: Cluster, inputs: Inputs, lab: seq<nat>, roots: seq<nat>)
    requires Labelling(c, lab) && SeedsMirror(lab, SeedSet(roots), Seeds(IndexOf(c.nodes), inputs))
    ensures forall j :: 0 <= j < |roots| ==> roots[j] < |lab|
  {
    forall j | 0 <= j < |roots| ensures roots[j] < |lab| {
      assert roots[j] in SeedSet(roots);
    }
  }

  /** The supernodes a source or terminal reaches, over the edges and the given branches. */
  method ReachOver(c: Cluster, inputs: Inputs, lab: seq<nat>, edges: seq<Edge>, branches: seq<Option<Link>>,
                   roots: seq<nat>,
                   ghost links: set<Link>)
    returns (reached: seq<bool>)
    requires Labelling(c, lab) && edges == Collect(c.resistors, EdgeOf(IndexOf(c.nodes), lab))
    requires SeedsMirror(lab, SeedSet(roots), Seeds(IndexOf(c.nodes), inputs))
    requires Mirrors(lab, BranchLinks(branches), links)
    requires forall b :: b in branches && b.Some? ==> b.value.0 < |lab| && b.value.1 < |lab|
    ensures |reached| == |lab|
    ensures forall x: nat :: x < |lab| ==>
              (reached[At(lab, x)] <==>
                 FedFrom(WireLinks(IndexOf(c.nodes), c.resistors) + links, Seeds(IndexOf(c.nodes), inputs), x))
    ensures forall x: nat :: x < |lab| && reached[x] ==> lab[x] == x
  {
    ghost var ix := IndexOf(c.nodes);
    ghost var zero, all := ZeroLinks(ix, c.resistors), WireLinks(ix, c.resistors) + links;
    EdgesInRange(c, lab);
    var adjacency := EdgeAdjacency(|lab|, edges);
    adjacency := AddBranches(adjacency, branches);
    SeedsInRange(c, inputs, lab, roots);
    reached := Reach(adjacency, roots);
    EdgesMirror(c, lab);
    ZeroAmongWires(ix, c.resistors);
    MirrorsUnion(lab, EdgeLinks(edges), WireLinks(ix, c.resistors), BranchLinks(branches), links);
    forall x: nat | x < |lab| ensures reached[At(lab, x)] <==> FedFrom(all, Seeds(ix, inputs), x) {
      MirrorFed(lab, zero, LinksOf(adjacency), all, SeedSet(roots), Seeds(ix, inputs), x);
    }
    forall x: nat | x < |lab| && reached[x] ensures lab[x] == x {
      MirrorDown(lab, zero, LinksOf(adjacency), all, SeedSet(roots), Seeds(ix, inputs), x);
    }
  }

  /** A compact matrix index over the reachable supernodes that are not constants. */
  method CompactIndex(lab: seq<nat>, dirichlet: seq<Option<real>>, reachable: seq<bool>) returns (f: Frame)
    requires |reachable| == |lab| && |dirichlet| <= |lab|
    requires forall x: nat :: x < |lab| ==> lab[x] < |lab| && lab[lab[x]] == lab[x]
    requires forall x: nat :: x < |lab| && reachable[x] ==> lab[x] == x
    ensures f.Valid() && f.lab == lab && f.constants == dirichlet
    ensures forall x: nat :: x < |lab| ==> (f.Compact(x).Some? <==> reachable[x] && f.ConstantAt(x).None?)
  {
    var compact: seq<Option<nat>> := seq(|lab|, _ => None);
    var unknowns: seq<nat> := [];
    for root := 0 to |lab|
      invariant |compact| == |lab|
      invariant forall x: nat :: x < root ==> (compact[x].Some? <==> reachable[x] && ConstantIn(dirichlet, x).None?)
      invariant forall x: nat :: root <= x < |lab| ==> compact[x].None?
      invariant forall x: nat :: x < root && compact[x].Some? ==>
                  compact[x].value < |unknowns| && unknowns[compact[x].value] == x
      invariant forall k: nat :: k < |unknowns| ==> unknowns[k] < root && compact[unknowns[k]] == Some(k)
    {
      if reachable[root] && ConstantIn(dirichlet, root).None? {
        compact := compact[root := Some(|unknowns|)];
        unknowns := unknowns + [root];
      }
    }
    f := Frame(lab, dirichlet, compact, unknowns);
  }

  /** Everything the solve works on, from the cluster and its inputs. */
  method PrepareTable(c: Cluster, inputs: Inputs) returns (t: Table)
    ensures Prepared(c, inputs, t)
  {
    var ix := IndexNodes(c.nodes);
    IndexBounds(c.nodes);
    var lab := MergeZeroOhm(c, ix);
    var edges := ConductiveEdges(ix, lab, c.resistors);
    var pins, fought, dirichlet := HoldTerminals(ix, lab, inputs.terminals);
    var sources := NortonSources(ix, lab, inputs.sources, pins, fought);
    var elements := Resolve(ix, lab, inputs);
    var roots := SeedRoots(sources, pins);
    SeedsMirrored(c, inputs, lab, pins, fought);
    ElementsMirror(c, inputs, lab);
    BranchesInRange(c, inputs, lab);
    var reachable := ReachOver(c, inputs, lab, edges, Branches(elements), roots, ElementLinks(ix, inputs.elements));
    var frame := CompactIndex(lab, dirichlet, reachable);
    t := Table(ix, lab, edges, pins, sources, elements, reachable, frame);
    assert Listed(c, inputs, t, fought);
    FrameMatches(c, inputs, t, dirichlet);
  }

  lemma FrameMatches(c: Cluster, inputs: Inputs, t: Table, dirichlet: seq<Option<real>>)
    requires t.ix == IndexOf(c.nodes) && Labelling(c, t.lab) && t.frame.Valid() && t.frame.lab == t.lab
    requires t.frame.constants == dirichlet && |t.reachable| == |t.lab|
    requires forall root: nat :: ConstantIn(dirichlet, root) == Constant(t.ix, t.lab, inputs.terminals, root)
    requires forall x: nat :: x < |t.lab| ==>
               (t.frame.Compact(x).Some? <==> t.reachable[x] && t.frame.ConstantAt(x).None?)
    requires forall x: nat :: x < |t.lab| ==> (t.reachable[At(t.lab, x)] <==> Reached(c, inputs, x))
    requires forall x: nat :: x < |t.lab| && t.reachable[x] ==> t.lab[x] == x
    ensures Placed(c, inputs, t)
  {
    forall root: nat ensures t.frame.ConstantAt(root) == Constant(t.ix, t.lab, inputs.terminals, root) {
      assert t.frame.ConstantAt(root) == ConstantIn(dirichlet, root);
    }
  }
}
