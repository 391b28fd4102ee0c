/** Walks over a finite set of directed links between dense indices, and the solver's depth-first reach. */
module Graph {

  type Link = (nat, nat)

  ghost predicate Walk(links: set<Link>, p: seq<nat>) {
    |p| > 0 && forall i :: 0 <= i < |p| - 1 ==> (p[i], p[i + 1]) in links
  }

  ghost predicate WalkBetween(links: set<Link>, p: seq<nat>, x: nat, y: nat) {
    Walk(links, p) && p[0] == x && p[|p| - 1] == y
  }

  /** Some walk leads from `x` to `y`. */
  ghost predicate Joined(links: set<Link>, x: nat, y: nat) {
    exists p :: WalkBetween(links, p, x, y)
  }

  ghost predicate Symmetric(links: set<Link>) {
    forall x: nat, y: nat :: (x, y) in links ==> (y, x) in links
  }

  ghost predicate Closed(links: set<Link>, inside: iset<nat>) {
    forall x: nat, y: nat :: x in inside && (x, y) in links ==> y in inside
  }

  /** Some walk leads to `x` from one of the seeds. */
  ghost predicate FedFrom(links: set<Link>, seeds: iset<nat>, x: nat) {
    exists s :: s in seeds && Joined(links, s, x)
  }

  lemma JoinedSelf(links: set<Link>, x: nat)
    ensures Joined(links, x, x)
  {
    assert WalkBetween(links, [x], x, x);
  }

  lemma JoinedLink(links: set<Link>, x: nat, y: nat)
    requires (x, y) in links
    ensures Joined(links, x, y)
  {
    assert WalkBetween(links, [x, y], x, y);
  }

  lemma JoinedTransitive(links: set<Link>, x: nat, y: nat, z: nat)
    requires Joined(links, x, y) && Joined(links, y, z)
    ensures Joined(links, x, z)
  {
    var p :| WalkBetween(links, p, x, y);
    var q :| WalkBetween(links, q, y, z);
    var r := p + q[1..];
    forall i | 0 <= i < |r| - 1 ensures (r[i], r[i + 1]) in links {
      if i >= |p| - 1 {
        assert r[i] == q[i - (|p| - 1)];
      }
    }
    assert WalkBetween(links, r, x, z);
  }

  /** A set closed under the links holds everything its members are joined to. */
  lemma {:induction false} ClosedHoldsWalk(links: set<Link>, inside: iset<nat>, p: seq<nat>)
    requires Closed(links, inside) && Walk(links, p) && p[0] in inside
    ensures p[|p| - 1] in inside
    decreases |p|
  {
    if |p| > 1 {
      assert (p[0], p[1]) in links;
      var rest := p[1..];
      forall i | 0 <= i < |rest| - 1 ensures (rest[i], rest[i + 1]) in links {
        assert (p[i + 1], p[i + 2]) in links;
      }
      ClosedHoldsWalk(links, inside, rest);
    }
  }

  lemma ClosedHolds(links: set<Link>, inside: iset<nat>, x: nat, y: nat)
    requires Closed(links, inside) && Joined(links, x, y) && x in inside
    ensures y in inside
  {
    var p :| WalkBetween(links, p, x, y);
    ClosedHoldsWalk(links, inside, p);
  }

  lemma JoinedSymmetric(links: set<Link>, x: nat, y: nat)
    requires Symmetric(links) && Joined(links, x, y)
    ensures Joined(links, y, x)
  {
    var back := iset z: nat | Joined(links, z, x);
    JoinedSelf(links, x);
    forall u: nat, v: nat | u in back && (u, v) in links ensures v in back {
      JoinedLink(links, v, u);
      JoinedTransitive(links, v, u, x);
    }
    ClosedHolds(links, back, x, y);
  }

  lemma JoinedMonotone(links: set<Link>, more: set<Link>, x: nat, y: nat)
    requires links <= more && Joined(links, x, y)
    ensures Joined(more, x, y)
  {
    var p :| WalkBetween(links, p, x, y);
    assert WalkBetween(more, p, x, y);
  }

  /** What one more two-way link joins: its ends' components become one. */
  lemma JoinedWithLink(links: set<Link>, a: nat, b: nat, x: nat, y: nat)
    requires Symmetric(links)
    ensures Joined(links + {(a, b), (b, a)}, x, y)
       <==>
       (Joined(links, x, y)
         || (Joined(links, x, a) && Joined(links, b, y))
         || (Joined(links, x, b) && Joined(links, a, y)))
  {
    var more := links + {(a, b), (b, a)};
    if Joined(links, x, y) {
      JoinedMonotone(links, more, x, y);
    }
    if Joined(links, x, a) && Joined(links, b, y) {
      LinkExtends(links, more, x, a, b, y);
    }
    if Joined(links, x, b) && Joined(links, a, y) {
      LinkExtends(links, more, x, b, a, y);
    }
    if Joined(more, x, y) {
      var inside := iset z: nat | Joined(links, x, z)
                    || (Joined(links, x, a) && Joined(links, b, z))
                    || (Joined(links, x, b) && Joined(links, a, z));
      JoinedSelf(links, x);
      JoinedSelf(links, a);
      JoinedSelf(links, b);
      forall u: nat, v: nat | u in inside && (u, v) in more ensures v in inside {
        if (u, v) in links {
          JoinedLink(links, u, v);
          forall s: nat | Joined(links, s, u) ensures Joined(links, s, v) {
            JoinedTransitive(links, s, u, v);
          }
        } else if Joined(links, x, u) {
          assert (u, v) == (a, b) || (u, v) == (b, a);
        } else {
          assert (u, v) == (a, b) || (u, v) == (b, a);
        }
      }
      ClosedHolds(more, inside, x, y);
    }
  }

  lemma LinkExtends(links: set<Link>, more: set<Link>, x: nat, a: nat, b: nat, y: nat)
    requires links <= more && (a, b) in more && Joined(links, x, a) && Joined(links, b, y)
    ensures Joined(more, x, y)
  {
    JoinedMonotone(links, more, x, a);
    JoinedMonotone(links, more, b, y);
    JoinedLink(more, a, b);
    JoinedTransitive(more, x, a, b);
    JoinedTransitive(more, x, b, y);
  }

  lemma FedStep(links: set<Link>, seeds: iset<nat>, x: nat, y: nat)
    requires FedFrom(links, seeds, x) && Joined(links, x, y)
    ensures FedFrom(links, seeds, y)
  {
    var s :| s in seeds && Joined(links, s, x);
    JoinedTransitive(links, s, x, y);
  }

  // ----- walks between components -----

  /** Two indices have one label exactly when a chain of the links joins them; a label is one of its own. */
  ghost predicate Labels(lab: seq<nat>, links: set<Link>) {
    && (forall x: nat :: x < |lab| ==> lab[x] < |lab| && lab[lab[x]] == lab[x])
    && forall x: nat, y: nat :: x < |lab| && y < |lab| ==> (lab[x] == lab[y] <==> Joined(links, x, y))
  }

  /** A link between components, seen between two of their indices. */
  ghost predicate Crosses(lab: seq<nat>, links: set<Link>, p: nat, q: nat) {
    exists x: nat, y: nat :: (x, y) in links && x < |lab| && y < |lab| && lab[x] == p && lab[y] == q
  }

  /** The label-level links are the index-level links seen through the labels. */
  ghost predicate Mirrors(lab: seq<nat>, labelLinks: set<Link>, links: set<Link>) {
    && (forall x: nat, y: nat :: (x, y) in links ==>
          x < |lab| && y < |lab| && (lab[x] == lab[y] || (lab[x], lab[y]) in labelLinks))
    && (forall p: nat, q: nat :: (p, q) in labelLinks ==> Crosses(lab, links, p, q))
  }

  ghost predicate SeedsMirror(lab: seq<nat>, labelSeeds: iset<nat>, seeds: iset<nat>) {
    && (forall x: nat :: x in seeds ==> x < |lab| && lab[x] in labelSeeds)
    && (forall p: nat :: p in labelSeeds ==> exists x: nat :: x in seeds && x < |lab| && lab[x] == p)
  }

  lemma MirrorDown(lab: seq<nat>, zero: set<Link>, labelLinks: set<Link>, links: set<Link>, labelSeeds: iset<nat>,
                   seeds: iset<nat>, p: nat)
    requires Labels(lab, zero) && zero <= links && Mirrors(lab, labelLinks, links) &&
             SeedsMirror(lab, labelSeeds, seeds)
    requires FedFrom(labelLinks, labelSeeds, p)
    ensures p < |lab| && lab[p] == p && FedFrom(links, seeds, p)
  {
    var s :| s in labelSeeds && Joined(labelLinks, s, p);
    var x: nat :| x in seeds && x < |lab| && lab[x] == s;
    JoinedMonotone(zero, links, x, s);
    var inside := iset q: nat | q < |lab| && lab[q] == q && FedFrom(links, seeds, q);
    forall u: nat, v: nat | u in inside && (u, v) in labelLinks ensures v in inside {
      var y: nat, z: nat :| (y, z) in links && y < |lab| && z < |lab| && lab[y] == u && lab[z] == v;
      JoinedMonotone(zero, links, u, y);
      FedStep(links, seeds, u, y);
      JoinedLink(links, y, z);
      FedStep(links, seeds, y, z);
      JoinedMonotone(zero, links, z, v);
      FedStep(links, seeds, z, v);
    }
    assert s in inside;
    ClosedHolds(labelLinks, inside, s, p);
  }

  lemma MirrorUp(lab: seq<nat>, labelLinks: set<Link>, links: set<Link>, labelSeeds: iset<nat>, seeds: iset<nat>,
                 x: nat)
    requires Mirrors(lab, labelLinks, links) && SeedsMirror(lab, labelSeeds, seeds)
    requires FedFrom(links, seeds, x)
    ensures x < |lab| && FedFrom(labelLinks, labelSeeds, lab[x])
  {
    var s :| s in seeds && Joined(links, s, x);
    JoinedSelf(labelLinks, lab[s]);
    var inside := iset y: nat | y < |lab| && FedFrom(labelLinks, labelSeeds, lab[y]);
    forall y: nat, z: nat | y in inside && (y, z) in links ensures z in inside {
      if lab[y] != lab[z] {
        JoinedLink(labelLinks, lab[y], lab[z]);
        FedStep(labelLinks, labelSeeds, lab[y], lab[z]);
      }
    }
    ClosedHolds(links, inside, s, x);
  }

  /** Walks between components are walks between their indices. */
  lemma MirrorFed(lab: seq<nat>, zero: set<Link>, labelLinks: set<Link>, links: set<Link>, labelSeeds: iset<nat>,
                  seeds: iset<nat>, x: nat)
    requires Labels(lab, zero) && zero <= links && Mirrors(lab, labelLinks, links) &&
             SeedsMirror(lab, labelSeeds, seeds)
    requires x < |lab|
    ensures FedFrom(labelLinks, labelSeeds, lab[x]) <==> FedFrom(links, seeds, x)
  {
    if FedFrom(links, seeds, x) {
      MirrorUp(lab, labelLinks, links, labelSeeds, seeds, x);
    }
    if FedFrom(labelLinks, labelSeeds, lab[x]) {
      MirrorDown(lab, zero, labelLinks, links, labelSeeds, seeds, lab[x]);
      JoinedMonotone(zero, links, lab[x], x);
      FedStep(links, seeds, lab[x], x);
    }
  }

  // ----- the depth-first reach -----

  ghost function LinksOf(adjacency: seq<seq<nat>>): set<Link> {
    set x: nat, k: nat | x < |adjacency| && k < |adjacency[x]| :: (x, adjacency[x][k])
  }

  ghost predicate InRange(adjacency: seq<seq<nat>>) {
    forall x: nat, k: nat :: x < |adjacency| && k < |adjacency[x]| ==> adjacency[x][k] < |adjacency|
  }

  ghost function SeedSet(seeds: seq<nat>): iset<nat> {
    iset s | s in seeds
  }

  /** Everything on the stack is reached, and everything reached came from a seed. */
  ghost predicate Sound(adjacency: seq<seq<nat>>, seeds: seq<nat>, reached: seq<bool>, stack: seq<nat>) {
    && |reached| == |adjacency|
    && (forall k :: 0 <= k < |stack| ==> stack[k] < |reached| && reached[stack[k]])
    && (forall x: nat :: x < |reached| && reached[x] ==> FedFrom(LinksOf(adjacency), SeedSet(seeds), x))
  }

  /** `x`'s neighbours up to the `k`-th are all reached. */
  ghost predicate Expanded(adjacency: seq<seq<nat>>, reached: seq<bool>, x: nat, k: nat) {
    x < |adjacency| && forall j :: 0 <= j < k && j < |adjacency[x]| ==>
      adjacency[x][j] < |reached| && reached[adjacency[x][j]]
  }

  ghost predicate Done(adjacency: seq<seq<nat>>, reached: seq<bool>, x: nat) {
    x < |adjacency| && Expanded(adjacency, reached, x, |adjacency[x]|)
  }

  ghost function Waiting(reached: seq<bool>): set<nat> {
    set x: nat | x < |reached| && !reached[x]
  }

  /** The supernodes reached from `seeds`: exactly those some walk from a seed leads to. */
  method Reach(adjacency: seq<seq<nat>>, seeds: seq<nat>) returns (reached: seq<bool>)
    requires InRange(adjacency)
    requires forall j :: 0 <= j < |seeds| ==> seeds[j] < |adjacency|
    ensures |reached| == |adjacency|
    ensures forall x: nat :: x < |adjacency| ==> (reached[x] <==> FedFrom(LinksOf(adjacency), SeedSet(seeds), x))
  {
    var stack;
    reached, stack := MarkSeeds(adjacency, seeds);
    while |stack| > 0
      invariant Sound(adjacency, seeds, reached, stack)
      invariant forall x: nat :: x < |reached| && reached[x] ==> x in stack || Done(adjacency, reached, x)
      invariant forall j :: 0 <= j < |seeds| ==> reached[seeds[j]]
      decreases Waiting(reached), |stack|
    {
      var top := |stack| - 1;
      var x := stack[top];
      var rest := stack[..top];
      assert stack == rest + [x];
      reached, stack := Expand(adjacency, seeds, x, reached, rest);
    }
    ReachComplete(adjacency, seeds, reached);
  }

  method MarkSeeds(adjacency: seq<seq<nat>>, seeds: seq<nat>) returns (reached: seq<bool>, stack: seq<nat>)
    requires forall j :: 0 <= j < |seeds| ==> seeds[j] < |adjacency|
    ensures Sound(adjacency, seeds, reached, stack)
    ensures forall x: nat :: x < |reached| && reached[x] ==> x in stack
    ensures forall j :: 0 <= j < |seeds| ==> reached[seeds[j]]
  {
    reached := seq(|adjacency|, _ => false);
    stack := [];
    for k := 0 to |seeds|
      invariant Sound(adjacency, seeds, reached, stack)
      invariant forall x: nat :: x < |reached| && reached[x] ==> x in stack
      invariant forall j :: 0 <= j < k ==> reached[seeds[j]]
    {
      var root := seeds[k];
      JoinedSelf(LinksOf(adjacency), root);
      if !reached[root] {
        reached := reached[root := true];
        stack := stack + [root];
      }
    }
  }

  /** Push every unreached neighbour of `x`. */
  method Expand(adjacency: seq<seq<nat>>, ghost seeds: seq<nat>, x: nat, before: seq<bool>, rest: seq<nat>)
    returns (reached: seq<bool>, stack: seq<nat>)
    requires InRange(adjacency) && x < |adjacency|
    requires Sound(adjacency, seeds, before, rest + [x])
    requires forall y: nat :: y < |before| && before[y] ==> y in rest || y == x || Done(adjacency, before, y)
    ensures Sound(adjacency, seeds, reached, stack)
    ensures forall y: nat :: y < |reached| && reached[y] ==> y in stack || Done(adjacency, reached, y)
    ensures forall y: nat :: y < |reached| && before[y] ==> reached[y]
    ensures Waiting(reached) < Waiting(before) || (Waiting(reached) == Waiting(before) && stack == rest)
  {
    reached, stack := before, rest;
    assert before[x] by { assert (rest + [x])[|rest|] == x; }
    assert forall k :: 0 <= k < |rest| ==> rest[k] == (rest + [x])[k];
    for k := 0 to |adjacency[x]|
      invariant Sound(adjacency, seeds, reached, stack)
      invariant rest <= stack && Expanded(adjacency, reached, x, k)
      invariant forall y: nat :: y < |reached| && before[y] ==> reached[y]
      invariant forall y: nat :: y < |reached| && reached[y] ==> before[y] || y in stack
      invariant Waiting(reached) < Waiting(before) || (Waiting(reached) == Waiting(before) && stack == rest)
    {
      var y := adjacency[x][k];
      if !reached[y] {
        ReachStep(adjacency, seeds, x, y);
        assert y in Waiting(reached) && Waiting(reached[y := true]) == Waiting(reached) - {y};
        reached := reached[y := true];
        stack := stack + [y];
        assert stack[|stack| - 1] == y;
      }
    }
    assert Done(adjacency, reached, x);
    forall y: nat | y < |reached| && reached[y] ensures y in stack || Done(adjacency, reached, y) {
      if before[y] && y !in rest && y != x {
        assert Done(adjacency, before, y);
      }
    }
  }

  lemma ReachStep(adjacency: seq<seq<nat>>, seeds: seq<nat>, x: nat, y: nat)
    requires x < |adjacency| && y in adjacency[x]
    requires FedFrom(LinksOf(adjacency), SeedSet(seeds), x)
    ensures FedFrom(LinksOf(adjacency), SeedSet(seeds), y)
  {
    var links := LinksOf(adjacency);
    var k :| 0 <= k < |adjacency[x]| && adjacency[x][k] == y;
    JoinedLink(links, x, y);
    FedStep(links, SeedSet(seeds), x, y);
  }

  lemma ReachComplete(adjacency: seq<seq<nat>>, seeds: seq<nat>, reached: seq<bool>)
    requires |reached| == |adjacency|
    requires forall j :: 0 <= j < |seeds| ==> seeds[j] < |adjacency|
    requires forall j :: 0 <= j < |seeds| ==> reached[seeds[j]]
    requires forall x: nat :: x < |adjacency| && reached[x] ==> Done(adjacency, reached, x)
    ensures forall x: nat :: x < |adjacency| && FedFrom(LinksOf(adjacency), SeedSet(seeds), x) ==> reached[x]
  {
    var links := LinksOf(adjacency);
    var inside := iset x: nat | x < |adjacency| && reached[x];
    forall x: nat, y: nat | x in inside && (x, y) in links ensures y in inside {
      assert Done(adjacency, reached, x);
    }
    forall x: nat | x < |adjacency| && FedFrom(links, SeedSet(seeds), x) ensures reached[x] {
      var s :| s in seeds && Joined(links, s, x);
      ClosedHolds(links, inside, s, x);
    }
  }
}
