/** The solver's union-find over cluster-local node indices: path halving, no ranks. */
module UnionFind {
  import opened Graph

  /** `root` is the partition the parent chains stand for; `depth` falls along every chain, so each ends. */
  ghost predicate Consistent(parent: seq<nat>, root: seq<nat>, depth: seq<nat>) {
    && |root| == |parent| && |depth| == |parent|
    && forall x :: 0 <= x < |parent| ==> Placed(parent, root, depth, x)
  }

  ghost predicate Placed(parent: seq<nat>, root: seq<nat>, depth: seq<nat>, x: nat)
    requires |root| == |parent| && |depth| == |parent| && x < |parent|
  {
    && parent[x] < |parent| && root[x] < |parent|
    && root[parent[x]] == root[x] && root[root[x]] == root[x]
    && (parent[x] == x <==> root[x] == x)
    && (parent[x] != x ==> depth[parent[x]] < depth[x])
  }

  lemma HalvingKeeps(parent: seq<nat>, root: seq<nat>, depth: seq<nat>, x: nat)
    requires Consistent(parent, root, depth) && x < |parent| && parent[x] != x
    ensures parent[x] < |parent| && parent[parent[x]] < |parent|
    ensures Consistent(parent[x := parent[parent[x]]], root, depth)
    ensures root[parent[parent[x]]] == root[x] && depth[parent[parent[x]]] < depth[x]
  {
    var p := parent[x];
    assert Placed(parent, root, depth, x) && Placed(parent, root, depth, p);
    assert Placed(parent, root, depth, parent[p]);
    var halved := parent[x := parent[p]];
    forall y | 0 <= y < |halved| ensures Placed(halved, root, depth, y) {
      assert Placed(parent, root, depth, y);
    }
  }

  ghost function JoinedDepth(root: seq<nat>, depth: seq<nat>, ra: nat, rb: nat): seq<nat>
    requires |root| == |depth| && ra < |depth|
  {
    seq(|depth|, x requires 0 <= x < |depth| => if root[x] == rb then depth[x] + depth[ra] + 1 else depth[x])
  }

  ghost function JoinedRoot(root: seq<nat>, ra: nat, rb: nat): seq<nat> {
    seq(|root|, x requires 0 <= x < |root| => if root[x] == rb then ra else root[x])
  }

  lemma LinkingJoins(parent: seq<nat>, root: seq<nat>, depth: seq<nat>, ra: nat, rb: nat)
    requires Consistent(parent, root, depth)
    requires ra < |parent| && rb < |parent| && ra != rb && root[ra] == ra && root[rb] == rb
    ensures Consistent(parent[rb := ra], JoinedRoot(root, ra, rb), JoinedDepth(root, depth, ra, rb))
  {
    var linked, root', depth' := parent[rb := ra], JoinedRoot(root, ra, rb), JoinedDepth(root, depth, ra, rb);
    forall x | 0 <= x < |linked| ensures Placed(linked, root', depth', x) {
      assert Placed(parent, root, depth, x) && Placed(parent, root, depth, root[x]);
      assert Placed(parent, root, depth, parent[x]);
    }
  }

  class Dsu {
    var parent: seq<nat>
    /** The representative of every index. */
    ghost var root: seq<nat>
    ghost var depth: seq<nat>

    ghost predicate Valid()
      reads this
    {
      Consistent(parent, root, depth)
    }

    constructor (n: nat)
      ensures Valid() && |parent| == n
      ensures root == seq(n, x => x)
    {
      parent := seq(n, x => x);
      root := seq(n, x => x);
      depth := seq(n, _ => 0);
    }

    /** The representative of `x`. Halving moves parents and never the partition. */
    method Find(x: nat) returns (r: nat)
      requires Valid() && x < |parent|
      modifies this`parent
      ensures Valid() && |parent| == old(|parent|)
      ensures r == root[x] && r < |parent| && root[r] == r
    {
      r := x;
      while parent[r] != r
        invariant Valid() && |parent| == old(|parent|)
        invariant r < |parent| && root[r] == root[x]
        decreases depth[r]
      {
        HalvingKeeps(parent, root, depth, r);
        parent := parent[r := parent[parent[r]]];
        r := parent[r];
      }
      assert Placed(parent, root, depth, r);
    }

    /** The two components become one, `a`'s representative standing for it. */
    method Union(a: nat, b: nat)
      requires Valid() && a < |parent| && b < |parent|
      modifies this
      ensures Valid() && |parent| == old(|parent|)
      ensures root == JoinedRoot(old(root), old(root[a]), old(root[b]))
    {
      var ra := Find(a);
      var rb := Find(b);
      if ra != rb {
        LinkingJoins(parent, root, depth, ra, rb);
        parent := parent[rb := ra];
        depth := JoinedDepth(root, depth, ra, rb);
        root := JoinedRoot(root, ra, rb);
      } else {
        assert root == JoinedRoot(root, ra, rb);
      }
    }
  }

  /** Two indices have one representative exactly when a chain of the links joins them. */
  ghost predicate Partitions(root: seq<nat>, links: set<Link>) {
    forall x: nat, y: nat :: x < |root| && y < |root| ==> (root[x] == root[y] <==> Joined(links, x, y))
  }

  lemma SingletonsPartition(n: nat)
    ensures Partitions(seq(n, x => x), {})
  {
    var root := seq(n, x => x);
    forall x: nat, y: nat | x < n && y < n ensures root[x] == root[y] <==> Joined({}, x, y) {
      if Joined({}, x, y) {
        ClosedHolds({}, iset{x}, x, y);
      } else {
        if x == y { JoinedSelf({}, x); }
      }
    }
  }

  /** One union is one more two-way link. */
  lemma UnionPartitions(root: seq<nat>, links: set<Link>, a: nat, b: nat)
    requires Partitions(root, links) && Symmetric(links) && a < |root| && b < |root|
    ensures Partitions(JoinedRoot(root, root[a], root[b]), links + {(a, b), (b, a)})
  {
    var root' := JoinedRoot(root, root[a], root[b]);
    forall x: nat, y: nat | x < |root| && y < |root|
      ensures root'[x] == root'[y] <==> Joined(links + {(a, b), (b, a)}, x, y)
    {
      JoinedWithLink(links, a, b, x, y);
    }
  }
}
