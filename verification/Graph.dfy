/** Finite directed graphs over names: edges, paths and reachability. */
module Graphs {

  type Name = string

  /** A node maps to its successors; a name that is not a key has none. */
  type Graph = map<Name, seq<Name>>

  predicate Edge(g: Graph, x: Name, y: Name) {
    x in g && y in g[x]
  }

  /** Every successor is itself a key. */
  ghost predicate Closed(g: Graph) {
    forall x, y :: Edge(g, x, y) ==> y in g
  }

  ghost predicate IsPath(g: Graph, p: seq<Name>) {
    p != [] && forall i :: 0 <= i < |p| - 1 ==> Edge(g, p[i], p[i + 1])
  }

  /** A path of zero or more edges leads from `x` to `y`. */
  ghost predicate Reach(g: Graph, x: Name, y: Name) {
    exists p :: IsPath(g, p) && p[0] == x && p[|p| - 1] == y
  }

  lemma ReachSelf(g: Graph, x: Name)
    ensures Reach(g, x, x)
  {
    assert IsPath(g, [x]);
  }

  lemma ReachEdge(g: Graph, x: Name, y: Name)
    requires Edge(g, x, y)
    ensures Reach(g, x, y)
  {
    assert IsPath(g, [x, y]);
  }

  lemma ReachTrans(g: Graph, x: Name, y: Name, z: Name)
    requires Reach(g, x, y) && Reach(g, y, z)
    ensures Reach(g, x, z)
  {
    var p :| IsPath(g, p) && p[0] == x && p[|p| - 1] == y;
    var q :| IsPath(g, q) && q[0] == y && q[|q| - 1] == z;
    var r := p + q[1..];
    forall i | 0 <= i < |r| - 1
      ensures Edge(g, r[i], r[i + 1])
    {
      if i >= |p| - 1 {
        assert r[i] == q[i - |p| + 1] && r[i + 1] == q[i - |p| + 2];
      }
    }
    assert IsPath(g, r);
  }

  /** A set closed under edges cannot be left by walking. */
  lemma ReachStaysInside(g: Graph, s: set<Name>, x: Name, y: Name)
    requires forall u, v :: u in s && Edge(g, u, v) ==> v in s
    requires x in s && Reach(g, x, y)
    ensures y in s
  {
    var p :| IsPath(g, p) && p[0] == x && p[|p| - 1] == y;
    var i := 0;
    while i < |p| - 1
      invariant 0 <= i <= |p| - 1
      invariant p[i] in s
    {
      assert Edge(g, p[i], p[i + 1]);
      i := i + 1;
    }
  }

  /** Nor entered, if it is closed under edges backwards. */
  lemma ReachComesFrom(g: Graph, s: set<Name>, x: Name, y: Name)
    requires forall u, v :: v in s && Edge(g, u, v) ==> u in s
    requires y in s && Reach(g, x, y)
    ensures x in s
  {
    var p :| IsPath(g, p) && p[0] == x && p[|p| - 1] == y;
    var i := |p| - 1;
    while i > 0
      invariant 0 <= i <= |p| - 1
      invariant p[i] in s
    {
      i := i - 1;
      assert Edge(g, p[i], p[i + 1]);
    }
  }

  // ---------- Comparing graphs ----------

  ghost predicate Subgraph(g: Graph, h: Graph) {
    forall x, y :: Edge(g, x, y) ==> Edge(h, x, y)
  }

  /** `h` has the edges of `g`, all turned round. */
  ghost predicate Reversed(g: Graph, h: Graph) {
    forall x, y :: Edge(g, x, y) <==> Edge(h, y, x)
  }

  lemma ReachSubgraph(g: Graph, h: Graph, x: Name, y: Name)
    requires Subgraph(g, h) && Reach(g, x, y)
    ensures Reach(h, x, y)
  {
  }

  lemma ReachReversed(g: Graph, h: Graph, x: Name, y: Name)
    requires Reversed(g, h) && Reach(g, x, y)
    ensures Reach(h, y, x)
  {
    var p :| IsPath(g, p) && p[0] == x && p[|p| - 1] == y;
    var q := seq(|p|, i requires 0 <= i < |p| => p[|p| - 1 - i]);
    assert forall i :: 0 <= i < |q| ==> q[i] == p[|p| - 1 - i];
    forall i | 0 <= i < |q| - 1
      ensures Edge(h, q[i], q[i + 1])
    {
      assert Edge(g, p[|p| - 2 - i], p[|p| - 2 - i + 1]);
    }
    assert IsPath(h, q);
  }

  /** The first step of a walk that goes somewhere. */
  lemma ReachSplit(g: Graph, x: Name, y: Name) returns (z: Name)
    requires Reach(g, x, y) && x != y
    ensures Edge(g, x, z) && Reach(g, z, y)
  {
    var p :| IsPath(g, p) && p[0] == x && p[|p| - 1] == y;
    z := p[1];
    assert Edge(g, p[0], p[1]);
    assert IsPath(g, p[1..]);
  }

  type Relation = iset<(Name, Name)>

  /** `r` holds along edges and can be composed. */
  ghost predicate Preorder(g: Graph, r: Relation) {
    && (forall x :: (x, x) in r)
    && (forall x, y :: Edge(g, x, y) ==> (x, y) in r)
    && (forall x, y, z :: (x, y) in r && (y, z) in r ==> (x, z) in r)
  }

  ghost function Reachability(g: Graph): (r: Relation)
    ensures Preorder(g, r)
  {
    var r := iset x, y | Reach(g, x, y) :: (x, y);
    assert Preorder(g, r) by {
      forall x ensures Reach(g, x, x) { ReachSelf(g, x); }
      forall x, y | Edge(g, x, y) ensures Reach(g, x, y) { ReachEdge(g, x, y); }
      forall x, y, z | Reach(g, x, y) && Reach(g, y, z) ensures Reach(g, x, z) { ReachTrans(g, x, y, z); }
    }
    r
  }

  // ---------- Order of names ----------

  /** Byte-wise order of Go strings. */
  predicate NameLE(a: Name, b: Name) {
    a == [] || (b != [] && (a[0] < b[0] || (a[0] == b[0] && NameLE(a[1..], b[1..]))))
  }

  lemma NameLETotal(a: Name, b: Name)
    ensures NameLE(a, b) || NameLE(b, a)
  {
  }

  lemma NameLETrans(a: Name, b: Name, c: Name)
    requires NameLE(a, b) && NameLE(b, c)
    ensures NameLE(a, c)
  {
  }

  ghost predicate Ordered(s: seq<Name>) {
    forall i, j :: 0 <= i < j < |s| ==> NameLE(s[i], s[j])
  }

  function InsertName(x: Name, s: seq<Name>): (r: seq<Name>)
    ensures multiset(r) == multiset{x} + multiset(s)
  {
    if s == [] || NameLE(x, s[0]) then [x] + s
    else
      assert s == [s[0]] + s[1..];
      [s[0]] + InsertName(x, s[1..])
  }

  /** What the library's sort returns. */
  function SortNames(s: seq<Name>): (r: seq<Name>)
    ensures multiset(r) == multiset(s)
  {
    if s == [] then []
    else
      assert s == [s[0]] + s[1..];
      InsertName(s[0], SortNames(s[1..]))
  }

  lemma {:induction false} InsertNameOrdered(x: Name, s: seq<Name>)
    requires Ordered(s)
    ensures Ordered(InsertName(x, s))
  {
    if s == [] {
    } else if NameLE(x, s[0]) {
      forall j | 0 < j < |s|
        ensures NameLE(x, s[j])
      {
        NameLETrans(x, s[0], s[j]);
      }
    } else {
      NameLETotal(x, s[0]);
      InsertNameOrdered(x, s[1..]);
      var r := InsertName(x, s[1..]);
      forall j | 0 <= j < |r|
        ensures NameLE(s[0], r[j])
      {
        assert r[j] in multiset(r);
      }
    }
  }

  lemma {:induction false} SortNamesOrdered(s: seq<Name>)
    ensures Ordered(SortNames(s))
  {
    if s != [] {
      SortNamesOrdered(s[1..]);
      InsertNameOrdered(s[0], SortNames(s[1..]));
    }
  }

  lemma SortNamesHolds(s: seq<Name>, x: Name)
    ensures x in SortNames(s) <==> x in s
  {
    assert x in SortNames(s) <==> x in multiset(SortNames(s));
    assert x in s <==> x in multiset(s);
  }
}
