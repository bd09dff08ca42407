/** Strongly connected components in reverse topological order (internals/plan/tarjan.go). */
module Tarjan {
  import opened Graphs

  datatype TarjanNode = TarjanNode(lowlink: nat, stacked: bool)

  type Index = map<Name, nat>
  type Output = seq<seq<Name>>

  /** The value of a TarjanData object: its mutable fields at one moment. */
  datatype State = State(index: Index, nodes: seq<TarjanNode>, stack: seq<Name>, output: Output)

  // ---------- What is promised of the output ----------

  ghost predicate Emitted(out: Output, x: Name) {
    exists k :: 0 <= k < |out| && x in out[k]
  }

  ghost predicate EmittedBy(out: Output, k: nat, x: Name) {
    exists j :: 0 <= j <= k && j < |out| && x in out[j]
  }

  ghost predicate NoDuplicates(s: seq<Name>) {
    forall i, j :: 0 <= i < j < |s| ==> s[i] != s[j]
  }

  /** No name is emitted twice, neither inside a component nor in two of them. */
  ghost predicate EmittedOnce(out: Output) {
    && (forall k :: 0 <= k < |out| ==> out[k] != [] && NoDuplicates(out[k]))
    && (forall j, k, x :: 0 <= j < k < |out| && x in out[j] ==> x !in out[k])
  }

  /** Members of one component are related both ways. */
  ghost predicate Connected(r: Relation, out: Output) {
    forall k, x, y :: 0 <= k < |out| && x in out[k] && y in out[k] ==> (x, y) in r
  }

  /** A successor is in the same component or in one emitted earlier. */
  ghost predicate ReverseTopological(g: Graph, out: Output) {
    forall k, x, y :: 0 <= k < |out| && x in out[k] && Edge(g, x, y) ==> EmittedBy(out, k, y)
  }

  ghost predicate Components(g: Graph, r: Relation, out: Output) {
    EmittedOnce(out) && Connected(r, out) && ReverseTopological(g, out)
  }

  // ---------- The invariant of the search ----------
  // `r` is reachability in `g`. The search needs of it only what Preorder says.

  /** Indices below `n` are handed out, each once. */
  ghost predicate Numbered(g: Graph, index: Index, n: nat) {
    && index.Keys <= g.Keys
    && n == |index|
    && (forall x :: x in index ==> index[x] < n)
    && (forall x, y :: x in index && y in index && index[x] == index[y] ==> x == y)
  }

  /** The stack holds numbered names, with rising index. */
  ghost predicate Rising(index: Index, stack: seq<Name>) {
    && (forall i :: 0 <= i < |stack| ==> stack[i] in index)
    && (forall i, j :: 0 <= i < j < |stack| ==> index[stack[i]] < index[stack[j]])
  }

  /** The `stacked` flags say what is on the stack. */
  ghost predicate Flagged(index: Index, nodes: seq<TarjanNode>, stack: seq<Name>) {
    forall x :: x in index ==> index[x] < |nodes| && (nodes[index[x]].stacked <==> x in stack)
  }

  /** Every numbered name is on the stack or emitted, not both. */
  ghost predicate Split(index: Index, stack: seq<Name>, out: Output) {
    && (forall x :: x in index <==> x in stack || Emitted(out, x))
    && (forall x :: x in stack ==> !Emitted(out, x))
  }

  /** Only an open call may still have an unnumbered successor. */
  ghost predicate Explored(g: Graph, open: set<Name>, index: Index) {
    forall x, y :: x in index && x !in open && Edge(g, x, y) ==> y in index
  }

  ghost predicate OnStack(open: set<Name>, stack: seq<Name>) {
    forall o :: o in open ==> o in stack
  }

  /** Each name on the stack reaches all names above it. */
  ghost predicate Chained(r: Relation, stack: seq<Name>) {
    forall i, j :: 0 <= i <= j < |stack| ==> (stack[i], stack[j]) in r
  }

  /** `x` leads to an open call no younger than itself. */
  ghost predicate LeadsToOpen(r: Relation, open: set<Name>, index: Index, x: Name) {
    exists o :: o in open && o in index && x in index && index[o] <= index[x] && (x, o) in r
  }

  ghost predicate Anchored(r: Relation, open: set<Name>, index: Index, stack: seq<Name>) {
    forall i {:trigger LeadsToOpen(r, open, index, stack[i])} :: 0 <= i < |stack| ==>
      LeadsToOpen(r, open, index, stack[i])
  }

  ghost predicate Wf(g: Graph, r: Relation, open: set<Name>, s: State) {
    && Numbered(g, s.index, |s.nodes|)
    && Rising(s.index, s.stack)
    && Flagged(s.index, s.nodes, s.stack)
    && Split(s.index, s.stack, s.output)
    && Explored(g, open, s.index)
    && OnStack(open, s.stack)
    && Chained(r, s.stack)
    && Anchored(r, open, s.index, s.stack)
    && Components(g, r, s.output)
  }

  /** Nothing numbered in `m` is renumbered in `n`. */
  ghost predicate Keeps(m: Index, n: Index) {
    forall x :: x in m ==> x in n && n[x] == m[x]
  }

  ghost predicate Extends(s: State, t: State) {
    Keeps(s.index, t.index) && s.nodes <= t.nodes && s.stack <= t.stack && s.output <= t.output
  }

  /** `low` bounds every edge from position `from` of the stack or above into its first `base` names. */
  ghost predicate Bounded(g: Graph, index: Index, stack: seq<Name>, from: nat, base: nat, low: nat) {
    forall i, j :: from <= i < |stack| && 0 <= j < base && j < |stack| && Edge(g, stack[i], stack[j])
                   && stack[j] in index ==>
      low <= index[stack[j]]
  }

  /** `low` is the index of a name on the stack that `id` reaches. */
  ghost predicate Witnessed(r: Relation, index: Index, stack: seq<Name>, id: Name, low: nat) {
    exists z :: z in stack && z in index && index[z] == low && (id, z) in r
  }

  /** The first `k` successors of `id` are numbered; `low` bounds those among the first `base` names of the stack. */
  ghost predicate Scanned(g: Graph, index: Index, stack: seq<Name>, base: nat, id: Name, k: nat, low: nat) {
    && id in g && k <= |g[id]|
    && (forall i :: 0 <= i < k ==> g[id][i] in index)
    && (forall i, j :: 0 <= i < k && 0 <= j < base && j < |stack| && g[id][i] == stack[j] && stack[j] in index ==>
            low <= index[stack[j]])
  }

  function LowlinkAt(s: State, i: nat): nat {
    if i < |s.nodes| then s.nodes[i].lowlink else 0
  }

  /** What holds when a call for `id` begins. */
  ghost predicate Callable(g: Graph, r: Relation, open: set<Name>, s: State, id: Name) {
    && Wf(g, r, open, s)
    && id in g && id !in s.index
    && forall o :: o in open ==> (o, id) in r
  }

  /** The call for `id` has taken the next index and is above the stack of `s`. */
  ghost predicate Entered(s: State, t: State, id: Name) {
    && Extends(s, t)
    && id in t.index && t.index[id] == |s.nodes| < |t.nodes|
    && LowlinkAt(t, |s.nodes|) <= |s.nodes|
  }

  /** The outcome of a call for `id`, from state `s` to state `t`. */
  ghost predicate Visited(g: Graph, r: Relation, s: State, t: State, id: Name) {
    && Entered(s, t, id)
    && (id in t.stack ==> Witnessed(r, t.index, t.stack, id, LowlinkAt(t, |s.nodes|)))
    && (id !in t.stack ==> LowlinkAt(t, |s.nodes|) == |s.nodes|)
    && Bounded(g, t.index, t.stack, |s.stack|, |s.stack|, LowlinkAt(t, |s.nodes|))
  }

  /** Between two successors of `id`: `s` is the state at entry, `t` the current one. */
  ghost predicate Scanning(g: Graph, r: Relation, open: set<Name>, s: State, t: State, id: Name, k: nat) {
    && Wf(g, r, open + {id}, t)
    && Entered(s, t, id)
    && |s.stack| < |t.stack| && t.stack[|s.stack|] == id
    && Witnessed(r, t.index, t.stack, id, LowlinkAt(t, |s.nodes|))
    && Bounded(g, t.index, t.stack, |s.stack| + 1, |s.stack|, LowlinkAt(t, |s.nodes|))
    && Scanned(g, t.index, t.stack, |s.stack|, id, k, LowlinkAt(t, |s.nodes|))
  }

  // ---------- Opening a call ----------

  function Push(s: State, id: Name): State {
    State(s.index[id := |s.nodes|], s.nodes + [TarjanNode(|s.nodes|, true)], s.stack + [id], s.output)
  }

  lemma PushNumbers(g: Graph, index: Index, stack: seq<Name>, nodes: seq<TarjanNode>, id: Name)
    requires Numbered(g, index, |nodes|) && Rising(index, stack) && Flagged(index, nodes, stack)
    requires id in g && id !in index
    ensures Numbered(g, index[id := |nodes|], |nodes| + 1)
    ensures Rising(index[id := |nodes|], stack + [id])
    ensures Flagged(index[id := |nodes|], nodes + [TarjanNode(|nodes|, true)], stack + [id])
    ensures Keeps(index, index[id := |nodes|])
  {
    assert index[id := |nodes|].Keys == index.Keys + {id};
  }

  lemma LeadsToOpenStill(r: Relation, open: set<Name>, index: Index, index': Index, more: set<Name>, x: Name)
    requires LeadsToOpen(r, open, index, x) && Keeps(index, index') && open <= more
    ensures LeadsToOpen(r, more, index', x)
  {
  }

  /** Through the open calls, everything on the stack reaches the name being called. */
  lemma StackReaches(g: Graph, r: Relation, open: set<Name>, index: Index, stack: seq<Name>, id: Name)
    requires Preorder(g, r) && Anchored(r, open, index, stack)
    requires forall o :: o in open ==> (o, id) in r
    ensures forall i :: 0 <= i < |stack| ==> (stack[i], id) in r
  {
    forall i | 0 <= i < |stack|
      ensures (stack[i], id) in r
    {
      assert LeadsToOpen(r, open, index, stack[i]);
      var o :| o in open && o in index && stack[i] in index && index[o] <= index[stack[i]] && (stack[i], o) in r;
    }
  }

  lemma PushAnchors(g: Graph, r: Relation, open: set<Name>, index: Index, stack: seq<Name>, id: Name, n: nat)
    requires Preorder(g, r) && Anchored(r, open, index, stack) && Keeps(index, index[id := n])
    ensures Anchored(r, open + {id}, index[id := n], stack + [id])
  {
    assert LeadsToOpen(r, open + {id}, index[id := n], id);
    hide LeadsToOpen, Keeps;
    forall i | 0 <= i < |stack|
      ensures LeadsToOpen(r, open + {id}, index[id := n], stack[i])
    {
      LeadsToOpenStill(r, open, index, index[id := n], open + {id}, stack[i]);
    }
  }

  lemma PushOpens(g: Graph, r: Relation, open: set<Name>, s: State, id: Name)
    requires Preorder(g, r) && Callable(g, r, open, s, id)
    ensures Scanning(g, r, open, s, Push(s, id), id, 0)
  {
    hide Components, Emitted, LeadsToOpen, Edge, Anchored, Numbered, Flagged;
    PushNumbers(g, s.index, s.stack, s.nodes, id);
    StackReaches(g, r, open, s.index, s.stack, id);
    PushAnchors(g, r, open, s.index, s.stack, id, |s.nodes|);
    var t := Push(s, id);
    assert t.stack[|s.stack|] == id;
    assert Witnessed(r, t.index, t.stack, id, |s.nodes|);
  }

  // ---------- Scanning the successors ----------

  function Lower(t: State, i: nat, low: nat): State {
    if i < |t.nodes| then t.(nodes := t.nodes[i := t.nodes[i].(lowlink := low)]) else t
  }

  /** The lowlink is the one field the scan writes; the invariant does not read it. */
  lemma LowerKeeps(g: Graph, r: Relation, open: set<Name>, t: State, i: nat, low: nat)
    requires Wf(g, r, open, t)
    ensures Wf(g, r, open, Lower(t, i, low))
  {
  }

  lemma ChildCallable(g: Graph, r: Relation, open: set<Name>, s: State, t: State, id: Name, k: nat)
    requires Preorder(g, r) && Closed(g)
    requires Callable(g, r, open, s, id) && Scanning(g, r, open, s, t, id, k)
    requires k < |g[id]| && g[id][k] !in t.index
    ensures g[id][k] in g && Callable(g, r, open + {id}, t, g[id][k])
  {
    hide Wf, Entered, Witnessed, Bounded, Scanned;
    assert Edge(g, id, g[id][k]);
  }

  lemma BoundedStill(g: Graph, index: Index, stack: seq<Name>, index': Index, stack': seq<Name>,
                     from: nat, base: nat, low: nat, low': nat)
    requires Bounded(g, index, stack, from, base, low)
    requires Rising(index, stack) && Keeps(index, index') && stack <= stack' && base <= |stack|
    requires Bounded(g, index', stack', |stack|, |stack|, low')
    ensures Bounded(g, index', stack', from, base, if low' < low then low' else low)
  {
  }

  lemma ScannedStill(g: Graph, index: Index, stack: seq<Name>, index': Index, stack': seq<Name>,
                     base: nat, id: Name, k: nat, low: nat, low': nat)
    requires Scanned(g, index, stack, base, id, k, low) && Rising(index, stack)
    requires Keeps(index, index') && stack <= stack' && base <= |stack|
    requires low' <= low && k < |g[id]| && g[id][k] in index'
    requires g[id][k] in index && g[id][k] in stack ==> low' <= index[g[id][k]]
    ensures Scanned(g, index', stack', base, id, k + 1, low')
  {
  }

  /** Scanning goes on once its parts are known for the grown state `u` and the new lowlink. */
  lemma ScanGoesOn(g: Graph, r: Relation, open: set<Name>, s: State, t: State, u: State, id: Name, k: nat, low: nat)
    requires Scanning(g, r, open, s, t, id, k)
    requires Wf(g, r, open + {id}, u) && Extends(t, u)
    requires low <= |s.nodes|
    requires Witnessed(r, u.index, u.stack, id, low)
    requires Bounded(g, u.index, u.stack, |s.stack| + 1, |s.stack|, low)
    requires Scanned(g, u.index, u.stack, |s.stack|, id, k + 1, low)
    ensures Scanning(g, r, open, s, Lower(u, |s.nodes|, low), id, k + 1)
  {
    hide Wf, Witnessed, Bounded, Scanned;
    LowerKeeps(g, r, open + {id}, u, |s.nodes|, low);
    assert u.stack[|s.stack|] == t.stack[|s.stack|];
  }

  lemma ChildWitnessed(g: Graph, r: Relation, t: State, u: State, id: Name, c: Name, low: nat)
    requires Preorder(g, r) && Edge(g, id, c) && Visited(g, r, t, u, c)
    requires Witnessed(r, t.index, t.stack, id, low) && low < |t.nodes|
    ensures var childLow := LowlinkAt(u, |t.nodes|);
            Witnessed(r, u.index, u.stack, id, if childLow < low then childLow else low)
  {
  }

  /** A successor that had no index was called: its lowlink is passed up. */
  lemma ChildScanned(g: Graph, r: Relation, open: set<Name>, s: State, t: State, u: State, id: Name, k: nat)
    requires Preorder(g, r) && Scanning(g, r, open, s, t, id, k)
    requires k < |g[id]| && g[id][k] !in t.index
    requires Wf(g, r, open + {id}, u) && Visited(g, r, t, u, g[id][k])
    ensures var low, childLow := LowlinkAt(u, |s.nodes|), LowlinkAt(u, |t.nodes|);
            Scanning(g, r, open, s, Lower(u, |s.nodes|, if childLow < low then childLow else low), id, k + 1)
  {
    var c, low, childLow := g[id][k], LowlinkAt(t, |s.nodes|), LowlinkAt(u, |t.nodes|);
    var low' := if childLow < low then childLow else low;
    assert Edge(g, id, c);
    assert u.nodes[|s.nodes|] == t.nodes[|s.nodes|];
    assert Rising(t.index, t.stack);
    hide Rising, Wf, Keeps, Witnessed, Bounded, Scanned, Edge, Preorder;
    ChildWitnessed(g, r, t, u, id, c, low);
    BoundedStill(g, t.index, t.stack, u.index, u.stack, |s.stack| + 1, |s.stack|, low, childLow);
    ScannedStill(g, t.index, t.stack, u.index, u.stack, |s.stack|, id, k, low, low');
    ScanGoesOn(g, r, open, s, t, u, id, k, low');
  }

  lemma NothingAbove(g: Graph, index: Index, stack: seq<Name>, low: nat)
    ensures Bounded(g, index, stack, |stack|, |stack|, low)
  {
  }

  /** A successor already numbered lowers the lowlink if it is on the stack, and is ignored otherwise. */
  lemma NumberedScanned(g: Graph, r: Relation, open: set<Name>, s: State, t: State, id: Name, k: nat, low': nat)
    requires Preorder(g, r) && Scanning(g, r, open, s, t, id, k)
    requires k < |g[id]| && g[id][k] in t.index
    requires var low := LowlinkAt(t, |s.nodes|);
             low' == if g[id][k] in t.stack && t.index[g[id][k]] < low then t.index[g[id][k]] else low
    ensures Scanning(g, r, open, s, Lower(t, |s.nodes|, low'), id, k + 1)
  {
    var c, low := g[id][k], LowlinkAt(t, |s.nodes|);
    assert Rising(t.index, t.stack) && Keeps(t.index, t.index) && Extends(t, t);
    assert Edge(g, id, c);
    assert Witnessed(r, t.index, t.stack, id, low');
    hide Wf, Rising, Keeps, Witnessed, Bounded, Scanned, Edge, Preorder;
    NothingAbove(g, t.index, t.stack, low');
    BoundedStill(g, t.index, t.stack, t.index, t.stack, |s.stack| + 1, |s.stack|, low, low');
    ScannedStill(g, t.index, t.stack, t.index, t.stack, |s.stack|, id, k, low, low');
    ScanGoesOn(g, r, open, s, t, t, id, k, low');
  }

  // ---------- Closing a call ----------

  lemma AllScanned(g: Graph, open: set<Name>, index: Index, stack: seq<Name>, base: nat, id: Name, low: nat)
    requires id in g && Scanned(g, index, stack, base, id, |g[id]|, low)
    requires Explored(g, open + {id}, index)
    ensures Explored(g, open, index)
    ensures forall j :: 0 <= j < base && j < |stack| && Edge(g, id, stack[j]) && stack[j] in index ==>
                          low <= index[stack[j]]
  {
  }

  lemma LowerAnchor(g: Graph, r: Relation, open: set<Name>, index: Index, stack: seq<Name>, id: Name, low: nat)
    returns (o: Name)
    requires Preorder(g, r) && Anchored(r, open + {id}, index, stack)
    requires Witnessed(r, index, stack, id, low) && id in index && low < index[id]
    ensures o in open && o in index && index[o] < index[id] && (id, o) in r
  {
    var z :| z in stack && z in index && index[z] == low && (id, z) in r;
    assert LeadsToOpen(r, open + {id}, index, z);
    o :| o in open + {id} && o in index && z in index && index[o] <= index[z] && (z, o) in r;
  }

  lemma LeadsToOther(g: Graph, r: Relation, open: set<Name>, index: Index, id: Name, other: Name, x: Name)
    requires Preorder(g, r)
    requires other in open && other in index && id in index && index[other] < index[id] && (id, other) in r
    requires LeadsToOpen(r, open + {id}, index, x)
    ensures LeadsToOpen(r, open, index, x)
  {
  }

  /** `id` is not the root of its component: what was anchored to it is anchored lower. */
  lemma AnchorMoves(g: Graph, r: Relation, open: set<Name>, index: Index, stack: seq<Name>, id: Name, low: nat)
    requires Preorder(g, r) && Anchored(r, open + {id}, index, stack)
    requires Witnessed(r, index, stack, id, low) && id in index && low < index[id]
    ensures Anchored(r, open, index, stack)
  {
    var other := LowerAnchor(g, r, open, index, stack, id, low);
    hide LeadsToOpen, Witnessed;
    forall i | 0 <= i < |stack|
      ensures LeadsToOpen(r, open, index, stack[i])
    {
      LeadsToOther(g, r, open, index, id, other, stack[i]);
    }
  }

  lemma OnStackStill(open: set<Name>, stack: seq<Name>, stack': seq<Name>)
    requires OnStack(open, stack) && stack <= stack'
    ensures OnStack(open, stack')
  {
  }

  lemma StaysOnStack(g: Graph, r: Relation, open: set<Name>, s: State, t: State, id: Name)
    requires Preorder(g, r)
    requires Callable(g, r, open, s, id) && Scanning(g, r, open, s, t, id, |g[id]|)
    requires LowlinkAt(t, |s.nodes|) != |s.nodes|
    ensures Wf(g, r, open, t) && Visited(g, r, s, t, id)
  {
    hide Numbered, Split, Chained, Components, Flagged, Rising, LeadsToOpen, Scanned, Explored, Witnessed, OnStack;
    var low := LowlinkAt(t, |s.nodes|);
    AllScanned(g, open, t.index, t.stack, |s.stack|, id, low);
    AnchorMoves(g, r, open, t.index, t.stack, id, low);
    OnStackStill(open, s.stack, t.stack);
    assert id in t.stack;
  }

  // ---------- Emitting a component ----------

  /** The stack from position `from` on, top first: the order in which it is popped. */
  function TopDown(stack: seq<Name>, from: nat): (scc: seq<Name>)
    requires from <= |stack|
    ensures |scc| == |stack| - from
    ensures forall i :: 0 <= i < |scc| ==> scc[i] == stack[|stack| - 1 - i]
  {
    seq(|stack| - from, i requires 0 <= i < |stack| - from => stack[|stack| - 1 - i])
  }

  lemma TopDownHolds(stack: seq<Name>, from: nat, x: Name)
    requires from <= |stack|
    ensures x in TopDown(stack, from) <==> x in stack[from..]
  {
    if x in stack[from..] {
      var i :| 0 <= i < |stack[from..]| && stack[from..][i] == x;
      assert TopDown(stack, from)[|stack| - 1 - (from + i)] == x;
    }
  }

  /** The nodes once everything from position `from` of the stack on is unflagged. */
  ghost predicate Unflagged(index: Index, stack: seq<Name>, from: nat, nodes: seq<TarjanNode>,
                            nodes': seq<TarjanNode>) {
    && |nodes'| == |nodes|
    && forall x :: x in index && index[x] < |nodes| ==>
         nodes'[index[x]] == if x in stack[Clip(from, stack)..] then nodes[index[x]].(stacked := false)
           else nodes[index[x]]
  }

  function Clip(i: nat, stack: seq<Name>): (r: nat)
    ensures r <= |stack|
  {
    if i <= |stack| then i else |stack|
  }

  lemma ComponentReaches(g: Graph, r: Relation, open: set<Name>, index: Index, stack: seq<Name>, base: nat, i: nat)
    requires Preorder(g, r) && Rising(index, stack) && Chained(r, stack)
    requires base <= i < |stack| && OnStack(open, stack[..base])
    requires LeadsToOpen(r, open + {stack[base]}, index, stack[i])
    ensures (stack[i], stack[base]) in r && (stack[base], stack[i]) in r
  {
  }

  lemma ComponentConnected(g: Graph, r: Relation, open: set<Name>, index: Index, stack: seq<Name>, base: nat)
    requires Preorder(g, r) && Rising(index, stack) && Chained(r, stack)
    requires base < |stack| && OnStack(open, stack[..base])
    requires Anchored(r, open + {stack[base]}, index, stack)
    ensures forall x, y :: x in stack[base..] && y in stack[base..] ==> (x, y) in r
  {
    forall x, y | x in stack[base..] && y in stack[base..]
      ensures (x, y) in r
    {
      var i :| 0 <= i < |stack[base..]| && stack[base..][i] == x;
      var j :| 0 <= j < |stack[base..]| && stack[base..][j] == y;
      assert LeadsToOpen(r, open + {stack[base]}, index, stack[base + i]);
      assert LeadsToOpen(r, open + {stack[base]}, index, stack[base + j]);
      hide LeadsToOpen, OnStack, Anchored, Chained;
      ComponentReaches(g, r, open, index, stack, base, base + i);
      ComponentReaches(g, r, open, index, stack, base, base + j);
    }
  }

  /** No edge leaves the component downwards: its successors are inside it or emitted before. */
  lemma ComponentClosed(g: Graph, index: Index, stack: seq<Name>, out: Output, base: nat, x: Name, y: Name)
    requires Rising(index, stack) && Split(index, stack, out) && base < |stack|
    requires forall j :: 0 <= j < base && j < |stack| && Edge(g, stack[base], stack[j]) && stack[j] in index ==>
            index[stack[base]] <= index[stack[j]]
    requires Bounded(g, index, stack, base + 1, base, index[stack[base]])
    requires x in stack[base..] && Edge(g, x, y) && y in index
    ensures y in stack[base..] || Emitted(out, y)
  {
  }

  lemma EmitOnce(index: Index, stack: seq<Name>, out: Output, base: nat)
    requires EmittedOnce(out) && Rising(index, stack) && Split(index, stack, out) && base < |stack|
    ensures EmittedOnce(out + [TopDown(stack, base)])
  {
  }

  lemma EmitConnected(r: Relation, out: Output, scc: seq<Name>)
    requires Connected(r, out)
    requires forall x, y :: x in scc && y in scc ==> (x, y) in r
    ensures Connected(r, out + [scc])
  {
  }

  lemma EmitTopological(g: Graph, out: Output, scc: seq<Name>)
    requires ReverseTopological(g, out)
    requires forall x, y :: x in scc && Edge(g, x, y) ==> y in scc || Emitted(out, y)
    ensures ReverseTopological(g, out + [scc])
  {
    var out' := out + [scc];
    forall k, x, y | 0 <= k < |out'| && x in out'[k] && Edge(g, x, y)
      ensures EmittedBy(out', k, y)
    {
      if k < |out| {
        assert out'[k] == out[k];
        var j :| 0 <= j <= k && j < |out| && y in out[j];
        assert y in out'[j];
      } else if y in scc {
        assert y in out'[k];
      } else {
        var j :| 0 <= j < |out| && y in out[j];
        assert y in out'[j];
      }
    }
  }

  /** Moving the top of the stack to the output keeps the two apart. */
  lemma EmitSplits(index: Index, stack: seq<Name>, out: Output, base: nat)
    requires Rising(index, stack) && Split(index, stack, out) && base <= |stack|
    ensures Split(index, stack[..base], out + [TopDown(stack, base)])
  {
    var scc := TopDown(stack, base);
    var out' := out + [scc];
    forall x
      ensures x in stack <==> x in stack[..base] || x in scc
      ensures Emitted(out', x) <==> Emitted(out, x) || x in scc
    {
      TopDownHolds(stack, base, x);
      assert stack == stack[..base] + stack[base..];
      if Emitted(out, x) {
        var k :| 0 <= k < |out| && x in out[k];
        assert x in out'[k];
      }
      if x in scc {
        assert x in out'[|out|];
      }
    }
    forall x | x in stack[..base]
      ensures x !in scc
    {
      TopDownHolds(stack, base, x);
    }
  }

  lemma EmitFlags(index: Index, stack: seq<Name>, base: nat, nodes: seq<TarjanNode>, nodes': seq<TarjanNode>)
    requires Rising(index, stack) && Flagged(index, nodes, stack) && base <= |stack|
    requires Unflagged(index, stack, base, nodes, nodes')
    ensures Flagged(index, nodes', stack[..base])
  {
  }

  /** The state once the component from position `base` of the stack on is emitted. */
  function Emit(t: State, base: nat, nodes: seq<TarjanNode>): State
    requires base <= |t.stack|
  {
    State(t.index, nodes, t.stack[..base], t.output + [TopDown(t.stack, base)])
  }

  lemma EmitComponents(g: Graph, r: Relation, open: set<Name>, index: Index, stack: seq<Name>, out: Output, base: nat)
    requires Preorder(g, r) && Rising(index, stack) && Split(index, stack, out) && base < |stack|
    requires Chained(r, stack) && OnStack(open, stack[..base]) && Anchored(r, open + {stack[base]}, index, stack)
    requires Explored(g, open, index) && OnStack(open, stack[..base])
    requires forall j :: 0 <= j < base && j < |stack| && Edge(g, stack[base], stack[j]) && stack[j] in index ==>
            index[stack[base]] <= index[stack[j]]
    requires Bounded(g, index, stack, base + 1, base, index[stack[base]])
    requires Components(g, r, out)
    ensures Components(g, r, out + [TopDown(stack, base)])
  {
    var scc := TopDown(stack, base);
    EmitOnce(index, stack, out, base);
    assert Connected(r, out + [scc]) by {
      ComponentConnected(g, r, open, index, stack, base);
      forall x, y | x in scc && y in scc
        ensures (x, y) in r
      {
        TopDownHolds(stack, base, x);
        TopDownHolds(stack, base, y);
      }
      EmitConnected(r, out, scc);
    }
    forall x, y | x in scc && Edge(g, x, y)
      ensures y in scc || Emitted(out, y)
    {
      TopDownHolds(stack, base, x);
      TopDownHolds(stack, base, y);
      NotOpen(open, index, stack, base, x);
      ComponentClosed(g, index, stack, out, base, x, y);
    }
    EmitTopological(g, out, scc);
  }

  lemma NotOpen(open: set<Name>, index: Index, stack: seq<Name>, base: nat, x: Name)
    requires Rising(index, stack) && base <= |stack| && OnStack(open, stack[..base])
    requires x in stack[base..]
    ensures x !in open && x in index
  {
  }

  lemma AnchoredStill(r: Relation, open: set<Name>, index: Index, index': Index, stack: seq<Name>)
    requires Anchored(r, open, index, stack) && Keeps(index, index')
    ensures Anchored(r, open, index', stack)
  {
    hide LeadsToOpen, Keeps;
    forall i | 0 <= i < |stack|
      ensures LeadsToOpen(r, open, index', stack[i])
    {
      LeadsToOpenStill(r, open, index, index', open, stack[i]);
    }
  }

  lemma RisingBelow(index: Index, stack: seq<Name>, base: nat)
    requires Rising(index, stack) && base <= |stack|
    ensures Rising(index, stack[..base])
  {
  }

  lemma RootVisited(g: Graph, r: Relation, s: State, t: State, id: Name, nodes: seq<TarjanNode>)
    requires Entered(s, t, id) && Rising(s.index, s.stack) && id !in s.index
    requires |nodes| == |t.nodes| && nodes[..|s.nodes|] == t.nodes[..|s.nodes|]
    requires nodes[|s.nodes|].lowlink == |s.nodes|
    ensures Visited(g, r, s, Emit(t, |s.stack|, nodes), id)
  {
  }

  /** `id` is the root of its component: the call ends with the component emitted. */
  lemma RootEmits(g: Graph, r: Relation, open: set<Name>, s: State, t: State, id: Name, nodes: seq<TarjanNode>)
    requires Preorder(g, r)
    requires Callable(g, r, open, s, id) && Scanning(g, r, open, s, t, id, |g[id]|)
    requires LowlinkAt(t, |s.nodes|) == |s.nodes|
    requires Unflagged(t.index, t.stack, |s.stack|, t.nodes, nodes)
    ensures Wf(g, r, open, Emit(t, |s.stack|, nodes))
  {
    hide Numbered, Scanned, Explored, Witnessed, Flagged, Rising, Split, OnStack, Anchored, LeadsToOpen;
    hide Components, Bounded, Edge, Keeps, Chained, Preorder;
    var base := |s.stack|;
    assert t.stack[..base] == s.stack;
    AllScanned(g, open, t.index, t.stack, base, id, |s.nodes|);
    EmitFlags(t.index, t.stack, base, t.nodes, nodes);
    EmitSplits(t.index, t.stack, t.output, base);
    EmitComponents(g, r, open, t.index, t.stack, t.output, base);
    AnchoredStill(r, open, s.index, t.index, s.stack);
    RisingBelow(t.index, t.stack, base);
  }

  lemma UnflagNone(index: Index, stack: seq<Name>, nodes: seq<TarjanNode>)
    ensures Unflagged(index, stack, |stack|, nodes, nodes)
  {
  }

  /** The stack can be popped down to position `base`, which holds the name with index `node`. */
  ghost predicate Poppable(g: Graph, index: Index, n: nat, stack: seq<Name>, base: nat, node: nat) {
    && Numbered(g, index, n) && Rising(index, stack)
    && base < |stack| && stack[base] in index && index[stack[base]] == node < n
  }

  /** Popping one more name clears one more flag; the name with index `node` is met at `base`. */
  lemma UnflagOne(g: Graph, index: Index, stack: seq<Name>, base: nat, node: nat, i: nat,
                  nodes: seq<TarjanNode>, nodes': seq<TarjanNode>)
    requires Poppable(g, index, |nodes|, stack, base, node) && base <= i < |stack|
    requires Unflagged(index, stack, i + 1, nodes, nodes')
    ensures stack[i] in index && node <= index[stack[i]] < |nodes'| && (index[stack[i]] == node <==> i == base)
    ensures var k := index[stack[i]]; Unflagged(index, stack, i, nodes, nodes'[k := nodes'[k].(stacked := false)])
    ensures TopDown(stack, i + 1) + [stack[i]] == TopDown(stack, i)
  {
    assert stack[i..] == [stack[i]] + stack[i + 1..];
  }

  /** The capacity taken from the number of keys leaves a slot for every name still to be called. */
  lemma RoomForCall(g: Graph, r: Relation, open: set<Name>, s: State, id: Name)
    requires Callable(g, r, open, s, id)
    ensures |s.nodes| < |g|
  {
    SubsetSmaller(s.index.Keys + {id}, g.Keys);
    assert |s.index.Keys + {id}| == |s.nodes| + 1;
  }

  lemma SubsetSmaller<T>(a: set<T>, b: set<T>)
    requires a <= b
    ensures |a| <= |b|
  {
    if a != {} {
      var x :| x in a;
      SubsetSmaller(a - {x}, b - {x});
    }
  }

  lemma FlagTells(g: Graph, r: Relation, open: set<Name>, s: State, t: State, id: Name, k: nat, c: Name)
    requires Scanning(g, r, open, s, t, id, k) && c in t.index
    ensures t.index[c] < |t.nodes| && (t.nodes[t.index[c]].stacked <==> c in t.stack)
  {
  }

  lemma PoppableAfterScan(g: Graph, r: Relation, open: set<Name>, s: State, t: State, id: Name)
    requires Callable(g, r, open, s, id) && Scanning(g, r, open, s, t, id, |g[id]|)
    ensures Poppable(g, t.index, |t.nodes|, t.stack, |s.stack|, |s.nodes|) && Entered(s, t, id)
    ensures Rising(s.index, s.stack) && id !in s.index
  {
  }

  class TarjanData {
    const successors: Graph
    /** The nodes in index order; `count` slots of a capacity that is never exceeded are in use. */
    const nodes: array<TarjanNode>
    var count: nat
    var stack: seq<Name>
    var index: Index
    var output: Output

    constructor (successors: Graph)
      ensures this.successors == successors && Valid() && fresh(nodes)
      ensures View() == State(map[], [], [], [])
    {
      this.successors := successors;
      nodes := new TarjanNode[|successors|](_ => TarjanNode(0, false));
      count, stack, index, output := 0, [], map[], [];
    }

    ghost predicate Valid()
      reads this
    {
      count <= nodes.Length && nodes.Length == |successors|
    }

    ghost function View(): State
      requires Valid()
      reads this, nodes
    {
      State(index, nodes[..count], stack, output)
    }

    /** Pops the stack down to the name with index `node` and emits what was popped as one component. */
    method PopComponent(node: nat, ghost base: nat)
      requires Valid() && Poppable(successors, index, count, stack, base, node)
      modifies this`stack, this`output, nodes
      ensures Valid() && View() == Emit(old(View()), base, nodes[..count])
      ensures Unflagged(index, old(stack), base, old(nodes[..count]), nodes[..count])
      ensures nodes[..node] == old(nodes[..node]) && nodes[node].lowlink == old(nodes[node].lowlink)
    {
      hide Numbered, Rising, Unflagged;
      ghost var was := nodes[..count];
      UnflagNone(index, stack, was);
      var scc: seq<Name> := [];
      var i := |stack| - 1;
      while true
        invariant stack == old(stack) && output == old(output)
        invariant base <= i < |stack|
        invariant scc == TopDown(stack, i + 1)
        invariant Unflagged(index, stack, i + 1, was, nodes[..count])
        invariant nodes[..node] == was[..node] && nodes[node].lowlink == was[node].lowlink
        decreases i
      {
        var stackId := stack[i];
        UnflagOne(successors, index, stack, base, node, i, was, nodes[..count]);
        var stackIndex := index[stackId];
        nodes[stackIndex] := nodes[stackIndex].(stacked := false);
        scc := scc + [stackId];
        if stackIndex == node {
          break;
        }
        i := i - 1;
      }
      stack := stack[..i];
      output := output + [scc];
    }

    /** With all successors of `id` scanned: emits its component if `id` is the root of one. */
    method CloseCall(id: Name, node: nat, ghost r: Relation, ghost open: set<Name>, ghost s: State)
      requires Valid() && Preorder(successors, r) && Callable(successors, r, open, s, id)
      requires node == |s.nodes| < count && Scanning(successors, r, open, s, View(), id, |successors[id]|)
      modifies this`stack, this`output, nodes
      ensures Valid()
      ensures Wf(successors, r, open, View()) && Visited(successors, r, s, View(), id)
    {
      hide Wf, Visited, Scanning, Preorder, Callable, Entered, Unflagged, Poppable, Rising;
      ghost var t := View();
      if nodes[node].lowlink == node {
        PoppableAfterScan(successors, r, open, s, t, id);
        PopComponent(node, |s.stack|);
        RootEmits(successors, r, open, s, t, id, nodes[..count]);
        RootVisited(successors, r, s, t, id, nodes[..count]);
      } else {
        StaysOnStack(successors, r, open, s, t, id);
      }
    }

    /** One round of the scan: calls the successor numbered `k` if it is new, and lowers the lowlink. */
    method ScanSuccessor(id: Name, node: nat, k: nat, ghost r: Relation, ghost open: set<Name>, ghost s: State)
      requires Valid() && Closed(successors) && Preorder(successors, r)
      requires Callable(successors, r, open, s, id) && id in successors && k < |successors[id]|
      requires node == |s.nodes| < count && Scanning(successors, r, open, s, View(), id, k)
      modifies this, nodes
      decreases nodes.Length - count, 1
      ensures Valid() && old(count) <= count
      ensures Scanning(successors, r, open, s, View(), id, k + 1)
    {
      hide Wf, Visited, Scanning, Preorder, Closed, Callable;
      var succ := successors[id][k];
      ghost var t := View();
      if succ !in index {
        ChildCallable(successors, r, open, s, t, id, k);
        var succNode := StrongConnect(succ, r, open + {id});
        ghost var u := View();
        ChildScanned(successors, r, open, s, t, u, id, k);
        if nodes[succNode].lowlink < nodes[node].lowlink {
          nodes[node] := nodes[node].(lowlink := nodes[succNode].lowlink);
        }
        assert View() == Lower(u, node, nodes[node].lowlink);
      } else {
        FlagTells(successors, r, open, s, t, id, k, succ);
        if nodes[index[succ]].stacked {
          if index[succ] < nodes[node].lowlink {
            nodes[node] := nodes[node].(lowlink := index[succ]);
          }
        }
        NumberedScanned(successors, r, open, s, t, id, k, nodes[node].lowlink);
        assert View() == Lower(t, node, nodes[node].lowlink);
      }
    }

    /** Searches from `id` and returns the slot of its node. `open` holds the names of the calls in progress. */
    method StrongConnect(id: Name, ghost r: Relation, ghost open: set<Name>) returns (node: nat)
      requires Valid() && Closed(successors) && Preorder(successors, r)
      requires id in successors && Callable(successors, r, open, View(), id)
      modifies this, nodes
      decreases nodes.Length - count, 0
      ensures Valid()
      ensures node == old(count) < count
      ensures Wf(successors, r, open, View()) && Visited(successors, r, old(View()), View(), id)
    {
      hide Wf, Visited, Scanning, Preorder, Closed, Callable;
      ghost var s := View();
      RoomForCall(successors, r, open, s, id);
      node := count;
      index := index[id := node];
      stack := stack + [id];
      nodes[node] := TarjanNode(node, true);
      count := count + 1;
      PushOpens(successors, r, open, s, id);
      assert View() == Push(s, id);

      var k := 0;
      while k < |successors[id]|
        invariant Valid() && node < count && k <= |successors[id]|
        invariant Scanning(successors, r, open, s, View(), id, k)
      {
        ScanSuccessor(id, node, k, r, open, s);
        k := k + 1;
      }

      CloseCall(id, node, r, open, s);
    }
  }

  // ---------- The whole sort ----------

  lemma SomethingOpen(r: Relation, open: set<Name>, index: Index, stack: seq<Name>)
    requires Anchored(r, open, index, stack) && stack != []
    ensures open != {}
  {
    assert LeadsToOpen(r, open, index, stack[0]);
  }

  lemma NothingOpen(g: Graph, r: Relation, s: State)
    requires Wf(g, r, {}, s)
    ensures s.stack == []
  {
    if s.stack != [] {
      SomethingOpen(r, {}, s.index, s.stack);
    }
  }

  lemma StartsWf(g: Graph, r: Relation)
    ensures Wf(g, r, {}, State(map[], [], [], []))
  {
  }

  lemma AllEmitted(g: Graph, r: Relation, s: State)
    requires Wf(g, r, {}, s) && forall x :: x in g ==> x in s.index
    ensures Components(g, r, s.output) && forall x :: Emitted(s.output, x) <==> x in g
  {
    NothingOpen(g, r, s);
  }

  /** Same components, each possibly written in another order. */
  ghost predicate Reordered(out: Output, out': Output) {
    |out'| == |out| && forall k :: 0 <= k < |out| ==> multiset(out'[k]) == multiset(out[k])
  }

  lemma ReorderedHolds(out: Output, out': Output, k: nat, x: Name)
    requires Reordered(out, out') && k < |out|
    ensures x in out'[k] <==> x in out[k]
  {
    assert x in out'[k] <==> x in multiset(out'[k]);
    assert x in out[k] <==> x in multiset(out[k]);
  }

  lemma NoDuplicatesCount(s: seq<Name>, x: Name)
    requires NoDuplicates(s)
    ensures multiset(s)[x] <= 1
  {
    if s != [] {
      assert s == [s[0]] + s[1..];
      NoDuplicatesCount(s[1..], x);
      if x == s[0] {
        assert x !in s[1..];
      }
    }
  }

  lemma CountTwice(s: seq<Name>, i: nat, j: nat)
    requires i < j < |s| && s[i] == s[j]
    ensures multiset(s)[s[i]] >= 2
  {
    assert s == s[..j] + s[j..];
    assert s[i] == s[..j][i] && s[j] == s[j..][0];
  }

  lemma CountNoDuplicates(s: seq<Name>)
    requires forall x :: multiset(s)[x] <= 1
    ensures NoDuplicates(s)
  {
    forall i, j | 0 <= i < j < |s|
      ensures s[i] != s[j]
    {
      if s[i] == s[j] {
        CountTwice(s, i, j);
      }
    }
  }

  lemma ReorderedOnce(out: Output, out': Output)
    requires Reordered(out, out') && EmittedOnce(out)
    ensures EmittedOnce(out')
  {
    forall k | 0 <= k < |out|
      ensures out'[k] != [] && NoDuplicates(out'[k])
    {
      assert |out'[k]| == |multiset(out'[k])| == |multiset(out[k])| == |out[k]|;
      forall x
        ensures multiset(out'[k])[x] <= 1
      {
        NoDuplicatesCount(out[k], x);
      }
      CountNoDuplicates(out'[k]);
    }
    forall j, k, x | 0 <= j < k < |out| && x in out'[j]
      ensures x !in out'[k]
    {
      ReorderedHolds(out, out', j, x);
      ReorderedHolds(out, out', k, x);
    }
  }

  lemma ReorderedComponents(g: Graph, r: Relation, out: Output, out': Output)
    requires Reordered(out, out') && Components(g, r, out)
    ensures Components(g, r, out')
    ensures forall x :: Emitted(out', x) <==> Emitted(out, x)
  {
    ReorderedOnce(out, out');
    forall k, x | 0 <= k < |out|
      ensures x in out'[k] <==> x in out[k]
    {
      ReorderedHolds(out, out', k, x);
    }
    forall k, x | 0 <= k < |out|
      ensures EmittedBy(out', k, x) <==> EmittedBy(out, k, x)
    {
      if EmittedBy(out, k, x) {
        var j :| 0 <= j <= k && j < |out| && x in out[j];
        assert x in out'[j];
      }
    }
  }

  /** Whatever a member of component `j` reaches was emitted with it or before it. */
  lemma ReachEmittedBy(g: Graph, r: Relation, out: Output, j: nat, x: Name, y: Name)
    requires Components(g, r, out) && (forall z :: Emitted(out, z) ==> z in g)
    requires j < |out| && x in out[j] && Reach(g, x, y)
    ensures EmittedBy(out, j, y)
  {
    var s := set z | z in g.Keys && EmittedBy(out, j, z);
    assert EmittedBy(out, j, x) && Emitted(out, x);
    forall u, v | u in s && Edge(g, u, v)
      ensures v in s
    {
      var k :| 0 <= k <= j && k < |out| && u in out[k];
      assert EmittedBy(out, k, v);
      var l :| 0 <= l <= k && l < |out| && v in out[l];
      assert EmittedBy(out, j, v) && Emitted(out, v);
    }
    ReachStaysInside(g, s, x, y);
  }

  /** Two emitted names share a component exactly when each reaches the other. */
  lemma SameComponent(g: Graph, out: Output, j: nat, k: nat, x: Name, y: Name)
    requires Components(g, Reachability(g), out) && (forall z :: Emitted(out, z) ==> z in g)
    requires j < |out| && k < |out| && x in out[j] && y in out[k]
    ensures j == k <==> Reach(g, x, y) && Reach(g, y, x)
    ensures Reach(g, x, y) ==> k <= j
  {
    var r := Reachability(g);
    if j == k {
      assert (x, y) in r && (y, x) in r;
    }
    if Reach(g, x, y) {
      ReachEmittedBy(g, r, out, j, x, y);
      var l :| 0 <= l <= j && l < |out| && y in out[l];
      assert l == k;
    }
    if Reach(g, y, x) {
      ReachEmittedBy(g, r, out, k, y, x);
      var l :| 0 <= l <= k && l < |out| && x in out[l];
      assert l == j;
    }
  }

  /** What tarjanSort promises of its result. */
  ghost predicate Sorted(g: Graph, out: Output) {
    && EmittedOnce(out)
    && (forall x :: Emitted(out, x) <==> x in g)
    && (forall j, k, x, y :: 0 <= j < |out| && 0 <= k < |out| && x in out[j] && y in out[k] ==>
          (j == k <==> Reach(g, x, y) && Reach(g, y, x)))
    && (forall j, k, x, y :: 0 <= j < |out| && 0 <= k < |out| && x in out[j] && y in out[k] && Edge(g, x, y) ==> k <= j)
    && (forall k :: 0 <= k < |out| ==> Ordered(out[k]))
  }

  lemma ComponentsSorted(g: Graph, out: Output)
    requires Components(g, Reachability(g), out) && forall x :: Emitted(out, x) <==> x in g
    requires forall k :: 0 <= k < |out| ==> Ordered(out[k])
    ensures Sorted(g, out)
  {
    assert EmittedOnce(out);
    hide Components, EmittedOnce, Reach, Ordered, Emitted;
    forall j, k, x, y | 0 <= j < |out| && 0 <= k < |out| && x in out[j] && y in out[k]
      ensures j == k <==> Reach(g, x, y) && Reach(g, y, x)
      ensures Edge(g, x, y) ==> k <= j
    {
      SameComponent(g, out, j, k, x, y);
      if Edge(g, x, y) {
        ReachEdge(g, x, y);
      }
    }
  }

  lemma VisitedKeeps(g: Graph, r: Relation, s: State, t: State, id: Name)
    requires Visited(g, r, s, t, id)
    ensures id in t.index && forall x :: x in s.index ==> x in t.index
  {
  }

  /** The keys of a map, in the arbitrary order of a range loop. */
  method Keys<T>(g: map<Name, T>) returns (ids: seq<Name>)
    ensures forall x :: x in ids <==> x in g
  {
    ids := [];
    var rest := g.Keys;
    while rest != {}
      invariant rest <= g.Keys
      invariant forall x :: x in ids <==> x in g && x !in rest
      decreases rest
    {
      var id :| id in rest;
      ids, rest := ids + [id], rest - {id};
    }
  }

  method SortedKeys(g: Graph) returns (ids: seq<Name>)
    ensures Ordered(ids) && forall x :: x in ids <==> x in g
  {
    var keys := Keys(g);
    ids := SortNames(keys);
    SortNamesOrdered(keys);
    forall x
      ensures x in ids <==> x in keys
    {
      SortNamesHolds(keys, x);
    }
  }

  method SortComponents(out: Output) returns (out': Output)
    ensures Reordered(out, out')
    ensures forall k :: 0 <= k < |out'| ==> Ordered(out'[k])
  {
    out' := out;
    var k := 0;
    while k < |out'|
      invariant 0 <= k <= |out'|
      invariant Reordered(out, out')
      invariant forall j :: 0 <= j < k ==> Ordered(out'[j])
    {
      if |out'[k]| > 1 {
        SortNamesOrdered(out'[k]);
        out' := out'[k := SortNames(out'[k])];
      }
      k := k + 1;
    }
  }

  method TarjanSort(successors: Graph) returns (output: Output)
    requires Closed(successors)
    ensures Sorted(successors, output)
  {
    hide Wf, Visited, Preorder, Closed, Components, Reordered, Sorted, Ordered, Emitted;
    var data := new TarjanData(successors);
    ghost var r := Reachability(successors);
    StartsWf(successors, r);
    var stableIds := SortedKeys(successors);
    var i := 0;
    while i < |stableIds|
      invariant 0 <= i <= |stableIds|
      invariant data.Valid() && fresh(data) && fresh(data.nodes) && data.successors == successors
      invariant Wf(successors, r, {}, data.View())
      invariant forall k :: 0 <= k < i ==> stableIds[k] in data.index
    {
      if stableIds[i] !in data.index {
        ghost var s := data.View();
        var _ := data.StrongConnect(stableIds[i], r, {});
        VisitedKeeps(successors, r, s, data.View(), stableIds[i]);
      }
      i := i + 1;
    }
    AllEmitted(successors, r, data.View());
    output := SortComponents(data.output);
    ReorderedComponents(successors, r, data.output, output);
    ComponentsSorted(successors, output);
  }
}
