/** The order in which services start and stop (internals/plan/plan.go, `order` and its callers). */
module PlanOrder {
  import opened Graphs
  import opened Tarjan

  /** The fields of a service that ordering reads; `needs` are its Requires. */
  datatype Service = Service(needs: seq<Name>, after: seq<Name>, before: seq<Name>)

  type Services = map<Name, Service>

  datatype Error = Missing(name: Name) | Loop(names: seq<Name>)

  datatype Result<T> = Ok(value: T) | Err(error: Error)

  // ---------- What is to be ordered, and under which constraints ----------

  function NeedsGraph(services: Services): Graph {
    map x | x in services :: services[x].needs
  }

  /** Starting `names` starts what they need; stopping `names` stops what needs them. */
  ghost predicate Selected(services: Services, names: seq<Name>, stop: bool, x: Name) {
    exists n :: n in names && if stop then Reach(NeedsGraph(services), x, n) else Reach(NeedsGraph(services), n, x)
  }

  // For stop, After and Before change roles.

  function AfterOf(services: Services, stop: bool, x: Name): seq<Name> {
    if x !in services then [] else if stop then services[x].before else services[x].after
  }

  function BeforeOf(services: Services, stop: bool, x: Name): seq<Name> {
    if x !in services then [] else if stop then services[x].after else services[x].before
  }

  /** Service `x` has to come after `y`. */
  predicate Constrained(services: Services, stop: bool, x: Name, y: Name) {
    y in AfterOf(services, stop, x) || x in BeforeOf(services, stop, y)
  }

  ghost function Listing(s: set<Name>): (l: seq<Name>)
    ensures forall x :: x in l <==> x in s
  {
    if s == {} then [] else
      var x :| x in s;
      [x] + Listing(s - {x})
  }

  /** The names that take part, as a set. */
  ghost function Selection(services: Services, names: seq<Name>, stop: bool): set<Name> {
    set x | x in Universe(services, names) && Selected(services, names, stop, x)
  }

  ghost function Universe(services: Services, names: seq<Name>): set<Name> {
    (set n | n in names) + services.Keys + (set x, n | x in services && n in services[x].needs :: n)
  }

  /** Who has to come after whom, among `keys`. */
  ghost function ConstraintGraph(services: Services, stop: bool, keys: set<Name>): Graph {
    map x | x in keys :: Listing(set y | y in keys && Constrained(services, stop, x, y))
  }

  /** Two distinct names of `keys` have to come after each other. */
  ghost predicate HasLoop(services: Services, stop: bool, keys: set<Name>) {
    exists x, y :: x != y && x in keys && y in keys
      && Reach(ConstraintGraph(services, stop, keys), x, y) && Reach(ConstraintGraph(services, stop, keys), y, x)
  }

  /** Why ordering fails: a selected service does not exist, or the constraints form a loop. */
  ghost predicate Blocked(services: Services, names: seq<Name>, stop: bool) {
    || (exists x :: x in Selection(services, names, stop) && x !in services)
    || HasLoop(services, stop, Selection(services, names, stop))
  }

  /** Each selected service once, none before one it has to come after. */
  ghost predicate ValidOrder(services: Services, names: seq<Name>, stop: bool, ordered: seq<Name>) {
    && NoDuplicates(ordered)
    && (forall x :: x in ordered <==> x in Selection(services, names, stop))
    && (forall i, j :: 0 <= i < j < |ordered| ==> !Constrained(services, stop, ordered[i], ordered[j]))
  }

  // ---------- Selection ----------

  lemma SelectedInUniverse(services: Services, names: seq<Name>, stop: bool, x: Name)
    requires Selected(services, names, stop, x)
    ensures x in Universe(services, names)
  {
    var g := NeedsGraph(services);
    var n :| n in names && if stop then Reach(g, x, n) else Reach(g, n, x);
    if stop {
      if x != n {
        var z := ReachSplit(g, x, n);
      }
    } else {
      ReachStaysInside(g, Universe(services, names), n, x);
    }
  }

  /** `x` is selected with `y`: to start, because `y` requires it, to stop, because it requires `y`. */
  predicate Drags(services: Services, stop: bool, y: Name, x: Name) {
    if stop then x in services && y in services[x].needs else y in services && x in services[y].needs
  }

  /** The selection holds the names and all that is selected with what it holds. */
  lemma SelectionCloses(services: Services, names: seq<Name>, stop: bool, x: Name, y: Name)
    ensures x in names ==> x in Selection(services, names, stop)
    ensures y in Selection(services, names, stop) && Drags(services, stop, y, x) ==>
              x in Selection(services, names, stop)
  {
    var g := NeedsGraph(services);
    ReachSelf(g, x);
    if Selected(services, names, stop, y) && Drags(services, stop, y, x) {
      var n :| n in names && if stop then Reach(g, y, n) else Reach(g, n, y);
      if stop {
        ReachEdge(g, x, y);
        ReachTrans(g, x, y, n);
      } else {
        ReachEdge(g, y, x);
        ReachTrans(g, n, y, x);
      }
      SelectedInUniverse(services, names, stop, x);
    }
  }

  /** And it is the least set that does. */
  lemma SelectionIsLeast(services: Services, names: seq<Name>, stop: bool, s: set<Name>)
    requires forall n :: n in names ==> n in s
    requires forall x, y :: y in s && Drags(services, stop, y, x) ==> x in s
    ensures Selection(services, names, stop) <= s
  {
    var g := NeedsGraph(services);
    forall x | x in Selection(services, names, stop)
      ensures x in s
    {
      var n :| n in names && if stop then Reach(g, x, n) else Reach(g, n, x);
      if stop {
        assert forall u, v :: v in s && Edge(g, u, v) ==> Drags(services, stop, v, u);
        ReachComesFrom(g, s, x, n);
      } else {
        assert forall u, v :: u in s && Edge(g, u, v) ==> Drags(services, stop, u, v);
        ReachStaysInside(g, s, n, x);
      }
    }
  }

  /** `d` leads from a selected service to those selected because of it. */
  ghost predicate Dependencies(services: Services, stop: bool, d: Graph) {
    if stop then Reversed(NeedsGraph(services), d) && (forall x, y :: Edge(d, x, y) ==> y in services)
    else d == NeedsGraph(services)
  }

  /** A set that holds `names`, follows the needs (or dependents) and holds nothing unselected is the selection. */
  lemma ClosureIsSelection(services: Services, names: seq<Name>, stop: bool, d: Graph, keys: set<Name>)
    requires Dependencies(services, stop, d)
    requires forall n :: n in names ==> n in keys
    requires forall x, y :: x in keys && Edge(d, x, y) ==> y in keys
    requires forall x :: x in keys ==> Selected(services, names, stop, x)
    ensures keys == Selection(services, names, stop)
  {
    var g := NeedsGraph(services);
    forall x
      ensures x in keys <==> x in Selection(services, names, stop)
    {
      if x in keys {
        SelectedInUniverse(services, names, stop, x);
      }
      if Selected(services, names, stop, x) {
        var n :| n in names && if stop then Reach(g, x, n) else Reach(g, n, x);
        if stop {
          ReachReversed(g, d, x, n);
        }
        ReachStaysInside(d, keys, n, x);
      }
    }
  }

  lemma SelectedNext(services: Services, names: seq<Name>, stop: bool, d: Graph, x: Name, y: Name)
    requires Dependencies(services, stop, d)
    requires Selected(services, names, stop, x) && Edge(d, x, y)
    ensures Selected(services, names, stop, y)
  {
    var g := NeedsGraph(services);
    var n :| n in names && if stop then Reach(g, x, n) else Reach(g, n, x);
    if stop {
      ReachEdge(g, y, x);
      ReachTrans(g, y, x, n);
    } else {
      ReachEdge(g, x, y);
      ReachTrans(g, n, x, y);
    }
  }

  lemma SelectedFirst(services: Services, names: seq<Name>, stop: bool, n: Name)
    requires n in names
    ensures Selected(services, names, stop, n)
  {
    ReachSelf(NeedsGraph(services), n);
  }

  function At(g: Graph, x: Name): seq<Name> {
    if x in g then g[x] else []
  }

  function AddEdge(g: Graph, x: Name, y: Name): (h: Graph)
    ensures forall u, v :: Edge(h, u, v) <==> Edge(g, u, v) || (u == x && v == y)
    ensures h.Keys == g.Keys + {x}
  {
    var h := g[x := At(g, x) + [y]];
    assert forall u, v :: Edge(h, u, v) <==> Edge(g, u, v) || (u == x && v == y) by {
      forall u, v
        ensures Edge(h, u, v) <==> Edge(g, u, v) || (u == x && v == y)
      {
        if u == x {
          assert v in h[x] <==> v in At(g, x) || v == y;
        }
      }
    }
    h
  }

  /** For stop: each name with the services that need it. */
  method Predecessors(services: Services) returns (d: Graph)
    ensures Reversed(NeedsGraph(services), d)
    ensures forall x, y :: Edge(d, x, y) ==> y in services
  {
    d := map[];
    var rest := services.Keys;
    while rest != {}
      invariant rest <= services.Keys
      invariant forall x, y :: Edge(d, x, y) <==> y in services && y !in rest && x in services[y].needs
      decreases rest
    {
      var name :| name in rest;
      rest := rest - {name};
      var needs := services[name].needs;
      var k := 0;
      while k < |needs|
        invariant 0 <= k <= |needs|
        invariant forall x, y :: Edge(d, x, y) <==>
                y in services && y !in rest && x in (if y == name then needs[..k] else services[y].needs)
      {
        d := AddEdge(d, needs[k], name);
        assert needs[..k + 1] == needs[..k] + [needs[k]];
        k := k + 1;
      }
      assert needs[..k] == needs;
    }
  }

  // ---------- Collecting the selection ----------

  /** What the worklist knows: `keys` were seen, up to position `i` of `pending`. */
  ghost predicate Collecting(services: Services, names: seq<Name>, stop: bool, d: Graph,
                             keys: set<Name>, pending: seq<Name>, i: nat)
  {
    && i <= |pending|
    && (forall n :: n in names ==> n in pending)
    && (forall j :: 0 <= j < |pending| ==> Selected(services, names, stop, pending[j]))
    && (forall j :: 0 <= j < i ==> pending[j] in keys)
    && (forall x :: x in keys ==> x in pending)
    && (forall x, y :: x in keys && Edge(d, x, y) ==> y in pending)
  }

  lemma CollectNext(services: Services, names: seq<Name>, stop: bool, d: Graph, keys: set<Name>, pending: seq<Name>,
                    i: nat)
    requires Dependencies(services, stop, d)
    requires Collecting(services, names, stop, d, keys, pending, i) && i < |pending|
    ensures Collecting(services, names, stop, d, keys + {pending[i]}, pending + At(d, pending[i]), i + 1)
  {
    hide Selected, Dependencies;
    var more := pending + At(d, pending[i]);
    forall j | |pending| <= j < |more|
      ensures Selected(services, names, stop, more[j])
    {
      assert more[j] == At(d, pending[i])[j - |pending|];
      SelectedNext(services, names, stop, d, pending[i], more[j]);
    }
  }

  lemma CollectAgain(services: Services, names: seq<Name>, stop: bool, d: Graph, keys: set<Name>, pending: seq<Name>,
                     i: nat)
    requires Collecting(services, names, stop, d, keys, pending, i) && i < |pending| && pending[i] in keys
    ensures Collecting(services, names, stop, d, keys, pending, i + 1)
  {
  }

  lemma Collected(services: Services, names: seq<Name>, stop: bool, d: Graph, keys: set<Name>, pending: seq<Name>)
    requires Dependencies(services, stop, d)
    requires Collecting(services, names, stop, d, keys, pending, |pending|)
    ensures keys == Selection(services, names, stop)
  {
    ClosureIsSelection(services, names, stop, d, keys);
  }

  lemma CollectStart(services: Services, names: seq<Name>, stop: bool, d: Graph)
    ensures Collecting(services, names, stop, d, {}, names, 0)
  {
    forall j | 0 <= j < |names|
      ensures Selected(services, names, stop, names[j])
    {
      SelectedFirst(services, names, stop, names[j]);
    }
  }

  /** The selection, as the keys of a map without successors yet. */
  method Collect(services: Services, names: seq<Name>, stop: bool) returns (r: Result<Graph>)
    ensures r.Ok? ==> r.value.Keys == Selection(services, names, stop) && forall x :: x in r.value ==> r.value[x] == []
    ensures r.Err? ==> r.error.Missing? && r.error.name in Selection(services, names, stop) && r.error.name !in services
  {
    hide Selected, Collecting, Reversed, Universe, Edge;
    var predecessors: Graph := map[];
    if stop {
      predecessors := Predecessors(services);
    }
    ghost var d := if stop then predecessors else NeedsGraph(services);
    CollectStart(services, names, stop, d);
    var successors: Graph := map[];
    assert successors.Keys == {};
    var pending := names;
    var i := 0;
    while i < |pending|
      invariant 0 <= i <= |pending|
      invariant Collecting(services, names, stop, d, successors.Keys, pending, i)
      invariant forall x :: x in successors ==> successors[x] == []
      invariant successors.Keys <= Universe(services, names)
      decreases Universe(services, names) - successors.Keys, |pending| - i
    {
      var name := pending[i];
      if name in successors {
        CollectAgain(services, names, stop, d, successors.Keys, pending, i);
        i := i + 1;
        continue;
      }
      PendingSelected(services, names, stop, d, successors.Keys, pending, i);
      CollectNext(services, names, stop, d, successors.Keys, pending, i);
      assert successors[name := []].Keys == successors.Keys + {name};
      successors := successors[name := []];
      if stop {
        pending := pending + At(predecessors, name);
      } else {
        if name !in services {
          return Err(Missing(name));
        }
        pending := pending + services[name].needs;
      }
      i := i + 1;
    }
    Collected(services, names, stop, d, successors.Keys, pending);
    return Ok(successors);
  }

  lemma PendingSelected(services: Services, names: seq<Name>, stop: bool, d: Graph, keys: set<Name>,
                        pending: seq<Name>, i: nat)
    requires Collecting(services, names, stop, d, keys, pending, i) && i < |pending|
    ensures pending[i] in Selection(services, names, stop) && pending[i] in Universe(services, names)
  {
    SelectedInUniverse(services, names, stop, pending[i]);
  }

  // ---------- Building the constraint graph ----------

  ghost predicate Linked(services: Services, stop: bool, keys: set<Name>, rest: set<Name>, g: Graph) {
    && g.Keys == keys && rest <= keys
    && (forall x :: x in keys && x !in rest ==> x in services)
    && (forall x, y :: Edge(g, x, y) <==>
          x in keys && y in keys && ((x !in rest && y in AfterOf(services, stop, x)) || (y !in rest &&
                  x in BeforeOf(services, stop, y))))
  }

  method LinkAfter(g: Graph, name: Name, after: seq<Name>) returns (h: Graph)
    requires name in g
    ensures h.Keys == g.Keys
    ensures forall x, y :: Edge(h, x, y) <==> Edge(g, x, y) || (x == name && y in after && y in g)
  {
    var succs := g[name];
    var k := 0;
    while k < |after|
      invariant 0 <= k <= |after|
      invariant forall y :: y in succs <==> y in g[name] || (y in after[..k] && y in g)
    {
      if after[k] in g {
        succs := succs + [after[k]];
      }
      assert after[..k + 1] == after[..k] + [after[k]];
      k := k + 1;
    }
    assert after[..k] == after;
    h := g[name := succs];
  }

  method LinkBefore(g: Graph, name: Name, before: seq<Name>) returns (h: Graph)
    ensures h.Keys == g.Keys
    ensures forall x, y :: Edge(h, x, y) <==> Edge(g, x, y) || (y == name && x in before && x in g)
  {
    h := g;
    var k := 0;
    while k < |before|
      invariant 0 <= k <= |before|
      invariant h.Keys == g.Keys
      invariant forall x, y :: Edge(h, x, y) <==> Edge(g, x, y) || (y == name && x in before[..k] && x in g)
    {
      if before[k] in h {
        h := AddEdge(h, before[k], name);
      }
      assert before[..k + 1] == before[..k] + [before[k]];
      k := k + 1;
    }
    assert before[..k] == before;
  }

  lemma LinkedNext(services: Services, stop: bool, keys: set<Name>, rest: set<Name>, g: Graph, name: Name, h: Graph,
                   i: Graph)
    requires Linked(services, stop, keys, rest, g) && name in rest && name in services
    requires h.Keys == g.Keys && i.Keys == g.Keys
    requires forall x, y :: Edge(h, x, y) <==>
                              Edge(g, x, y) || (x == name && y in AfterOf(services, stop, name) && y in g)
    requires forall x, y :: Edge(i, x, y) <==>
                              Edge(h, x, y) || (y == name && x in BeforeOf(services, stop, name) && x in h)
    ensures Linked(services, stop, keys, rest - {name}, i)
  {
  }

  /** Gives each selected name the selected names it has to come after. */
  method Link(services: Services, selected: Graph, stop: bool) returns (r: Result<Graph>)
    requires forall x :: x in selected ==> selected[x] == []
    ensures r.Ok? ==> Linked(services, stop, selected.Keys, {}, r.value)
    ensures r.Err? ==> r.error.Missing? && r.error.name in selected && r.error.name !in services
  {
    hide Linked, Edge;
    var successors := selected;
    var rest := successors.Keys;
    NothingLinked(services, stop, selected);
    while rest != {}
      invariant rest <= selected.Keys == successors.Keys
      invariant Linked(services, stop, selected.Keys, rest, successors)
      decreases rest
    {
      var name :| name in rest;
      if name !in services {
        return Err(Missing(name));
      }
      var h := LinkAfter(successors, name, AfterOf(services, stop, name));
      var i := LinkBefore(h, name, BeforeOf(services, stop, name));
      LinkedNext(services, stop, selected.Keys, rest, successors, name, h, i);
      successors, rest := i, rest - {name};
    }
    return Ok(successors);
  }

  lemma NothingLinked(services: Services, stop: bool, g: Graph)
    requires forall x :: x in g ==> g[x] == []
    ensures Linked(services, stop, g.Keys, g.Keys, g)
  {
  }

  lemma LinkedIsConstraints(services: Services, stop: bool, keys: set<Name>, g: Graph)
    requires Linked(services, stop, keys, {}, g)
    ensures Closed(g)
    ensures Subgraph(g, ConstraintGraph(services, stop, keys)) && Subgraph(ConstraintGraph(services, stop, keys), g)
    ensures forall x, y :: Edge(g, x, y) <==> x in keys && y in keys && Constrained(services, stop, x, y)
  {
  }

  // ---------- Reading the order off the components ----------

  /** A component of two or more names is a loop, and the names reported are distinct services on it. */
  ghost predicate IsLoop(services: Services, stop: bool, keys: set<Name>, names: seq<Name>) {
    && |names| > 1 && NoDuplicates(names)
    && (forall x :: x in names ==> x in keys)
    && (forall x, y :: x in names && y in names ==> Reach(ConstraintGraph(services, stop, keys), x, y))
  }

  lemma LargeIsLoop(services: Services, stop: bool, keys: set<Name>, g: Graph, out: Output, k: nat)
    requires Linked(services, stop, keys, {}, g) && Sorted(g, out) && k < |out| && |out[k]| > 1
    ensures IsLoop(services, stop, keys, out[k]) && HasLoop(services, stop, keys)
  {
    hide Reach, Ordered;
    LinkedIsConstraints(services, stop, keys, g);
    forall x, y | x in out[k] && y in out[k]
      ensures Reach(ConstraintGraph(services, stop, keys), x, y)
    {
      ReachSubgraph(g, ConstraintGraph(services, stop, keys), x, y);
    }
    forall x | x in out[k]
      ensures x in keys
    {
      assert Emitted(out, x);
    }
    assert out[k][0] in out[k] && out[k][1] in out[k] && out[k][0] != out[k][1];
  }

  lemma OnlySelf(g: Graph, out: Output, x: Name, y: Name)
    requires Sorted(g, out) && forall k :: 0 <= k < |out| ==> |out[k]| == 1
    requires x in g && y in g && Reach(g, x, y) && Reach(g, y, x)
    ensures x == y
  {
  }

  lemma SmallIsLoopFree(services: Services, stop: bool, keys: set<Name>, g: Graph, out: Output)
    requires Linked(services, stop, keys, {}, g) && Sorted(g, out)
    requires forall k :: 0 <= k < |out| ==> |out[k]| == 1
    ensures !HasLoop(services, stop, keys)
  {
    hide Reach, Sorted;
    LinkedIsConstraints(services, stop, keys, g);
    var c := ConstraintGraph(services, stop, keys);
    assert g.Keys == keys;
    hide Linked, ConstraintGraph, Subgraph;
    forall x, y | x in keys && y in keys && Reach(c, x, y) && Reach(c, y, x)
      ensures x == y
    {
      ReachSubgraph(c, g, x, y);
      ReachSubgraph(c, g, y, x);
      OnlySelf(g, out, x, y);
    }
  }

  lemma SmallAreOrdered(services: Services, names: seq<Name>, stop: bool, g: Graph, out: Output, ordered: seq<Name>)
    requires Linked(services, stop, Selection(services, names, stop), {}, g) && Sorted(g, out)
    requires |ordered| == |out| && forall k :: 0 <= k < |out| ==> out[k] == [ordered[k]]
    ensures ValidOrder(services, names, stop, ordered)
  {
    hide Reach, Ordered, Selected, Universe;
    LinkedIsConstraints(services, stop, Selection(services, names, stop), g);
    assert forall k :: 0 <= k < |out| ==> ordered[k] in out[k];
    forall x
      ensures x in ordered <==> x in g
    {
      if x in g {
        assert Emitted(out, x);
        var k :| 0 <= k < |out| && x in out[k];
        assert x == ordered[k];
      }
      if x in ordered {
        var k :| 0 <= k < |ordered| && ordered[k] == x;
        assert Emitted(out, x);
      }
    }
  }

  /** A start order puts a service behind those it is to come after, and before those it is to come before. A stop order
      does the opposite. */
  lemma OrderRespects(services: Services, names: seq<Name>, stop: bool, ordered: seq<Name>, i: nat, j: nat)
    requires ValidOrder(services, names, stop, ordered) && i < |ordered| && j < |ordered| && i != j
    requires ordered[i] in services && ordered[j] in services
    requires ordered[j] in services[ordered[i]].after || ordered[i] in services[ordered[j]].before
    ensures if stop then i < j else j < i
  {
    var x, y := ordered[i], ordered[j];
    assert if stop then Constrained(services, stop, y, x) else Constrained(services, stop, x, y);
  }

  method Order(services: Services, names: seq<Name>, stop: bool) returns (r: Result<seq<Name>>)
    ensures r.Ok? <==> !Blocked(services, names, stop)
    ensures r.Ok? ==> ValidOrder(services, names, stop, r.value)
    ensures r.Err? && r.error.Missing? ==> r.error.name in Selection(services, names, stop) && r.error.name !in services
    ensures r.Err? && r.error.Loop? ==> IsLoop(services, stop, Selection(services, names, stop), r.error.names)
  {
    hide Selection, Linked, Sorted, ValidOrder, HasLoop, IsLoop;
    var selected := Collect(services, names, stop);
    if selected.Err? {
      return Err(selected.error);
    }
    var linked := Link(services, selected.value, stop);
    if linked.Err? {
      return Err(linked.error);
    }
    ghost var keys := Selection(services, names, stop);
    LinkedIsConstraints(services, stop, keys, linked.value);
    var components := TarjanSort(linked.value);
    var ordered: seq<Name> := [];
    var k := 0;
    while k < |components|
      invariant 0 <= k == |ordered| <= |components|
      invariant forall j :: 0 <= j < k ==> components[j] == [ordered[j]]
    {
      if |components[k]| > 1 {
        LargeIsLoop(services, stop, keys, linked.value, components, k);
        return Err(Loop(components[k]));
      }
      NonEmpty(linked.value, components, k);
      ordered := ordered + [components[k][0]];
      k := k + 1;
    }
    SmallIsLoopFree(services, stop, keys, linked.value, components);
    SmallAreOrdered(services, names, stop, linked.value, components, ordered);
    AllExist(services, stop, keys, linked.value);
    return Ok(ordered);
  }

  lemma NonEmpty(g: Graph, out: Output, k: nat)
    requires Sorted(g, out) && k < |out|
    ensures out[k] != []
  {
  }

  lemma AllExist(services: Services, stop: bool, keys: set<Name>, g: Graph)
    requires Linked(services, stop, keys, {}, g)
    ensures forall x :: x in keys ==> x in services
  {
  }

  // ---------- A validated plan can always be started and stopped ----------

  /** Every needed service exists and no two services have to come after each other. */
  ghost predicate Accepted(services: Services) {
    && (forall x, n :: x in services && n in services[x].needs ==> n in services)
    && !HasLoop(services, false, services.Keys)
  }

  lemma LoopGrows(services: Services, stop: bool, keys: set<Name>, more: set<Name>)
    requires HasLoop(services, stop, keys) && keys <= more
    ensures HasLoop(services, stop, more)
  {
    var c, d := ConstraintGraph(services, stop, keys), ConstraintGraph(services, stop, more);
    assert Subgraph(c, d);
    hide Reach, ConstraintGraph, Subgraph;
    var x, y :| x != y && x in keys && y in keys && Reach(c, x, y) && Reach(c, y, x);
    ReachSubgraph(c, d, x, y);
    ReachSubgraph(c, d, y, x);
  }

  /** The stop constraints are the start constraints turned round, so they have the same loops. */
  lemma LoopTurned(services: Services, keys: set<Name>)
    requires HasLoop(services, true, keys)
    ensures HasLoop(services, false, keys)
  {
    var c, d := ConstraintGraph(services, true, keys), ConstraintGraph(services, false, keys);
    assert Reversed(c, d);
    hide Reach, ConstraintGraph, Reversed;
    var x, y :| x != y && x in keys && y in keys && Reach(c, x, y) && Reach(c, y, x);
    ReachReversed(c, d, x, y);
    ReachReversed(c, d, y, x);
  }

  lemma SelectedExists(services: Services, names: seq<Name>, stop: bool, x: Name)
    requires forall y, n :: y in services && n in services[y].needs ==> n in services
    requires forall n :: n in names ==> n in services
    requires Selected(services, names, stop, x)
    ensures x in services
  {
    var g := NeedsGraph(services);
    var n :| n in names && if stop then Reach(g, x, n) else Reach(g, n, x);
    if stop {
      if x != n {
        var z := ReachSplit(g, x, n);
      }
    } else {
      ReachStaysInside(g, services.Keys, n, x);
    }
  }

  /** Once the plan is accepted, any existing services can be started, and stopped. */
  lemma AcceptedNeverBlocked(services: Services, names: seq<Name>, stop: bool)
    requires Accepted(services) && forall n :: n in names ==> n in services
    ensures !Blocked(services, names, stop)
  {
    var keys := Selection(services, names, stop);
    forall x | x in keys
      ensures x in services
    {
      SelectedExists(services, names, stop, x);
    }
    hide Selection;
    if HasLoop(services, stop, keys) {
      LoopGrows(services, stop, keys, services.Keys);
      if stop {
        LoopTurned(services, services.Keys);
      }
    }
  }

  /** Ordering all services for start is blocked exactly when the plan is not acceptable. */
  lemma AllBlockedIffNotAccepted(services: Services, names: seq<Name>)
    requires forall n :: n in names <==> n in services
    ensures Blocked(services, names, false) <==> !Accepted(services)
  {
    if Accepted(services) {
      AcceptedNeverBlocked(services, names, false);
    }
    if !Blocked(services, names, false) {
      var keys := Selection(services, names, false);
      forall x | x in services
        ensures x in keys
      {
        SelectedFirst(services, names, false, x);
        SelectedInUniverse(services, names, false, x);
      }
      forall x, n | x in services && n in services[x].needs
        ensures n in services
      {
        SelectedFirst(services, names, false, x);
        SelectedNext(services, names, false, NeedsGraph(services), x, n);
        SelectedInUniverse(services, names, false, n);
      }
      assert keys == services.Keys;
    }
  }

  method CheckCycles(services: Services) returns (r: Result<()>)
    ensures r.Ok? <==> Accepted(services)
  {
    var names := Keys(services);
    var ordered := Order(services, names, false);
    AllBlockedIffNotAccepted(services, names);
    r := if ordered.Ok? then Ok(()) else Err(ordered.error);
  }
}
