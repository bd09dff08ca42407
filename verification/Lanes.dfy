/** Services that start or stop in sequence share a lane (internals/plan/plan.go, `createLanes`). */
module Lanes {
  import opened Graphs
  import opened Tarjan
  import opened PlanOrder

  type Mapping = map<Name, nat>

  /** The state of the scan over the ordered names: lanes so far, the last lane used, the highest. */
  datatype Scan = Scan(mapping: Mapping, lane: int, maxLane: nat)

  // ---------- Where the scan puts each service ----------

  /** A service is mapped to a lane together with everything it needs. */
  function MapToLane(name: Name, needs: seq<Name>, lane: nat, m: Mapping): (m': Mapping)
    ensures forall n :: n in m' <==> n in m || n == name || n in needs
    ensures forall n :: n in m' ==> m'[n] == if n == name || n in needs then lane else m[n]
  {
    if needs == [] then m[name := lane]
    else MapToLane(name, needs[..|needs| - 1], lane, m)[needs[|needs| - 1] := lane]
  }

  /** The lane of the first of `needs` that has one. */
  function FirstMapped(needs: seq<Name>, m: Mapping): (lane: int)
    ensures lane >= -1 && (lane == -1 <==> forall n :: n in needs ==> n !in m)
    ensures lane >= 0 ==> exists n :: n in needs && n in m && m[n] == lane
  {
    if needs == [] then -1
    else if needs[0] in m then m[needs[0]]
    else FirstMapped(needs[1..], m)
  }

  function LaneFor(name: Name, needs: seq<Name>, current: int, m: Mapping): (lane: nat)
    requires current >= -1
  {
    if name in m then m[name]
    else if FirstMapped(needs, m) >= 0 then FirstMapped(needs, m)
    else current + 1
  }

  predicate AllKnown(services: Services, names: seq<Name>) {
    forall n :: n in names ==> n in services
  }

  /** One more service. */
  function Advance(services: Services, s: Scan, name: Name): Scan
    requires name in services && s.lane >= -1
  {
    var needs := services[name].needs;
    var lane := LaneFor(name, needs, s.lane, s.mapping);
    Scan(MapToLane(name, needs, lane, s.mapping), lane, if lane > s.maxLane then lane else s.maxLane)
  }

  function ScanOf(services: Services, names: seq<Name>): (s: Scan)
    requires AllKnown(services, names)
    ensures s.lane >= -1 && (names == [] || 0 <= s.lane <= s.maxLane)
    ensures forall n :: n in names ==> n in s.mapping
    ensures forall n :: n in s.mapping ==> s.mapping[n] <= s.maxLane
  {
    if names == [] then Scan(map[], -1, 0)
    else Advance(services, ScanOf(services, names[..|names| - 1]), names[|names| - 1])
  }

  lemma ScanNext(services: Services, front: seq<Name>, name: Name)
    requires AllKnown(services, front) && name in services
    ensures AllKnown(services, front + [name])
    ensures ScanOf(services, front + [name]) == Advance(services, ScanOf(services, front), name)
  {
    hide Advance;
    assert (front + [name])[..|front|] == front;
  }

  /** The scan before service number `j` comes up. */
  function ScanTo(services: Services, names: seq<Name>, j: nat): (s: Scan)
    requires j <= |names| && AllKnown(services, names)
    ensures s.lane >= -1 && (j == 0 || 0 <= s.lane <= s.maxLane)
    ensures forall n :: n in s.mapping ==> s.mapping[n] <= s.maxLane
  {
    ScanOf(services, names[..j])
  }

  lemma ScanToNext(services: Services, names: seq<Name>, j: nat)
    requires j < |names| && AllKnown(services, names)
    ensures ScanTo(services, names, j + 1) == Advance(services, ScanTo(services, names, j), names[j])
  {
    hide Advance;
    assert names[..j + 1][..j] == names[..j];
  }

  lemma ScanToEnds(services: Services, names: seq<Name>)
    requires AllKnown(services, names)
    ensures ScanTo(services, names, 0) == Scan(map[], -1, 0)
    ensures ScanTo(services, names, |names|) == ScanOf(services, names)
  {
    assert names[..0] == [] && names[..|names|] == names;
  }

  /** Where services are mapped when number `j` comes up. */
  function MappingAt(services: Services, names: seq<Name>, j: nat): Mapping
    requires j <= |names| && AllKnown(services, names)
  {
    ScanTo(services, names, j).mapping
  }

  /** The lane that service number `j` gets when it comes up. */
  function LaneAt(services: Services, names: seq<Name>, j: nat): nat
    requires j < |names| && AllKnown(services, names)
  {
    var s := ScanTo(services, names, j);
    LaneFor(names[j], services[names[j]].needs, s.lane, s.mapping)
  }

  lemma MappingNext(services: Services, names: seq<Name>, j: nat)
    requires j < |names| && AllKnown(services, names)
    ensures MappingAt(services, names, j + 1)
            == MapToLane(names[j], services[names[j]].needs, LaneAt(services, names, j), MappingAt(services, names, j))
  {
    hide ScanTo, MapToLane, LaneFor;
    ScanToNext(services, names, j);
  }

  /** The names of one lane, in their given order. */
  function InLane(names: seq<Name>, m: Mapping, lane: nat): seq<Name> {
    if names == [] then [] else
      var last := names[|names| - 1];
      InLane(names[..|names| - 1], m, lane) + (if last in m && m[last] == lane then [last] else [])
  }

  // ---------- The code ----------

  method MapServiceToLane(name: Name, needs: seq<Name>, lane: nat, m: Mapping) returns (m': Mapping)
    ensures m' == MapToLane(name, needs, lane, m)
  {
    m' := m[name := lane];
    var k := 0;
    while k < |needs|
      invariant 0 <= k <= |needs|
      invariant m' == MapToLane(name, needs[..k], lane, m)
    {
      assert needs[..k + 1][..k] == needs[..k];
      m' := m'[needs[k] := lane];
      k := k + 1;
    }
    assert needs[..k] == needs;
  }

  method GetOrCreateLane(currentLane: int, name: Name, needs: seq<Name>, m: Mapping) returns (lane: nat, m': Mapping)
    requires currentLane >= -1
    ensures lane == LaneFor(name, needs, currentLane, m)
    ensures m' == MapToLane(name, needs, lane, m)
  {
    if name in m {
      lane := m[name];
      m' := MapServiceToLane(name, needs, lane, m);
      return;
    }
    var k := 0;
    while k < |needs|
      invariant 0 <= k <= |needs|
      invariant FirstMapped(needs, m) == FirstMapped(needs[k..], m)
    {
      if needs[k] in m {
        lane := m[needs[k]];
        m' := MapServiceToLane(name, needs, lane, m);
        return;
      }
      k := k + 1;
    }
    lane := currentLane + 1;
    m' := MapServiceToLane(name, needs, lane, m);
  }

  /** The lanes of an ordered list of existing services. */
  ghost predicate Laned(services: Services, names: seq<Name>, lanes: seq<seq<Name>>) {
    && AllKnown(services, names)
    && |lanes| == ScanOf(services, names).maxLane + 1
    && forall l :: 0 <= l < |lanes| ==> lanes[l] == InLane(names, ScanOf(services, names).mapping, l)
  }

  method CreateLanes(names: seq<Name>, services: Services) returns (r: Result<seq<seq<Name>>>)
    ensures r.Ok? <==> AllKnown(services, names)
    ensures r.Ok? ==> Laned(services, names, r.value)
    ensures r.Err? ==> r.error.Missing? && r.error.name in names && r.error.name !in services
  {
    hide ScanOf, MapToLane, LaneFor;
    var mapping: Mapping := map[];
    var lane := -1;
    var maxLane: nat := 0;
    var k := 0;
    ScanToEnds(services, []);
    assert names[..0] == [];
    while k < |names|
      invariant 0 <= k <= |names|
      invariant AllKnown(services, names[..k])
      invariant lane >= -1 && Scan(mapping, lane, maxLane) == ScanOf(services, names[..k])
    {
      var name := names[k];
      if name !in services {
        return Err(Missing(name));
      }
      ScanNext(services, names[..k], name);
      assert names[..k] + [name] == names[..k + 1];
      lane, mapping := GetOrCreateLane(lane, name, services[name].needs, mapping);
      if lane > maxLane {
        maxLane := lane;
      }
      k := k + 1;
    }
    assert names[..k] == names;

    var lanes := FillLanes(names, mapping, maxLane);
    return Ok(lanes);
  }

  method FillLanes(names: seq<Name>, mapping: Mapping, maxLane: nat) returns (lanes: seq<seq<Name>>)
    requires forall n :: n in names ==> n in mapping && mapping[n] <= maxLane
    ensures |lanes| == maxLane + 1
    ensures forall l :: 0 <= l < |lanes| ==> lanes[l] == InLane(names, mapping, l)
  {
    lanes := seq(maxLane + 1, _ => []);
    var k := 0;
    while k < |names|
      invariant 0 <= k <= |names|
      invariant |lanes| == maxLane + 1
      invariant forall l :: 0 <= l < |lanes| ==> lanes[l] == InLane(names[..k], mapping, l)
    {
      assert names[..k + 1][..k] == names[..k];
      var l := mapping[names[k]];
      lanes := lanes[l := lanes[l] + [names[k]]];
      k := k + 1;
    }
    assert names[..k] == names;
  }

  // ---------- What the lanes promise ----------

  lemma {:induction false} InLaneHolds(names: seq<Name>, m: Mapping, l: nat, x: Name)
    ensures x in InLane(names, m, l) <==> x in names && x in m && m[x] == l
  {
    if names != [] {
      InLaneHolds(names[..|names| - 1], m, l, x);
    }
  }

  /** The name at position `a` of a lane, as a position of the ordered list; later in the lane is later in the list. */
  lemma {:induction false} InLanePositions(names: seq<Name>, m: Mapping, l: nat, a: nat, b: nat)
    returns (i: nat, j: nat)
    requires a < b < |InLane(names, m, l)|
    ensures i < j < |names| && names[i] == InLane(names, m, l)[a] && names[j] == InLane(names, m, l)[b]
  {
    var shorter := names[..|names| - 1];
    if b < |InLane(shorter, m, l)| {
      i, j := InLanePositions(shorter, m, l, a, b);
    } else {
      j := |names| - 1;
      InLaneHolds(shorter, m, l, InLane(shorter, m, l)[a]);
      i :| 0 <= i < |shorter| && shorter[i] == InLane(shorter, m, l)[a];
    }
  }

  ghost predicate EmittedOncePerLane(lanes: seq<seq<Name>>) {
    && (forall l :: 0 <= l < |lanes| ==> NoDuplicates(lanes[l]))
    && (forall k, l, x :: 0 <= k < |lanes| && 0 <= l < |lanes| && x in lanes[k] && x in lanes[l] ==> k == l)
  }

  /** Every name of the list is in exactly one lane, once, and lanes keep the order of the list. */
  ghost predicate Partitioned(names: seq<Name>, lanes: seq<seq<Name>>) {
    && EmittedOncePerLane(lanes)
    && (forall x :: x in names <==> Emitted(lanes, x))
    && (forall l, a, b :: 0 <= l < |lanes| && 0 <= a < b < |lanes[l]| ==> Before(names, lanes[l][a], lanes[l][b]))
  }

  ghost predicate Before(names: seq<Name>, x: Name, y: Name) {
    exists i, j :: 0 <= i < j < |names| && names[i] == x && names[j] == y
  }

  lemma {:induction false} InLaneOnce(names: seq<Name>, m: Mapping, l: nat)
    requires NoDuplicates(names)
    ensures NoDuplicates(InLane(names, m, l))
  {
    if names != [] {
      InLaneOnce(names[..|names| - 1], m, l);
      InLaneHolds(names[..|names| - 1], m, l, names[|names| - 1]);
    }
  }

  lemma LanedPartitioned(services: Services, names: seq<Name>, lanes: seq<seq<Name>>)
    requires Laned(services, names, lanes) && NoDuplicates(names)
    ensures Partitioned(names, lanes)
  {
    var m := ScanOf(services, names).mapping;
    forall l, x | 0 <= l < |lanes|
      ensures x in lanes[l] <==> x in names && m[x] == l
    {
      InLaneHolds(names, m, l, x);
    }
    forall x | x in names
      ensures Emitted(lanes, x)
    {
      assert x in lanes[m[x]];
    }
    forall k, l, x | 0 <= k < |lanes| && 0 <= l < |lanes| && x in lanes[k] && x in lanes[l]
      ensures k == l
    {
      assert m[x] == k && m[x] == l;
    }
    forall l | 0 <= l < |lanes|
      ensures NoDuplicates(lanes[l])
    {
      InLaneOnce(names, m, l);
    }
    forall l, a, b | 0 <= l < |lanes| && 0 <= a < b < |lanes[l]|
      ensures Before(names, lanes[l][a], lanes[l][b])
    {
      var i, j := InLanePositions(names, m, l, a, b);
    }
  }

  /** The first `j` names, and no other, have a lane each, in order. */
  predicate LaneEach(names: seq<Name>, m: Mapping, j: nat)
    requires j <= |names|
  {
    && (forall i :: 0 <= i < |names| ==> (names[i] in m <==> i < j))
    && (forall i :: 0 <= i < j ==> m[names[i]] == i)
  }

  lemma OneMoreLane(names: seq<Name>, m: Mapping, j: nat)
    requires j < |names| && NoDuplicates(names) && LaneEach(names, m, j)
    ensures LaneEach(names, m[names[j] := j], j + 1)
  {
  }

  /** Services that need nothing get a lane each, in order. */
  lemma {:induction false} IndependentScan(services: Services, names: seq<Name>, j: nat)
    requires j <= |names| && NoDuplicates(names) && AllKnown(services, names)
    requires forall n :: n in names ==> services[n].needs == []
    ensures ScanTo(services, names, j).lane == j - 1
    ensures ScanTo(services, names, j).maxLane == if j == 0 then 0 else j - 1
    ensures LaneEach(names, ScanTo(services, names, j).mapping, j)
  {
    if j == 0 {
      ScanToEnds(services, names);
    } else {
      var s, name := ScanTo(services, names, j - 1), names[j - 1];
      hide ScanTo, Advance, MapToLane, NoDuplicates;
      ScanToNext(services, names, j - 1);
      IndependentScan(services, names, j - 1);
      assert name in names && name !in s.mapping;
      hide LaneEach, AllKnown;
      AdvanceAlone(services, s, name);
      OneMoreLane(names, s.mapping, j - 1);
    }
  }

  lemma {:induction false} AloneInLane(names: seq<Name>, m: Mapping, l: nat)
    requires l < |names| && forall i :: 0 <= i < |names| ==> names[i] in m && (m[names[i]] == l <==> i == l)
    ensures InLane(names, m, l) == [names[l]]
  {
    if l == |names| - 1 {
      NotInLane(names[..l], m, l);
    } else {
      AloneInLane(names[..|names| - 1], m, l);
    }
  }

  lemma {:induction false} NotInLane(names: seq<Name>, m: Mapping, l: nat)
    requires forall i :: 0 <= i < |names| ==> names[i] in m && m[names[i]] != l
    ensures InLane(names, m, l) == []
  {
    if names != [] {
      NotInLane(names[..|names| - 1], m, l);
    }
  }

  lemma IndependentLanes(services: Services, names: seq<Name>, lanes: seq<seq<Name>>)
    requires Laned(services, names, lanes) && NoDuplicates(names) && names != []
    requires forall n :: n in names ==> services[n].needs == []
    ensures |lanes| == |names| && forall l :: 0 <= l < |names| ==> lanes[l] == [names[l]]
  {
    IndependentScan(services, names, |names|);
    ScanToEnds(services, names);
    forall l | 0 <= l < |names|
      ensures lanes[l] == [names[l]]
    {
      AloneInLane(names, ScanOf(services, names).mapping, l);
    }
  }

  /** Lanes that cover the selection, none of which has a service before one it has to come after. */
  ghost predicate ValidLanes(services: Services, names: seq<Name>, stop: bool, lanes: seq<seq<Name>>) {
    && EmittedOncePerLane(lanes)
    && (forall x :: x in Selection(services, names, stop) <==> Emitted(lanes, x))
    && (forall l, a, b :: 0 <= l < |lanes| && 0 <= a < b < |lanes[l]| ==>
        !Constrained(services, stop, lanes[l][a], lanes[l][b]))
  }

  lemma OrderedLanes(services: Services, names: seq<Name>, stop: bool, ordered: seq<Name>, lanes: seq<seq<Name>>)
    requires ValidOrder(services, names, stop, ordered) && Partitioned(ordered, lanes)
    ensures ValidLanes(services, names, stop, lanes)
  {
  }

  // ---------- Which constraints the lanes enforce ----------

  // Services of one lane start one after the other, lanes start in parallel (internals/overlord/servstate/request.go).

  /** `x` is started, or stopped, before `y`. */
  ghost predicate Sequenced(lanes: seq<seq<Name>>, x: Name, y: Name) {
    exists l, a, b :: 0 <= l < |lanes| && 0 <= a < b < |lanes[l]| && lanes[l][a] == x && lanes[l][b] == y
  }

  ghost predicate SameLane(lanes: seq<seq<Name>>, x: Name, y: Name) {
    exists l :: 0 <= l < |lanes| && x in lanes[l] && y in lanes[l]
  }

  /** Of two services one of which has to follow the other, it does so exactly when they share a lane. */
  lemma SequencedIffSameLane(services: Services, names: seq<Name>, stop: bool, lanes: seq<seq<Name>>, x: Name, y: Name)
    requires ValidLanes(services, names, stop, lanes) && Constrained(services, stop, x, y) && x != y
    ensures Sequenced(lanes, y, x) <==> SameLane(lanes, x, y)
  {
    if SameLane(lanes, x, y) {
      var l :| 0 <= l < |lanes| && x in lanes[l] && y in lanes[l];
      var a :| 0 <= a < |lanes[l]| && lanes[l][a] == y;
      var b :| 0 <= b < |lanes[l]| && lanes[l][b] == x;
      assert !(b < a);
    }
  }

  /** Without Requires nothing is sequenced, whatever After and Before say. */
  lemma IndependentUnsequenced(services: Services, names: seq<Name>, lanes: seq<seq<Name>>, x: Name, y: Name)
    requires Laned(services, names, lanes) && NoDuplicates(names) && names != []
    requires forall n :: n in names ==> services[n].needs == []
    ensures !Sequenced(lanes, x, y)
  {
    IndependentLanes(services, names, lanes);
  }

  /** Mapping `x` to a lane maps `y` there. */
  predicate Touches(services: Services, x: Name, y: Name)
    requires x in services
  {
    y == x || y in services[x].needs
  }

  /** Requirement number `k` is the first that has a lane. */
  predicate FirstMappedAt(needs: seq<Name>, m: Mapping, k: int) {
    0 <= k < |needs| && needs[k] in m && forall i :: 0 <= i < k ==> needs[i] !in m
  }

  /** What the scan does with service number `j`: it stays in its lane if it has one, else follows the first requirement
      that has one, else takes the lane after that of the service before it. All it requires moves there too. */
  lemma ScanStep(services: Services, names: seq<Name>, j: nat)
    requires j < |names| && AllKnown(services, names)
    ensures var x, m, m' := names[j], MappingAt(services, names, j), MappingAt(services, names, j + 1);
            var needs := services[x].needs;
            && (forall n :: n in m' <==> n in m || n == x || n in needs)
            && (forall n :: n in m' ==> m'[n] == if n == x || n in needs then m'[x] else m[n])
            && (x in m ==> m'[x] == m[x])
            && (forall k :: x !in m && FirstMappedAt(needs, m, k) ==> m'[x] == m[needs[k]])
            && (x !in m && (forall n :: n in needs ==> n !in m) ==>
                  if j == 0 then m'[x] == 0 else names[j - 1] in m && m'[x] == m[names[j - 1]] + 1)
  {
    MappingNext(services, names, j);
    var m, needs := MappingAt(services, names, j), services[names[j]].needs;
    forall k | FirstMappedAt(needs, m, k)
      ensures FirstMapped(needs, m) == m[needs[k]]
    {
      FirstMappedIs(needs, m, k);
    }
    LastLane(services, names, j);
    hide ScanTo, MapToLane, FirstMapped, AllKnown;
  }

  lemma {:induction false} FirstMappedIs(needs: seq<Name>, m: Mapping, k: nat)
    requires FirstMappedAt(needs, m, k)
    ensures FirstMapped(needs, m) == m[needs[k]]
  {
    if k > 0 {
      FirstMappedIs(needs[1..], m, k - 1);
    }
  }

  /** The lane last used is that of the service before. */
  lemma LastLane(services: Services, names: seq<Name>, j: nat)
    requires j <= |names| && AllKnown(services, names)
    ensures var s := ScanTo(services, names, j);
            if j == 0 then s.lane == -1 else names[j - 1] in s.mapping && s.lane == s.mapping[names[j - 1]]
  {
    ScanToEnds(services, names);
    hide ScanTo, MapToLane, LaneFor;
    if j > 0 {
      ScanToNext(services, names, j - 1);
    }
  }

  /** A requirement that comes up after the service, with neither moved in between, still shares its lane. */
  lemma LaterRequirement(services: Services, names: seq<Name>, i: nat, j: nat)
    requires i < j < |names| && AllKnown(services, names) && names[j] in services[names[i]].needs
    requires forall k :: i < k < j ==> !Touches(services, names[k], names[i]) && !Touches(services, names[k], names[j])
    ensures TogetherAt(services, names, j + 1, names[i], names[j])
  {
    ScanStep(services, names, i);
    Untouched(services, names, i + 1, j, names[i]);
    Untouched(services, names, i + 1, j, names[j]);
    ScanStep(services, names, j);
    hide MappingAt;
  }

  ghost predicate Together(m: Mapping, n: Name, d: Name) {
    n in m && d in m && m[n] == m[d]
  }

  ghost predicate TogetherAt(services: Services, names: seq<Name>, j: nat, n: Name, d: Name)
    requires j <= |names| && AllKnown(services, names)
  {
    Together(MappingAt(services, names, j), n, d)
  }

  /** Service number `j` takes both of `n` and `d` to its lane, or neither, or its lane is theirs. */
  predicate Keeps(services: Services, names: seq<Name>, j: nat, n: Name, d: Name)
    requires j < |names| && AllKnown(services, names)
  {
    || (Touches(services, names[j], n) <==> Touches(services, names[j], d))
    || (var m := MappingAt(services, names, j); n in m && LaneAt(services, names, j) == m[n])
  }

  /** A step of the scan keeps two services that share a lane together exactly when it moves both, or neither,
      or moves one within the lane. */
  lemma StepKeepsTogether(services: Services, names: seq<Name>, j: nat, n: Name, d: Name)
    requires j < |names| && AllKnown(services, names) && TogetherAt(services, names, j, n, d)
    ensures TogetherAt(services, names, j + 1, n, d) <==> Keeps(services, names, j, n, d)
  {
    MappingNext(services, names, j);
    hide MappingAt, LaneAt;
  }

  /** From the service that requires `d` on, the two stay together exactly when each later step keeps them. */
  lemma {:induction false} StayTogether(services: Services, names: seq<Name>, i: nat, d: Name, end: nat)
    requires i < end <= |names| && AllKnown(services, names) && d in services[names[i]].needs
    ensures (forall k :: i < k <= end ==> TogetherAt(services, names, k, names[i], d))
            <==> forall j :: i < j < end ==> Keeps(services, names, j, names[i], d)
  {
    hide TogetherAt, Keeps;
    if end == i + 1 {
      RequirerTogether(services, names, i, d);
    } else {
      StayTogether(services, names, i, d, end - 1);
      if TogetherAt(services, names, end - 1, names[i], d) {
        StepKeepsTogether(services, names, end - 1, names[i], d);
      }
    }
  }

  lemma RequirerTogether(services: Services, names: seq<Name>, i: nat, d: Name)
    requires i < |names| && AllKnown(services, names) && d in services[names[i]].needs
    ensures TogetherAt(services, names, i + 1, names[i], d)
  {
    MappingNext(services, names, i);
  }

  /** Service number `j` takes both of `x` and `y` to its lane, or one of them to the lane of the other. */
  predicate Joins(services: Services, names: seq<Name>, j: nat, x: Name, y: Name)
    requires j < |names| && AllKnown(services, names)
  {
    var m, lane := MappingAt(services, names, j), LaneAt(services, names, j);
    if Touches(services, names[j], x) then
      Touches(services, names[j], y) || (y in m && m[y] == lane)
    else
      Touches(services, names[j], y) && x in m && m[x] == lane
  }

  /** Service number `j` is the last to move `x` or `y`. */
  predicate LastToTouch(services: Services, names: seq<Name>, j: nat, x: Name, y: Name)
    requires j < |names| && AllKnown(services, names)
  {
    && (Touches(services, names[j], x) || Touches(services, names[j], y))
    && forall k :: j < k < |names| ==> !Touches(services, names[k], x) && !Touches(services, names[k], y)
  }

  lemma {:induction false} Untouched(services: Services, names: seq<Name>, j: nat, end: nat, x: Name)
    requires j <= end <= |names| && AllKnown(services, names)
    requires forall k :: j <= k < end ==> !Touches(services, names[k], x)
    ensures var m, m' := MappingAt(services, names, j), MappingAt(services, names, end);
            (x in m <==> x in m') && (x in m ==> m'[x] == m[x])
  {
    if j < end {
      Untouched(services, names, j, end - 1, x);
      MappingNext(services, names, end - 1);
    }
  }

  /** Any two services share a lane exactly when the last service that moves one of them takes both to its lane,
      or one to the lane of the other. */
  lemma LastToTouchDecides(services: Services, names: seq<Name>, lanes: seq<seq<Name>>, j: nat, x: Name, y: Name)
    requires Laned(services, names, lanes) && x in names && y in names
    requires j < |names| && LastToTouch(services, names, j, x, y)
    ensures SameLane(lanes, x, y) <==> Joins(services, names, j, x, y)
  {
    hide ScanOf, SameLane, LaneAt;
    SameLaneMeans(services, names, lanes, x, y);
    assert names[..|names|] == names;
    assert x in MappingAt(services, names, |names|) && y in MappingAt(services, names, |names|);
    hide MappingAt, Laned;
    Untouched(services, names, j + 1, |names|, x);
    Untouched(services, names, j + 1, |names|, y);
    MappingNext(services, names, j);
  }

  /** There is one: a service is moved when it comes up itself. */
  lemma SomeLastToTouch(services: Services, names: seq<Name>, x: Name, y: Name) returns (j: nat)
    requires AllKnown(services, names) && x in names
    ensures j < |names| && LastToTouch(services, names, j, x, y)
  {
    j := |names| - 1;
    while !(Touches(services, names[j], x) || Touches(services, names[j], y))
      invariant 0 <= j < |names|
      invariant forall k :: j < k < |names| ==> !Touches(services, names[k], x) && !Touches(services, names[k], y)
      decreases j
    {
      var i :| 0 <= i < |names| && names[i] == x;
      assert i < j;
      j := j - 1;
    }
  }

  lemma SameLaneMeans(services: Services, names: seq<Name>, lanes: seq<seq<Name>>, x: Name, y: Name)
    requires Laned(services, names, lanes) && x in names && y in names
    ensures var m := ScanOf(services, names).mapping; SameLane(lanes, x, y) <==> m[x] == m[y]
  {
    var m := ScanOf(services, names).mapping;
    forall l, z | 0 <= l < |lanes| && z in names
      ensures z in lanes[l] <==> m[z] == l
    {
      InLaneHolds(names, m, l, z);
    }
    assert x in lanes[m[x]];
  }

  /** A requirement stays in the lane of its service if each later service that moves just one of the two does so
      within their lane. */
  lemma RequirementKept(services: Services, names: seq<Name>, lanes: seq<seq<Name>>, i: nat, d: Name)
    requires Laned(services, names, lanes) && i < |names| && d in names && d in services[names[i]].needs
    requires forall j :: i < j < |names| ==> Keeps(services, names, j, names[i], d)
    ensures SameLane(lanes, names[i], d)
  {
    StayTogether(services, names, i, d, |names|);
    assert names[..|names|] == names;
    assert TogetherAt(services, names, |names|, names[i], d);
    SameLaneMeans(services, names, lanes, names[i], d);
  }

  /** So Before and After between two services are enforced exactly when the last service that moves one of them
      joins them. */
  lemma ConstraintEnforced(services: Services, names: seq<Name>, stop: bool, ordered: seq<Name>, lanes: seq<seq<Name>>,
                           j: nat, x: Name, y: Name)
    requires ValidOrder(services, names, stop, ordered) && Laned(services, ordered, lanes)
    requires x in ordered && y in ordered && x != y && Constrained(services, stop, x, y)
    requires j < |ordered| && LastToTouch(services, ordered, j, x, y)
    ensures Sequenced(lanes, y, x) <==> Joins(services, ordered, j, x, y)
  {
    LanedPartitioned(services, ordered, lanes);
    OrderedLanes(services, names, stop, ordered, lanes);
    SequencedIffSameLane(services, names, stop, lanes, x, y);
    LastToTouchDecides(services, ordered, lanes, j, x, y);
  }

  /** And between a service and its requirement under the condition that keeps the requirement in its lane. */
  lemma RequirementSequenced(services: Services, names: seq<Name>, stop: bool, ordered: seq<Name>,
                             lanes: seq<seq<Name>>, i: nat, d: Name)
    requires ValidOrder(services, names, stop, ordered) && Laned(services, ordered, lanes)
    requires i < |ordered| && d in ordered && d in services[ordered[i]].needs && d != ordered[i]
    requires forall j :: i < j < |ordered| ==> Keeps(services, ordered, j, ordered[i], d)
    ensures Constrained(services, stop, ordered[i], d) ==> Sequenced(lanes, d, ordered[i])
    ensures Constrained(services, stop, d, ordered[i]) ==> Sequenced(lanes, ordered[i], d)
  {
    RequirementKept(services, ordered, lanes, i, d);
    LanedPartitioned(services, ordered, lanes);
    OrderedLanes(services, names, stop, ordered, lanes);
    hide ValidLanes, ValidOrder, Laned;
    if Constrained(services, stop, ordered[i], d) {
      SequencedIffSameLane(services, names, stop, lanes, ordered[i], d);
    }
    if Constrained(services, stop, d, ordered[i]) {
      SequencedIffSameLane(services, names, stop, lanes, d, ordered[i]);
    }
  }

  /** Services that require the same one and nothing else all share its lane. */
  lemma SharedRequirement(services: Services, a: Name, b: Name, c: Name, lanes: seq<seq<Name>>)
    requires a != b && a != c && b != c && Laned(services, [a, b, c], lanes)
    requires services[a].needs == [] && services[b].needs == [a] && services[c].needs == [a]
    ensures SameLane(lanes, b, a) && SameLane(lanes, c, a)
  {
    var names := [a, b, c];
    assert a in names && b in names && c in names;
    hide Laned, SameLane;
    LaneBehind(services, a, b, c);
    RequirementKept(services, names, lanes, 2, a);
    RequirementKept(services, names, lanes, 1, a);
  }

  lemma LaneBehind(services: Services, a: Name, b: Name, c: Name)
    requires a != b && a != c && b != c && AllKnown(services, [a, b, c])
    requires a in services && b in services && c in services
    requires services[a].needs == [] && services[b].needs == [a] && services[c].needs == [a]
    ensures Keeps(services, [a, b, c], 2, b, a)
  {
    var names := [a, b, c];
    ScanToEnds(services, names);
    hide ScanTo, Advance, MapToLane;
    ScanToNext(services, names, 0);
    AdvanceAlone(services, ScanTo(services, names, 0), a);
    ScanToNext(services, names, 1);
    AdvanceBehind(services, ScanTo(services, names, 1), b, a);
    assert FirstMapped([a], map[a := 0, b := 0]) == 0;
  }

  function Needing(needs: seq<Name>): Service {
    Service(needs, [], [])
  }

  /** "b" has to follow "a", but they are in two lanes. */
  lemma AfterAcrossLanes(lanes: seq<seq<Name>>)
    requires Laned(map["a" := Needing([]), "b" := Service([], ["a"], [])], ["a", "b"], lanes)
    ensures Constrained(map["a" := Needing([]), "b" := Service([], ["a"], [])], false, "b", "a")
    ensures lanes == [["a"], ["b"]] && !Sequenced(lanes, "a", "b")
  {
    var services := map["a" := Needing([]), "b" := Service([], ["a"], [])];
    IndependentLanes(services, ["a", "b"], lanes);
    IndependentUnsequenced(services, ["a", "b"], lanes, "a", "b");
  }

  /** `c` requires `b`, and both were in one lane until `d`, which requires `b` too, took `b` to the lane of `a`. */
  lemma RequirementTaken(services: Services, a: Name, b: Name, c: Name, d: Name, lanes: seq<seq<Name>>)
    requires a != b && a != c && a != d && b != c && b != d && c != d && Laned(services, [a, b, c, d], lanes)
    requires a in services && b in services && c in services && d in services
    requires services[a].needs == [] && services[b].needs == [] && services[c].needs == [b]
             && services[d].needs == [a, b]
    ensures !SameLane(lanes, b, c)
  {
    hide ScanOf, Laned, MapToLane;
    var s := ScanOfThree(services, a, b, c);
    assert LaneFor(d, [a, b], 1, s.mapping) == 0;
    ScanNext(services, [a, b, c], d);
    assert [a, b, c] + [d] == [a, b, c, d];
    SameLaneMeans(services, [a, b, c, d], lanes, b, c);
  }

  lemma LaneBounded(services: Services, names: seq<Name>, j: nat)
    requires j < |names| && AllKnown(services, names)
    ensures var max, lane := ScanTo(services, names, j).maxLane, LaneAt(services, names, j);
            && lane <= (if j == 0 then 0 else max + 1) && (j == 0 ==> max == 0)
            && ScanTo(services, names, j + 1).maxLane == if lane > max then lane else max
  {
    ScanToEnds(services, names);
    hide ScanTo, MapToLane;
    ScanToNext(services, names, j);
  }

  /** Every lane up to the highest was some service's when it came up. */
  lemma {:induction false} HandedOut(services: Services, names: seq<Name>, end: nat, lane: nat) returns (j: nat)
    requires 0 < end <= |names| && AllKnown(services, names) && lane <= ScanTo(services, names, end).maxLane
    ensures j < end && LaneAt(services, names, j) == lane
  {
    hide LaneAt, ScanTo, AllKnown;
    LaneBounded(services, names, end - 1);
    if LaneAt(services, names, end - 1) == lane {
      j := end - 1;
    } else {
      j := HandedOut(services, names, end - 1, lane);
    }
  }

  /** A service none of whose requirements has a lane gets one above all in use if the last one used is the highest,
      and else one that was handed out before. */
  lemma NewLaneAbove(services: Services, names: seq<Name>, i: nat)
    requires 0 < i < |names| && AllKnown(services, names)
    requires var m := MappingAt(services, names, i);
             names[i] !in m && FirstMapped(services[names[i]].needs, m) == -1
    ensures var s, lane := ScanTo(services, names, i), LaneAt(services, names, i);
            if s.lane == s.maxLane then forall n :: n in s.mapping ==> s.mapping[n] < lane
            else exists j :: 0 <= j < i && LaneAt(services, names, j) == lane
  {
    var s := ScanTo(services, names, i);
    hide ScanTo;
    if s.lane < s.maxLane {
      var j := HandedOut(services, names, i, s.lane + 1);
    }
  }

  /** `d` has nothing to do with `b`, but gets the lane after that of `c`, which is the lane of `b`. */
  lemma UnrelatedShareLane(services: Services, a: Name, b: Name, c: Name, d: Name, lanes: seq<seq<Name>>)
    requires a != b && a != c && a != d && b != c && b != d && c != d && Laned(services, [a, b, c, d], lanes)
    requires a in services && b in services && c in services && d in services
    requires services[a].needs == [] && services[b].needs == [] && services[c].needs == [a] && services[d].needs == []
    ensures SameLane(lanes, b, d)
  {
    hide ScanOf, Laned, MapToLane;
    var s := ScanOfThree(services, a, b, c);
    ScanNext(services, [a, b, c], d);
    assert [a, b, c] + [d] == [a, b, c, d];
    SameLaneMeans(services, [a, b, c, d], lanes, b, d);
  }

  lemma AdvanceAlone(services: Services, s: Scan, name: Name)
    requires name in services && services[name].needs == [] && name !in s.mapping && s.lane >= -1
    ensures var lane := s.lane + 1;
            Advance(services, s, name) ==
              Scan(s.mapping[name := lane], lane, if lane > s.maxLane then lane else s.maxLane)
  {
  }

  lemma AdvanceBehind(services: Services, s: Scan, name: Name, d: Name)
    requires name in services && services[name].needs == [d] && d in s.mapping && s.mapping[d] <= s.maxLane
    requires name !in s.mapping && s.lane >= -1
    ensures Advance(services, s, name) == Scan(s.mapping[name := s.mapping[d]], s.mapping[d], s.maxLane)
  {
    var needs := services[name].needs;
    assert needs[0] == d && FirstMapped(needs, s.mapping) == s.mapping[d];
    assert MapToLane(name, needs, s.mapping[d], s.mapping) == s.mapping[name := s.mapping[d]];
  }

  lemma ScanOfTwo(services: Services, a: Name, b: Name)
    requires a in services && b in services && a != b && services[a].needs == [] && services[b].needs == []
    ensures AllKnown(services, [a, b]) && ScanOf(services, [a, b]) == Scan(map[a := 0, b := 1], 1, 1)
  {
    assert ScanOf(services, []) == Scan(map[], -1, 0);
    hide ScanOf, Advance;
    ScanNext(services, [], a);
    AdvanceAlone(services, ScanOf(services, []), a);
    assert [] + [a] == [a] && [a] + [b] == [a, b];
    ScanNext(services, [a], b);
    AdvanceAlone(services, ScanOf(services, [a]), b);
  }

  lemma ScanOfThree(services: Services, a: Name, b: Name, c: Name) returns (s: Scan)
    requires a in services && b in services && c in services && a != b && b != c && a != c
    requires services[a].needs == [] && services[b].needs == []
    requires services[c].needs == [a] || services[c].needs == [b]
    ensures AllKnown(services, [a, b, c])
    ensures s == ScanOf(services, [a, b, c]) && s.maxLane == 1 && s.lane == (if services[c].needs == [a] then 0 else 1)
    ensures s.mapping.Keys == {a, b, c} && s.mapping[a] == 0 && s.mapping[b] == 1 && s.mapping[c] == s.lane
  {
    hide ScanOf, Advance;
    ScanOfTwo(services, a, b);
    ScanNext(services, [a, b], c);
    assert [a, b] + [c] == [a, b, c];
    var two := ScanOf(services, [a, b]);
    if services[c].needs == [a] {
      AdvanceBehind(services, two, c, a);
    } else {
      AdvanceBehind(services, two, c, b);
    }
    s := ScanOf(services, [a, b, c]);
  }

  // ---------- Starting and stopping ----------

  method OrderLanes(services: Services, names: seq<Name>, stop: bool) returns (r: Result<seq<seq<Name>>>)
    ensures r.Ok? <==> !Blocked(services, names, stop)
    ensures r.Ok? ==> ValidLanes(services, names, stop, r.value)
    ensures r.Ok? ==> exists ordered :: ValidOrder(services, names, stop, ordered) && Laned(services, ordered, r.value)
    ensures r.Err? && r.error.Missing? ==> r.error.name in Selection(services, names, stop) && r.error.name !in services
    ensures r.Err? && r.error.Loop? ==> IsLoop(services, stop, Selection(services, names, stop), r.error.names)
  {
    var ordered := Order(services, names, stop);
    if ordered.Err? {
      return Err(ordered.error);
    }
    hide HasLoop, IsLoop, Selection;
    r := CreateLanes(ordered.value, services);
    assert r.Ok?;
    LanedPartitioned(services, ordered.value, r.value);
    OrderedLanes(services, names, stop, ordered.value, r.value);
  }

  method StartOrder(services: Services, names: seq<Name>) returns (r: Result<seq<seq<Name>>>)
    ensures r.Ok? <==> !Blocked(services, names, false)
    ensures r.Ok? ==> ValidLanes(services, names, false, r.value)
    ensures r.Ok? ==> exists ordered :: ValidOrder(services, names, false, ordered) && Laned(services, ordered, r.value)
    ensures Accepted(services) && (forall n :: n in names ==> n in services) ==> r.Ok?
  {
    r := OrderLanes(services, names, false);
    if Accepted(services) && forall n :: n in names ==> n in services {
      AcceptedNeverBlocked(services, names, false);
    }
  }

  method StopOrder(services: Services, names: seq<Name>) returns (r: Result<seq<seq<Name>>>)
    ensures r.Ok? <==> !Blocked(services, names, true)
    ensures r.Ok? ==> ValidLanes(services, names, true, r.value)
    ensures r.Ok? ==> exists ordered :: ValidOrder(services, names, true, ordered) && Laned(services, ordered, r.value)
    ensures Accepted(services) && (forall n :: n in names ==> n in services) ==> r.Ok?
  {
    r := OrderLanes(services, names, true);
    if Accepted(services) && forall n :: n in names ==> n in services {
      AcceptedNeverBlocked(services, names, true);
    }
  }
}
