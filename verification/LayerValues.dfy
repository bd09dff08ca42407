/** Services and log targets as values, and what combining layers of them means (internals/plan/plan.go). */
module LayerValues {
  import opened Options

  type Name = string

  /** An OptionalDuration or OptionalFloat. */
  datatype Optional<T> = Optional(value: T, isSet: bool)

  // ---------- Overrides ----------

  const MERGE := "merge"
  const REPLACE := "replace"

  predicate ValidOverride(o: string) {
    o == MERGE || o == REPLACE
  }

  /** An entry of a layer, merged into others of its name in the way `merge` says. */
  datatype Kind<!V> = Kind(override: V -> string, merge: (V, V) -> V)

  function Look<V>(m: map<Name, V>, name: Name): Option<V> {
    if name in m then Some(m[name]) else None
  }

  /** One more definition on top of what was combined so far. */
  function AddDefinition<V>(kind: Kind<V>, acc: Option<V>, def: V): V {
    if acc.None? || kind.override(def) == REPLACE then def else kind.merge(acc.value, def)
  }

  /** The fold of all definitions of `name`, first layer first. */
  function Combined<V>(kind: Kind<V>, layers: seq<map<Name, V>>, name: Name): Option<V> {
    if layers == [] then None else
      var below := Combined(kind, layers[..|layers| - 1], name);
      var top := layers[|layers| - 1];
      if name in top then Some(AddDefinition(kind, below, top[name])) else below
  }

  predicate ValidEntries<V>(kind: Kind<V>, layer: map<Name, V>) {
    forall n :: n in layer ==> ValidOverride(kind.override(layer[n]))
  }

  predicate AllValid<V>(kind: Kind<V>, layers: seq<map<Name, V>>) {
    forall i :: 0 <= i < |layers| ==> ValidEntries(kind, layers[i])
  }

  /** Combining on top of an already combined value. */
  function CombinedOnto<V>(kind: Kind<V>, acc: Option<V>, layers: seq<map<Name, V>>, name: Name): Option<V> {
    if layers == [] then acc else
      var below := CombinedOnto(kind, acc, layers[..|layers| - 1], name);
      var top := layers[|layers| - 1];
      if name in top then Some(AddDefinition(kind, below, top[name])) else below
  }

  lemma {:induction false} CombinedSplits<V>(kind: Kind<V>, lower: seq<map<Name, V>>, upper: seq<map<Name, V>>,
                                             name: Name)
    ensures Combined(kind, lower + upper, name) == CombinedOnto(kind, Combined(kind, lower, name), upper, name)
  {
    if upper == [] {
      assert lower + upper == lower;
    } else {
      assert (lower + upper)[..|lower + upper| - 1] == lower + upper[..|upper| - 1];
      CombinedSplits(kind, lower, upper[..|upper| - 1], name);
    }
  }

  /** Nothing below a replacing definition matters: the fold starts at the last one. */
  lemma ReplaceStartsOver<V>(kind: Kind<V>, layers: seq<map<Name, V>>, name: Name, k: nat)
    requires k < |layers| && name in layers[k] && kind.override(layers[k][name]) == REPLACE
    ensures Combined(kind, layers, name) == CombinedOnto(kind, Some(layers[k][name]), layers[k + 1..], name)
    ensures Combined(kind, layers, name) == Combined(kind, layers[k..], name)
  {
    assert layers == layers[..k + 1] + layers[k + 1..];
    assert layers[..k + 1][..k] == layers[..k];
    CombinedSplits(kind, layers[..k + 1], layers[k + 1..], name);
    assert layers[k..] == [layers[k]] + layers[k + 1..];
    assert [layers[k]][..0] == [];
    CombinedSplits(kind, [layers[k]], layers[k + 1..], name);
  }

  /** Definitions that only merge, and merge associatively, can be combined among themselves first. */
  lemma {:induction false} MergesRegroup<V(!new)>(kind: Kind<V>, acc: V, layers: seq<map<Name, V>>, name: Name)
    requires forall a, b, c :: kind.merge(kind.merge(a, b), c) == kind.merge(a, kind.merge(b, c))
    requires forall i :: 0 <= i < |layers| && name in layers[i] ==> kind.override(layers[i][name]) != REPLACE
    ensures CombinedOnto(kind, Some(acc), layers, name) ==
            match Combined(kind, layers, name) case None => Some(acc) case Some(v) => Some(kind.merge(acc, v))
  {
    if layers != [] {
      MergesRegroup(kind, acc, layers[..|layers| - 1], name);
    }
  }

  // ---------- Services ----------

  // A service is described in groups of fields that merge alike.

  /** A ServiceAction: a string type of its own, "" if not set. */
  datatype Action = Action(name: string)

  datatype Details = Details(summary: string, description: string, startup: string, command: string,
                             workload: string, onSuccess: Action, onFailure: Action)

  datatype Owner = Owner(userID: Option<int>, user: string, groupID: Option<int>, group: string, workingDir: string)

  datatype Ordering = Ordering(after: seq<Name>, before: seq<Name>, needs: seq<Name>)

  datatype Tables = Tables(environment: map<string, string>, onCheckFailure: map<string, Action>)

  datatype Durations = Durations(backoffDelay: Optional<int>, backoffFactor: Optional<real>,
                                 backoffLimit: Optional<int>,
                                 killDelay: Optional<int>)

  datatype ServiceValue = ServiceValue(name: Name, override: string, details: Details, owner: Owner, ordering: Ordering,
                                       tables: Tables, durations: Durations)

  function Str(a: string, b: string): string {
    if b != "" then b else a
  }

  function Act(a: Action, b: Action): Action {
    if b.name != "" then b else a
  }

  function Opt<T>(a: Option<T>, b: Option<T>): Option<T> {
    if b.Some? then b else a
  }

  function Set<T>(a: Optional<T>, b: Optional<T>): Optional<T> {
    if b.isSet then b else a
  }

  function MergedDetails(s: Details, o: Details): Details {
    Details(Str(s.summary, o.summary), Str(s.description, o.description), Str(s.startup, o.startup),
            Str(s.command, o.command),
            Str(s.workload, o.workload), Act(s.onSuccess, o.onSuccess), Act(s.onFailure, o.onFailure))
  }

  function MergedOwner(s: Owner, o: Owner): Owner {
    Owner(Opt(s.userID, o.userID), Str(s.user, o.user), Opt(s.groupID, o.groupID), Str(s.group, o.group),
            Str(s.workingDir, o.workingDir))
  }

  function MergedOrdering(s: Ordering, o: Ordering): Ordering {
    Ordering(s.after + o.after, s.before + o.before, s.needs + o.needs)
  }

  function MergedTables(s: Tables, o: Tables): Tables {
    Tables(s.environment + o.environment, s.onCheckFailure + o.onCheckFailure)
  }

  function MergedDurations(s: Durations, o: Durations): Durations {
    Durations(Set(s.backoffDelay, o.backoffDelay), Set(s.backoffFactor, o.backoffFactor),
              Set(s.backoffLimit, o.backoffLimit),
              Set(s.killDelay, o.killDelay))
  }

  /** What is set in `o` wins, lists are appended, maps are overlaid. Name and override stay. */
  function MergedService(s: ServiceValue, o: ServiceValue): ServiceValue {
    ServiceValue(s.name, s.override, MergedDetails(s.details, o.details), MergedOwner(s.owner, o.owner),
                 MergedOrdering(s.ordering, o.ordering), MergedTables(s.tables, o.tables),
                 MergedDurations(s.durations, o.durations))
  }

  const SERVICE := Kind((s: ServiceValue) => s.override, (s: ServiceValue, o: ServiceValue) => MergedService(s, o))

  // Durations are in nanoseconds.
  const DEFAULT_BACKOFF_DELAY: int := 500_000_000
  const DEFAULT_BACKOFF_FACTOR: real := 2.0
  const DEFAULT_BACKOFF_LIMIT: int := 30_000_000_000

  function OrDefault<T>(o: Optional<T>, value: T): Optional<T> {
    if o.isSet then o else Optional(value, false)
  }

  function DefaultedDurations(d: Durations): Durations {
    Durations(OrDefault(d.backoffDelay, DEFAULT_BACKOFF_DELAY), OrDefault(d.backoffFactor, DEFAULT_BACKOFF_FACTOR),
              OrDefault(d.backoffLimit, DEFAULT_BACKOFF_LIMIT), d.killDelay)
  }

  function Defaulted(s: ServiceValue): ServiceValue {
    s.(durations := DefaultedDurations(s.durations))
  }

  lemma MapOverlayAssociative<K, V>(a: map<K, V>, b: map<K, V>, c: map<K, V>)
    ensures (a + b) + c == a + (b + c)
  {
  }

  lemma AppendAssociative<T>(a: seq<T>, b: seq<T>, c: seq<T>)
    ensures (a + b) + c == a + (b + c)
  {
  }

  /** Merging services is associative, so it does not matter where a stack of merging layers is cut. */
  lemma MergeServiceAssociative(a: ServiceValue, b: ServiceValue, c: ServiceValue)
    ensures MergedService(MergedService(a, b), c) == MergedService(a, MergedService(b, c))
  {
    AppendAssociative(a.ordering.after, b.ordering.after, c.ordering.after);
    AppendAssociative(a.ordering.before, b.ordering.before, c.ordering.before);
    AppendAssociative(a.ordering.needs, b.ordering.needs, c.ordering.needs);
    MapOverlayAssociative(a.tables.environment, b.tables.environment, c.tables.environment);
    MapOverlayAssociative(a.tables.onCheckFailure, b.tables.onCheckFailure, c.tables.onCheckFailure);
  }

  /** A run of services that only merge can be combined among themselves first. */
  lemma ServiceMergesRegroup(acc: ServiceValue, layers: seq<map<Name, ServiceValue>>, name: Name)
    requires forall i :: 0 <= i < |layers| && name in layers[i] ==> layers[i][name].override != REPLACE
    ensures CombinedOnto(SERVICE, Some(acc), layers, name) ==
            match Combined(SERVICE, layers, name)
            case None => Some(acc)
            case Some(v) => Some(MergedService(acc, v))
  {
    forall a, b, c
      ensures SERVICE.merge(SERVICE.merge(a, b), c) == SERVICE.merge(a, SERVICE.merge(b, c))
    {
      MergeServiceAssociative(a, b, c);
    }
    MergesRegroup(SERVICE, acc, layers, name);
  }

  // ---------- A combined prefix as base layer ----------

  /** What CombineLayers gives for a service. */
  function CombinedService(layers: seq<map<Name, ServiceValue>>, name: Name): Option<ServiceValue> {
    match Combined(SERVICE, layers, name)
    case None => None
    case Some(v) => Some(Defaulted(v))
  }

  /** `base` holds the services of the combined `layers`. */
  ghost predicate IsBase(layers: seq<map<Name, ServiceValue>>, base: map<Name, ServiceValue>) {
    forall n :: Look(base, n) == CombinedService(layers, n)
  }

  lemma MergeUpToDefaults(a: ServiceValue, b: ServiceValue, o: ServiceValue)
    requires Defaulted(a) == Defaulted(b)
    ensures Defaulted(MergedService(a, o)) == Defaulted(MergedService(b, o))
  {
  }

  ghost predicate SameUpToDefaults(a: Option<ServiceValue>, b: Option<ServiceValue>) {
    (a.None? && b.None?) || (a.Some? && b.Some? && Defaulted(a.value) == Defaulted(b.value))
  }

  lemma {:induction false} OntoUpToDefaults(a: Option<ServiceValue>, b: Option<ServiceValue>,
                                            layers: seq<map<Name, ServiceValue>>, name: Name)
    requires SameUpToDefaults(a, b)
    ensures SameUpToDefaults(CombinedOnto(SERVICE, a, layers, name), CombinedOnto(SERVICE, b, layers, name))
  {
    if layers != [] {
      var lower, top := layers[..|layers| - 1], layers[|layers| - 1];
      OntoUpToDefaults(a, b, lower, name);
      var x, y := CombinedOnto(SERVICE, a, lower, name), CombinedOnto(SERVICE, b, lower, name);
      if name in top && x.Some? && y.Some? {
        MergeUpToDefaults(x.value, y.value, top[name]);
      }
    }
  }

  /** Combining some layers first and stacking the rest on the result gives the services of combining all at once. */
  lemma PrefixAsBase(lower: seq<map<Name, ServiceValue>>, base: map<Name, ServiceValue>,
                     upper: seq<map<Name, ServiceValue>>, name: Name)
    requires IsBase(lower, base)
    ensures CombinedService([base] + upper, name) == CombinedService(lower + upper, name)
  {
    var below := Combined(SERVICE, lower, name);
    CombinedSplits(SERVICE, lower, upper, name);
    CombinedSplits(SERVICE, [base], upper, name);
    assert [base][..0] == [];
    assert Look(base, name) == CombinedService(lower, name);
    assert Combined(SERVICE, [base], name) == Look(base, name);
    OntoUpToDefaults(below, Look(base, name), upper, name);
  }

  /** A combined service keeps the override of the definition it starts from, so it is valid as part of a layer. */
  lemma {:induction false} CombinedOverrideValid<V(!new)>(kind: Kind<V>, layers: seq<map<Name, V>>, name: Name)
    requires forall a, b :: kind.override(kind.merge(a, b)) == kind.override(a)
    requires AllValid(kind, layers)
    ensures var c := Combined(kind, layers, name); c.Some? ==> ValidOverride(kind.override(c.value))
  {
    if layers != [] {
      var lower := layers[..|layers| - 1];
      assert forall i :: 0 <= i < |lower| ==> lower[i] == layers[i];
      CombinedOverrideValid(kind, lower, name);
    }
  }

  lemma BaseValid(lower: seq<map<Name, ServiceValue>>, base: map<Name, ServiceValue>)
    requires IsBase(lower, base) && AllValid(SERVICE, lower)
    ensures AllValid(SERVICE, [base])
  {
    forall n | n in base
      ensures ValidOverride(base[n].override)
    {
      assert Look(base, n) == CombinedService(lower, n);
      CombinedOverrideValid(SERVICE, lower, n);
    }
  }

  // ---------- Log targets ----------

  datatype LogTargetValue = LogTargetValue(
    name: Name, kind: string, location: string, services: seq<Name>, override: string, labels: map<string, string>)

  function MergedTarget(t: LogTargetValue, o: LogTargetValue): LogTargetValue {
    LogTargetValue(t.name, Str(t.kind, o.kind), Str(t.location, o.location), t.services + o.services, t.override,
            t.labels + o.labels)
  }

  const LOG_TARGET := Kind((t: LogTargetValue) => t.override,
                           (t: LogTargetValue, o: LogTargetValue) => MergedTarget(t, o))

  lemma MergeTargetAssociative(a: LogTargetValue, b: LogTargetValue, c: LogTargetValue)
    ensures MergedTarget(MergedTarget(a, b), c) == MergedTarget(a, MergedTarget(b, c))
  {
    AppendAssociative(a.services, b.services, c.services);
    MapOverlayAssociative(a.labels, b.labels, c.labels);
  }

  lemma TargetPrefixAsBase(lower: seq<map<Name, LogTargetValue>>, base: map<Name, LogTargetValue>,
                           upper: seq<map<Name, LogTargetValue>>, name: Name)
    requires forall n :: Look(base, n) == Combined(LOG_TARGET, lower, n)
    ensures Combined(LOG_TARGET, [base] + upper, name) == Combined(LOG_TARGET, lower + upper, name)
  {
    CombinedSplits(LOG_TARGET, lower, upper, name);
    CombinedSplits(LOG_TARGET, [base], upper, name);
    assert [base][..0] == [];
    assert Combined(LOG_TARGET, [base], name) == Look(base, name);
  }

  lemma TargetMergesRegroup(acc: LogTargetValue, layers: seq<map<Name, LogTargetValue>>, name: Name)
    requires forall i :: 0 <= i < |layers| && name in layers[i] ==> layers[i][name].override != REPLACE
    ensures CombinedOnto(LOG_TARGET, Some(acc), layers, name) ==
            match Combined(LOG_TARGET, layers, name)
            case None => Some(acc)
            case Some(v) => Some(MergedTarget(acc, v))
  {
    forall a, b, c
      ensures LOG_TARGET.merge(LOG_TARGET.merge(a, b), c) == LOG_TARGET.merge(a, LOG_TARGET.merge(b, c))
    {
      MergeTargetAssociative(a, b, c);
    }
    MergesRegroup(LOG_TARGET, acc, layers, name);
  }

  lemma TargetBaseValid(lower: seq<map<Name, LogTargetValue>>, base: map<Name, LogTargetValue>)
    requires (forall n :: Look(base, n) == Combined(LOG_TARGET, lower, n)) && AllValid(LOG_TARGET, lower)
    ensures AllValid(LOG_TARGET, [base])
  {
    forall n | n in base
      ensures ValidOverride(base[n].override)
    {
      assert Look(base, n) == Combined(LOG_TARGET, lower, n);
      CombinedOverrideValid(LOG_TARGET, lower, n);
    }
  }

  // ---------- Which layer a field comes from ----------

  /** All definitions of a name, lowest layer first. */
  function Definitions<V>(layers: seq<map<Name, V>>, name: Name): seq<V> {
    if layers == [] then [] else
      var top := layers[|layers| - 1];
      Definitions(layers[..|layers| - 1], name) + if name in top then [top[name]] else []
  }

  /** What is combined starts at the last definition that replaces, or at the first one if none does. */
  predicate StartsAt<V>(kind: Kind<V>, defs: seq<V>, k: nat) {
    && k < |defs| && (k == 0 || kind.override(defs[k]) == REPLACE)
    && forall j :: k < j < |defs| ==> kind.override(defs[j]) != REPLACE
  }

  /** Merging from the lowest up. */
  function MergedUp<V>(kind: Kind<V>, live: seq<V>): V
    requires live != []
  {
    if |live| == 1 then live[0] else kind.merge(MergedUp(kind, live[..|live| - 1]), live[|live| - 1])
  }

  lemma StartsBelow<V>(kind: Kind<V>, below: seq<V>, top: V, k: nat)
    requires StartsAt(kind, below + [top], k)
    ensures k < |below| ==> StartsAt(kind, below, k) && kind.override(top) != REPLACE
    ensures MergedUp(kind, (below + [top])[k..]) ==
            if k < |below| then kind.merge(MergedUp(kind, below[k..]), top) else top
    ensures k == |below| ==> below == [] || kind.override(top) == REPLACE
  {
    var defs := below + [top];
    assert forall j :: 0 <= j < |below| ==> defs[j] == below[j];
    assert defs[|below|] == top;
    assert defs[k..] == below[k..] + [top];
    assert k < |below| ==> defs[k..][..|defs[k..]| - 1] == below[k..];
  }

  lemma {:induction false} CombinedFromStart<V>(kind: Kind<V>, layers: seq<map<Name, V>>, name: Name, k: nat)
    requires StartsAt(kind, Definitions(layers, name), k)
    ensures Combined(kind, layers, name) == Some(MergedUp(kind, Definitions(layers, name)[k..]))
  {
    hide MergedUp;
    var lower, top := layers[..|layers| - 1], layers[|layers| - 1];
    var below := Definitions(lower, name);
    if name in top {
      StartsBelow(kind, below, top[name], k);
      DefinedIff(kind, lower, name);
    } else {
      assert Definitions(layers, name) == below;
    }
    if name !in top || k < |below| {
      CombinedFromStart(kind, lower, name, k);
    }
  }

  /** A name is combined exactly if some layer defines it, and then there is a definition to start from. */
  lemma {:induction false} DefinedIff<V>(kind: Kind<V>, layers: seq<map<Name, V>>, name: Name)
    ensures Combined(kind, layers, name).None? <==> Definitions(layers, name) == []
    ensures Definitions(layers, name) == [] <==> forall i :: 0 <= i < |layers| ==> name !in layers[i]
    ensures Definitions(layers, name) != [] ==> exists k: nat :: StartsAt(kind, Definitions(layers, name), k)
  {
    if layers != [] {
      var lower, top := layers[..|layers| - 1], layers[|layers| - 1];
      var defs, below := Definitions(layers, name), Definitions(lower, name);
      DefinedIff(kind, lower, name);
      if name in top {
        assert name in layers[|layers| - 1];
        if below == [] || kind.override(top[name]) == REPLACE {
          assert StartsAt(kind, defs, |below|);
        } else {
          var k: nat :| StartsAt(kind, below, k);
          assert StartsAt(kind, defs, k);
        }
      } else {
        assert defs == below;
        assert forall i :: 0 <= i < |layers| - 1 ==> layers[i] == lower[i];
      }
    }
  }

  /** One field of each definition. */
  function Column<V, T>(live: seq<V>, field: V -> T): seq<T> {
    seq(|live|, i requires 0 <= i < |live| => field(live[i]))
  }

  /** `value` is the last one that is set, or the first one if none is. */
  ghost predicate LastSet<T(!new)>(values: seq<T>, isSet: T -> bool, value: T) {
    exists i :: 0 <= i < |values| && (i == 0 || isSet(values[i])) && value == values[i]
                && forall j :: i < j < |values| ==> !isSet(values[j])
  }

  /** `value` is the last one that is set, or the default, not marked as set, if none is. */
  ghost predicate LastSetOr<T(!new)>(values: seq<Optional<T>>, default: T, value: Optional<T>) {
    if forall j :: 0 <= j < |values| ==> !values[j].isSet then value == Optional(default, false)
    else LastSet(values, (o: Optional<T>) => o.isSet, value)
  }

  function Joined<T>(lists: seq<seq<T>>): seq<T> {
    if lists == [] then [] else lists[0] + Joined(lists[1..])
  }

  /** Each key has the entry of the last table that holds it. */
  ghost predicate LastEntries<K(!new), T(!new)>(tables: seq<map<K, T>>, table: map<K, T>) {
    && (forall k :: k in table ==> exists i :: 0 <= i < |tables| && k in tables[i])
    && (forall i, k :: 0 <= i < |tables| && k in tables[i] && (forall j :: i < j < |tables| ==> k !in tables[j]) ==>
          k in table && table[k] == tables[i][k])
  }

  lemma LastSetMore<T(!new)>(values: seq<T>, isSet: T -> bool, value: T, last: T)
    requires LastSet(values, isSet, value)
    ensures LastSet(values + [last], isSet, if isSet(last) then last else value)
  {
    var i :| 0 <= i < |values| && (i == 0 || isSet(values[i])) && value == values[i]
             && forall j :: i < j < |values| ==> !isSet(values[j]);
    var more := values + [last];
    assert more[i] == value && more[|values|] == last;
    assert forall j :: 0 <= j < |values| ==> more[j] == values[j];
  }

  lemma ColumnMore<V, T>(live: seq<V>, field: V -> T)
    requires live != []
    ensures var n := |live| - 1; Column(live, field) == Column(live[..n], field) + [field(live[n])]
  {
  }

  lemma {:induction false} FieldFromLast<V(!new), T(!new)>(kind: Kind<V>, live: seq<V>, field: V -> T, isSet: T -> bool)
    requires live != []
    requires forall a, b :: field(kind.merge(a, b)) == if isSet(field(b)) then field(b) else field(a)
    ensures LastSet(Column(live, field), isSet, field(MergedUp(kind, live)))
  {
    var n := |live| - 1;
    if n == 0 {
      assert Column(live, field)[0] == field(live[0]);
    } else {
      hide LastSet, Column;
      ColumnMore(live, field);
      FieldFromLast(kind, live[..n], field, isSet);
      LastSetMore(Column(live[..n], field), isSet, field(MergedUp(kind, live[..n])), field(live[n]));
    }
  }

  lemma {:induction false} JoinedSnoc<T>(lists: seq<seq<T>>, last: seq<T>)
    ensures Joined(lists + [last]) == Joined(lists) + last
  {
    if lists != [] {
      assert (lists + [last])[1..] == lists[1..] + [last];
      JoinedSnoc(lists[1..], last);
    } else {
      assert (lists + [last])[1..] == [];
    }
  }

  lemma {:induction false} ListJoined<V(!new), T>(kind: Kind<V>, live: seq<V>, field: V -> seq<T>)
    requires live != []
    requires forall a, b :: field(kind.merge(a, b)) == field(a) + field(b)
    ensures field(MergedUp(kind, live)) == Joined(Column(live, field))
  {
    var n := |live| - 1;
    ColumnMore(live, field);
    JoinedSnoc(Column(live[..n], field), field(live[n]));
    if n > 0 {
      ListJoined(kind, live[..n], field);
    } else {
      assert Column(live[..n], field) == [];
    }
  }

  lemma {:induction false} TableFromLast<V(!new), K(!new), T(!new)>(kind: Kind<V>, live: seq<V>, field: V -> map<K, T>)
    requires live != []
    requires forall a, b :: field(kind.merge(a, b)) == field(a) + field(b)
    ensures LastEntries(Column(live, field), field(MergedUp(kind, live)))
  {
    var n, tables := |live| - 1, Column(live, field);
    assert tables[n] == field(live[n]);
    if n > 0 {
      var lower := live[..n];
      TableFromLast(kind, lower, field);
      LastEntriesUnder(Column(lower, field), field(MergedUp(kind, lower)), tables);
    }
  }

  lemma LastEntriesUnder<K(!new), T(!new)>(lower: seq<map<K, T>>, table: map<K, T>, tables: seq<map<K, T>>)
    requires tables != [] && lower == tables[..|tables| - 1] && LastEntries(lower, table)
    ensures LastEntries(tables, table + tables[|tables| - 1])
  {
    var top := tables[|tables| - 1];
    forall k | k in table + top
      ensures exists i :: 0 <= i < |tables| && k in tables[i]
    {
      if k !in top {
        var i :| 0 <= i < |lower| && k in lower[i];
        assert k in tables[i];
      }
    }
    forall i, k | 0 <= i < |tables| && k in tables[i] && forall j :: i < j < |tables| ==> k !in tables[j]
      ensures k in table + top && (table + top)[k] == tables[i][k]
    {
      if i < |lower| {
        assert k in lower[i] && forall j :: i < j < |lower| ==> lower[j] == tables[j];
      }
    }
  }

  const HAS_TEXT := (text: string) => text != ""
  const HAS_ACTION := (action: Action) => action.name != ""

  ghost predicate DetailsFrom(v: ServiceValue, live: seq<ServiceValue>) {
    && LastSet(Column(live, (s: ServiceValue) => s.details.summary), HAS_TEXT, v.details.summary)
    && LastSet(Column(live, (s: ServiceValue) => s.details.description), HAS_TEXT, v.details.description)
    && LastSet(Column(live, (s: ServiceValue) => s.details.startup), HAS_TEXT, v.details.startup)
    && LastSet(Column(live, (s: ServiceValue) => s.details.command), HAS_TEXT, v.details.command)
    && LastSet(Column(live, (s: ServiceValue) => s.details.workload), HAS_TEXT, v.details.workload)
    && LastSet(Column(live, (s: ServiceValue) => s.details.onSuccess), HAS_ACTION, v.details.onSuccess)
    && LastSet(Column(live, (s: ServiceValue) => s.details.onFailure), HAS_ACTION, v.details.onFailure)
  }

  lemma DetailsFromLast(live: seq<ServiceValue>)
    requires live != []
    ensures DetailsFrom(Defaulted(MergedUp(SERVICE, live)), live)
  {
    hide MergedUp, LastSet, LastEntries, Column, Joined;
    FieldFromLast(SERVICE, live, (s: ServiceValue) => s.details.summary, HAS_TEXT);
    FieldFromLast(SERVICE, live, (s: ServiceValue) => s.details.description, HAS_TEXT);
    FieldFromLast(SERVICE, live, (s: ServiceValue) => s.details.startup, HAS_TEXT);
    FieldFromLast(SERVICE, live, (s: ServiceValue) => s.details.command, HAS_TEXT);
    FieldFromLast(SERVICE, live, (s: ServiceValue) => s.details.workload, HAS_TEXT);
    FieldFromLast(SERVICE, live, (s: ServiceValue) => s.details.onSuccess, HAS_ACTION);
    FieldFromLast(SERVICE, live, (s: ServiceValue) => s.details.onFailure, HAS_ACTION);
  }

  ghost predicate OwnerFrom(v: ServiceValue, live: seq<ServiceValue>) {
    && LastSet(Column(live, (s: ServiceValue) => s.owner.userID), (id: Option<int>) => id.Some?, v.owner.userID)
    && LastSet(Column(live, (s: ServiceValue) => s.owner.user), HAS_TEXT, v.owner.user)
    && LastSet(Column(live, (s: ServiceValue) => s.owner.groupID), (id: Option<int>) => id.Some?, v.owner.groupID)
    && LastSet(Column(live, (s: ServiceValue) => s.owner.group), HAS_TEXT, v.owner.group)
    && LastSet(Column(live, (s: ServiceValue) => s.owner.workingDir), HAS_TEXT, v.owner.workingDir)
  }

  lemma OwnerFromLast(live: seq<ServiceValue>)
    requires live != []
    ensures OwnerFrom(Defaulted(MergedUp(SERVICE, live)), live)
  {
    hide MergedUp, LastSet, LastEntries, Column, Joined;
    FieldFromLast(SERVICE, live, (s: ServiceValue) => s.owner.userID, (id: Option<int>) => id.Some?);
    FieldFromLast(SERVICE, live, (s: ServiceValue) => s.owner.user, HAS_TEXT);
    FieldFromLast(SERVICE, live, (s: ServiceValue) => s.owner.groupID, (id: Option<int>) => id.Some?);
    FieldFromLast(SERVICE, live, (s: ServiceValue) => s.owner.group, HAS_TEXT);
    FieldFromLast(SERVICE, live, (s: ServiceValue) => s.owner.workingDir, HAS_TEXT);
  }

  ghost predicate CollectionsFrom(v: ServiceValue, live: seq<ServiceValue>) {
    && v.ordering.after == Joined(Column(live, (s: ServiceValue) => s.ordering.after))
    && v.ordering.before == Joined(Column(live, (s: ServiceValue) => s.ordering.before))
    && v.ordering.needs == Joined(Column(live, (s: ServiceValue) => s.ordering.needs))
    && LastEntries(Column(live, (s: ServiceValue) => s.tables.environment), v.tables.environment)
    && LastEntries(Column(live, (s: ServiceValue) => s.tables.onCheckFailure), v.tables.onCheckFailure)
  }

  lemma CollectionsFromAll(live: seq<ServiceValue>)
    requires live != []
    ensures CollectionsFrom(Defaulted(MergedUp(SERVICE, live)), live)
  {
    hide MergedUp, LastSet, LastEntries, Column, Joined;
    ListJoined(SERVICE, live, (s: ServiceValue) => s.ordering.after);
    ListJoined(SERVICE, live, (s: ServiceValue) => s.ordering.before);
    ListJoined(SERVICE, live, (s: ServiceValue) => s.ordering.needs);
    TableFromLast(SERVICE, live, (s: ServiceValue) => s.tables.environment);
    TableFromLast(SERVICE, live, (s: ServiceValue) => s.tables.onCheckFailure);
  }

  lemma {:induction false} FirstStands<V(!new), T>(kind: Kind<V>, live: seq<V>, field: V -> T)
    requires live != []
    requires forall a, b :: field(kind.merge(a, b)) == field(a)
    ensures field(MergedUp(kind, live)) == field(live[0])
  {
    if |live| > 1 {
      FirstStands(kind, live[..|live| - 1], field);
    }
  }

  /** The durations of a combined service, with the defaults. */
  ghost predicate DurationsFrom(v: ServiceValue, live: seq<ServiceValue>) {
    && LastSetOr(Column(live, (s: ServiceValue) => s.durations.backoffDelay), DEFAULT_BACKOFF_DELAY,
                 v.durations.backoffDelay)
    && LastSetOr(Column(live, (s: ServiceValue) => s.durations.backoffFactor), DEFAULT_BACKOFF_FACTOR,
                 v.durations.backoffFactor)
    && LastSetOr(Column(live, (s: ServiceValue) => s.durations.backoffLimit), DEFAULT_BACKOFF_LIMIT,
                 v.durations.backoffLimit)
    && LastSet(Column(live, (s: ServiceValue) => s.durations.killDelay), (o: Optional<int>) => o.isSet,
               v.durations.killDelay)
  }

  lemma LastSetDefaulted<T(!new)>(values: seq<Optional<T>>, value: Optional<T>, default: T)
    requires LastSet(values, (o: Optional<T>) => o.isSet, value)
    ensures LastSetOr(values, default, OrDefault(value, default))
  {
  }

  lemma DurationsFromLast(live: seq<ServiceValue>)
    requires live != []
    ensures DurationsFrom(Defaulted(MergedUp(SERVICE, live)), live)
  {
    hide MergedUp, LastSet, LastSetOr, Column;
    var v := MergedUp(SERVICE, live).durations;
    var delay := (s: ServiceValue) => s.durations.backoffDelay;
    var factor := (s: ServiceValue) => s.durations.backoffFactor;
    var limit := (s: ServiceValue) => s.durations.backoffLimit;
    FieldFromLast(SERVICE, live, delay, (o: Optional<int>) => o.isSet);
    FieldFromLast(SERVICE, live, factor, (o: Optional<real>) => o.isSet);
    FieldFromLast(SERVICE, live, limit, (o: Optional<int>) => o.isSet);
    FieldFromLast(SERVICE, live, (s: ServiceValue) => s.durations.killDelay, (o: Optional<int>) => o.isSet);
    LastSetDefaulted(Column(live, delay), v.backoffDelay, DEFAULT_BACKOFF_DELAY);
    LastSetDefaulted(Column(live, factor), v.backoffFactor, DEFAULT_BACKOFF_FACTOR);
    LastSetDefaulted(Column(live, limit), v.backoffLimit, DEFAULT_BACKOFF_LIMIT);
  }

  /** Later layers win: above the last definition that replaces, each text, action, ID and duration of a combined
      service is that of the last definition that sets it, each list has the lists of all definitions in order, and
      each table entry is that of the last definition that holds its key. */
  lemma LaterLayerWins(layers: seq<map<Name, ServiceValue>>, name: Name, k: nat)
    requires StartsAt(SERVICE, Definitions(layers, name), k)
    ensures CombinedService(layers, name).Some?
    ensures var v, live := CombinedService(layers, name).value, Definitions(layers, name)[k..];
            && v.name == live[0].name && v.override == live[0].override
            && DetailsFrom(v, live) && OwnerFrom(v, live) && CollectionsFrom(v, live) && DurationsFrom(v, live)
  {
    hide DetailsFrom, OwnerFrom, CollectionsFrom, DurationsFrom;
    var live := Definitions(layers, name)[k..];
    CombinedFromStart(SERVICE, layers, name, k);
    DetailsFromLast(live);
    OwnerFromLast(live);
    CollectionsFromAll(live);
    DurationsFromLast(live);
    FirstStands(SERVICE, live, (s: ServiceValue) => s.name);
    FirstStands(SERVICE, live, (s: ServiceValue) => s.override);
  }

  ghost predicate TargetFrom(v: LogTargetValue, live: seq<LogTargetValue>) {
    && LastSet(Column(live, (s: LogTargetValue) => s.kind), HAS_TEXT, v.kind)
    && LastSet(Column(live, (s: LogTargetValue) => s.location), HAS_TEXT, v.location)
    && v.services == Joined(Column(live, (s: LogTargetValue) => s.services))
    && LastEntries(Column(live, (s: LogTargetValue) => s.labels), v.labels)
  }

  lemma TargetFromLast(live: seq<LogTargetValue>)
    requires live != []
    ensures TargetFrom(MergedUp(LOG_TARGET, live), live)
  {
    hide MergedUp, LastSet, LastEntries, Column, Joined;
    FieldFromLast(LOG_TARGET, live, (s: LogTargetValue) => s.kind, HAS_TEXT);
    FieldFromLast(LOG_TARGET, live, (s: LogTargetValue) => s.location, HAS_TEXT);
    ListJoined(LOG_TARGET, live, (s: LogTargetValue) => s.services);
    TableFromLast(LOG_TARGET, live, (s: LogTargetValue) => s.labels);
  }


  /** Later layers win for log targets. */
  lemma LaterTargetWins(layers: seq<map<Name, LogTargetValue>>, name: Name, k: nat)
    requires StartsAt(LOG_TARGET, Definitions(layers, name), k)
    ensures Combined(LOG_TARGET, layers, name).Some?
    ensures var v, live := Combined(LOG_TARGET, layers, name).value, Definitions(layers, name)[k..];
            v.name == live[0].name && v.override == live[0].override && TargetFrom(v, live)
  {
    hide TargetFrom;
    var live := Definitions(layers, name)[k..];
    CombinedFromStart(LOG_TARGET, layers, name, k);
    TargetFromLast(live);
    FirstStands(LOG_TARGET, live, (t: LogTargetValue) => t.name);
    FirstStands(LOG_TARGET, live, (t: LogTargetValue) => t.override);
  }
}
