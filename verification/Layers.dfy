/** Combining layers of a plan, on the objects themselves (internals/plan/plan.go). */
module Layers {
  import opened Options
  import opened LayerValues

  // ---------- Merging, group by group ----------

  method MergeDetails(s: Details, other: Details) returns (r: Details)
    ensures r == MergedDetails(s, other)
  {
    r := s;
    if other.summary != "" {
      r := r.(summary := other.summary);
    }
    if other.description != "" {
      r := r.(description := other.description);
    }
    if other.startup != "" {
      r := r.(startup := other.startup);
    }
    if other.command != "" {
      r := r.(command := other.command);
    }
    if other.workload != "" {
      r := r.(workload := other.workload);
    }
    if other.onSuccess.name != "" {
      r := r.(onSuccess := other.onSuccess);
    }
    if other.onFailure.name != "" {
      r := r.(onFailure := other.onFailure);
    }
  }

  method MergeOwner(s: Owner, other: Owner) returns (r: Owner)
    ensures r == MergedOwner(s, other)
  {
    r := s;
    if other.userID.Some? {
      r := r.(userID := other.userID);
    }
    if other.user != "" {
      r := r.(user := other.user);
    }
    if other.groupID.Some? {
      r := r.(groupID := other.groupID);
    }
    if other.group != "" {
      r := r.(group := other.group);
    }
    if other.workingDir != "" {
      r := r.(workingDir := other.workingDir);
    }
  }

  method MergeDurations(s: Durations, other: Durations) returns (r: Durations)
    ensures r == MergedDurations(s, other)
  {
    r := s;
    if other.killDelay.isSet {
      r := r.(killDelay := other.killDelay);
    }
    if other.backoffDelay.isSet {
      r := r.(backoffDelay := other.backoffDelay);
    }
    if other.backoffFactor.isSet {
      r := r.(backoffFactor := other.backoffFactor);
    }
    if other.backoffLimit.isSet {
      r := r.(backoffLimit := other.backoffLimit);
    }
  }

  // ---------- Tables ----------

  /** A Go map: one object, whoever refers to it. */
  class Table<V> {
    var entries: map<string, V>

    constructor (entries: map<string, V>)
      ensures this.entries == entries
    {
      this.entries := entries;
    }
  }

  /** A nil map reads as an empty one. */
  ghost function Entries<V>(t: Table?<V>): map<string, V>
    reads t
  {
    if t == null then map[] else t.entries
  }

  ghost function Self(o: object?): set<object> {
    if o == null then {} else {o}
  }

  /** maps.Clone */
  method Clone<V>(t: Table?<V>) returns (c: Table?<V>)
    ensures fresh(Self(c)) && (c == null <==> t == null)
    ensures Entries(c) == Entries(t)
  {
    if t == null {
      return null;
    }
    c := new Table(t.entries);
  }

  /** Writes the entries of `other` into `t`, in some order; makes a table if there is none and something to write. */
  method Overlay<V>(t: Table?<V>, other: Table?<V>) returns (r: Table?<V>)
    modifies t
    ensures Entries(r) == old(Entries(t)) + old(Entries(other))
    ensures fresh(Self(r) - Self(t)) && (t != null ==> r == t)
  {
    r := t;
    var source := if other == null then map[] else other.entries;
    var rest := source.Keys;
    while rest != {}
      invariant rest <= source.Keys
      invariant fresh(Self(r) - Self(t)) && (t != null ==> r == t)
      invariant Entries(r) == old(Entries(t)) + (map k | k in source && k !in rest :: source[k])
      decreases rest
    {
      var k :| k in rest;
      if r == null {
        r := new Table(map[]);
      }
      r.entries, rest := r.entries[k := source[k]], rest - {k};
    }
  }

  // ---------- Services and log targets ----------

  class Service {
    var name: Name
    var override: string
    var details: Details
    var owner: Owner
    var ordering: Ordering
    var environment: Table?<string>
    var onCheckFailure: Table?<Action>
    var durations: Durations

    ghost function Value(): ServiceValue
      reads this, Footprint()
    {
      ServiceValue(name, override, details, owner, ordering, Tables(Entries(environment), Entries(onCheckFailure)),
                   durations)
    }

    /** The service and its tables. */
    ghost function Footprint(): set<object>
      reads this
    {
      {this} + Self(environment) + Self(onCheckFailure)
    }

    /** Assignment of one struct to another: the tables are shared. */
    constructor Shallow(s: Service)
      ensures name == s.name && override == s.override && details == s.details && owner == s.owner
      ensures ordering == s.ordering && durations == s.durations
      ensures environment == s.environment && onCheckFailure == s.onCheckFailure
    {
      name, override, details, owner, ordering, durations := s.name, s.override, s.details, s.owner, s.ordering,
        s.durations;
      environment, onCheckFailure := s.environment, s.onCheckFailure;
    }

    /** A deep copy: nothing of it was there before. */
    method Copy() returns (copied: Service)
      ensures fresh(copied.Footprint()) && copied.Value() == Value()
    {
      copied := new Service.Shallow(this);
      copied.environment := Clone(environment);
      copied.onCheckFailure := Clone(onCheckFailure);
    }

    /** Merges the fields set in `other` into this service, and writes into this service's tables. */
    method Merge(other: Service)
      modifies Footprint()
      ensures Value() == MergedService(old(Value()), old(other.Value()))
      ensures fresh(Footprint() - old(Footprint()))
    {
      hide Entries, MergedDetails, MergedOwner, MergedDurations;
      details := MergeDetails(details, other.details);
      owner := MergeOwner(owner, other.owner);
      durations := MergeDurations(durations, other.durations);
      ordering := Ordering(ordering.after + other.ordering.after, ordering.before + other.ordering.before,
                           ordering.needs + other.ordering.needs);
      MergeTables(other);
    }

    method MergeTables(other: Service)
      modifies this`environment, this`onCheckFailure, environment, onCheckFailure
      ensures Entries(environment) == old(Entries(environment)) + old(Entries(other.environment))
      ensures Entries(onCheckFailure) == old(Entries(onCheckFailure)) + old(Entries(other.onCheckFailure))
      ensures fresh(Footprint() - old(Footprint()))
    {
      environment := Overlay(environment, other.environment);
      onCheckFailure := Overlay(onCheckFailure, other.onCheckFailure);
    }

    method SetDefaults()
      modifies this`durations
      ensures Value() == Defaulted(old(Value()))
    {
      if !durations.backoffDelay.isSet {
        durations := durations.(backoffDelay := Optional(DEFAULT_BACKOFF_DELAY, false));
      }
      if !durations.backoffFactor.isSet {
        durations := durations.(backoffFactor := Optional(DEFAULT_BACKOFF_FACTOR, false));
      }
      if !durations.backoffLimit.isSet {
        durations := durations.(backoffLimit := Optional(DEFAULT_BACKOFF_LIMIT, false));
      }
    }
  }

  class LogTarget {
    var name: Name
    var kind: string
    var location: string
    var services: seq<Name>
    var override: string
    var labels: Table?<string>

    ghost function Value(): LogTargetValue
      reads this, Footprint()
    {
      LogTargetValue(name, kind, location, services, override, Entries(labels))
    }

    ghost function Footprint(): set<object>
      reads this
    {
      {this} + Self(labels)
    }

    constructor Shallow(t: LogTarget)
      ensures name == t.name && kind == t.kind && location == t.location && services == t.services
      ensures override == t.override && labels == t.labels
    {
      name, kind, location, services, override, labels := t.name, t.kind, t.location, t.services, t.override, t.labels;
    }

    method Copy() returns (copied: LogTarget)
      ensures fresh(copied.Footprint()) && copied.Value() == Value()
    {
      copied := new LogTarget.Shallow(this);
      copied.labels := Clone(labels);
    }

    method Merge(other: LogTarget)
      modifies Footprint()
      ensures Value() == MergedTarget(old(Value()), old(other.Value()))
      ensures fresh(Footprint() - old(Footprint()))
    {
      if other.kind != "" {
        kind := other.kind;
      }
      if other.location != "" {
        location := other.location;
      }
      services := services + other.services;
      labels := Overlay(labels, other.labels);
    }
  }

  // ---------- Combining ----------

  datatype Layer = Layer(order: int, layerLabel: string, summary: string, description: string,
                         services: map<Name, Service>, logTargets: map<Name, LogTarget>)

  /** The service of a layer whose override is missing or unknown. */
  datatype FormatError = BadService(layerLabel: string, service: Name) | BadLogTarget(layerLabel: string, target: Name)

  datatype Result<T> = Ok(value: T) | Err(error: FormatError)

  /** Services with their tables. */
  ghost function ServiceObjects(services: set<Service>): set<object>
    reads services
  {
    set s, o | s in services && o in s.Footprint() :: o
  }

  ghost function ServiceValues(m: map<Name, Service>): map<Name, ServiceValue>
    reads m.Values, ServiceObjects(m.Values)
  {
    map n | n in m :: m[n].Value()
  }

  /** `combined` holds one service a name, made of objects out of `mine` that no other has, with the values given. */
  ghost predicate Holds(combined: map<Name, Service>, mine: set<object>, values: map<Name, ServiceValue>)
    reads mine
  {
    && combined.Keys == values.Keys
    && (forall n :: n in combined ==>
        combined[n] in mine && combined[n].Footprint() <= mine && combined[n].Value() == values[n])
    && (forall m, n :: m in combined && n in combined && m != n ==> combined[m].Footprint() !! combined[n].Footprint())
  }

  ghost function TargetObjects(targets: set<LogTarget>): set<object>
    reads targets
  {
    set t, o | t in targets && o in t.Footprint() :: o
  }

  ghost function TargetValues(m: map<Name, LogTarget>): map<Name, LogTargetValue>
    reads m.Values, TargetObjects(m.Values)
  {
    map n | n in m :: m[n].Value()
  }

  ghost predicate HoldsTargets(combined: map<Name, LogTarget>, mine: set<object>, values: map<Name, LogTargetValue>)
    reads mine
  {
    && combined.Keys == values.Keys
    && (forall n :: n in combined ==>
        combined[n] in mine && combined[n].Footprint() <= mine && combined[n].Value() == values[n])
    && (forall m, n :: m in combined && n in combined && m != n ==> combined[m].Footprint() !! combined[n].Footprint())
  }

  /** The values when all definitions of `top` but those in `rest` are added. */
  function AddSome<V>(kind: Kind<V>, values: map<Name, V>, top: map<Name, V>, rest: set<Name>): map<Name, V> {
    map n | n in values.Keys + (top.Keys - rest) ::
      if n in top && n !in rest then AddDefinition(kind, Look(values, n), top[n]) else values[n]
  }

  lemma AddOne<V>(kind: Kind<V>, values: map<Name, V>, top: map<Name, V>, rest: set<Name>, name: Name)
    requires name in rest && rest <= top.Keys
    ensures var v := AddSome(kind, values, top, rest);
            AddSome(kind, values, top, rest - {name}) == v[name := AddDefinition(kind, Look(v, name), top[name])]
  {
  }

  /** Merges a definition into one of several objects with footprints `feet` and the values given. */
  method MergeInto(combined: map<Name, Service>, name: Name, service: Service, ghost mine: set<object>,
                   ghost values: map<Name, ServiceValue>, ghost feet: map<Name, set<object>>)
    requires name in combined && combined.Keys == values.Keys == feet.Keys
    requires forall n :: n in combined ==> combined[n] in feet[n] && feet[n] <= mine
    requires forall n :: n in combined ==> combined[n].Footprint() == feet[n] && combined[n].Value() == values[n]
    requires forall n :: n in combined && n != name ==> feet[n] !! feet[name]
    modifies feet[name]
    ensures forall n :: n in combined && n != name ==>
                          combined[n].Footprint() == feet[n] && combined[n].Value() == values[n]
    ensures combined[name].Value() == MergedService(values[name], old(service.Value()))
    ensures fresh(combined[name].Footprint() - feet[name])
  {
    hide MergedService, Service.Value, Service.Footprint;
    combined[name].Merge(service);
    forall n | n in combined && n != name
      ensures combined[n].Footprint() == feet[n] && combined[n].Value() == values[n]
    {
      assert feet[n] !! feet[name];
    }
  }

  lemma HoldsAgain(combined: map<Name, Service>, name: Name, mine: set<object>, values: map<Name, ServiceValue>,
                   feet: map<Name, set<object>>)
    requires combined.Keys == values.Keys == feet.Keys && name in combined
    requires forall n :: n in combined ==> combined[n] in feet[n] && feet[n] <= mine
    requires forall n :: n in combined && n != name ==>
                           combined[n].Footprint() == feet[n] && combined[n].Value() == values[n]
    requires forall m, n :: m in combined && n in combined && m != n ==> feet[m] !! feet[n]
    requires (combined[name].Footprint() - feet[name]) !! mine
    ensures Holds(combined, mine + combined[name].Footprint(), values[name := combined[name].Value()])
  {
    hide Service.Value, Service.Footprint;
    forall n | n in combined && n != name
      ensures combined[name].Footprint() !! feet[n]
    {
      assert feet[name] !! feet[n];
    }
  }

  lemma FeetOf(combined: map<Name, Service>, mine: set<object>, values: map<Name, ServiceValue>)
    returns (feet: map<Name, set<object>>)
    requires Holds(combined, mine, values)
    ensures feet.Keys == combined.Keys == values.Keys
    ensures forall n :: n in combined ==> feet[n] == combined[n].Footprint() && combined[n] in feet[n]
    ensures forall n :: n in combined ==> feet[n] <= mine && combined[n].Value() == values[n]
    ensures forall m, n :: m in combined && n in combined && m != n ==> feet[m] !! feet[n]
  {
    feet := map n | n in combined :: combined[n].Footprint();
    assert forall n :: n in combined ==> combined[n] in feet[n];
    hide Service.Value, Service.Footprint;
  }

  /** Merges a definition into the object combined under its name. */
  method MergeService(combined: map<Name, Service>, name: Name, service: Service, ghost mine: set<object>,
                      ghost values: map<Name, ServiceValue>)
    returns (ghost mine': set<object>)
    requires Holds(combined, mine, values) && name in combined
    modifies mine
    ensures forall o :: o in mine' ==> o in mine || fresh(o)
    ensures Holds(combined, mine', values[name := MergedService(values[name], old(service.Value()))])
  {
    hide Holds, MergedService, Service.Value, Service.Footprint;
    ghost var feet := FeetOf(combined, mine, values);
    MergeInto(combined, name, service, mine, values, feet);
    mine' := mine + combined[name].Footprint();
    HoldsAgain(combined, name, mine, values, feet);
  }

  lemma HoldsMore(combined: map<Name, Service>, name: Name, copied: Service, mine: set<object>,
                  values: map<Name, ServiceValue>)
    requires Holds(combined, mine, values) && copied.Footprint() !! mine
    ensures Holds(combined[name := copied], mine + copied.Footprint(), values[name := copied.Value()])
  {
    assert copied in copied.Footprint();
    hide Service.Value, Service.Footprint;
  }

  /** Puts a copy of a definition under its name. */
  method CopyService(combined: map<Name, Service>, name: Name, service: Service, ghost mine: set<object>,
                     ghost values: map<Name, ServiceValue>)
    returns (combined': map<Name, Service>, ghost mine': set<object>)
    requires Holds(combined, mine, values)
    ensures forall o :: o in mine' ==> o in mine || fresh(o)
    ensures Holds(combined', mine', values[name := service.Value()])
  {
    hide Holds, Service.Value, Service.Footprint;
    var copied := service.Copy();
    mine' := mine + copied.Footprint();
    combined' := combined[name := copied];
    HoldsMore(combined, name, copied, mine, values);
  }

  /** One definition on top of `combined`: merged in place if the name is known, else copied. */
  method AddService(combined: map<Name, Service>, layerLabel: string, name: Name, service: Service,
                    ghost mine: set<object>, ghost values: map<Name, ServiceValue>)
    returns (r: Result<map<Name, Service>>, ghost mine': set<object>)
    requires Holds(combined, mine, values)
    modifies mine
    ensures forall o :: o in mine' ==> o in mine || fresh(o)
    ensures r.Ok? <==> ValidOverride(old(service.override))
    ensures r.Ok? ==>
              Holds(r.value, mine', values[name := AddDefinition(SERVICE, Look(values, name), old(service.Value()))])
    ensures r.Err? ==> r.error == BadService(layerLabel, name)
  {
    mine' := mine;
    assert combined.Keys == values.Keys;
    hide Holds;
    if service.override == MERGE {
      if name in combined {
        mine' := MergeService(combined, name, service, mine, values);
        r := Ok(combined);
      } else {
        var c, mine2 := CopyService(combined, name, service, mine, values);
        r, mine' := Ok(c), mine2;
      }
    } else if service.override == REPLACE {
      var c, mine2 := CopyService(combined, name, service, mine, values);
      r, mine' := Ok(c), mine2;
    } else {
      r := Err(BadService(layerLabel, name));
    }
  }

  /** `m` is made of objects out of `theirs`, with the values given. */
  ghost predicate Consists(m: map<Name, Service>, theirs: set<object>, values: map<Name, ServiceValue>)
    reads theirs
  {
    && m.Keys == values.Keys
    && forall n :: n in m ==> m[n] in theirs && m[n].Footprint() <= theirs && m[n].Value() == values[n]
  }

  lemma ConsistsAt(m: map<Name, Service>, theirs: set<object>, values: map<Name, ServiceValue>, name: Name)
    requires Consists(m, theirs, values) && name in values
    ensures name in m && m[name].Value() == values[name] && m[name].override == SERVICE.override(values[name])
  {
  }

  ghost predicate ValidSoFar<V>(kind: Kind<V>, top: map<Name, V>, rest: set<Name>) {
    forall n :: n in top && n !in rest ==> ValidOverride(kind.override(top[n]))
  }

  /** The definition of `name` cannot be added. */
  ghost predicate Refused<V>(kind: Kind<V>, top: map<Name, V>, name: Name) {
    name in top && !ValidOverride(kind.override(top[name]))
  }

  lemma RefusedInvalid<V>(kind: Kind<V>, top: map<Name, V>, name: Name)
    requires Refused(kind, top, name)
    ensures !ValidEntries(kind, top)
  {
  }

  /** `combined` holds what there was and all definitions of `top` but those in `rest`, which were in order. */
  ghost predicate Adding(combined: map<Name, Service>, mine: set<object>, values: map<Name, ServiceValue>,
                         top: map<Name, ServiceValue>, rest: set<Name>)
    reads mine
  {
    Holds(combined, mine, AddSome(SERVICE, values, top, rest)) && rest <= top.Keys && ValidSoFar(SERVICE, top, rest)
  }

  lemma AddingStarts(combined: map<Name, Service>, mine: set<object>, values: map<Name, ServiceValue>,
                     top: map<Name, ServiceValue>)
    requires Holds(combined, mine, values)
    ensures Adding(combined, mine, values, top, top.Keys)
  {
    assert AddSome(SERVICE, values, top, top.Keys) == values;
  }

  lemma AddingEnds(combined: map<Name, Service>, mine: set<object>, values: map<Name, ServiceValue>,
                   top: map<Name, ServiceValue>)
    requires Adding(combined, mine, values, top, {})
    ensures Holds(combined, mine, AddSome(SERVICE, values, top, {})) && ValidEntries(SERVICE, top)
  {
  }

  /** Adds one definition of a layer; those in `rest` are still to be added. */
  method AddNamed(combined: map<Name, Service>, layer: Layer, name: Name, ghost mine: set<object>,
                  ghost theirs: set<object>,
                  ghost values: map<Name, ServiceValue>, ghost top: map<Name, ServiceValue>, ghost rest: set<Name>)
    returns (r: Result<map<Name, Service>>, ghost mine': set<object>)
    requires Adding(combined, mine, values, top, rest) && Consists(layer.services, theirs, top) && theirs !! mine
    requires name in rest && name in layer.services
    modifies mine
    ensures forall o :: o in mine' ==> o in mine || fresh(o)
    ensures Consists(layer.services, theirs, top) && theirs !! mine'
    ensures r.Ok? ==> Adding(r.value, mine', values, top, rest - {name})
    ensures r.Err? ==> r.error.BadService? && Refused(SERVICE, top, r.error.service)
  {
    ConsistsAt(layer.services, theirs, top, name);
    ghost var v := AddSome(SERVICE, values, top, rest);
    assert Holds(combined, mine, v) && rest <= top.Keys && ValidSoFar(SERVICE, top, rest);
    hide Holds, Adding, Consists, AddSome, ValidSoFar, ValidOverride;
    hide Service.Value, Service.Footprint, AddDefinition, Look;
    r, mine' := AddService(combined, layer.layerLabel, name, layer.services[name], mine, v);
    if r.Ok? {
      AddingNext(r.value, mine', values, top, rest, name);
    } else {
      assert Refused(SERVICE, top, name);
    }
  }

  lemma AddingNext(combined: map<Name, Service>, mine: set<object>, values: map<Name, ServiceValue>,
                   top: map<Name, ServiceValue>, rest: set<Name>, name: Name)
    requires name in rest && rest <= top.Keys && ValidSoFar(SERVICE, top, rest)
             && ValidOverride(SERVICE.override(top[name]))
    requires var v := AddSome(SERVICE, values, top, rest);
             Holds(combined, mine, v[name := AddDefinition(SERVICE, Look(v, name), top[name])])
    ensures Adding(combined, mine, values, top, rest - {name})
  {
    hide Holds;
    AddOne(SERVICE, values, top, rest, name);
  }

  /** Adds the definitions `top` of one layer, merging in place into objects of `combined` only. */
  method AddServices(combined: map<Name, Service>, layer: Layer, ghost mine: set<object>, ghost theirs: set<object>,
                     ghost values: map<Name, ServiceValue>, ghost top: map<Name, ServiceValue>)
    returns (r: Result<map<Name, Service>>, ghost mine': set<object>)
    requires Holds(combined, mine, values) && Consists(layer.services, theirs, top) && theirs !! mine
    modifies mine
    ensures forall o :: o in mine' ==> o in mine || fresh(o)
    ensures r.Ok? <==> ValidEntries(SERVICE, top)
    ensures r.Ok? ==> Holds(r.value, mine', AddSome(SERVICE, values, top, {}))
    ensures r.Err? ==> r.error.BadService? && Refused(SERVICE, top, r.error.service)
  {
    mine' := mine;
    var c := combined;
    var rest := layer.services.Keys;
    assert top.Keys == rest;
    AddingStarts(c, mine, values, top);
    hide Holds, Consists, Adding, AddSome, ValidEntries, Refused;
    while rest != {}
      invariant rest <= layer.services.Keys
      invariant forall o :: o in mine' ==> o in mine || fresh(o)
      invariant theirs !! mine'
      invariant Consists(layer.services, theirs, top)
      invariant Adding(c, mine', values, top, rest)
      decreases rest
    {
      var name :| name in rest;
      var added, mine2 := AddNamed(c, layer, name, mine', theirs, values, top, rest);
      mine' := mine2;
      if added.Err? {
        RefusedInvalid(SERVICE, top, added.error.service);
        return Err(added.error), mine';
      }
      c := added.value;
      rest := rest - {name};
    }
    AddingEnds(c, mine', values, top);
    return Ok(c), mine';
  }

  // Log targets, in the same way.

  /** Merges a definition into one of several objects with footprints `feet` and the values given. */
  method MergeIntoTarget(combined: map<Name, LogTarget>, name: Name, target: LogTarget, ghost mine: set<object>,
                   ghost values: map<Name, LogTargetValue>, ghost feet: map<Name, set<object>>)
    requires name in combined && combined.Keys == values.Keys == feet.Keys
    requires forall n :: n in combined ==> combined[n] in feet[n] && feet[n] <= mine
    requires forall n :: n in combined ==> combined[n].Footprint() == feet[n] && combined[n].Value() == values[n]
    requires forall n :: n in combined && n != name ==> feet[n] !! feet[name]
    modifies feet[name]
    ensures forall n :: n in combined && n != name ==>
                          combined[n].Footprint() == feet[n] && combined[n].Value() == values[n]
    ensures combined[name].Value() == MergedTarget(values[name], old(target.Value()))
    ensures fresh(combined[name].Footprint() - feet[name])
  {
    hide MergedTarget, LogTarget.Value, LogTarget.Footprint;
    combined[name].Merge(target);
    forall n | n in combined && n != name
      ensures combined[n].Footprint() == feet[n] && combined[n].Value() == values[n]
    {
      assert feet[n] !! feet[name];
    }
  }

  lemma TargetsHoldAgain(combined: map<Name, LogTarget>, name: Name, mine: set<object>,
                         values: map<Name, LogTargetValue>,
                   feet: map<Name, set<object>>)
    requires combined.Keys == values.Keys == feet.Keys && name in combined
    requires forall n :: n in combined ==> combined[n] in feet[n] && feet[n] <= mine
    requires forall n :: n in combined && n != name ==>
                           combined[n].Footprint() == feet[n] && combined[n].Value() == values[n]
    requires forall m, n :: m in combined && n in combined && m != n ==> feet[m] !! feet[n]
    requires (combined[name].Footprint() - feet[name]) !! mine
    ensures HoldsTargets(combined, mine + combined[name].Footprint(), values[name := combined[name].Value()])
  {
    hide LogTarget.Value, LogTarget.Footprint;
    forall n | n in combined && n != name
      ensures combined[name].Footprint() !! feet[n]
    {
      assert feet[name] !! feet[n];
    }
  }

  lemma TargetFeetOf(combined: map<Name, LogTarget>, mine: set<object>, values: map<Name, LogTargetValue>)
    returns (feet: map<Name, set<object>>)
    requires HoldsTargets(combined, mine, values)
    ensures feet.Keys == combined.Keys == values.Keys
    ensures forall n :: n in combined ==> feet[n] == combined[n].Footprint() && combined[n] in feet[n]
    ensures forall n :: n in combined ==> feet[n] <= mine && combined[n].Value() == values[n]
    ensures forall m, n :: m in combined && n in combined && m != n ==> feet[m] !! feet[n]
  {
    feet := map n | n in combined :: combined[n].Footprint();
    assert forall n :: n in combined ==> combined[n] in feet[n];
    hide LogTarget.Value, LogTarget.Footprint;
  }

  /** Merges a definition into the object combined under its name. */
  method MergeTarget(combined: map<Name, LogTarget>, name: Name, target: LogTarget, ghost mine: set<object>,
                      ghost values: map<Name, LogTargetValue>)
    returns (ghost mine': set<object>)
    requires HoldsTargets(combined, mine, values) && name in combined
    modifies mine
    ensures forall o :: o in mine' ==> o in mine || fresh(o)
    ensures HoldsTargets(combined, mine', values[name := MergedTarget(values[name], old(target.Value()))])
  {
    hide HoldsTargets, MergedTarget, LogTarget.Value, LogTarget.Footprint;
    ghost var feet := TargetFeetOf(combined, mine, values);
    MergeIntoTarget(combined, name, target, mine, values, feet);
    mine' := mine + combined[name].Footprint();
    TargetsHoldAgain(combined, name, mine, values, feet);
  }

  lemma TargetsHoldMore(combined: map<Name, LogTarget>, name: Name, copied: LogTarget, mine: set<object>,
                        values: map<Name, LogTargetValue>)
    requires HoldsTargets(combined, mine, values) && copied.Footprint() !! mine
    ensures HoldsTargets(combined[name := copied], mine + copied.Footprint(), values[name := copied.Value()])
  {
    assert copied in copied.Footprint();
    hide LogTarget.Value, LogTarget.Footprint;
  }

  /** Puts a copy of a definition under its name. */
  method CopyTarget(combined: map<Name, LogTarget>, name: Name, target: LogTarget, ghost mine: set<object>,
                     ghost values: map<Name, LogTargetValue>)
    returns (combined': map<Name, LogTarget>, ghost mine': set<object>)
    requires HoldsTargets(combined, mine, values)
    ensures forall o :: o in mine' ==> o in mine || fresh(o)
    ensures HoldsTargets(combined', mine', values[name := target.Value()])
  {
    hide HoldsTargets, LogTarget.Value, LogTarget.Footprint;
    var copied := target.Copy();
    mine' := mine + copied.Footprint();
    combined' := combined[name := copied];
    TargetsHoldMore(combined, name, copied, mine, values);
  }

  /** One definition on top of `combined`: merged in place if the name is known, else copied. */
  method AddTarget(combined: map<Name, LogTarget>, layerLabel: string, name: Name, target: LogTarget,
                    ghost mine: set<object>, ghost values: map<Name, LogTargetValue>)
    returns (r: Result<map<Name, LogTarget>>, ghost mine': set<object>)
    requires HoldsTargets(combined, mine, values)
    modifies mine
    ensures forall o :: o in mine' ==> o in mine || fresh(o)
    ensures r.Ok? <==> ValidOverride(old(target.override))
    ensures r.Ok? ==>
          HoldsTargets(r.value, mine',
                       values[name := AddDefinition(LOG_TARGET, Look(values, name), old(target.Value()))])
    ensures r.Err? ==> r.error == BadLogTarget(layerLabel, name)
  {
    mine' := mine;
    assert combined.Keys == values.Keys;
    hide HoldsTargets;
    if target.override == MERGE {
      if name in combined {
        mine' := MergeTarget(combined, name, target, mine, values);
        r := Ok(combined);
      } else {
        var c, mine2 := CopyTarget(combined, name, target, mine, values);
        r, mine' := Ok(c), mine2;
      }
    } else if target.override == REPLACE {
      var c, mine2 := CopyTarget(combined, name, target, mine, values);
      r, mine' := Ok(c), mine2;
    } else {
      r := Err(BadLogTarget(layerLabel, name));
    }
  }

  /** `m` is made of objects out of `theirs`, with the values given. */
  ghost predicate TargetsConsist(m: map<Name, LogTarget>, theirs: set<object>, values: map<Name, LogTargetValue>)
    reads theirs
  {
    && m.Keys == values.Keys
    && forall n :: n in m ==> m[n] in theirs && m[n].Footprint() <= theirs && m[n].Value() == values[n]
  }

  lemma TargetsConsistAt(m: map<Name, LogTarget>, theirs: set<object>, values: map<Name, LogTargetValue>, name: Name)
    requires TargetsConsist(m, theirs, values) && name in values
    ensures name in m && m[name].Value() == values[name] && m[name].override == LOG_TARGET.override(values[name])
  {
  }

  /** `combined` holds what there was and all definitions of `top` but those in `rest`, which were in order. */
  ghost predicate AddingTargets(combined: map<Name, LogTarget>, mine: set<object>, values: map<Name, LogTargetValue>,
                         top: map<Name, LogTargetValue>, rest: set<Name>)
    reads mine
  {
    HoldsTargets(combined, mine, AddSome(LOG_TARGET, values, top, rest)) && rest <= top.Keys
      && ValidSoFar(LOG_TARGET, top, rest)
  }

  lemma AddingTargetsStarts(combined: map<Name, LogTarget>, mine: set<object>, values: map<Name, LogTargetValue>,
                            top: map<Name, LogTargetValue>)
    requires HoldsTargets(combined, mine, values)
    ensures AddingTargets(combined, mine, values, top, top.Keys)
  {
    assert AddSome(LOG_TARGET, values, top, top.Keys) == values;
  }

  lemma AddingTargetsEnds(combined: map<Name, LogTarget>, mine: set<object>, values: map<Name, LogTargetValue>,
                          top: map<Name, LogTargetValue>)
    requires AddingTargets(combined, mine, values, top, {})
    ensures HoldsTargets(combined, mine, AddSome(LOG_TARGET, values, top, {})) && ValidEntries(LOG_TARGET, top)
  {
  }

  /** Adds one definition of a layer; those in `rest` are still to be added. */
  method AddNamedTarget(combined: map<Name, LogTarget>, layer: Layer, name: Name, ghost mine: set<object>,
                        ghost theirs: set<object>,
                  ghost values: map<Name, LogTargetValue>, ghost top: map<Name, LogTargetValue>, ghost rest: set<Name>)
    returns (r: Result<map<Name, LogTarget>>, ghost mine': set<object>)
    requires AddingTargets(combined, mine, values, top, rest) && TargetsConsist(layer.logTargets, theirs, top)
             && theirs !! mine
    requires name in rest && name in layer.logTargets
    modifies mine
    ensures forall o :: o in mine' ==> o in mine || fresh(o)
    ensures TargetsConsist(layer.logTargets, theirs, top) && theirs !! mine'
    ensures r.Ok? ==> AddingTargets(r.value, mine', values, top, rest - {name})
    ensures r.Err? ==> r.error.BadLogTarget? && Refused(LOG_TARGET, top, r.error.target)
  {
    TargetsConsistAt(layer.logTargets, theirs, top, name);
    ghost var v := AddSome(LOG_TARGET, values, top, rest);
    assert HoldsTargets(combined, mine, v) && rest <= top.Keys && ValidSoFar(LOG_TARGET, top, rest);
    hide HoldsTargets, AddingTargets, TargetsConsist, AddSome, ValidSoFar, ValidOverride;
    hide LogTarget.Value, LogTarget.Footprint, AddDefinition, Look;
    r, mine' := AddTarget(combined, layer.layerLabel, name, layer.logTargets[name], mine, v);
    if r.Ok? {
      AddingTargetsNext(r.value, mine', values, top, rest, name);
    } else {
      assert Refused(LOG_TARGET, top, name);
    }
  }

  lemma AddingTargetsNext(combined: map<Name, LogTarget>, mine: set<object>, values: map<Name, LogTargetValue>,
                   top: map<Name, LogTargetValue>, rest: set<Name>, name: Name)
    requires name in rest && rest <= top.Keys && ValidSoFar(LOG_TARGET, top, rest)
             && ValidOverride(LOG_TARGET.override(top[name]))
    requires var v := AddSome(LOG_TARGET, values, top, rest);
             HoldsTargets(combined, mine, v[name := AddDefinition(LOG_TARGET, Look(v, name), top[name])])
    ensures AddingTargets(combined, mine, values, top, rest - {name})
  {
    hide HoldsTargets;
    AddOne(LOG_TARGET, values, top, rest, name);
  }

  /** Adds the definitions `top` of one layer, merging in place into objects of `combined` only. */
  method AddTargets(combined: map<Name, LogTarget>, layer: Layer, ghost mine: set<object>, ghost theirs: set<object>,
                     ghost values: map<Name, LogTargetValue>, ghost top: map<Name, LogTargetValue>)
    returns (r: Result<map<Name, LogTarget>>, ghost mine': set<object>)
    requires HoldsTargets(combined, mine, values) && TargetsConsist(layer.logTargets, theirs, top) && theirs !! mine
    modifies mine
    ensures forall o :: o in mine' ==> o in mine || fresh(o)
    ensures r.Ok? <==> ValidEntries(LOG_TARGET, top)
    ensures r.Ok? ==> HoldsTargets(r.value, mine', AddSome(LOG_TARGET, values, top, {}))
    ensures r.Err? ==> r.error.BadLogTarget? && Refused(LOG_TARGET, top, r.error.target)
  {
    mine' := mine;
    var c := combined;
    var rest := layer.logTargets.Keys;
    assert top.Keys == rest;
    AddingTargetsStarts(c, mine, values, top);
    hide HoldsTargets, TargetsConsist, AddingTargets, AddSome, ValidEntries, Refused;
    while rest != {}
      invariant rest <= layer.logTargets.Keys
      invariant forall o :: o in mine' ==> o in mine || fresh(o)
      invariant theirs !! mine'
      invariant TargetsConsist(layer.logTargets, theirs, top)
      invariant AddingTargets(c, mine', values, top, rest)
      decreases rest
    {
      var name :| name in rest;
      var added, mine2 := AddNamedTarget(c, layer, name, mine', theirs, values, top, rest);
      mine' := mine2;
      if added.Err? {
        RefusedInvalid(LOG_TARGET, top, added.error.target);
        return Err(added.error), mine';
      }
      c := added.value;
      rest := rest - {name};
    }
    AddingTargetsEnds(c, mine', values, top);
    return Ok(c), mine';
  }

  // ---------- The whole of CombineLayers ----------

  ghost function ServicesIn(layers: seq<Layer>): set<Service> {
    set l, n | l in layers && n in l.services :: l.services[n]
  }

  ghost function TargetsIn(layers: seq<Layer>): set<LogTarget> {
    set l, n | l in layers && n in l.logTargets :: l.logTargets[n]
  }

  lemma ServicesGrow(layers: seq<Layer>)
    requires layers != []
    ensures var front, last := layers[..|layers| - 1], layers[|layers| - 1].services.Values;
            && ServicesIn(front) <= ServicesIn(layers) && last <= ServicesIn(layers)
            && ServiceObjects(ServicesIn(front)) <= ServiceObjects(ServicesIn(layers))
            && ServiceObjects(last) <= ServiceObjects(ServicesIn(layers))
  {
    var top := layers[|layers| - 1];
    assert forall n :: n in top.services ==> top.services[n] in ServicesIn(layers);
    hide Service.Footprint;
  }

  lemma TargetsGrow(layers: seq<Layer>)
    requires layers != []
    ensures var front, last := layers[..|layers| - 1], layers[|layers| - 1].logTargets.Values;
            && TargetsIn(front) <= TargetsIn(layers) && last <= TargetsIn(layers)
            && TargetObjects(TargetsIn(front)) <= TargetObjects(TargetsIn(layers))
            && TargetObjects(last) <= TargetObjects(TargetsIn(layers))
  {
    var top := layers[|layers| - 1];
    assert forall n :: n in top.logTargets ==> top.logTargets[n] in TargetsIn(layers);
    hide LogTarget.Footprint;
  }

  /** The services that the layers define, as values. */
  ghost function ServicesOf(layers: seq<Layer>): (r: seq<map<Name, ServiceValue>>)
    reads ServicesIn(layers), ServiceObjects(ServicesIn(layers))
    ensures |r| == |layers| && forall i :: 0 <= i < |r| ==> r[i] == ServiceValues(layers[i].services)
  {
    if layers == [] then [] else
      ServicesGrow(layers);
      ServicesOf(layers[..|layers| - 1]) + [ServiceValues(layers[|layers| - 1].services)]
  }

  ghost function TargetsOf(layers: seq<Layer>): (r: seq<map<Name, LogTargetValue>>)
    reads TargetsIn(layers), TargetObjects(TargetsIn(layers))
    ensures |r| == |layers| && forall i :: 0 <= i < |r| ==> r[i] == TargetValues(layers[i].logTargets)
  {
    if layers == [] then [] else
      TargetsGrow(layers);
      TargetsOf(layers[..|layers| - 1]) + [TargetValues(layers[|layers| - 1].logTargets)]
  }

  lemma ServicesConsist(layers: seq<Layer>, i: nat, theirs: set<object>)
    requires i < |layers| && ServiceObjects(ServicesIn(layers)) <= theirs
    ensures Consists(layers[i].services, theirs, ServicesOf(layers)[i])
  {
    var m := layers[i].services;
    assert ServicesOf(layers)[i] == ServiceValues(m);
    forall n | n in m
      ensures m[n] in theirs && m[n].Footprint() <= theirs
    {
      assert m[n] in ServicesIn(layers) && m[n] in m[n].Footprint();
      hide Service.Footprint;
      assert forall o :: o in m[n].Footprint() ==> o in ServiceObjects(ServicesIn(layers));
    }
  }

  lemma TargetsConsistToo(layers: seq<Layer>, i: nat, theirs: set<object>)
    requires i < |layers| && TargetObjects(TargetsIn(layers)) <= theirs
    ensures TargetsConsist(layers[i].logTargets, theirs, TargetsOf(layers)[i])
  {
    var m := layers[i].logTargets;
    assert TargetsOf(layers)[i] == TargetValues(m);
    forall n | n in m
      ensures m[n] in theirs && m[n].Footprint() <= theirs
    {
      assert m[n] in TargetsIn(layers) && m[n] in m[n].Footprint();
      hide LogTarget.Footprint;
      assert forall o :: o in m[n].Footprint() ==> o in TargetObjects(TargetsIn(layers));
    }
  }

  /** All names of the layers, combined. */
  function FoldAll<V>(kind: Kind<V>, layers: seq<map<Name, V>>): map<Name, V> {
    if layers == [] then map[] else AddSome(kind, FoldAll(kind, layers[..|layers| - 1]), layers[|layers| - 1], {})
  }

  lemma {:induction false} FoldAllIsCombined<V>(kind: Kind<V>, layers: seq<map<Name, V>>, name: Name)
    ensures Look(FoldAll(kind, layers), name) == Combined(kind, layers, name)
  {
    if layers != [] {
      FoldAllIsCombined(kind, layers[..|layers| - 1], name);
    }
  }

  lemma FoldAllNext<V>(kind: Kind<V>, layers: seq<map<Name, V>>, i: nat)
    requires i < |layers|
    ensures FoldAll(kind, layers[..i + 1]) == AddSome(kind, FoldAll(kind, layers[..i]), layers[i], {})
  {
    assert layers[..i + 1][..i] == layers[..i];
  }

  function SomeDefaulted(values: map<Name, ServiceValue>, rest: set<Name>): map<Name, ServiceValue> {
    map n | n in values :: if n in rest then values[n] else Defaulted(values[n])
  }

  /** Sets the defaults of one of several objects with footprints `feet` and the values given. */
  method SetDefaultsIn(combined: map<Name, Service>, name: Name, ghost values: map<Name, ServiceValue>,
                       ghost feet: map<Name, set<object>>)
    requires name in combined && combined.Keys == values.Keys == feet.Keys
    requires forall n :: n in combined ==> combined[n] in feet[n]
    requires forall n :: n in combined ==> combined[n].Footprint() == feet[n] && combined[n].Value() == values[n]
    requires forall n :: n in combined && n != name ==> feet[n] !! feet[name]
    modifies combined[name]
    ensures forall n :: n in combined && n != name ==>
                          combined[n].Footprint() == feet[n] && combined[n].Value() == values[n]
    ensures combined[name].Value() == Defaulted(values[name]) && combined[name].Footprint() == feet[name]
  {
    hide Service.Value, Defaulted;
    combined[name].SetDefaults();
    forall n | n in combined && n != name
      ensures combined[n].Footprint() == feet[n] && combined[n].Value() == values[n]
    {
      assert feet[n] !! feet[name];
    }
  }

  method SetDefaultsOf(combined: map<Name, Service>, name: Name, ghost mine: set<object>,
                       ghost values: map<Name, ServiceValue>)
    requires Holds(combined, mine, values) && name in combined
    modifies mine
    ensures Holds(combined, mine, values[name := Defaulted(values[name])])
  {
    hide Holds, Defaulted, Service.Value, Service.Footprint;
    ghost var feet := FeetOf(combined, mine, values);
    SetDefaultsIn(combined, name, values, feet);
    HoldsAgain(combined, name, mine, values, feet);
    assert mine + combined[name].Footprint() == mine;
  }

  lemma DefaultedNext(values: map<Name, ServiceValue>, rest: set<Name>, name: Name)
    requires name in rest && name in values
    ensures var v := SomeDefaulted(values, rest); SomeDefaulted(values, rest - {name}) == v[name := Defaulted(v[name])]
  {
  }

  method SetAllDefaults(combined: map<Name, Service>, ghost mine: set<object>, ghost values: map<Name, ServiceValue>)
    requires Holds(combined, mine, values)
    modifies mine
    ensures Holds(combined, mine, SomeDefaulted(values, {}))
  {
    var rest := combined.Keys;
    assert rest == values.Keys && SomeDefaulted(values, rest) == values;
    hide Holds, Defaulted;
    while rest != {}
      invariant rest <= combined.Keys == values.Keys
      invariant Holds(combined, mine, SomeDefaulted(values, rest))
      decreases rest
    {
      var name :| name in rest;
      DefaultedNext(values, rest, name);
      SetDefaultsOf(combined, name, mine, SomeDefaulted(values, rest));
      rest := rest - {name};
    }
  }

  /** The objects combined so far. */
  datatype Combination = Combination(services: map<Name, Service>, targets: map<Name, LogTarget>)

  /** The objects this call made: nothing else is written to. */
  datatype Own = Own(services: set<object>, targets: set<object>)

  ghost predicate HoldsBoth(c: Combination, own: Own, services: map<Name, ServiceValue>,
                            targets: map<Name, LogTargetValue>)
    reads own.services, own.targets
  {
    Holds(c.services, own.services, services) && HoldsTargets(c.targets, own.targets, targets)
      && own.services !! own.targets
  }

  method AddLayer(c: Combination, layer: Layer, ghost own: Own, ghost theirs: set<object>,
                  ghost vs: map<Name, ServiceValue>, ghost vt: map<Name, LogTargetValue>,
                  ghost ts: map<Name, ServiceValue>, ghost tt: map<Name, LogTargetValue>)
    returns (r: Result<Combination>, ghost own': Own)
    requires HoldsBoth(c, own, vs, vt)
    requires Consists(layer.services, theirs, ts) && TargetsConsist(layer.logTargets, theirs, tt)
    requires theirs !! own.services && theirs !! own.targets
    modifies own.services, own.targets
    ensures forall o :: o in own'.services ==> o in own.services || fresh(o)
    ensures forall o :: o in own'.targets ==> o in own.targets || fresh(o)
    ensures r.Ok? <==> ValidEntries(SERVICE, ts) && ValidEntries(LOG_TARGET, tt)
    ensures r.Ok? ==> HoldsBoth(r.value, own', AddSome(SERVICE, vs, ts, {}), AddSome(LOG_TARGET, vt, tt, {}))
    ensures r.Err? && r.error.BadService? ==> Refused(SERVICE, ts, r.error.service)
    ensures r.Err? && r.error.BadLogTarget? ==> Refused(LOG_TARGET, tt, r.error.target)
  {
    hide Holds, HoldsTargets, Consists, TargetsConsist, AddSome, ValidEntries, Refused;
    own' := own;
    var services, mineS := AddServices(c.services, layer, own.services, theirs, vs, ts);
    own' := Own(mineS, own.targets);
    if services.Err? {
      return Err(services.error), own';
    }
    var targets, mineT := AddTargets(c.targets, layer, own.targets, theirs, vt, tt);
    own' := Own(mineS, mineT);
    if targets.Err? {
      return Err(targets.error), own';
    }
    r := Ok(Combination(services.value, targets.value));
  }

  // ---------- CombineLayers ----------

  lemma AllValidNext<V>(kind: Kind<V>, layers: seq<map<Name, V>>, i: nat)
    requires i < |layers| && AllValid(kind, layers[..i])
    ensures AllValid(kind, layers[..i + 1]) <==> ValidEntries(kind, layers[i])
    ensures AllValid(kind, layers) ==> ValidEntries(kind, layers[i])
  {
  }

  /** `own` holds the combination of the first `i` layers. */
  ghost predicate Stacked(c: Combination, own: Own, ss: seq<map<Name, ServiceValue>>,
                          tt: seq<map<Name, LogTargetValue>>, i: nat)
    requires i <= |ss| && i <= |tt|
    reads own.services, own.targets
  {
    && HoldsBoth(c, own, FoldAll(SERVICE, ss[..i]), FoldAll(LOG_TARGET, tt[..i]))
    && AllValid(SERVICE, ss[..i]) && AllValid(LOG_TARGET, tt[..i])
  }

  /** Adds layer `i` to those below it. */
  method StackLayer(c: Combination, layer: Layer, ghost own: Own, ghost theirs: set<object>,
                    ghost ss: seq<map<Name, ServiceValue>>, ghost tt: seq<map<Name, LogTargetValue>>, ghost i: nat)
    returns (r: Result<Combination>, ghost own': Own)
    requires i < |ss| == |tt| && Stacked(c, own, ss, tt, i)
    requires Consists(layer.services, theirs, ss[i]) && TargetsConsist(layer.logTargets, theirs, tt[i])
    requires theirs !! own.services && theirs !! own.targets
    modifies own.services, own.targets
    ensures forall o :: o in own'.services ==> o in own.services || fresh(o)
    ensures forall o :: o in own'.targets ==> o in own.targets || fresh(o)
    ensures r.Ok? ==> Stacked(r.value, own', ss, tt, i + 1)
    ensures r.Err? ==> !(AllValid(SERVICE, ss) && AllValid(LOG_TARGET, tt))
  {
    hide HoldsBoth, FoldAll, AllValid, Consists, TargetsConsist, ValidEntries, Refused;
    FoldAllNext(SERVICE, ss, i);
    FoldAllNext(LOG_TARGET, tt, i);
    AllValidNext(SERVICE, ss, i);
    AllValidNext(LOG_TARGET, tt, i);
    r, own' := AddLayer(c, layer, own, theirs, FoldAll(SERVICE, ss[..i]), FoldAll(LOG_TARGET, tt[..i]), ss[i], tt[i]);
  }

  /** Stacks all layers, last on top, without the defaults. */
  method StackLayers(layers: seq<Layer>, ghost theirs: set<object>, ghost ss: seq<map<Name, ServiceValue>>,
                     ghost tt: seq<map<Name, LogTargetValue>>)
    returns (r: Result<Combination>, ghost own: Own)
    requires |ss| == |tt| == |layers|
    requires forall i :: 0 <= i < |layers| ==>
               Consists(layers[i].services, theirs, ss[i]) && TargetsConsist(layers[i].logTargets, theirs, tt[i])
    ensures forall o :: o in own.services ==> fresh(o)
    ensures forall o :: o in own.targets ==> fresh(o)
    ensures r.Ok? <==> AllValid(SERVICE, ss) && AllValid(LOG_TARGET, tt)
    ensures r.Ok? ==> Stacked(r.value, own, ss, tt, |layers|)
  {
    hide Stacked, HoldsBoth, FoldAll, AllValid, Consists, TargetsConsist;
    var c := Combination(map[], map[]);
    own := Own({}, {});
    NothingStacked(c, own, ss, tt);
    var i := 0;
    while i < |layers|
      invariant 0 <= i <= |layers|
      invariant forall o :: o in own.services ==> fresh(o)
      invariant forall o :: o in own.targets ==> fresh(o)
      invariant Stacked(c, own, ss, tt, i)
    {
      var next, own2 := StackLayer(c, layers[i], own, theirs, ss, tt, i);
      own := own2;
      if next.Err? {
        return Err(next.error), own;
      }
      c := next.value;
      i := i + 1;
    }
    AllStacked(c, own, ss, tt);
    r := Ok(c);
  }

  lemma NothingStacked(c: Combination, own: Own, ss: seq<map<Name, ServiceValue>>, tt: seq<map<Name, LogTargetValue>>)
    requires c == Combination(map[], map[]) && own == Own({}, {})
    ensures Stacked(c, own, ss, tt, 0)
  {
    assert ss[..0] == [] && tt[..0] == [];
  }

  lemma AllStacked(c: Combination, own: Own, ss: seq<map<Name, ServiceValue>>, tt: seq<map<Name, LogTargetValue>>)
    requires |ss| == |tt| && Stacked(c, own, ss, tt, |ss|)
    ensures Holds(c.services, own.services, FoldAll(SERVICE, ss))
            && HoldsTargets(c.targets, own.targets, FoldAll(LOG_TARGET, tt))
    ensures own.services !! own.targets && AllValid(SERVICE, ss) && AllValid(LOG_TARGET, tt)
  {
    assert ss[..|ss|] == ss && tt[..|tt|] == tt;
  }

  lemma HoldsValue(combined: map<Name, Service>, mine: set<object>, values: map<Name, ServiceValue>, n: Name)
    requires Holds(combined, mine, values)
    ensures Look(ServiceValues(combined), n) == Look(values, n)
    ensures n in combined ==> combined[n].Footprint() <= mine
  {
  }

  lemma HoldsTargetValue(combined: map<Name, LogTarget>, mine: set<object>, values: map<Name, LogTargetValue>, n: Name)
    requires HoldsTargets(combined, mine, values)
    ensures Look(TargetValues(combined), n) == Look(values, n)
    ensures n in combined ==> combined[n].Footprint() <= mine
  {
  }

  lemma Finished(ss: seq<map<Name, ServiceValue>>, values: map<Name, ServiceValue>, n: Name)
    requires values == SomeDefaulted(FoldAll(SERVICE, ss), {})
    ensures Look(values, n) == CombinedService(ss, n)
  {
    FoldAllIsCombined(SERVICE, ss, n);
  }

  /** No two entries share a table. */
  ghost predicate Separate(c: Combination)
    reads c.services.Values, c.targets.Values
  {
    && (forall m, n :: m in c.services && n in c.services && m != n ==>
        c.services[m].Footprint() !! c.services[n].Footprint())
    && (forall m, n :: m in c.targets && n in c.targets && m != n ==>
        c.targets[m].Footprint() !! c.targets[n].Footprint())
    && (forall m, n :: m in c.services && n in c.targets ==> c.services[m].Footprint() !! c.targets[n].Footprint())
  }

  lemma HeldSeparate(c: Combination, own: Own, services: map<Name, ServiceValue>, targets: map<Name, LogTargetValue>)
    requires Holds(c.services, own.services, services) && HoldsTargets(c.targets, own.targets, targets)
    requires own.services !! own.targets
    ensures Separate(c)
  {
    hide Service.Footprint, LogTarget.Footprint, Service.Value, LogTarget.Value;
  }

  /** Sets the defaults: the services and targets are then those of the combined layer. */
  method Finish(c: Combination, ghost own: Own, ghost ss: seq<map<Name, ServiceValue>>,
                ghost tt: seq<map<Name, LogTargetValue>>)
    requires |ss| == |tt| && Stacked(c, own, ss, tt, |ss|)
    modifies own.services
    ensures forall n :: n in c.services ==> c.services[n].Footprint() <= own.services
    ensures forall n :: n in c.targets ==> c.targets[n].Footprint() <= own.targets
    ensures Separate(c)
    ensures forall n :: Look(ServiceValues(c.services), n) == CombinedService(ss, n)
    ensures forall n :: Look(TargetValues(c.targets), n) == Combined(LOG_TARGET, tt, n)
  {
    hide Stacked, FoldAll, AllValid, Holds, HoldsTargets, SomeDefaulted, ServiceValues, TargetValues, Combined,
            CombinedService, Look;
    AllStacked(c, own, ss, tt);
    SetAllDefaults(c.services, own.services, FoldAll(SERVICE, ss));
    HeldSeparate(c, own, SomeDefaulted(FoldAll(SERVICE, ss), {}), FoldAll(LOG_TARGET, tt));
    forall n
      ensures n in c.services ==> c.services[n].Footprint() <= own.services
      ensures n in c.targets ==> c.targets[n].Footprint() <= own.targets
      ensures Look(ServiceValues(c.services), n) == CombinedService(ss, n)
      ensures Look(TargetValues(c.targets), n) == Combined(LOG_TARGET, tt, n)
    {
      HoldsValue(c.services, own.services, SomeDefaulted(FoldAll(SERVICE, ss), {}), n);
      Finished(ss, SomeDefaulted(FoldAll(SERVICE, ss), {}), n);
      HoldsTargetValue(c.targets, own.targets, FoldAll(LOG_TARGET, tt), n);
      FoldAllIsCombined(LOG_TARGET, tt, n);
    }
  }

  /** The combined layer holds, for each name, the fold of its definitions. Nothing that was there before is written
      to, no service, log target or table of the inputs, and nothing of it is part of the result. */
  method CombineLayers(layers: seq<Layer>) returns (r: Result<Layer>)
    ensures r.Ok? <==> AllValid(SERVICE, old(ServicesOf(layers))) && AllValid(LOG_TARGET, old(TargetsOf(layers)))
    ensures r.Ok? ==> forall n :: n in r.value.services ==> fresh(r.value.services[n].Footprint())
    ensures r.Ok? ==> forall n :: n in r.value.logTargets ==> fresh(r.value.logTargets[n].Footprint())
    ensures r.Ok? ==> Separate(Combination(r.value.services, r.value.logTargets))
    ensures r.Ok? ==>
              forall n :: Look(ServiceValues(r.value.services), n) == CombinedService(old(ServicesOf(layers)), n)
    ensures r.Ok? ==>
              forall n :: Look(TargetValues(r.value.logTargets), n) == Combined(LOG_TARGET, old(TargetsOf(layers)), n)
    ensures r.Ok? && layers != [] ==>
              r.value.summary == layers[|layers| - 1].summary && r.value.description == layers[|layers| - 1].description
  {
    hide AllValid, ServicesOf, TargetsOf, ServiceValues, TargetValues, Combined, CombinedService, Look, Stacked;
    ghost var ss, tt := ServicesOf(layers), TargetsOf(layers);
    ghost var theirs := ServiceObjects(ServicesIn(layers)) + TargetObjects(TargetsIn(layers));
    forall i | 0 <= i < |layers|
      ensures Consists(layers[i].services, theirs, ss[i]) && TargetsConsist(layers[i].logTargets, theirs, tt[i])
    {
      ServicesConsist(layers, i, theirs);
      TargetsConsistToo(layers, i, theirs);
    }
    var stacked, own := StackLayers(layers, theirs, ss, tt);
    if stacked.Err? {
      return Err(stacked.error);
    }
    var c := stacked.value;
    Finish(c, own, ss, tt);
    var summary, description := "", "";
    if |layers| > 0 {
      var last := layers[|layers| - 1];
      summary, description := last.summary, last.description;
    }
    r := Ok(Layer(0, "", summary, description, c.services, c.targets));
  }
}
