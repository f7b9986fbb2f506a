/** Applying a selection to a running instance: one transaction over the live configuration, a frozen snapshot and the
    published descriptor. */
module LiveSelection {
  import opened Base
  import opened Config
  import C = Catalog

  datatype Desired = Desired(generation: nat, selections: seq<C.Selection>)

  /** The exact input an instance can be restarted from. */
  datatype Frozen = Frozen(identity: Option<C.Active>, generation: nat, selections: seq<C.Selection>)

  datatype Descriptor = Descriptor(nonce: string, identity: Option<C.Active>, generation: nat, path: Option<string>)

  /** What a client sends: the choice and the authority it was made under. */
  datatype Request = Request(group: string, proxy: string, nonce: string, identity: C.Active, generation: nat)

  /** What happens outside: the catalog's desired state, if it could be read, and whether each file operation works. */
  datatype Surroundings = Surroundings(desired: Option<Option<Desired>>, observed: bool, locked: bool, loaded: bool, saved: bool, published: bool)

  datatype Result = Applied | Declined | Failed

  /** A selection list as a map; too many entries or a repeated group are refused. */
  function MapOf(sel: seq<C.Selection>, n: nat): Option<map<string, string>>
    requires n <= |sel|
  {
    if n == 0 then Some(map[])
    else
      var m :- MapOf(sel, n - 1);
      if sel[n - 1].group in m then None else Some(m[sel[n - 1].group := sel[n - 1].proxy])
  }

  function SelectionMap(sel: seq<C.Selection>): Option<map<string, string>> {
    if |sel| > C.MAX_SELECTIONS then None else MapOf(sel, |sel|)
  }

  method BuildMap(sel: seq<C.Selection>) returns (r: Option<map<string, string>>)
    ensures r == SelectionMap(sel)
    ensures r.Some? <==> |sel| <= C.MAX_SELECTIONS && Distinct(sel, |sel|)
    ensures r.Some? ==> Chooses(sel, |sel|, r.value)
  {
    SelectionMapMeaning(sel);
    if |sel| > C.MAX_SELECTIONS {
      return None;
    }
    var m := map[];
    var n := 0;
    while n < |sel|
      invariant n <= |sel| && MapOf(sel, n) == Some(m)
    {
      if sel[n].group in m {
        NoLater(sel, n + 1, |sel|);
        return None;
      }
      m := m[sel[n].group := sel[n].proxy];
      n := n + 1;
    }
    return Some(m);
  }

  lemma {:induction false} NoLater(sel: seq<C.Selection>, n: nat, m: nat)
    requires n <= m <= |sel| && MapOf(sel, n).None?
    ensures MapOf(sel, m).None?
    decreases m
  {
    if n < m {
      NoLater(sel, n, m - 1);
    }
  }

  ghost predicate Distinct(sel: seq<C.Selection>, n: nat)
    requires n <= |sel|
  {
    forall i, j :: 0 <= i < j < n ==> sel[i].group != sel[j].group
  }

  /** The map holds each named group's choice and nothing else. */
  ghost predicate Chooses(sel: seq<C.Selection>, n: nat, m: map<string, string>)
    requires n <= |sel|
  {
    && (forall i :: 0 <= i < n ==> sel[i].group in m && m[sel[i].group] == sel[i].proxy)
    && forall g :: g in m ==> exists i :: 0 <= i < n && sel[i].group == g
  }

  lemma {:induction false} MapMeaning(sel: seq<C.Selection>, n: nat)
    requires n <= |sel|
    ensures MapOf(sel, n).Some? <==> Distinct(sel, n)
    ensures MapOf(sel, n).Some? ==> Chooses(sel, n, MapOf(sel, n).value)
  {
    if n > 0 {
      MapMeaning(sel, n - 1);
      if MapOf(sel, n - 1).Some? {
        var m, group := MapOf(sel, n - 1).value, sel[n - 1].group;
        if group !in m {
          forall i, j | 0 <= i < j < n
            ensures sel[i].group != sel[j].group
          {
            assert i < n - 1 ==> sel[i].group in m;
          }
        }
      }
    }
  }

  /** A list is a map exactly when it is short enough and names no group twice; the map is then what it says. */
  lemma SelectionMapMeaning(sel: seq<C.Selection>)
    ensures SelectionMap(sel).Some? <==> |sel| <= C.MAX_SELECTIONS && Distinct(sel, |sel|)
    ensures SelectionMap(sel).Some? ==> Chooses(sel, |sel|, SelectionMap(sel).value)
  {
    MapMeaning(sel, |sel|);
  }

  /** Descriptor, snapshot and live selections tell the same story. */
  ghost predicate Agrees(plan: Plan, live: seq<nat>, d: Descriptor, disk: Descriptor, snapshots: map<string, Frozen>) {
    && plan.Edges().Closed() && disk == d && d.path.Some? && d.path.value in snapshots
    && var frozen := snapshots[d.path.value];
    && frozen.identity == d.identity && frozen.generation == d.generation
    && SelectionMap(frozen.selections).Some? && live == Chosen(plan, SelectionMap(frozen.selections).value)
  }

  /** Content names tell contents apart: no other snapshot has this one's name. */
  predicate Unclaimed(snapshots: map<string, Frozen>, name: string, frozen: Frozen) {
    name in snapshots ==> snapshots[name] == frozen
  }

  ghost predicate Rising(gs: seq<nat>) { forall i, j :: 0 <= i < j < |gs| ==> gs[i] < gs[j] }

  class Control {
    const config: Config
    const naming: Frozen -> string
    var descriptor: Descriptor
    var disk: Descriptor
    var snapshots: map<string, Frozen>
    var persisted: set<string>
    var stopped: bool
    ghost var generations: seq<nat>

    /** Holds whenever the control mutex is free. */
    ghost predicate Valid()
      reads this, config
    {
      && config.Valid() && generations != [] && Rising(generations) && generations[|generations| - 1] == descriptor.generation
      && (!stopped ==> Agrees(config.plan, config.selections, descriptor, disk, snapshots))
    }

    /** An instance begins in agreement with the snapshot it was started from. */
    constructor (config: Config, naming: Frozen -> string, nonce: string, frozen: Frozen, name: string)
      requires config.Valid() && SelectionMap(frozen.selections).Some?
      requires config.selections == Chosen(config.plan, SelectionMap(frozen.selections).value)
      ensures Valid() && this.config == config && !stopped && generations == [frozen.generation]
      ensures descriptor == Descriptor(nonce, frozen.identity, frozen.generation, Some(name))
    {
      this.config, this.naming := config, naming;
      descriptor := Descriptor(nonce, frozen.identity, frozen.generation, Some(name));
      disk := Descriptor(nonce, frozen.identity, frozen.generation, Some(name));
      snapshots := map[name := frozen];
      persisted, stopped := set s | s in frozen.selections :: s.group, false;
      generations := [frozen.generation];
    }

    /** Writes a content-named snapshot; an existing file of that name must hold the same content. */
    method SaveSnapshot(frozen: Frozen, works: bool) returns (name: Option<string>)
      modifies this`snapshots
      ensures name.Some? ==> snapshots == old(snapshots)[name.value := frozen] && (name.value in old(snapshots) ==> old(snapshots)[name.value] == frozen)
      ensures name.None? ==> snapshots == old(snapshots)
      ensures name == if works && old(Unclaimed(snapshots, naming(frozen), frozen)) then Some(naming(frozen)) else None
    {
      if !works || (naming(frozen) in snapshots && snapshots[naming(frozen)] != frozen) {
        return None;
      }
      snapshots := snapshots[naming(frozen) := frozen];
      return Some(naming(frozen));
    }

    /** The next generation's snapshot gets a name of its own. */
    ghost predicate Storable(generation: nat, selections: seq<C.Selection>)
      reads this
    {
      var frozen := Frozen(descriptor.identity, generation, selections);
      Unclaimed(snapshots, naming(frozen), frozen)
    }

    /** Everything around the transaction works and the desired selections fit the plan. */
    ghost predicate Works(around: Surroundings, request: Request)
      requires config.plan.Edges().Closed() && Wanted(around, request)
      reads this, config
    {
      var selections := around.desired.value.value.selections;
      && around.locked && around.loaded && around.saved && around.published && Storable(request.generation, selections)
      && SelectionMap(selections).Some? && Acceptable(config.plan, SelectionMap(selections).value)
    }

    /** The frozen input of the next generation, saved before anything live changes. */
    method Freeze(generation: nat, selections: seq<C.Selection>, around: Surroundings) returns (r: Option<string>)
      requires Agrees(config.plan, config.selections, descriptor, disk, snapshots) && generation > descriptor.generation
      modifies this`snapshots
      ensures Agrees(config.plan, config.selections, descriptor, disk, snapshots)
      ensures r.Some? ==>
                r.value in snapshots && r.value != descriptor.path.value &&
                snapshots[r.value] == Frozen(descriptor.identity, generation, selections)
      ensures r.Some? <==> around.observed && around.locked && around.loaded && around.saved && old(Storable(generation, selections))
    {
      hide SelectionMap, Chosen;
      if !around.locked || !around.observed || !around.loaded {
        return None;
      }
      var frozen := snapshots[descriptor.path.value];
      r := SaveSnapshot(frozen.(generation := generation, selections := selections), around.saved);
    }

    /** The transaction. Applied: all three parts move to the new generation together. Declined: nothing happens.
        Failed: descriptor and every node's leaf are as before, and a failed publication stops the instance. */
    method Select(request: Request, around: Surroundings) returns (r: Result)
      requires Valid()
      modifies this, config`selections
      ensures Valid()
      ensures r.Applied? ==>
                && !stopped && Addressed(old(descriptor), request) && Wanted(around, request)
                && descriptor.generation == request.generation > old(descriptor.generation)
                && descriptor.nonce == old(descriptor.nonce) && descriptor.identity == old(descriptor.identity)
                && generations == old(generations) + [request.generation]
                && SelectionMap(around.desired.value.value.selections).Some?
                && config.selections == Chosen(config.plan, SelectionMap(around.desired.value.value.selections).value)
      ensures r.Applied? <==> (!old(stopped) && around.observed && Addressed(old(descriptor), request) && Wanted(around, request)
                               && old(Works(around, request)))
      ensures r.Declined? ==> unchanged(this) && unchanged(config)
      ensures r.Declined? <==> (!old(stopped) && around.observed &&
                                (!Addressed(old(descriptor), request) || (around.desired.Some? && !Wanted(around, request))))
      ensures !r.Applied? ==>
                && descriptor == old(descriptor) && disk == old(disk) && generations == old(generations) && persisted == old(persisted)
                && (forall n :: config.plan.Leaf(config.selections, n) == old(config.plan.Leaf(config.selections, n)))
      ensures stopped && !old(stopped) ==> r.Failed? && !around.published
    {
      hide Rising, SelectionMap, Acceptable, Snapshot, Chosen;
      if stopped || !around.observed {
        return Failed;
      }
      if !Addressed(descriptor, request) {
        return Declined;
      }
      if around.desired.None? {
        return Failed;
      }
      if !Wanted(around, request) {
        return Declined;
      }
      var selections := around.desired.value.value.selections;
      var name := Freeze(request.generation, selections, around);
      if name.None? {
        return Failed;
      }
      var moved := Switch(selections, around.published);
      if !moved {
        return Failed;
      }
      disk := descriptor.(generation := request.generation, path := name);
      persisted := set s | s in selections :: s.group;
      snapshots := snapshots - {descriptor.path.value};
      descriptor := disk;
      RisingOn(generations, request.generation);
      generations := generations + [request.generation];
      return Applied;
    }

    /** Moves the live selections; if the publication that follows fails they go back to the same leaves. */
    method Switch(selections: seq<C.Selection>, published: bool) returns (moved: bool)
      requires config.Valid() && !stopped
      modifies config`selections, this`stopped
      ensures config.Valid() && (moved ==> published && !stopped) && (stopped ==> !published)
      ensures moved ==> SelectionMap(selections).Some? && config.selections == Chosen(config.plan, SelectionMap(selections).value)
      ensures !moved ==> forall n :: config.plan.Leaf(config.selections, n) == old(config.plan.Leaf(config.selections, n))
      ensures moved <==> published && SelectionMap(selections).Some? && Acceptable(config.plan, SelectionMap(selections).value)
      ensures !moved && !stopped ==> config.selections == old(config.selections)
    {
      hide SelectionMap, Chosen, Snapshot, Acceptable;
      var chosen := BuildMap(selections);
      if chosen.None? {
        return false;
      }
      var previous := config.Selected();
      ghost var before := config.selections;
      var ok := config.SetSelections(chosen.value);
      if !ok {
        return false;
      }
      if !published {
        RestoreKeepsLeaves(config.plan, config.order, before);
        var restored := config.SetSelections(previous);
        stopped := true;
        return false;
      }
      return true;
    }
  }

  /** The request is meant for this instance and is newer than what runs. */
  predicate Addressed(d: Descriptor, request: Request) {
    d.identity == Some(request.identity) && request.nonce == d.nonce && request.generation > d.generation
  }

  /** The catalog's desired state is exactly the one the client asks to apply. */
  predicate Wanted(around: Surroundings, request: Request) {
    && around.desired.Some? && around.desired.value.Some?
    && around.desired.value.value.generation == request.generation
    && C.Selection(request.group, request.proxy) in around.desired.value.value.selections
  }

  lemma RisingOn(gs: seq<nat>, g: nat)
    requires gs != [] && Rising(gs) && gs[|gs| - 1] < g
    ensures Rising(gs + [g])
  {
  }
}
