/** A parsed configuration: proxies, groups with their current selections, and the two ways
    of changing them. Selections change at run time; the graph never does. */
module Config {
  import opened Base
  import opened Groups

  const MAX_PROXIES := 4096
  const MAX_GROUPS := 1024

  datatype ProxyKind = Direct | Reject | Shadowsocks | AnyTls | Trojan
  datatype Proxy = Proxy(name: string, kind: ProxyKind, udp: bool)

  /** The proxy list may hold groups between the proxies. */
  datatype Listed = Node(proxy: Proxy) | Mixed(group: RawGroup)

  const BUILT_IN := [Proxy("DIRECT", Direct, true), Proxy("REJECT", Reject, false)]

  /** The immutable part, with the finishing order the cycle check found. */
  datatype Plan = Plan(proxies: seq<Proxy>, groups: seq<Group>) {
    function Edges(): Graph { Graph(|proxies|, seq(|groups|, i requires 0 <= i < |groups| => groups[i].members)) }

    function NodeName(n: nat): string
      requires n < |proxies| + |groups|
    {
      if n < |proxies| then proxies[n].name else groups[n - |proxies|].name
    }

    /** What construction establishes: unique names, known nonempty members, a finishing order. */
    ghost predicate Valid(done: seq<nat>) {
      && Edges().Closed() && |groups| <= MAX_GROUPS
      && (forall i :: 0 <= i < |groups| ==> groups[i].members != [])
      && (forall a, b :: 0 <= a < b < |proxies| + |groups| ==> NodeName(a) != NodeName(b))
      && Ordered(Edges(), done) && AllGroups(Edges(), done) && Distinct(done)
      && (forall n :: |proxies| <= n < |proxies| + |groups| ==> n in done)
    }

    /** One index per group, naming one of its members. */
    ghost predicate Selects(sel: seq<nat>) {
      |sel| == |groups| && forall i :: 0 <= i < |groups| ==> sel[i] < |groups[i].members|
    }

    /** One step from a group to its selected member; proxies stay. */
    function Next(sel: seq<nat>, n: nat): nat {
      if |proxies| <= n < |proxies| + |groups| && n - |proxies| < |sel| && sel[n - |proxies|] < |groups[n - |proxies|].members|
      then groups[n - |proxies|].members[sel[n - |proxies|]]
      else n
    }

    function Follow(sel: seq<nat>, n: nat, steps: nat): nat {
      if steps == 0 then n else Next(sel, Follow(sel, n, steps - 1))
    }

    /** Where a node leads under the current selections. */
    function Leaf(sel: seq<nat>, n: nat): nat { Follow(sel, n, |groups|) }
  }

  lemma {:induction false} FollowAdd(c: Plan, sel: seq<nat>, n: nat, a: nat, b: nat)
    ensures c.Follow(sel, n, a + b) == c.Follow(sel, c.Follow(sel, n, a), b)
    decreases b
  {
    if b > 0 {
      FollowAdd(c, sel, n, a, b - 1);
    }
  }

  lemma {:induction false} FollowLeaf(c: Plan, sel: seq<nat>, n: nat, steps: nat)
    requires n < |c.proxies|
    ensures c.Follow(sel, n, steps) == n
  {
    if steps > 0 {
      FollowLeaf(c, sel, n, steps - 1);
    }
  }

  /** A group at position `k` of the finishing order reaches a proxy within `k + 1` steps. */
  lemma {:induction false} Reaches(c: Plan, done: seq<nat>, sel: seq<nat>, k: nat)
    requires c.Valid(done) && c.Selects(sel) && k < |done|
    ensures c.Follow(sel, done[k], k + 1) < |c.proxies|
    decreases k
  {
    var next := c.Next(sel, done[k]);
    var group := done[k] - |c.proxies|;
    assert c.Edges().Members(done[k]) == c.groups[group].members;
    assert next == c.Edges().Members(done[k])[sel[group]];
    assert c.Follow(sel, done[k], 1) == next by { assert c.Follow(sel, done[k], 0) == done[k]; }
    FollowAdd(c, sel, done[k], 1, k);
    if next < |c.proxies| {
      FollowLeaf(c, sel, next, k);
    } else {
      var m :| 0 <= m < k && done[m] == next;
      Reaches(c, done, sel, m);
      FollowAdd(c, sel, next, m + 1, k - m - 1);
      FollowLeaf(c, sel, c.Follow(sel, next, m + 1), k - m - 1);
    }
  }

  /** Whatever is selected, every rule target leads to a proxy within as many steps as there are groups. */
  lemma LeafIsProxy(c: Plan, done: seq<nat>, sel: seq<nat>, n: nat)
    requires c.Valid(done) && c.Selects(sel) && n < |c.proxies| + |c.groups|
    ensures c.Leaf(sel, n) < |c.proxies|
  {
    if n < |c.proxies| {
      FollowLeaf(c, sel, n, |c.groups|);
    } else {
      assert n in done;
      var k :| 0 <= k < |done| && done[k] == n;
      GroupsBounded(c.Edges(), done);
      Reaches(c, done, sel, k);
      FollowAdd(c, sel, n, k + 1, |c.groups| - k - 1);
      FollowLeaf(c, sel, c.Follow(sel, n, k + 1), |c.groups| - k - 1);
    }
  }

  // ---------------------------------------------------------------- selecting by name

  function Position(names: seq<string>, name: string): (r: Option<nat>)
    ensures r.Some? ==> r.value < |names| && names[r.value] == name && name !in names[..r.value]
    ensures r.None? <==> name !in names
  {
    if names == [] then None
    else if names[0] == name then Some(0)
    else
      assert names == [names[0]] + names[1..];
      var rest := Position(names[1..], name);
      if rest.None? then None
      else
        assert names[..rest.value + 1] == [names[0]] + names[1..][..rest.value];
        Some(rest.value + 1)
  }

  function GroupNames(c: Plan): seq<string> { seq(|c.groups|, i requires 0 <= i < |c.groups| => c.groups[i].name) }

  function MemberNames(c: Plan, group: nat): seq<string>
    requires group < |c.groups| && c.Edges().Closed()
  {
    seq(|c.groups[group].members|, j requires 0 <= j < |c.groups[group].members| => MemberName(c, group, j))
  }

  function MemberName(c: Plan, group: nat, j: nat): string
    requires group < |c.groups| && c.Edges().Closed() && j < |c.groups[group].members|
  {
    assert c.Edges().edges[group][j] == c.groups[group].members[j];
    c.NodeName(c.groups[group].members[j])
  }

  datatype Choice = Choice(group: nat, member: nat)

  function Selection(c: Plan, group: string, proxy: string): (r: Option<Choice>)
    requires c.Edges().Closed()
    ensures r.Some? ==>
              && r.value.group < |c.groups| && c.groups[r.value.group].name == group
              && r.value.member < |c.groups[r.value.group].members|
              && MemberName(c, r.value.group, r.value.member) == proxy
  {
    var index :- Position(GroupNames(c), group);
    var member :- Position(MemberNames(c, index), proxy);
    Some(Choice(index, member))
  }

  /** The selections of the first `n` groups, by name. */
  function Snapshot(c: Plan, sel: seq<nat>, n: nat): (m: map<string, string>)
    requires c.Edges().Closed() && n <= |c.groups| && c.Selects(sel)
    ensures |m| <= n
  {
    if n == 0 then map[]
    else Snapshot(c, sel, n - 1)[c.groups[n - 1].name := MemberName(c, n - 1, sel[n - 1])]
  }

  ghost predicate Acceptable(c: Plan, snapshot: map<string, string>)
    requires c.Edges().Closed()
  {
    |snapshot| <= MAX_GROUPS && forall g :: g in snapshot ==> Selection(c, g, snapshot[g]).Some?
  }

  /** The member a snapshot selects for a group; an omitted group falls back to its first member. */
  function Entry(c: Plan, snapshot: map<string, string>, group: nat): nat
    requires c.Edges().Closed() && group < |c.groups|
  {
    if c.groups[group].name !in snapshot then 0
    else match Position(MemberNames(c, group), snapshot[c.groups[group].name])
      case Some(member) => member
      case None => 0
  }

  function Chosen(c: Plan, snapshot: map<string, string>): (sel: seq<nat>)
    requires c.Edges().Closed()
  {
    seq(|c.groups|, i requires 0 <= i < |c.groups| => Entry(c, snapshot, i))
  }

  lemma {:induction false} SnapshotAt(c: Plan, done: seq<nat>, sel: seq<nat>, n: nat, name: string)
    requires c.Valid(done) && c.Selects(sel) && n <= |c.groups|
    ensures name in Snapshot(c, sel, n) <==> exists i :: 0 <= i < n && c.groups[i].name == name
    ensures forall i :: 0 <= i < n && c.groups[i].name == name ==> Snapshot(c, sel, n)[name] == MemberName(c, i, sel[i])
    decreases n
  {
    if n > 0 {
      SnapshotAt(c, done, sel, n - 1, name);
      forall i | 0 <= i < n - 1 && c.groups[i].name == name
        ensures c.groups[n - 1].name != name
      {
        assert c.NodeName(|c.proxies| + i) != c.NodeName(|c.proxies| + n - 1);
      }
    }
  }

  /** Two selection states pick the same member node in every group. */
  ghost predicate Agree(c: Plan, a: seq<nat>, b: seq<nat>)
    requires c.Selects(a) && c.Selects(b)
  {
    forall i :: 0 <= i < |c.groups| ==> c.groups[i].members[a[i]] == c.groups[i].members[b[i]]
  }

  lemma {:induction false} AgreeFollow(c: Plan, a: seq<nat>, b: seq<nat>, n: nat, steps: nat)
    requires c.Selects(a) && c.Selects(b) && Agree(c, a, b)
    ensures c.Follow(a, n, steps) == c.Follow(b, n, steps)
  {
    if steps > 0 {
      AgreeFollow(c, a, b, n, steps - 1);
    }
  }

  lemma {:induction false} AgreeSnapshot(c: Plan, a: seq<nat>, b: seq<nat>, n: nat)
    requires c.Edges().Closed() && n <= |c.groups| && c.Selects(a) && c.Selects(b) && Agree(c, a, b)
    ensures Snapshot(c, a, n) == Snapshot(c, b, n)
  {
    if n > 0 {
      AgreeSnapshot(c, a, b, n - 1);
    }
  }

  /** A member's name gives back the member: the first position with that name holds the same node. */
  lemma FirstNamed(c: Plan, done: seq<nat>, group: nat, j: nat)
    requires c.Valid(done) && group < |c.groups| && j < |c.groups[group].members|
    ensures var r := Position(MemberNames(c, group), MemberName(c, group, j));
            r.Some? && r.value < |c.groups[group].members| && c.groups[group].members[r.value] == c.groups[group].members[j]
  {
    var names, name := MemberNames(c, group), MemberName(c, group, j);
    assert names[j] == name;
    var r := Position(names, name);
    var a, b := c.groups[group].members[r.value], c.groups[group].members[j];
    assert c.Edges().edges[group][r.value] == a && c.Edges().edges[group][j] == b;
    assert a < |c.proxies| + |c.groups| && b < |c.proxies| + |c.groups|;
    assert names[r.value] == c.NodeName(a);
    assert c.NodeName(a) == c.NodeName(b);
  }

  lemma GroupNamed(c: Plan, done: seq<nat>, i: nat)
    requires c.Valid(done) && i < |c.groups|
    ensures Position(GroupNames(c), c.groups[i].name) == Some(i)
  {
    assert GroupNames(c)[i] == c.groups[i].name;
    var r := Position(GroupNames(c), c.groups[i].name);
    assert c.NodeName(|c.proxies| + r.value) == c.NodeName(|c.proxies| + i);
  }

  lemma Restored(c: Plan, done: seq<nat>, sel: seq<nat>)
    requires c.Valid(done) && c.Selects(sel)
    ensures var snapshot := Snapshot(c, sel, |c.groups|);
            Acceptable(c, snapshot) && c.Selects(Chosen(c, snapshot)) && Agree(c, Chosen(c, snapshot), sel)
  {
    var snapshot := Snapshot(c, sel, |c.groups|);
    forall name | name in snapshot
      ensures Selection(c, name, snapshot[name]).Some?
    {
      SnapshotAt(c, done, sel, |c.groups|, name);
      var i :| 0 <= i < |c.groups| && c.groups[i].name == name;
      GroupNamed(c, done, i);
      FirstNamed(c, done, i, sel[i]);
    }
    forall i | 0 <= i < |c.groups|
      ensures var e := Entry(c, snapshot, i);
              e < |c.groups[i].members| && c.groups[i].members[e] == c.groups[i].members[sel[i]]
    {
      SnapshotAt(c, done, sel, |c.groups|, c.groups[i].name);
      FirstNamed(c, done, i, sel[i]);
    }
  }

  /** Restoring a snapshot of any selection state succeeds and keeps where every node leads, even when
      a group lists one member several times and the stored index changes. */
  lemma RestoreKeepsLeaves(c: Plan, done: seq<nat>, sel: seq<nat>)
    requires c.Valid(done) && c.Selects(sel)
    ensures var snapshot := Snapshot(c, sel, |c.groups|);
            && Acceptable(c, snapshot) && c.Selects(Chosen(c, snapshot))
            && (forall n :: c.Leaf(Chosen(c, snapshot), n) == c.Leaf(sel, n))
            && Snapshot(c, Chosen(c, snapshot), |c.groups|) == snapshot
  {
    Restored(c, done, sel);
    var next := Chosen(c, Snapshot(c, sel, |c.groups|));
    AgreeSnapshot(c, next, sel, |c.groups|);
    forall n
      ensures c.Leaf(next, n) == c.Leaf(sel, n)
    {
      AgreeFollow(c, next, sel, n, |c.groups|);
    }
  }

  /** A snapshot records exactly the member nodes in force: equal snapshots, equal routes. */
  lemma SnapshotDetermines(c: Plan, done: seq<nat>, a: seq<nat>, b: seq<nat>)
    requires c.Valid(done) && c.Selects(a) && c.Selects(b)
    ensures Snapshot(c, a, |c.groups|) == Snapshot(c, b, |c.groups|) <==> Agree(c, a, b)
  {
    if Agree(c, a, b) {
      AgreeSnapshot(c, a, b, |c.groups|);
    }
    if Snapshot(c, a, |c.groups|) == Snapshot(c, b, |c.groups|) {
      forall i | 0 <= i < |c.groups|
        ensures c.groups[i].members[a[i]] == c.groups[i].members[b[i]]
      {
        SnapshotAt(c, done, a, |c.groups|, c.groups[i].name);
        SnapshotAt(c, done, b, |c.groups|, c.groups[i].name);
        FirstNamed(c, done, i, a[i]);
        FirstNamed(c, done, i, b[i]);
      }
    }
  }

  lemma Filled(c: Plan, done: seq<nat>, snapshot: map<string, string>, name: string)
    requires c.Valid(done) && name in snapshot && Selection(c, name, snapshot[name]).Some?
    ensures var choice := Selection(c, name, snapshot[name]).value;
            && choice.member == Entry(c, snapshot, choice.group)
            && forall i :: 0 <= i < |c.groups| && c.groups[i].name == name ==> i == choice.group
  {
    forall i | 0 <= i < |c.groups| && c.groups[i].name == name
      ensures i == Selection(c, name, snapshot[name]).value.group
    {
      GroupNamed(c, done, i);
    }
  }

  /** What the selections hold while the groups named in `todo` are still to be filled in. */
  ghost predicate Filling(c: Plan, snapshot: map<string, string>, next: seq<nat>, todo: set<string>)
    requires c.Edges().Closed()
  {
    && |next| == |c.groups|
    && forall i :: 0 <= i < |next| ==> next[i] == if c.groups[i].name in todo then 0 else Entry(c, snapshot, i)
  }

  lemma FillStep(c: Plan, done: seq<nat>, snapshot: map<string, string>, next: seq<nat>, todo: set<string>, name: string)
    requires c.Valid(done) && Filling(c, snapshot, next, todo) && name in todo
    requires name in snapshot && Selection(c, name, snapshot[name]).Some?
    ensures var choice := Selection(c, name, snapshot[name]).value;
            Filling(c, snapshot, next[choice.group := choice.member], todo - {name})
  {
    Filled(c, done, snapshot, name);
    hide Selection, Entry;
  }

  lemma ChosenSelects(c: Plan, done: seq<nat>, snapshot: map<string, string>)
    requires c.Valid(done) && Acceptable(c, snapshot)
    ensures c.Selects(Chosen(c, snapshot))
  {
    forall i | 0 <= i < |c.groups|
      ensures Entry(c, snapshot, i) < |c.groups[i].members|
    {
      if c.groups[i].name in snapshot {
        Filled(c, done, snapshot, c.groups[i].name);
      }
    }
  }

  /** Checks every entry before anything is published. */
  method Validate(c: Plan, ghost done: seq<nat>, snapshot: map<string, string>) returns (r: Option<seq<nat>>)
    requires c.Valid(done) && |snapshot| <= MAX_GROUPS
    ensures r.Some? <==> Acceptable(c, snapshot)
    ensures r.Some? ==> r.value == Chosen(c, snapshot) && c.Selects(r.value)
  {
    var next: seq<nat> := seq(|c.groups|, _ => 0);
    var todo := snapshot.Keys;
    assert forall i :: 0 <= i < |next| ==> c.groups[i].name !in todo ==> Entry(c, snapshot, i) == 0;
    hide Selection, Entry;
    while todo != {}
      invariant todo <= snapshot.Keys && Filling(c, snapshot, next, todo)
      invariant forall g :: g in snapshot && g !in todo ==> Selection(c, g, snapshot[g]).Some?
      decreases |todo|
    {
      var name :| name in todo;
      var choice := Selection(c, name, snapshot[name]);
      if choice.None? {
        return None;
      }
      FillStep(c, done, snapshot, next, todo, name);
      next := next[choice.value.group := choice.value.member];
      todo := todo - {name};
    }
    assert next == Chosen(c, snapshot);
    ChosenSelects(c, done, snapshot);
    return Some(next);
  }

  // ---------------------------------------------------------------- the running configuration

  class Config {
    const plan: Plan
    var selections: seq<nat>
    ghost const order: seq<nat>

    ghost predicate Valid()
      reads this
    {
      plan.Valid(order) && plan.Selects(selections)
    }

    constructor (plan: Plan, ghost order: seq<nat>)
      requires plan.Valid(order)
      ensures Valid() && this.plan == plan && selections == seq(|plan.groups|, _ => 0)
    {
      this.plan := plan;
      this.order := order;
      selections := seq(|plan.groups|, _ => 0);
    }

    /** Follows selections from group to group; the bounded loop always ends at a proxy. */
    method ResolveProxy(start: nat) returns (leaf: nat)
      requires Valid() && start < |plan.proxies| + |plan.groups|
      ensures leaf == plan.Leaf(selections, start) && leaf < |plan.proxies|
    {
      leaf := start;
      var index, steps := start, 0;
      while steps <= |plan.groups|
        invariant steps <= |plan.groups| + 1
        invariant index == plan.Follow(selections, start, steps) && index < |plan.proxies| + |plan.groups|
        invariant steps > 0 ==> plan.Follow(selections, start, steps - 1) >= |plan.proxies|
        decreases |plan.groups| + 1 - steps
      {
        if index < |plan.proxies| {
          FollowAdd(plan, selections, start, steps, |plan.groups| - steps);
          FollowLeaf(plan, selections, index, |plan.groups| - steps);
          return index;
        }
        var group := index - |plan.proxies|;
        assert plan.Edges().edges[group][selections[group]] == plan.groups[group].members[selections[group]];
        index := plan.groups[group].members[selections[group]];
        steps := steps + 1;
      }
      LeafIsProxy(plan, order, selections, start);
      assert false;
    }

    method Selected() returns (snapshot: map<string, string>)
      requires Valid()
      ensures snapshot == Snapshot(plan, selections, |plan.groups|)
    {
      snapshot := map[];
      var n := 0;
      while n < |plan.groups|
        invariant n <= |plan.groups| && snapshot == Snapshot(plan, selections, n)
      {
        snapshot := snapshot[plan.groups[n].name := MemberName(plan, n, selections[n])];
        n := n + 1;
      }
    }

    /** All or nothing: an unacceptable snapshot changes no selection. */
    method SetSelections(snapshot: map<string, string>) returns (ok: bool)
      requires Valid()
      modifies this`selections
      ensures Valid() && (ok <==> Acceptable(plan, snapshot))
      ensures selections == if ok then Chosen(plan, snapshot) else old(selections)
    {
      if |snapshot| > MAX_GROUPS {
        return false;
      }
      var next := Validate(plan, order, snapshot);
      if next.None? {
        return false;
      }
      selections := next.value;
      return true;
    }

    method Select(group: string, proxy: string) returns (ok: bool)
      requires Valid()
      modifies this`selections
      ensures Valid() && (ok <==> Selection(plan, group, proxy).Some?)
      ensures !ok ==> selections == old(selections)
      ensures ok ==> var choice := Selection(plan, group, proxy).value;
                     selections == old(selections)[choice.group := choice.member]
      ensures ok ==> Snapshot(plan, selections, |plan.groups|) == old(Snapshot(plan, selections, |plan.groups|))[group := proxy]
    {
      var choice := Selection(plan, group, proxy);
      if choice.None? {
        return false;
      }
      forall i | 0 <= i < |plan.groups| && i != choice.value.group
        ensures plan.groups[i].name != plan.groups[choice.value.group].name
      {
        GroupNamed(plan, order, i);
      }
      SelectedSnapshot(plan, selections, choice.value, |plan.groups|);
      selections := selections[choice.value.group := choice.value.member];
      return true;
    }

    /** Construction succeeds exactly when there are not too many proxies and groups, every name is valid and unique,
        every group is declared properly with known members, and the group graph has no cycle, unselected edges
        included. */
    static method Build(entries: seq<Listed>, declared: seq<RawGroup>) returns (config: Config?, names: map<string, nat>)
      ensures config != null <==> Constructible(entries, declared)
      ensures config != null ==>
                && fresh(config) && config.Valid() && config.plan.proxies == ProxiesOf(entries)
                && |config.plan.groups| == |GroupsOf(entries)| + |declared|
                && Indexes(names, NodeNames(config.plan), |config.plan.proxies| + |config.plan.groups|)
    {
      hide Buildable, Indexes;
      config, names := null, map[];
      var proxies, groups := BUILT_IN, [];
      for n := 0 to |entries|
        invariant proxies == ProxiesOf(entries[..n]) && groups == GroupsOf(entries[..n]) && |proxies| <= MAX_PROXIES + 2
      {
        assert entries[..n + 1][..n] == entries[..n];
        match entries[n] {
          case Node(proxy) =>
            if |proxies| == MAX_PROXIES + 2 {
              MoreProxies(entries, n + 1);
              return;
            }
            proxies := proxies + [proxy];
          case Mixed(group) =>
            groups := groups + [group];
        }
      }
      assert entries[..|entries|] == entries;
      config, names := Assemble(proxies, groups + declared);
    }

    static method Assemble(proxies: seq<Proxy>, raw: seq<RawGroup>) returns (config: Config?, names: map<string, nat>)
      ensures config != null <==> Buildable(proxies, raw)
      ensures config != null ==>
                && fresh(config) && config.Valid() && config.plan.proxies == proxies
                && |config.plan.groups| == |raw|
                && Indexes(names, NodeNames(config.plan), |proxies| + |raw|)
    {
      config := null;
      names := map[];
      if |raw| > MAX_GROUPS {
        return;
      }
      var valid;
      valid, names := NameProxies(proxies);
      if !valid {
        return;
      }
      ghost var bare, order := names, [];
      ProxiesIndexed(Plan(proxies, []), |proxies|);
      var resolved;
      resolved, names, order := ResolveGroups(raw, names, |proxies|);
      if resolved.Err? {
        return;
      }
      var plan := Plan(proxies, resolved.groups);
      ProxiesIndexed(plan, |proxies|);
      PlanValid(plan, raw, bare, names, order);
      config := new Config(plan, order);
    }
  }

  // ---------------------------------------------------------------- construction

  function NameTable(proxies: seq<Proxy>, n: nat): map<string, nat>
    requires n <= |proxies|
  {
    if n == 0 then map[] else NameTable(proxies, n - 1)[proxies[n - 1].name := n - 1]
  }

  ghost predicate NamesOk(proxies: seq<Proxy>) {
    && (forall i :: 0 <= i < |proxies| ==> ValidName(proxies[i].name))
    && (forall i, j :: 0 <= i < j < |proxies| ==> proxies[i].name != proxies[j].name)
  }

  function ProxiesOf(entries: seq<Listed>): seq<Proxy> {
    if entries == [] then BUILT_IN
    else
      var last := entries[|entries| - 1];
      ProxiesOf(entries[..|entries| - 1]) + if last.Node? then [last.proxy] else []
  }

  function GroupsOf(entries: seq<Listed>): seq<RawGroup> {
    if entries == [] then []
    else
      var last := entries[|entries| - 1];
      GroupsOf(entries[..|entries| - 1]) + if last.Mixed? then [last.group] else []
  }

  lemma {:induction false} MoreProxies(entries: seq<Listed>, n: nat)
    requires n <= |entries|
    ensures |ProxiesOf(entries[..n])| <= |ProxiesOf(entries)|
    decreases |entries|
  {
    if n < |entries| {
      var front := entries[..|entries| - 1];
      assert front[..n] == entries[..n];
      MoreProxies(front, n);
    } else {
      assert entries[..n] == entries;
    }
  }

  ghost predicate Constructible(entries: seq<Listed>, declared: seq<RawGroup>) {
    |ProxiesOf(entries)| <= MAX_PROXIES + 2 && Buildable(ProxiesOf(entries), GroupsOf(entries) + declared)
  }

  ghost predicate Buildable(proxies: seq<Proxy>, raw: seq<RawGroup>) {
    && |raw| <= MAX_GROUPS && NamesOk(proxies)
    && var names := NameTable(proxies, |proxies|);
    && var full := Table(raw, names, |proxies|, |raw|);
    && Declarable(raw, names, |proxies|, |raw|) && Known(raw, full) && Acyclic(GraphOf(raw, full, |proxies|))
  }

  /** The table finds exactly the first `n` names, each at its own index. */
  ghost predicate Indexes(table: map<string, nat>, names: seq<string>, n: nat)
    requires n <= |names|
  {
    && (forall k :: 0 <= k < n ==> names[k] in table && table[names[k]] == k)
    && (forall name :: name in table ==> table[name] < n && names[table[name]] == name)
  }

  lemma Indexed(table: map<string, nat>, names: seq<string>, n: nat)
    requires n < |names| && Indexes(table, names, n) && names[n] !in table
    ensures Indexes(table[names[n] := n], names, n + 1)
  {
  }

  function NodeNames(c: Plan): (names: seq<string>)
    ensures |names| == |c.proxies| + |c.groups|
    ensures forall n :: 0 <= n < |names| ==> names[n] == c.NodeName(n)
  {
    seq(|c.proxies| + |c.groups|, n requires 0 <= n < |c.proxies| + |c.groups| => c.NodeName(n))
  }

  method NameProxies(proxies: seq<Proxy>) returns (ok: bool, names: map<string, nat>)
    ensures ok <==> NamesOk(proxies)
    ensures ok ==> names == NameTable(proxies, |proxies|)
  {
    hide ValidName;
    names := map[];
    ghost var all := NodeNames(Plan(proxies, []));
    var n := 0;
    while n < |proxies|
      invariant n <= |proxies| && names == NameTable(proxies, n) && Indexes(names, all, n)
      invariant forall i :: 0 <= i < n ==> ValidName(proxies[i].name)
    {
      if !ValidName(proxies[n].name) || proxies[n].name in names {
        return false, names;
      }
      Indexed(names, all, n);
      names := names[proxies[n].name := n];
      n := n + 1;
    }
    DistinctNames(Plan(proxies, []), names);
    forall i, j | 0 <= i < j < |proxies|
      ensures proxies[i].name != proxies[j].name
    {
      assert all[i] == proxies[i].name && all[j] == proxies[j].name;
    }
    return true, names;
  }

  lemma {:induction false} ProxiesIndexed(c: Plan, n: nat)
    requires NamesOk(c.proxies) && n <= |c.proxies|
    ensures Indexes(NameTable(c.proxies, n), NodeNames(c), n)
  {
    hide ValidName;
    if n > 0 {
      ProxiesIndexed(c, n - 1);
      Indexed(NameTable(c.proxies, n - 1), NodeNames(c), n - 1);
    }
  }

  lemma NoFaultAt(raw: seq<RawGroup>, names: map<string, nat>, leaves: nat, i: nat)
    requires Declarable(raw, names, leaves, |raw|) && i < |raw|
    ensures raw[i].name !in Table(raw, names, leaves, i) && raw[i].proxies != []
  {
    hide Table, ValidName;
    assert Fault(raw[i], Table(raw, names, leaves, i)).None?;
  }

  /** With all groups declared, the table maps each name to the node that bears it, and nothing else. */
  lemma {:induction false} GroupsIndexed(c: Plan, raw: seq<RawGroup>, names: map<string, nat>, n: nat)
    requires n <= |raw| == |c.groups| && Indexes(names, NodeNames(c), |c.proxies|)
    requires Declarable(raw, names, |c.proxies|, |raw|)
    requires forall i :: 0 <= i < n ==> c.groups[i].name == raw[i].name
    ensures Indexes(Table(raw, names, |c.proxies|, n), NodeNames(c), |c.proxies| + n)
  {
    hide Fault, Indexes, Declarable;
    if n > 0 {
      GroupsIndexed(c, raw, names, n - 1);
      var table := Table(raw, names, |c.proxies|, n - 1);
      NoFaultAt(raw, names, |c.proxies|, n - 1);
      assert NodeNames(c)[|c.proxies| + n - 1] == raw[n - 1].name;
      Indexed(table, NodeNames(c), |c.proxies| + n - 1);
    }
  }

  lemma DistinctNames(c: Plan, table: map<string, nat>)
    requires Indexes(table, NodeNames(c), |c.proxies| + |c.groups|)
    ensures forall a, b :: 0 <= a < b < |c.proxies| + |c.groups| ==> c.NodeName(a) != c.NodeName(b)
  {
    var names := NodeNames(c);
    forall a, b | 0 <= a < b < |names|
      ensures c.NodeName(a) != c.NodeName(b)
    {
      assert table[names[a]] != table[names[b]];
    }
  }

  lemma GraphMatches(c: Plan, raw: seq<RawGroup>, table: map<string, nat>)
    requires |c.groups| == |raw| && Known(raw, table)
    requires forall i :: 0 <= i < |raw| ==> c.groups[i].members == EdgesOf(raw[i], table)
    ensures c.Edges() == GraphOf(raw, table, |c.proxies|)
  {
  }

  lemma PlanValid(c: Plan, raw: seq<RawGroup>, names: map<string, nat>, full: map<string, nat>, order: seq<nat>)
    requires |c.groups| == |raw| <= MAX_GROUPS && Indexes(names, NodeNames(c), |c.proxies|)
    requires full == Table(raw, names, |c.proxies|, |raw|) && Declarable(raw, names, |c.proxies|, |raw|) && Known(raw, full)
    requires var g := GraphOf(raw, full, |c.proxies|);
             && g.Closed() && Ordered(g, order) && AllGroups(g, order) && Distinct(order)
             && (forall n :: g.leaves <= n < g.Total() ==> n in order)
             && forall i :: 0 <= i < |raw| ==> c.groups[i] == Group(raw[i].name, g.edges[i])
    ensures c.Valid(order) && Indexes(full, NodeNames(c), |c.proxies| + |c.groups|)
  {
    hide Declarable, Ordered, AllGroups, Distinct, Indexes, Table;
    GraphMatches(c, raw, full);
    GroupsIndexed(c, raw, names, |raw|);
    DistinctNames(c, full);
    forall i | 0 <= i < |c.groups|
      ensures c.groups[i].members != []
    {
      NoFaultAt(raw, names, |c.proxies|, i);
      assert |EdgesOf(raw[i], full)| == |raw[i].proxies|;
    }
  }

  lemma Reorder(m: map<string, string>, a: string, x: string, b: string, y: string)
    requires a != b
    ensures m[a := x][b := y] == m[b := y][a := x]
  {
  }

  /** Selecting one member changes one entry of the snapshot. */
  lemma {:induction false} SelectedSnapshot(c: Plan, sel: seq<nat>, choice: Choice, n: nat)
    requires c.Edges().Closed() && c.Selects(sel) && n <= |c.groups|
    requires choice.group < |c.groups| && choice.member < |c.groups[choice.group].members|
    requires forall i :: 0 <= i < |c.groups| && i != choice.group ==> c.groups[i].name != c.groups[choice.group].name
    ensures c.Selects(sel[choice.group := choice.member])
    ensures Snapshot(c, sel[choice.group := choice.member], n) ==
      if choice.group < n then Snapshot(c, sel, n)[c.groups[choice.group].name := MemberName(c, choice.group, choice.member)]
      else Snapshot(c, sel, n)
  {
    if n > 0 {
      SelectedSnapshot(c, sel, choice, n - 1);
      if choice.group < n - 1 {
        Reorder(Snapshot(c, sel, n - 1), c.groups[choice.group].name, MemberName(c, choice.group, choice.member),
                c.groups[n - 1].name, MemberName(c, n - 1, sel[n - 1]));
      }
    }
  }
}
