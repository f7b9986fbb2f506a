/** A process that is not disturbed finishes what it begins: an admitted operation ends in its commit. */
module StoreProgress {
  import opened Base
  import opened Catalog
  import opened Store
  import opened StoreSafety

  lemma {:induction false} RunConcat(w: World, s: State, a: seq<Event>, b: seq<Event>)
    ensures Run(w, s, a + b) == Run(w, Run(w, s, a), b)
    decreases |b|
  {
    hide Next;
    if b == [] {
      assert a + b == a;
    } else {
      var all, front := a + b, b[..|b| - 1];
      assert all[..|all| - 1] == a + front && all[|all| - 1] == b[|b| - 1];
      RunConcat(w, s, a, front);
    }
  }

  lemma RunOne(w: World, s: State, p: nat, a: Action)
    ensures Run(w, s, [Event(p, a)]) == Next(w, s, p, a)
  {
    hide Next;
    var one := [Event(p, a)];
    assert one[..0] == [] && Run(w, s, []) == s;
  }

  lemma RunThen(w: World, s: State, events: seq<Event>, p: nat, a: Action)
    ensures Run(w, s, events + [Event(p, a)]) == Next(w, Run(w, s, events), p, a)
  {
    hide Next;
    RunConcat(w, s, events, [Event(p, a)]);
    RunOne(w, Run(w, s, events), p, a);
  }

  /** Every event is a step of this process. */
  ghost predicate Own(events: seq<Event>, p: nat) { forall i :: 0 <= i < |events| ==> events[i].proc == p }

  // ---------------------------------------------------------------- one publication

  function LayoutOf(pub: Pub): seq<Part> { Layout(pub.key, pub.revision, pub.bundle) }

  /** The state with this much of the first publication staged. */
  function Staged(s: State, nonce: nat, parts: seq<Part>): State {
    s.(disk := s.disk.(staging := s.disk.staging[nonce := Staging(parts, false)]))
  }

  /** Writing one more part. */
  lemma WriteOne(w: World, s: State, p: nat, nonce: nat, k: nat)
    requires s.Proc(p).Working? && s.Proc(p).pubs != [] && s.Proc(p).stage == Some(nonce)
    requires k < |LayoutOf(s.Proc(p).pubs[0])|
    ensures var layout := LayoutOf(s.Proc(p).pubs[0]);
            Next(w, Next(w, Staged(s, nonce, layout[..k]), p, StartWrite), p, EndWrite) == Staged(s, nonce, layout[..k + 1])
  {
    var layout := LayoutOf(s.Proc(p).pubs[0]);
    hide Layout;
    var a := Staged(s, nonce, layout[..k]);
    assert layout[..k] + [layout[k]] == layout[..k + 1];
    var b := Next(w, a, p, StartWrite);
    assert b == s.(disk := s.disk.(staging := s.disk.staging[nonce := Staging(layout[..k], true)]));
    assert Next(w, b, p, EndWrite) == Staged(s, nonce, layout[..k + 1]);
  }

  lemma {:induction false} WriteAll(w: World, s: State, p: nat, nonce: nat, k: nat) returns (events: seq<Event>)
    requires s.Proc(p).Working? && s.Proc(p).pubs != [] && s.Proc(p).stage == Some(nonce)
    requires k <= |LayoutOf(s.Proc(p).pubs[0])|
    ensures Own(events, p)
    ensures var layout := LayoutOf(s.Proc(p).pubs[0]);
            Run(w, Staged(s, nonce, layout[..k]), events) == Staged(s, nonce, layout)
    decreases |LayoutOf(s.Proc(p).pubs[0])| - k
  {
    hide Next, LayoutOf, Staged;
    var layout := LayoutOf(s.Proc(p).pubs[0]);
    events := [];
    if k == |layout| {
      assert layout[..k] == layout && Run(w, Staged(s, nonce, layout), []) == Staged(s, nonce, layout);
    } else {
      var rest := WriteAll(w, s, p, nonce, k + 1);
      var two := [Event(p, StartWrite)] + [Event(p, EndWrite)];
      var a := Staged(s, nonce, layout[..k]);
      RunOne(w, a, p, StartWrite);
      RunThen(w, a, [Event(p, StartWrite)], p, EndWrite);
      WriteOne(w, s, p, nonce, k);
      RunConcat(w, a, two, rest);
      events := two + rest;
    }
  }

  /** Nothing stands in the way of a publication: its directory is free or its own, and its revision absent or readable. */
  predicate Clear(w: World, d: Disk, pub: Pub) {
    && (w.storage(pub.key) in d.identities ==> d.identities[w.storage(pub.key)] == pub.key)
    && (PathOf(w, pub.key, pub.revision) in d.revisions ==> Read(w, d, pub.key, pub.revision).Some?)
  }

  /** What a finished publication leaves: its own revision readable, nothing else touched. */
  ghost predicate Published(w: World, s: State, t: State, p: nat, nonce: nat)
    requires s.Proc(p).Working? && s.Proc(p).pubs != []
  {
    var pub := s.Proc(p).pubs[0];
    var path := PathOf(w, pub.key, pub.revision);
    && t.Proc(p) == s.Proc(p).(pubs := s.Proc(p).pubs[1..]) && t.log == s.log && t.disk.authority == s.disk.authority
    && t.disk.lock == s.disk.lock && (nonce !in s.disk.staging ==> nonce !in t.disk.staging)
    && t.disk.identities == s.disk.identities[w.storage(pub.key) := pub.key]
    && (t.disk.revisions == s.disk.revisions || t.disk.revisions == s.disk.revisions[path := LayoutOf(pub)])
    && Read(w, t.disk, pub.key, pub.revision).Some?
  }

  function Identity(w: World, s: State, pub: Pub): State {
    s.(disk := s.disk.(identities := s.disk.identities[w.storage(pub.key) := pub.key]))
  }

  lemma Identifies(w: World, s: State, p: nat)
    requires s.Proc(p).Working? && s.Proc(p).pubs != [] && Clear(w, s.disk, s.Proc(p).pubs[0])
    ensures Next(w, s, p, Identify) == Identity(w, s, s.Proc(p).pubs[0])
    ensures var pub := s.Proc(p).pubs[0];
            Identified(w, Identity(w, s, pub).disk, pub.key) && Identity(w, s, pub).Proc(p) == s.Proc(p)
  {
    hide Read;
    var pub := s.Proc(p).pubs[0];
    var storage := w.storage(pub.key);
    if storage in s.disk.identities {
      assert s.disk.identities[storage := pub.key] == s.disk.identities;
    }
  }

  lemma Reuses(w: World, s: State, p: nat, nonce: nat) returns (events: seq<Event>)
    requires s.Proc(p).Working? && s.Proc(p).pubs != [] && s.Proc(p).stage.None? && Clear(w, s.disk, s.Proc(p).pubs[0])
    requires PathOf(w, s.Proc(p).pubs[0].key, s.Proc(p).pubs[0].revision) in s.disk.revisions
    ensures Own(events, p)
    ensures Published(w, s, Run(w, s, events), p, nonce)
  {
    hide LayoutOf, Layout, Decode, StoredKey;
    var pub := s.Proc(p).pubs[0];
    Identifies(w, s, p);
    events := [Event(p, Identify)] + [Event(p, Reuse)];
    RunOne(w, s, p, Identify);
    RunThen(w, s, [Event(p, Identify)], p, Reuse);
    var a := Identity(w, s, pub);
    assert Read(w, a.disk, pub.key, pub.revision).Some?;
    assert Next(w, a, p, Reuse) == Put(a, p, a.Proc(p).(pubs := a.Proc(p).pubs[1..]));
  }

  lemma Installs(w: World, s: State, p: nat, nonce: nat)
    requires s.Proc(p).Working? && s.Proc(p).pubs != [] && s.Proc(p).stage == Some(nonce)
    requires PathOf(w, s.Proc(p).pubs[0].key, s.Proc(p).pubs[0].revision) !in s.disk.revisions
    ensures var pub := s.Proc(p).pubs[0];
            var t := Next(w, Staged(s, nonce, LayoutOf(pub)), p, Install);
            && t.Proc(p) == s.Proc(p).(pubs := s.Proc(p).pubs[1..], stage := None) && t.log == s.log
            && t.disk == s.disk.(revisions := s.disk.revisions[PathOf(w, pub.key, pub.revision) := LayoutOf(pub)],
                                 staging := s.disk.staging - {nonce})
  {
    var pub := s.Proc(p).pubs[0];
    var layout := LayoutOf(pub);
    assert layout == Layout(pub.key, pub.revision, pub.bundle);
    hide Layout;
    assert s.disk.staging[nonce := Staging(layout, false)] - {nonce} == s.disk.staging - {nonce};
  }

  lemma Opens(w: World, s: State, p: nat, nonce: nat)
    requires s.Proc(p).Working? && s.Proc(p).pubs != [] && s.Proc(p).stage.None? && nonce !in s.disk.staging
    requires var pub := s.Proc(p).pubs[0]; Identified(w, s.disk, pub.key) && PathOf(w, pub.key, pub.revision) !in s.disk.revisions
    ensures Next(w, s, p, Open(nonce)) == Staged(Put(s, p, s.Proc(p).(stage := Some(nonce))), nonce, [])
  {
  }

  lemma Writes(w: World, s: State, p: nat, nonce: nat) returns (events: seq<Event>)
    requires s.Proc(p).Working? && s.Proc(p).pubs != [] && s.Proc(p).stage.None? && Clear(w, s.disk, s.Proc(p).pubs[0])
    requires var pub := s.Proc(p).pubs[0];
             StoredKey(pub.key) && pub.revision == w.revision(pub.key, pub.bundle) && PathOf(w, pub.key, pub.revision) !in s.disk.revisions
    requires nonce !in s.disk.staging
    ensures Own(events, p)
    ensures Published(w, s, Run(w, s, events), p, nonce)
  {
    var pub := s.Proc(p).pubs[0];
    var layout := LayoutOf(pub);
    hide StoredKey, Read, Next, Staged, LayoutOf;
    Identifies(w, s, p);
    var a := Identity(w, s, pub);
    var b := Put(a, p, a.Proc(p).(stage := Some(nonce)));
    Opens(w, a, p, nonce);
    assert b.Proc(p) == s.Proc(p).(stage := Some(nonce)) && layout[..0] == [];
    var body := WriteAll(w, b, p, nonce, 0);
    Installs(w, b, p, nonce);
    var begin := [Event(p, Identify)] + [Event(p, Open(nonce))];
    RunOne(w, s, p, Identify);
    RunThen(w, s, [Event(p, Identify)], p, Open(nonce));
    RunConcat(w, s, begin, body);
    RunThen(w, s, begin + body, p, Install);
    events := begin + body + [Event(p, Install)];
    var t := Run(w, s, events);
    LayoutSame(pub);
    InstallReads(w, a.disk, t.disk, pub, layout);
  }

  lemma LayoutSame(pub: Pub)
    ensures LayoutOf(pub) == Layout(pub.key, pub.revision, pub.bundle)
  {
  }

  // ---------------------------------------------------------------- all publications

  /** Different keys of one change have different directories. */
  ghost predicate Separate(w: World, pubs: seq<Pub>) {
    forall a, b :: a in pubs && b in pubs && w.storage(a.key) == w.storage(b.key) ==> a.key == b.key
  }

  ghost predicate AllClear(w: World, d: Disk, pubs: seq<Pub>) {
    (forall pub :: pub in pubs ==> Clear(w, d, pub)) && Separate(w, pubs)
  }

  ghost predicate WellNamed(w: World, pubs: seq<Pub>) {
    forall pub :: pub in pubs ==> StoredKey(pub.key) && pub.revision == w.revision(pub.key, pub.bundle)
  }

  /** Finishing one publication keeps the way clear for the others. */
  lemma ClearNext(w: World, s: State, t: State, p: nat, nonce: nat, pub: Pub)
    requires s.Proc(p).Working? && s.Proc(p).pubs != [] && Published(w, s, t, p, nonce) && Grows(s.disk, t.disk)
    requires Clear(w, s.disk, pub) && (w.storage(pub.key) == w.storage(s.Proc(p).pubs[0].key) ==> pub.key == s.Proc(p).pubs[0].key)
    ensures Clear(w, t.disk, pub)
  {
    hide Read, LayoutOf, Grows;
    var path := PathOf(w, pub.key, pub.revision);
    if path in s.disk.revisions {
      ReadGrows(w, s.disk, t.disk, pub.key, pub.revision);
    }
  }

  lemma PublishNext(w: World, s: State, p: nat, nonce: nat) returns (events: seq<Event>)
    requires s.Proc(p).Working? && s.Proc(p).pubs != [] && s.Proc(p).stage.None? && nonce !in s.disk.staging
    requires AllClear(w, s.disk, s.Proc(p).pubs) && WellNamed(w, s.Proc(p).pubs)
    ensures Own(events, p)
    ensures var t := Run(w, s, events);
            Published(w, s, t, p, nonce) && AllClear(w, t.disk, t.Proc(p).pubs) && WellNamed(w, t.Proc(p).pubs)
  {
    hide Read, StoredKey, LayoutOf, Run, Grows, Clear;
    var pubs := s.Proc(p).pubs;
    var pub := pubs[0];
    assert pub in pubs;
    if PathOf(w, pub.key, pub.revision) in s.disk.revisions {
      events := Reuses(w, s, p, nonce);
    } else {
      events := Writes(w, s, p, nonce);
    }
    RevisionsImmutable(w, s, events);
    var t := Run(w, s, events);
    forall other | other in pubs[1..]
      ensures Clear(w, t.disk, other)
    {
      assert other in pubs;
      ClearNext(w, s, t, p, nonce, other);
    }
  }

  lemma {:induction false} PublishAll(w: World, s: State, p: nat, nonce: nat) returns (events: seq<Event>)
    requires s.Proc(p).Working? && s.Proc(p).stage.None? && nonce !in s.disk.staging
    requires AllClear(w, s.disk, s.Proc(p).pubs) && WellNamed(w, s.Proc(p).pubs)
    ensures Own(events, p)
    ensures var t := Run(w, s, events);
            && t.Proc(p) == s.Proc(p).(pubs := []) && t.log == s.log && t.disk.authority == s.disk.authority
            && t.disk.lock == s.disk.lock
    decreases |s.Proc(p).pubs|
  {
    hide AllClear, WellNamed, Next, Read;
    events := [];
    if s.Proc(p).pubs == [] {
      assert Run(w, s, []) == s;
    } else {
      var first := PublishNext(w, s, p, nonce);
      var rest := PublishAll(w, Run(w, s, first), p, nonce);
      RunConcat(w, s, first, rest);
      events := first + rest;
    }
  }

  // ---------------------------------------------------------------- a whole operation

  lemma PubsNamed(w: World, op: Op, seen: Option<Bundle>, c: Catalog, pub: Pub)
    requires Apply(w, op, seen, c).Some? && pub in Apply(w, op, seen, c).value.pubs
    ensures exists p :: p in Apply(w, op, seen, c).value.catalog.profiles && p.key == pub.key
  {
    hide ValidKey, StoredKey, SelectionsOk, Retained;
    var change := Apply(w, op, seen, c).value;
    var profiles := change.catalog.profiles;
    if op.Takeover? {
      var i :| 0 <= i < |change.pubs| && change.pubs[i] == pub;
      assert profiles[i] in profiles;
    } else if op.Publish? {
      var at := Find(c.profiles, op.key);
      assert profiles[if at.Some? then at.value else |c.profiles|] in profiles;
    } else if op.Rename? {
      assert profiles[Find(c.profiles, op.key).value] in profiles;
    }
  }

  lemma PlanNamed(w: World, d: Disk, op: Op, token: Option<Token>)
    requires Plan(w, d, op, token).Some?
    ensures WellNamed(w, Plan(w, d, op, token).value.pubs)
  {
    hide Apply, Committed, Read, StoredKey, Admits;
    var proc := Plan(w, d, op, token).value;
    HeadsCovered(w, op, proc.seen, BaseOf(d.authority));
    CommittedKeys(w, proc.change);
    forall pub | pub in proc.pubs
      ensures StoredKey(pub.key) && pub.revision == w.revision(pub.key, pub.bundle)
    {
      PubsNamed(w, op, proc.seen, BaseOf(d.authority), pub);
    }
  }

  /** The steps from beginning an operation to having decided on it. */
  lemma Begins(w: World, s: State, p: nat, op: Op, token: Option<Token>) returns (events: seq<Event>)
    requires s.Proc(p).Idle? && s.disk.lock.None? && Plan(w, s.disk, op, token).Some?
    ensures Own(events, p)
    ensures var t := Run(w, s, events);
            && t.disk == s.disk.(lock := Some(p)) && t.log == s.log && t.Proc(p) == Plan(w, s.disk, op, token).value
  {
    hide Run;
    var begin := [Event(p, Begin(op, token))];
    var acquire := begin + [Event(p, Acquire)];
    events := acquire + [Event(p, Load)];
    RunOne(w, s, p, Begin(op, token));
    RunThen(w, s, begin, p, Acquire);
    RunThen(w, s, acquire, p, Load);
    var a := Run(w, s, acquire);
    assert a.disk == s.disk.(lock := Some(p)) && a.Proc(p) == Locked(op, token) && a.log == s.log;
    PlanLock(w, s.disk, op, token, Some(p));
    hide Plan;
  }

  /** Who holds the lock does not matter to what is decided. */
  lemma PlanLock(w: World, d: Disk, op: Op, token: Option<Token>, lock: Option<nat>)
    ensures Plan(w, d.(lock := lock), op, token) == Plan(w, d, op, token)
  {
    hide Apply, Committed, Admits, StoredKey, Layout;
    assert SeenBy(w, d.(lock := lock), op) == SeenBy(w, d, op);
    var e := d.(lock := lock);
    forall pub: Pub | true
      ensures Read(w, e, pub.key, pub.revision) == Read(w, d, pub.key, pub.revision)
    {
    }
  }

  lemma Commits(w: World, s: State, p: nat)
    requires s.Proc(p).Working? && s.Proc(p).pubs == [] && Committed(w, s.Proc(p).change).Some? && s.disk.lock == Some(p)
    ensures var proc, t := s.Proc(p), Next(w, s, p, Commit);
            var next := Committed(w, proc.change).value;
            && t.disk.authority == Current(next) && t.disk.lock.None? && t.Proc(p).Idle?
            && t.log == s.log + [Entry(proc.op, proc.token, proc.base, proc.seen, next)]
  {
    hide Committed;
  }

  /** An operation that is admitted and whose publications nothing blocks can be carried through: there is a run of
      this process alone at the end of which its catalog is the visible one. */
  lemma Completes(w: World, s: State, p: nat, op: Op, token: Option<Token>, nonce: nat) returns (events: seq<Event>)
    requires s.Proc(p).Idle? && s.disk.lock.None? && nonce !in s.disk.staging
    requires Plan(w, s.disk, op, token).Some? && AllClear(w, s.disk, Plan(w, s.disk, op, token).value.pubs)
    ensures var proc, t := Plan(w, s.disk, op, token).value, Run(w, s, events);
            && Own(events, p) && Committed(w, proc.change).Some? && t.disk.authority == Current(Committed(w, proc.change).value)
            && t.log == s.log + [Entry(op, token, s.disk.authority, proc.seen, Committed(w, proc.change).value)]
            && t.Proc(p).Idle? && t.disk.lock.None?
  {
    var proc := Plan(w, s.disk, op, token).value;
    PlanNamed(w, s.disk, op, token);
    var begin := Begins(w, s, p, op, token);
    var a := Run(w, s, begin);
    LockClear(w, s.disk, proc.pubs, Some(p));
    hide Next, Read, AllClear, WellNamed, Committed, Run;
    var publish := PublishAll(w, a, p, nonce);
    RunConcat(w, s, begin, publish);
    RunThen(w, s, begin + publish, p, Commit);
    Commits(w, Run(w, a, publish), p);
    events := begin + publish + [Event(p, Commit)];
  }

  lemma LockClear(w: World, d: Disk, pubs: seq<Pub>, lock: Option<nat>)
    requires AllClear(w, d, pubs)
    ensures AllClear(w, d.(lock := lock), pubs)
  {
    hide StoredKey, Layout;
    var e := d.(lock := lock);
    forall pub: Pub | pub in pubs
      ensures Clear(w, e, pub)
    {
      assert Read(w, e, pub.key, pub.revision) == Read(w, d, pub.key, pub.revision);
    }
  }
}
