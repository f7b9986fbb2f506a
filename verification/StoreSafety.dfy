/** What every reachable store state satisfies, for every interleaving of any number of processes and a stop
    between any two steps. */
module StoreSafety {
  import opened Base
  import opened Ordering
  import opened Catalog
  import opened Store

  // ---------------------------------------------------------------- nothing published ever changes

  ghost predicate Grows(d: Disk, e: Disk) {
    && (forall k :: k in d.identities ==> k in e.identities && e.identities[k] == d.identities[k])
    && (forall k :: k in d.revisions ==> k in e.revisions && e.revisions[k] == d.revisions[k])
  }

  lemma StepGrows(w: World, s: State, p: nat, a: Action)
    ensures Grows(s.disk, Next(w, s, p, a).disk)
  {
    hide Apply, Committed, Read, Layout, StoredKey;
  }

  /** Revisions and identities are never modified or removed, whatever happens next. */
  lemma {:induction false} RevisionsImmutable(w: World, s: State, events: seq<Event>)
    ensures Grows(s.disk, Run(w, s, events).disk)
    decreases |events|
  {
    hide Next;
    if events != [] {
      RevisionsImmutable(w, s, events[..|events| - 1]);
      StepGrows(w, Run(w, s, events[..|events| - 1]), events[|events| - 1].proc, events[|events| - 1].action);
    }
  }

  lemma ReadGrows(w: World, d: Disk, e: Disk, key: string, revision: string)
    requires Grows(d, e) && Read(w, d, key, revision).Some?
    ensures Read(w, e, key, revision) == Read(w, d, key, revision)
  {
    hide StoredKey, Layout, Decode;
  }

  // ---------------------------------------------------------------- the invariant

  ghost predicate LockOk(s: State) { forall p: nat :: Holds(s.Proc(p)) <==> s.disk.lock == Some(p) }

  /** Every profile's head reads back. */
  ghost predicate Complete(w: World, d: Disk, c: Catalog) {
    forall p :: p in c.profiles ==> Read(w, d, p.key, p.head).Some?
  }

  ghost predicate DiskOk(w: World, d: Disk) {
    d.authority.Current? ==> Sound(w, d.authority.catalog) && Complete(w, d, d.authority.catalog)
  }

  /** A head is readable or still to be published. */
  ghost predicate Pending(w: World, d: Disk, pubs: seq<Pub>, key: string, head: string) {
    Read(w, d, key, head).Some? || exists pub :: pub in pubs && pub.key == key && pub.revision == head
  }

  ghost predicate StageOk(w: World, d: Disk, pubs: seq<Pub>, stage: Option<nat>) {
    stage.Some? ==>
      && pubs != [] && Identified(w, d, pubs[0].key)
      && (stage.value in d.staging ==> d.staging[stage.value].parts <= Layout(pubs[0].key, pubs[0].revision, pubs[0].bundle))
  }

  /** The decision the lock holder works on: computed from the catalog still on disk. */
  ghost predicate Decided(w: World, a: Authority, proc: Proc)
    requires proc.Working?
  {
    && proc.base == a && Admits(w, a, proc.op, proc.token)
    && Apply(w, proc.op, proc.seen, BaseOf(a)) == Some(proc.change) && Committed(w, proc.change).Some?
  }

  ghost predicate WorkOk(w: World, d: Disk, proc: Proc)
    requires proc.Working?
  {
    && (forall pub :: pub in proc.pubs ==> pub.revision == w.revision(pub.key, pub.bundle))
    && (forall p :: p in proc.change.catalog.profiles ==> StoredKey(p.key) && Pending(w, d, proc.pubs, p.key, p.head))
    && StageOk(w, d, proc.pubs, proc.stage)
  }

  ghost predicate HolderOk(w: World, s: State) {
    forall p :: s.Proc(p).Working? ==> Decided(w, s.disk.authority, s.Proc(p)) && WorkOk(w, s.disk, s.Proc(p))
  }

  /** One history entry: the operation was admitted on the catalog it replaced and had exactly its pure effect. */
  ghost predicate EntryOk(w: World, e: Entry) {
    && Admits(w, e.before, e.op, e.token)
    && Apply(w, e.op, e.seen, BaseOf(e.before)).Some?
    && Committed(w, Apply(w, e.op, e.seen, BaseOf(e.before)).value) == Some(e.after)
  }

  ghost predicate LogOk(w: World, a: Authority, log: seq<Entry>) {
    && (forall i :: 0 <= i < |log| ==> EntryOk(w, log[i]))
    && (forall i, j :: 0 <= i && j == i + 1 && j < |log| ==> log[j].before == Current(log[i].after))
    && (log != [] ==> a == Current(log[|log| - 1].after))
  }

  ghost predicate Inv(w: World, s: State) {
    LockOk(s) && DiskOk(w, s.disk) && HolderOk(w, s) && LogOk(w, s.disk.authority, s.log)
  }

  /** Any sound disk that no process has touched yet. */
  ghost predicate Initial(w: World, s: State) {
    s.procs == map[] && s.disk.lock.None? && s.log == [] && DiskOk(w, s.disk)
  }

  lemma InitialInv(w: World, s: State)
    requires Initial(w, s)
    ensures Inv(w, s)
  {
  }

  // ---------------------------------------------------------------- preservation, step by step

  lemma DiskGrows(w: World, d: Disk, e: Disk)
    requires DiskOk(w, d) && Grows(d, e) && e.authority == d.authority
    ensures DiskOk(w, e)
  {
    hide Read, Sound, Grows;
    if d.authority.Current? {
      forall p | p in d.authority.catalog.profiles
        ensures Read(w, e, p.key, p.head).Some?
      {
        ReadGrows(w, d, e, p.key, p.head);
      }
    }
  }

  lemma PendingGrows(w: World, d: Disk, e: Disk, pubs: seq<Pub>, key: string, head: string)
    requires Grows(d, e) && Pending(w, d, pubs, key, head)
    ensures Pending(w, e, pubs, key, head)
  {
    hide Read, Grows;
    if Read(w, d, key, head).Some? {
      ReadGrows(w, d, e, key, head);
    }
  }

  /** Work in progress stays justified while the disk only grows and its staging directory is kept. */
  lemma WorkGrows(w: World, d: Disk, e: Disk, proc: Proc)
    requires proc.Working? && WorkOk(w, d, proc) && Grows(d, e) && StageOk(w, e, proc.pubs, proc.stage)
    ensures WorkOk(w, e, proc)
  {
    hide Read, Grows, StageOk, Pending, StoredKey;
    forall p | p in proc.change.catalog.profiles
      ensures Pending(w, e, proc.pubs, p.key, p.head)
    {
      PendingGrows(w, d, e, proc.pubs, p.key, p.head);
    }
  }

  /** The step changes only its own process and the disk's growing part. */
  ghost predicate Local(s: State, t: State, p: nat) {
    && t.log == s.log && t.disk.authority == s.disk.authority && Grows(s.disk, t.disk)
    && forall q: nat :: q != p ==> t.Proc(q) == s.Proc(q)
  }

  /** A step of the lock holder on its own work. */
  lemma HolderStep(w: World, s: State, t: State, p: nat)
    requires Inv(w, s) && s.Proc(p).Working? && Local(s, t, p) && t.disk.lock == s.disk.lock
    requires t.Proc(p).Working? && Decided(w, t.disk.authority, t.Proc(p)) && WorkOk(w, t.disk, t.Proc(p))
    ensures Inv(w, t)
  {
    hide Read, Sound, Grows, Decided, WorkOk, LogOk;
    DiskGrows(w, s.disk, t.disk);
    assert s.disk.lock == Some(p);
    forall q: nat | true
      ensures Holds(t.Proc(q)) <==> t.disk.lock == Some(q)
    {
      assert Holds(s.Proc(q)) <==> s.disk.lock == Some(q);
    }
    forall q: nat | t.Proc(q).Working?
      ensures Decided(w, t.disk.authority, t.Proc(q)) && WorkOk(w, t.disk, t.Proc(q))
    {
      assert Holds(t.Proc(q));
    }
  }

  /** A step after which the process does no work; others and the disk's content are as before. */
  lemma IdleStep(w: World, s: State, t: State, p: nat)
    requires Inv(w, s) && Local(s, t, p) && !t.Proc(p).Working? && LockOk(t)
    requires t.disk == s.disk.(lock := t.disk.lock)
    ensures Inv(w, t)
  {
    hide Read, Sound, Grows, Decided, LogOk, LockOk;
    DiskGrows(w, s.disk, t.disk);
    forall q: nat | t.Proc(q).Working?
      ensures Decided(w, t.disk.authority, t.Proc(q)) && WorkOk(w, t.disk, t.Proc(q))
    {
      assert t.Proc(q) == s.Proc(q);
      WorkGrows(w, s.disk, t.disk, s.Proc(q));
    }
  }

  lemma LeaveKeeps(w: World, s: State, p: nat)
    requires Inv(w, s)
    ensures Inv(w, Leave(s, p))
  {
    var t := Leave(s, p);
    assert LockOk(t) by {
      forall q: nat | true
        ensures Holds(t.Proc(q)) <==> t.disk.lock == Some(q)
      {
        assert Holds(s.Proc(q)) <==> s.disk.lock == Some(q);
        assert Holds(s.Proc(p)) <==> s.disk.lock == Some(p);
      }
    }
    hide LockOk, DiskOk, HolderOk, LogOk;
    assert Grows(s.disk, t.disk);
    IdleStep(w, s, t, p);
  }

  lemma WaitKeeps(w: World, s: State, p: nat, a: Action)
    requires Inv(w, s) && (a.Begin? || a.Acquire?)
    ensures Inv(w, Next(w, s, p, a))
  {
    var t := Next(w, s, p, a);
    if t != s {
      assert LockOk(t) by {
        forall q: nat | true
          ensures Holds(t.Proc(q)) <==> t.disk.lock == Some(q)
        {
          assert Holds(s.Proc(q)) <==> s.disk.lock == Some(q);
        }
      }
      hide LockOk, DiskOk, HolderOk, LogOk;
      assert Grows(s.disk, t.disk);
      IdleStep(w, s, t, p);
    }
  }

  lemma CommittedKeys(w: World, change: Change)
    requires Committed(w, change).Some?
    ensures forall p :: p in change.catalog.profiles ==> StoredKey(p.key)
  {
    hide StoredKey, SelectionsOk, Sort;
    SortElements(KeyOf, change.catalog.profiles);
    var sorted := Sort(KeyOf, change.catalog.profiles);
    forall p | p in change.catalog.profiles
      ensures StoredKey(p.key)
    {
      SameElements(sorted, change.catalog.profiles, p);
      assert ProfileOk(w, p);
    }
  }

  /** Planned work is justified: every head it needs is readable or among its publications. */
  lemma PlanOk(w: World, d: Disk, op: Op, token: Option<Token>)
    requires DiskOk(w, d) && Plan(w, d, op, token).Some?
    ensures var proc := Plan(w, d, op, token).value;
            proc.Working? && Decided(w, d.authority, proc) && WorkOk(w, d, proc)
  {
    hide Read, Sound, StoredKey, Apply, Committed, Admits;
    var proc := Plan(w, d, op, token).value;
    HeadsCovered(w, op, proc.seen, BaseOf(d.authority));
    CommittedKeys(w, proc.change);
    forall p | p in proc.change.catalog.profiles
      ensures Pending(w, d, proc.pubs, p.key, p.head)
    {
      if q :| q in BaseOf(d.authority).profiles && q.key == p.key && q.head == p.head {
        assert Read(w, d, q.key, q.head).Some?;
      }
    }
  }

  lemma LoadKeeps(w: World, s: State, p: nat)
    requires Inv(w, s) && s.Proc(p).Locked?
    ensures Inv(w, StepLoad(w, s, p))
  {
    hide Plan, Decided, WorkOk, Sound, LogOk, Complete;
    var op, token := s.Proc(p).op, s.Proc(p).token;
    if Plan(w, s.disk, op, token).Some? {
      PlanOk(w, s.disk, op, token);
      var t := StepLoad(w, s, p);
      assert Holds(s.Proc(p)) && s.disk.lock == Some(p);
      forall q: nat | true
        ensures Holds(t.Proc(q)) <==> t.disk.lock == Some(q)
      {
        assert Holds(s.Proc(q)) <==> s.disk.lock == Some(q);
      }
      forall q: nat | t.Proc(q).Working?
        ensures Decided(w, t.disk.authority, t.Proc(q)) && WorkOk(w, t.disk, t.Proc(q))
      {
        assert q == p || t.Proc(q) == s.Proc(q);
      }
    } else {
      LeaveKeeps(w, s, p);
    }
  }

  lemma IdentifyKeeps(w: World, s: State, p: nat)
    requires Inv(w, s) && s.Proc(p).Working? && s.Proc(p).pubs != []
    ensures Inv(w, StepIdentify(w, s, p))
  {
    hide Read, Decided, DiskOk, LockOk, LogOk, Layout;
    var t := StepIdentify(w, s, p);
    assert Grows(s.disk, t.disk) && t.Proc(p) == s.Proc(p);
    assert Decided(w, s.disk.authority, s.Proc(p)) && WorkOk(w, s.disk, s.Proc(p));
    WorkGrows(w, s.disk, t.disk, s.Proc(p));
    HolderStep(w, s, t, p);
  }

  /** Dropping a publication whose revision now reads back keeps every head accounted for. */
  lemma WorkPublished(w: World, d: Disk, proc: Proc)
    requires proc.Working? && proc.pubs != [] && WorkOk(w, d, proc.(stage := None))
    requires StoredKey(proc.pubs[0].key) ==> Read(w, d, proc.pubs[0].key, proc.pubs[0].revision).Some?
    ensures WorkOk(w, d, proc.(pubs := proc.pubs[1..], stage := None))
  {
    hide Read, StoredKey;
    var next := proc.(pubs := proc.pubs[1..], stage := None);
    assert proc.pubs == [proc.pubs[0]] + next.pubs;
    forall p | p in proc.change.catalog.profiles
      ensures Pending(w, d, next.pubs, p.key, p.head)
    {
      assert StoredKey(p.key) && Pending(w, d, proc.pubs, p.key, p.head);
    }
  }

  lemma ReuseKeeps(w: World, s: State, p: nat)
    requires Inv(w, s) && s.Proc(p).Working? && s.Proc(p).pubs != []
    ensures Inv(w, StepReuse(w, s, p))
  {
    hide Read, DiskOk, LockOk, LogOk, Apply, Committed, StoredKey;
    var t, proc := StepReuse(w, s, p), s.Proc(p);
    assert Decided(w, s.disk.authority, proc) && WorkOk(w, s.disk, proc);
    if t != s {
      WorkPublished(w, s.disk, proc);
      assert proc.(stage := None) == proc;
      assert Grows(s.disk, t.disk) && t.Proc(p) == proc.(pubs := proc.pubs[1..], stage := None);
      HolderStep(w, s, t, p);
    }
  }

  lemma StageKeeps(w: World, s: State, t: State, p: nat, stage: Option<nat>)
    requires Inv(w, s) && s.Proc(p).Working? && Local(s, t, p) && t.disk.lock == s.disk.lock
    requires t.Proc(p) == s.Proc(p).(stage := stage) && StageOk(w, t.disk, s.Proc(p).pubs, stage)
    ensures Inv(w, t)
  {
    hide Read, DiskOk, LockOk, LogOk, Apply, Committed, Layout, Grows;
    var proc := s.Proc(p);
    assert Decided(w, s.disk.authority, proc) && WorkOk(w, s.disk, proc);
    WorkGrows(w, s.disk, t.disk, proc.(stage := None));
    HolderStep(w, s, t, p);
  }

  lemma OpenKeeps(w: World, s: State, p: nat, nonce: nat)
    requires Inv(w, s) && s.Proc(p).Working? && s.Proc(p).pubs != []
    ensures Inv(w, StepOpen(w, s, p, nonce))
  {
    hide Read, DiskOk, HolderOk, LockOk, LogOk, Layout;
    var t := StepOpen(w, s, p, nonce);
    if t != s {
      assert Grows(s.disk, t.disk);
      StageKeeps(w, s, t, p, Some(nonce));
    }
  }

  lemma WriteKeeps(w: World, s: State, p: nat, start: bool)
    requires Inv(w, s) && s.Proc(p).Working? && s.Proc(p).pubs != []
    ensures Inv(w, StepWrite(s, p, start))
  {
    hide Read, DiskOk, LockOk, LogOk, Layout, Decided;
    var t := StepWrite(s, p, start);
    if t != s {
      assert Grows(s.disk, t.disk) && t.Proc(p) == s.Proc(p);
      assert WorkOk(w, s.disk, s.Proc(p));
      StageKeeps(w, s, t, p, s.Proc(p).stage);
    }
  }

  /** The renamed directory reads back as the bundle that was to be published. */
  lemma InstallReads(w: World, d: Disk, e: Disk, pub: Pub, parts: seq<Part>)
    requires Identified(w, d, pub.key) && pub.revision == w.revision(pub.key, pub.bundle) && StoredKey(pub.key)
    requires parts <= Layout(pub.key, pub.revision, pub.bundle) && |parts| >= |Layout(pub.key, pub.revision, pub.bundle)|
    requires e.identities == d.identities && e.revisions == d.revisions[PathOf(w, pub.key, pub.revision) := parts]
    ensures Read(w, e, pub.key, pub.revision) == Some(pub.bundle)
  {
    hide StoredKey;
    DecodeLayout(pub.key, pub.revision, pub.bundle);
    assert parts == Layout(pub.key, pub.revision, pub.bundle);
  }

  lemma InstallKeeps(w: World, s: State, p: nat)
    requires Inv(w, s) && s.Proc(p).Working? && s.Proc(p).pubs != []
    ensures Inv(w, StepInstall(w, s, p))
  {
    hide Read, DiskOk, LockOk, LogOk, Layout, Apply, Committed, StoredKey;
    var t, proc := StepInstall(w, s, p), s.Proc(p);
    assert Decided(w, s.disk.authority, proc) && WorkOk(w, s.disk, proc);
    if t != s {
      var pub, parts := proc.pubs[0], s.disk.staging[proc.stage.value].parts;
      assert Grows(s.disk, t.disk);
      if StoredKey(pub.key) {
        InstallReads(w, s.disk, t.disk, pub, parts);
      }
      WorkGrows(w, s.disk, t.disk, proc.(stage := None));
      WorkPublished(w, t.disk, proc);
      HolderStep(w, s, t, p);
    }
  }

  lemma CommitDisk(w: World, d: Disk, e: Disk, proc: Proc)
    requires proc.Working? && proc.pubs == [] && Decided(w, d.authority, proc) && WorkOk(w, d, proc)
    requires Grows(d, e) && e.authority == Current(Committed(w, proc.change).value)
    ensures DiskOk(w, e)
  {
    hide Read, Apply, StoredKey, Canonical, Sound, Grows;
    var raised := proc.change.catalog.(sequence := proc.change.catalog.sequence + 1);
    CanonicalSound(w, raised);
    var next := e.authority.catalog;
    forall p | p in next.profiles
      ensures Read(w, e, p.key, p.head).Some?
    {
      var q :| q in raised.profiles && p == Tidy(q);
      assert Pending(w, d, proc.pubs, q.key, q.head);
      ReadGrows(w, d, e, q.key, q.head);
    }
  }

  lemma LogExtended(w: World, a: Authority, log: seq<Entry>, e: Entry)
    requires LogOk(w, a, log) && EntryOk(w, e) && e.before == a
    ensures LogOk(w, Current(e.after), log + [e])
  {
    hide EntryOk;
    var all := log + [e];
    forall i, j | 0 <= i && j == i + 1 && j < |all|
      ensures all[j].before == Current(all[i].after)
    {
      if j < |log| {
        assert all[i] == log[i] && all[j] == log[j];
      }
    }
  }

  lemma CommitKeeps(w: World, s: State, p: nat)
    requires Inv(w, s) && s.Proc(p).Working?
    ensures Inv(w, StepCommit(w, s, p))
  {
    hide Read, DiskOk, LogOk, Apply, Committed, StoredKey, Admits;
    var t, proc := StepCommit(w, s, p), s.Proc(p);
    assert Decided(w, s.disk.authority, proc) && WorkOk(w, s.disk, proc);
    if t != s {
      assert Grows(s.disk, t.disk);
      CommitDisk(w, s.disk, t.disk, proc);
      LogExtended(w, s.disk.authority, s.log, t.log[|s.log|]);
      assert Holds(s.Proc(p)) && s.disk.lock == Some(p);
      forall q: nat | true
        ensures !Holds(t.Proc(q))
      {
        assert Holds(s.Proc(q)) <==> s.disk.lock == Some(q);
      }
    }
  }

  lemma StepKeeps(w: World, s: State, p: nat, a: Action)
    requires Inv(w, s)
    ensures Inv(w, Next(w, s, p, a))
  {
    hide LockOk, DiskOk, HolderOk, LogOk, Leave, StepLoad, StepIdentify, StepReuse, StepOpen, StepWrite, StepInstall, StepCommit;
    var proc := s.Proc(p);
    match a {
      case Begin(_, _) => WaitKeeps(w, s, p, a);
      case Acquire => WaitKeeps(w, s, p, a);
      case Load => if proc.Locked? { LoadKeeps(w, s, p); }
      case Identify => if proc.Working? && proc.pubs != [] { IdentifyKeeps(w, s, p); }
      case Reuse => if proc.Working? && proc.pubs != [] { ReuseKeeps(w, s, p); }
      case Open(nonce) => if proc.Working? && proc.pubs != [] { OpenKeeps(w, s, p, nonce); }
      case StartWrite => if proc.Working? && proc.pubs != [] { WriteKeeps(w, s, p, true); }
      case EndWrite => if proc.Working? && proc.pubs != [] { WriteKeeps(w, s, p, false); }
      case Install => if proc.Working? && proc.pubs != [] { InstallKeeps(w, s, p); }
      case Commit => if proc.Working? { CommitKeeps(w, s, p); }
      case Stop => LeaveKeeps(w, s, p);
    }
  }

  lemma {:induction false} RunKeeps(w: World, s: State, events: seq<Event>)
    requires Inv(w, s)
    ensures Inv(w, Run(w, s, events))
    decreases |events|
  {
    hide Inv, Next;
    if events != [] {
      RunKeeps(w, s, events[..|events| - 1]);
      StepKeeps(w, Run(w, s, events[..|events| - 1]), events[|events| - 1].proc, events[|events| - 1].action);
    }
  }

  // ---------------------------------------------------------------- safety over whole runs

  /** Whatever happened, the visible catalog re-encodes to itself, has unique keys, an active identity that is a
      current head, and refers only to complete revisions: every later load succeeds. */
  lemma CatalogSafe(w: World, s: State, events: seq<Event>)
    requires Initial(w, s)
    ensures var d := Run(w, s, events).disk;
            d.authority.Current? ==>
              && Canonical(w, d.authority.catalog) == Some(d.authority.catalog)
              && Increasing(KeyOf, d.authority.catalog.profiles)
              && ActiveOk(d.authority.catalog.active, d.authority.catalog.profiles)
              && Complete(w, d, d.authority.catalog)
  {
    hide LockOk, HolderOk, LogOk, Complete;
    InitialInv(w, s);
    RunKeeps(w, s, events);
    var d := Run(w, s, events).disk;
    if d.authority.Current? {
      SoundStable(w, d.authority.catalog);
    }
  }

  lemma CommittedSequence(w: World, e: Entry)
    requires EntryOk(w, e)
    ensures e.after.sequence == BaseOf(e.before).sequence + 1 && Sound(w, e.after)
  {
    hide Apply, Canonical, Sound;
    var change := Apply(w, e.op, e.seen, BaseOf(e.before)).value;
    HeadsCovered(w, e.op, e.seen, BaseOf(e.before));
    CanonicalSound(w, change.catalog.(sequence := change.catalog.sequence + 1));
  }

  /** The sequence number of committed catalogs rises by exactly one from each to the next. */
  lemma {:induction false} SequenceRises(w: World, a: Authority, log: seq<Entry>, i: nat, j: nat)
    requires LogOk(w, a, log) && i <= j < |log|
    ensures BaseOf(log[j].before).sequence == BaseOf(log[i].before).sequence + (j - i)
    ensures log[j].after.sequence == log[i].after.sequence + (j - i)
    decreases j
  {
    hide EntryOk;
    assert EntryOk(w, log[i]) && EntryOk(w, log[j]);
    CommittedSequence(w, log[i]);
    CommittedSequence(w, log[j]);
    if i < j {
      var k := j - 1;
      SequenceRises(w, a, log, i, k);
      assert log[j].before == Current(log[k].after);
    }
  }

  /** Linearizability: over every run each catalog is the pure effect of one admitted operation on its immediate
      predecessor, and a token is spent at most once. The sequence number alone shows it. */
  lemma Linearizable(w: World, s: State, events: seq<Event>)
    requires Initial(w, s)
    ensures var t := Run(w, s, events);
            && LogOk(w, t.disk.authority, t.log)
            && (t.log == [] ==> t.disk.authority == s.disk.authority)
            && (t.log != [] ==> t.log[0].before == s.disk.authority)
            && (forall i, j :: 0 <= i < j < |t.log| && t.log[i].token.Some? && !t.log[i].op.Takeover? && !t.log[j].op.Takeover? ==>
                  t.log[i].token != t.log[j].token)
            && (forall j :: 0 < j < |t.log| ==> !t.log[j].op.Takeover?)
  {
    hide LockOk, DiskOk, HolderOk, EntryOk;
    InitialInv(w, s);
    RunKeeps(w, s, events);
    LogStart(w, s, events);
    var log, a := Run(w, s, events).log, Run(w, s, events).disk.authority;
    forall i, j | 0 <= i < j < |log| && log[i].token.Some? && !log[i].op.Takeover? && !log[j].op.Takeover?
      ensures log[i].token != log[j].token
    {
      SequenceRises(w, a, log, i, j);
      TokenSequence(w, log[i]);
      TokenSequence(w, log[j]);
    }
    forall j | 0 < j < |log|
      ensures !log[j].op.Takeover?
    {
      var i := j - 1;
      assert log[j].before == Current(log[i].after);
      TokenSequence(w, log[j]);
    }
  }

  /** The catalog an entry starts from has unique keys. */
  lemma BaseIncreasing(w: World, a: Authority, log: seq<Entry>, i: nat)
    requires LogOk(w, a, log) && i < |log| && (log[0].before.Current? ==> Sound(w, log[0].before.catalog))
    ensures Increasing(KeyOf, BaseOf(log[i].before).profiles)
  {
    hide EntryOk;
    if i > 0 {
      var k := i - 1;
      assert EntryOk(w, log[k]);
      CommittedSequence(w, log[k]);
      assert log[i].before == Current(log[k].after);
    }
  }

  /** Every operation committed in any run found what it expected in the catalog it replaced, and had on it exactly the
      effect it is for. */
  lemma ExpectationsMet(w: World, s: State, events: seq<Event>)
    requires Initial(w, s)
    ensures var log := Run(w, s, events).log;
            forall i :: 0 <= i < |log| ==>
              var e := log[i];
              && Expected(e.op, BaseOf(e.before)) && Acceptable(w, e.op, e.seen, BaseOf(e.before))
              && exists change :: OwnEffect(w, e.op, e.seen, BaseOf(e.before), change) && Committed(w, change) == Some(e.after)
  {
    hide Run, Expected, Acceptable, OwnEffect, Apply, Committed, Complete;
    Linearizable(w, s, events);
    var t := Run(w, s, events);
    forall i | 0 <= i < |t.log|
      ensures var e := t.log[i];
              && Expected(e.op, BaseOf(e.before)) && Acceptable(w, e.op, e.seen, BaseOf(e.before))
              && exists change :: OwnEffect(w, e.op, e.seen, BaseOf(e.before), change) && Committed(w, change) == Some(e.after)
    {
      var e := t.log[i];
      assert EntryOk(w, e);
      BaseIncreasing(w, t.disk.authority, t.log, i);
      AppliedExactly(w, e.op, e.seen, BaseOf(e.before));
      EffectMeant(w, e.op, e.seen, BaseOf(e.before));
    }
  }

  lemma TokenSequence(w: World, e: Entry)
    requires EntryOk(w, e)
    ensures !e.op.Takeover? ==> e.token.Some? && e.token.value.sequence == BaseOf(e.before).sequence
    ensures e.op.Takeover? ==> !e.before.Current?
  {
    hide Apply, Committed;
  }

  /** The authority changes only through logged commits. */
  lemma LogStep(w: World, s: State, p: nat, a: Action)
    requires HolderOk(w, s)
    ensures var t := Next(w, s, p, a);
            || (t.log == s.log && t.disk.authority == s.disk.authority)
            || (|t.log| == |s.log| + 1 && t.log[..|s.log|] == s.log && t.log[|s.log|].before == s.disk.authority)
  {
    hide Read, Apply, Committed, Layout, WorkOk, Plan;
    if s.Proc(p).Working? {
      assert Decided(w, s.disk.authority, s.Proc(p));
    }
  }

  lemma {:induction false} LogStart(w: World, s: State, events: seq<Event>)
    requires Inv(w, s) && s.log == []
    ensures var t := Run(w, s, events);
            && (t.log == [] ==> t.disk.authority == s.disk.authority)
            && (t.log != [] ==> t.log[0].before == s.disk.authority)
    decreases |events|
  {
    hide Next, DiskOk, LogOk, LockOk, HolderOk;
    if events != [] {
      var front := events[..|events| - 1];
      LogStart(w, s, front);
      RunKeeps(w, s, front);
      var r, t := Run(w, s, front), Run(w, s, events);
      LogStep(w, r, events[|events| - 1].proc, events[|events| - 1].action);
      if r.log != [] {
        assert t.log[0] == t.log[..|r.log|][0] || t.log == r.log;
      }
    }
  }

  // ---------------------------------------------------------------- generations and secrets

  /** A profile that survives one commit keeps its secret and does not lose generations. */
  lemma EntryKeeps(w: World, e: Entry, p: Profile, q: Profile)
    requires EntryOk(w, e) && e.before.Current? && Sound(w, e.before.catalog)
    requires p in e.before.catalog.profiles && q in e.after.profiles && p.key == q.key
    ensures p.generation <= q.generation && (p.secret.Some? ==> q.secret == p.secret)
  {
    hide Apply, Canonical;
    var change := Apply(w, e.op, e.seen, BaseOf(e.before)).value;
    var raised := change.catalog.(sequence := change.catalog.sequence + 1);
    CanonicalSound(w, raised);
    var r :| r in raised.profiles && q == Tidy(r);
    ProfileKept(w, e.op, e.seen, e.before.catalog, p, r);
  }

  /** The catalogs of a history, starting with the one found on disk. */
  function CatalogAt(log: seq<Entry>, i: nat): Catalog
    requires log != [] && i <= |log|
  {
    if i == 0 then BaseOf(log[0].before) else log[i - 1].after
  }

  ghost predicate StartSound(w: World, log: seq<Entry>)
    requires log != []
  {
    log[0].before.Current? ==> Sound(w, log[0].before.catalog)
  }

  /** Each entry starts from the catalog before it, which is sound if it holds any profile. */
  lemma CatalogStep(w: World, a: Authority, log: seq<Entry>, i: nat)
    requires LogOk(w, a, log) && log != [] && StartSound(w, log) && i <= |log|
    ensures i < |log| ==> BaseOf(log[i].before) == CatalogAt(log, i) && EntryOk(w, log[i])
    ensures CatalogAt(log, i).profiles != [] ==> Sound(w, CatalogAt(log, i))
    ensures i < |log| && CatalogAt(log, i).profiles != [] ==> log[i].before.Current?
  {
    hide EntryOk, Sound;
    if i > 0 {
      var k := i - 1;
      assert EntryOk(w, log[k]);
      CommittedSequence(w, log[k]);
    }
  }

  /** While a profile exists through a stretch of history, the catalog found at the start included, its generation
      never decreases and an assigned secret is never replaced. */
  lemma {:induction false} ProfileMonotone(w: World, a: Authority, log: seq<Entry>, i: nat, j: nat, p: Profile, q: Profile)
    requires LogOk(w, a, log) && log != [] && StartSound(w, log) && i <= j <= |log|
    requires p in CatalogAt(log, i).profiles && q in CatalogAt(log, j).profiles && p.key == q.key
    requires forall k :: i <= k <= j ==> exists r :: r in CatalogAt(log, k).profiles && r.key == p.key
    ensures p.generation <= q.generation && (p.secret.Some? ==> q.secret == p.secret)
    decreases j
  {
    hide EntryOk, Sound, StartSound, LogOk, CatalogAt;
    CatalogStep(w, a, log, j);
    if i == j {
      SameProfile(w, CatalogAt(log, j), p, q);
    } else {
      var k := j - 1;
      CatalogStep(w, a, log, k);
      var r :| r in CatalogAt(log, k).profiles && r.key == p.key;
      ProfileMonotone(w, a, log, i, k, p, r);
      assert CatalogAt(log, j) == log[k].after by { CatalogNext(log, j); }
      EntryKeeps(w, log[k], r, q);
    }
  }

  lemma CatalogNext(log: seq<Entry>, j: nat)
    requires 0 < j <= |log|
    ensures CatalogAt(log, j) == log[j - 1].after
  {
  }

  /** So it is in every run, from any sound disk. */
  lemma ProfileHistory(w: World, s: State, events: seq<Event>, i: nat, j: nat, p: Profile, q: Profile)
    requires Initial(w, s)
    requires var log := Run(w, s, events).log;
             && log != [] && i <= j <= |log|
             && p in CatalogAt(log, i).profiles && q in CatalogAt(log, j).profiles && p.key == q.key
             && forall k :: i <= k <= j ==> exists r :: r in CatalogAt(log, k).profiles && r.key == p.key
    ensures p.generation <= q.generation && (p.secret.Some? ==> q.secret == p.secret)
  {
    hide LogOk, Run, CatalogAt, Sound, Complete;
    Linearizable(w, s, events);
    ProfileMonotone(w, Run(w, s, events).disk.authority, Run(w, s, events).log, i, j, p, q);
  }

  lemma SameProfile(w: World, c: Catalog, p: Profile, q: Profile)
    requires Sound(w, c) && p in c.profiles && q in c.profiles && p.key == q.key
    ensures p == q
  {
    FindThe(c, p);
    FindThe(c, q);
  }

  // ---------------------------------------------------------------- the active profile is runtime-ready

  ghost predicate ReadyNow(w: World, d: Disk, a: Active) {
    var bundle := Read(w, d, a.key, a.revision);
    bundle.Some? && w.ready(bundle.value) == Some(true)
  }

  ghost predicate ReadyDisk(w: World, d: Disk) {
    d.authority.Current? && d.authority.catalog.active.Some? ==> ReadyNow(w, d, d.authority.catalog.active.value)
  }

  ghost predicate ReadyLater(w: World, d: Disk, pubs: seq<Pub>, a: Active) {
    || ReadyNow(w, d, a)
    || exists pub :: pub in pubs && pub.key == a.key && pub.revision == a.revision && w.ready(pub.bundle) == Some(true)
  }

  ghost predicate ReadyWork(w: World, d: Disk, proc: Proc) {
    proc.Working? && proc.change.catalog.active.Some? ==> ReadyLater(w, d, proc.pubs, proc.change.catalog.active.value)
  }

  ghost predicate ReadyInv(w: World, s: State) {
    ReadyDisk(w, s.disk) && forall p: nat :: ReadyWork(w, s.disk, s.Proc(p))
  }

  lemma ReadyLaterGrows(w: World, d: Disk, e: Disk, pubs: seq<Pub>, a: Active)
    requires Grows(d, e) && ReadyLater(w, d, pubs, a)
    ensures ReadyLater(w, e, pubs, a)
  {
    hide Read, Grows;
    if ReadyNow(w, d, a) {
      ReadGrows(w, d, e, a.key, a.revision);
    }
  }

  /** What a publication's name reads back as is ready exactly when the publication is. Names are sixteen-byte digests,
      so an existing revision may in principle hold another bundle. */
  ghost predicate ReadsAlike(w: World, d: Disk, pub: Pub) {
    var bundle := Read(w, d, pub.key, pub.revision);
    bundle.Some? && w.ready(bundle.value) == w.ready(pub.bundle)
  }

  ghost predicate ReuseAlike(w: World, s: State, e: Event) {
    var proc := s.Proc(e.proc);
    e.action.Reuse? && proc.Working? && proc.pubs != [] && Read(w, s.disk, proc.pubs[0].key, proc.pubs[0].revision).Some? ==>
      ReadsAlike(w, s.disk, proc.pubs[0])
  }

  /** No reuse step of this run meets a revision whose readiness differs from the bundle it stands for. */
  ghost predicate ReusesAlike(w: World, s: State, events: seq<Event>) {
    forall k :: 0 <= k < |events| ==> ReuseAlike(w, Run(w, s, events[..k]), events[k])
  }

  /** Once the first publication reads back alike it is no longer needed. */
  lemma ReadyPublished(w: World, d: Disk, pubs: seq<Pub>, a: Active)
    requires pubs != [] && ReadyLater(w, d, pubs, a) && StoredKey(a.key)
    requires StoredKey(pubs[0].key) ==> ReadsAlike(w, d, pubs[0])
    ensures ReadyLater(w, d, pubs[1..], a)
  {
    hide Read, StoredKey;
    assert pubs == [pubs[0]] + pubs[1..];
  }

  lemma ActiveStored(w: World, change: Change)
    requires Committed(w, change).Some? && change.catalog.active.Some?
    ensures StoredKey(change.catalog.active.value.key)
  {
    hide StoredKey, SelectionsOk, Sort;
    var sorted := Sort(KeyOf, change.catalog.profiles);
    var p :| p in sorted && p.key == change.catalog.active.value.key;
    assert ProfileOk(w, p);
  }

  lemma PlanReady(w: World, d: Disk, op: Op, token: Option<Token>)
    requires DiskOk(w, d) && ReadyDisk(w, d) && Plan(w, d, op, token).Some?
    ensures ReadyWork(w, d, Plan(w, d, op, token).value)
  {
    hide Read, StoredKey, Committed, Admits, Sort, SelectionsOk;
    var proc, c := Plan(w, d, op, token).value, BaseOf(d.authority);
    if !d.authority.Current? {
      BareOrigin(w, op, proc.seen, c);
    } else {
      ActiveOrigin(w, op, proc.seen, c);
      if op.Activate? && op.target.Some? {
        assert c.profiles[Find(c.profiles, op.target.value).value] in c.profiles;
      }
    }
  }

  /** Without a schema-2 catalog a new active identity comes with a ready publication. */
  lemma BareOrigin(w: World, op: Op, seen: Option<Bundle>, c: Catalog)
    requires c.active.None? && c.profiles == [] && Apply(w, op, seen, c).Some?
    ensures var change := Apply(w, op, seen, c).value;
            change.catalog.active.Some? ==>
              var a := change.catalog.active.value;
              exists pub :: pub in change.pubs && pub.key == a.key && pub.revision == a.revision && w.ready(pub.bundle) == Some(true)
  {
    hide ValidKey, StoredKey, SelectionsOk, Sort;
    var change := Apply(w, op, seen, c).value;
    if op.Takeover? && change.catalog.active.Some? {
      ImportedReady(w, op, |op.profiles|);
      var i :| 0 <= i < |op.profiles| && w.ready(op.profiles[i].bundle) == Some(true) &&
               op.profiles[i].key == change.catalog.active.value.key &&
               Import(w, op.profiles[i]).revision == change.catalog.active.value.revision;
      assert change.pubs[i] == Import(w, op.profiles[i]);
    } else if op.Publish? {
      assert change.pubs[0] in change.pubs;
    }
  }

  /** How one step changes the work of a process: it keeps it, drops a publication that now reads back, or plans it. */
  lemma WorkStep(w: World, s: State, p: nat, a: Action, q: nat)
    requires ReuseAlike(w, s, Event(p, a)) && Inv(w, s) && ReadyInv(w, s)
    ensures var t := Next(w, s, p, a); ReadyWork(w, t.disk, t.Proc(q))
  {
    hide DiskOk, LogOk, LockOk, Layout, Committed, Apply, Read, StoredKey, Plan, Grows;
    var t := Next(w, s, p, a);
    var before, after := s.Proc(q), t.Proc(q);
    StepGrows(w, s, p, a);
    assert ReadyWork(w, s.disk, before);
    if after.Working? && after.change.catalog.active.Some? {
      var active := after.change.catalog.active.value;
      if before.Working? {
        assert Decided(w, s.disk.authority, before) && WorkOk(w, s.disk, before);
        assert after.change == before.change;
        ActiveStored(w, before.change);
        ReadyLaterGrows(w, s.disk, t.disk, before.pubs, active);
        if after.pubs != before.pubs {
          var pub := before.pubs[0];
          assert q == p && after.pubs == before.pubs[1..];
          PublishedReads(w, s, p, a);
          ReadyPublished(w, t.disk, before.pubs, active);
        }
      } else {
        assert q == p && a.Load?;
        PlanReady(w, s.disk, before.op, before.token);
      }
    }
  }

  lemma PublishedReads(w: World, s: State, p: nat, a: Action)
    requires ReuseAlike(w, s, Event(p, a)) && Inv(w, s) && s.Proc(p).Working? && s.Proc(p).pubs != []
    requires a.Reuse? || a.Install?
    requires Next(w, s, p, a) != s
    ensures StoredKey(s.Proc(p).pubs[0].key) ==> ReadsAlike(w, Next(w, s, p, a).disk, s.Proc(p).pubs[0])
  {
    hide DiskOk, LogOk, LockOk, Layout, Committed, Apply, Read, StoredKey, Plan, Decided;
    var t, proc := Next(w, s, p, a), s.Proc(p);
    var pub := proc.pubs[0];
    assert WorkOk(w, s.disk, proc);
    if StoredKey(pub.key) && a.Install? {
      InstallReads(w, s.disk, t.disk, pub, s.disk.staging[proc.stage.value].parts);
    }
  }

  lemma DiskReady(w: World, s: State, p: nat, a: Action)
    requires Inv(w, s) && ReadyInv(w, s)
    ensures ReadyDisk(w, Next(w, s, p, a).disk)
  {
    hide DiskOk, LogOk, LockOk, Layout, Apply, Read, StoredKey, Plan, Grows, Canonical;
    var t, proc := Next(w, s, p, a), s.Proc(p);
    StepGrows(w, s, p, a);
    if t.disk.authority != s.disk.authority {
      assert a.Commit? && proc.Working? && proc.pubs == [];
      assert ReadyWork(w, s.disk, proc) && Decided(w, s.disk.authority, proc);
      CanonicalSound(w, proc.change.catalog.(sequence := proc.change.catalog.sequence + 1));
      assert t.disk.authority.catalog.active == proc.change.catalog.active;
    }
    if t.disk.authority.Current? && t.disk.authority.catalog.active.Some? {
      ReadyLaterGrows(w, s.disk, t.disk, [], t.disk.authority.catalog.active.value);
    }
  }

  lemma ReusesBefore(w: World, s: State, events: seq<Event>)
    requires ReusesAlike(w, s, events) && events != []
    ensures ReusesAlike(w, s, events[..|events| - 1])
    ensures ReuseAlike(w, Run(w, s, events[..|events| - 1]), events[|events| - 1])
  {
    hide Run, ReuseAlike;
    var front := events[..|events| - 1];
    forall k | 0 <= k < |front|
      ensures ReuseAlike(w, Run(w, s, front[..k]), front[k])
    {
      assert front[..k] == events[..k];
    }
  }

  lemma {:induction false} RunReady(w: World, s: State, events: seq<Event>)
    requires ReusesAlike(w, s, events) && Inv(w, s) && ReadyInv(w, s)
    ensures ReadyInv(w, Run(w, s, events))
    decreases |events|
  {
    hide Inv, Next, ReadyDisk, ReadyWork, ReuseAlike;
    if events != [] {
      var front, e := events[..|events| - 1], events[|events| - 1];
      ReusesBefore(w, s, events);
      RunReady(w, s, front);
      RunKeeps(w, s, front);
      var r := Run(w, s, front);
      DiskReady(w, r, e.proc, e.action);
      forall q: nat | true
        ensures ReadyWork(w, Next(w, r, e.proc, e.action).disk, Next(w, r, e.proc, e.action).Proc(q))
      {
        WorkStep(w, r, e.proc, e.action, q);
      }
    }
  }

  /** In every run the active identity's revision, as it stands on disk, is runtime-ready. */
  lemma ActiveReady(w: World, s: State, events: seq<Event>)
    requires ReusesAlike(w, s, events) && Initial(w, s) && ReadyDisk(w, s.disk)
    ensures ReadyDisk(w, Run(w, s, events).disk)
  {
    hide Inv, Next, ReadyDisk, ReusesAlike, DiskOk, Run;
    InitialInv(w, s);
    assert ReadyInv(w, s);
    RunReady(w, s, events);
  }
}
