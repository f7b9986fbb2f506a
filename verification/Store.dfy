/** Several processes over one store directory: an exclusive lock, compare-and-swap on the catalog, and
    immutable revisions published by staging and renaming. A process may stop between any two steps. */
module Store {
  import opened Base
  import opened Catalog

  // ---------------------------------------------------------------- the disk

  datatype Part = File(bytes: string) | Manifest(key: string, revision: string, files: nat)
  datatype Path = Path(storage: string, revision: string)

  /** A directory being filled; `torn` while its latest file is only partly written. */
  datatype Staging = Staging(parts: seq<Part>, torn: bool)

  datatype Head = Head(key: string, revision: string)

  /** The state file: absent, left by an earlier format, or a schema-2 catalog. */
  datatype Authority = Missing | Earlier(sequence: nat, heads: Option<seq<Head>>) | Current(catalog: Catalog)

  datatype Disk = Disk(authority: Authority, identities: map<string, string>, revisions: map<Path, seq<Part>>,
                       staging: map<nat, Staging>, lock: Option<nat>)

  /** The files of a finished revision, manifest last. */
  function Layout(key: string, revision: string, bundle: Bundle): seq<Part> {
    seq(|bundle.files|, i requires 0 <= i < |bundle.files| => File(bundle.files[i])) + [Manifest(key, revision, |bundle.files|)]
  }

  function Decode(parts: seq<Part>): Bundle
    requires parts != []
  {
    Bundle(seq(|parts| - 1, i requires 0 <= i < |parts| - 1 => if parts[i].File? then parts[i].bytes else []))
  }

  lemma DecodeLayout(key: string, revision: string, bundle: Bundle)
    ensures Decode(Layout(key, revision, bundle)) == bundle
  {
    assert Decode(Layout(key, revision, bundle)).files == bundle.files;
  }

  function PathOf(w: World, key: string, revision: string): Path { Path(w.storage(key), revision) }

  predicate Identified(w: World, d: Disk, key: string) {
    w.storage(key) in d.identities && d.identities[w.storage(key)] == key
  }

  /** Reading a revision back: the directory belongs to the key, is complete, and its content hashes to its name. */
  function Read(w: World, d: Disk, key: string, revision: string): Option<Bundle> {
    var path := PathOf(w, key, revision);
    if !StoredKey(key) || !Identified(w, d, key) || path !in d.revisions || d.revisions[path] == [] then None
    else
      var bundle := Decode(d.revisions[path]);
      if d.revisions[path] == Layout(key, revision, bundle) && w.revision(key, bundle) == revision then Some(bundle) else None
  }

  // ---------------------------------------------------------------- tokens

  datatype Token = Token(missing: bool, sequence: nat, digest: string)

  function TokenOf(w: World, a: Authority): Option<Token> {
    match a
    case Missing => Some(Token(true, 0, []))
    case Earlier(_, _) => None
    case Current(c) => Some(Token(false, c.sequence, w.digest(c)))
  }

  function BaseOf(a: Authority): Catalog {
    match a
    case Missing => Catalog(0, None, [])
    case Earlier(sequence, _) => Catalog(sequence, None, [])
    case Current(c) => c
  }

  // ---------------------------------------------------------------- processes

  datatype Proc =
    | Idle
    | Waiting(op: Op, token: Option<Token>)
    | Locked(op: Op, token: Option<Token>)
    | Working(op: Op, token: Option<Token>, base: Authority, seen: Option<Bundle>, change: Change, pubs: seq<Pub>, stage: Option<nat>)

  /** One committed catalog: what was asked, what was read, and what it replaced. */
  datatype Entry = Entry(op: Op, token: Option<Token>, before: Authority, seen: Option<Bundle>, after: Catalog)

  /** `log` records history; no step reads it. */
  datatype State = State(disk: Disk, procs: map<nat, Proc>, log: seq<Entry>) {
    function Proc(p: nat): Proc { if p in procs then procs[p] else Idle }
  }

  datatype Action =
    | Begin(op: Op, token: Option<Token>)
    | Acquire
    | Load
    | Identify
    | Reuse
    | Open(nonce: nat)
    | StartWrite
    | EndWrite
    | Install
    | Commit
    | Stop

  predicate Holds(proc: Proc) { proc.Locked? || proc.Working? }

  /** The key whose head an operation reads back, if it reads one. */
  function KeyRead(op: Op): Option<string> {
    match op
    case Publish(_, _, _, _) => None
    case Activate(target) => target
    case Delete(_, _) => None
    case Rename(key, _, _) => Some(key)
    case Select(key, _, _, _) => Some(key)
    case Secret(key, _, _) => Some(key)
    case Takeover(_, _) => None
  }

  function SeenBy(w: World, d: Disk, op: Op): Option<Bundle> {
    var key :- KeyRead(op);
    var at :- Find(BaseOf(d.authority).profiles, key);
    Read(w, d, key, BaseOf(d.authority).profiles[at].head)
  }

  function HeadsOf(w: World, ls: seq<Legacy>): seq<Head> {
    seq(|ls|, i requires 0 <= i < |ls| => Head(ls[i].key, w.revision(ls[i].key, ls[i].bundle)))
  }

  /** The compare of compare-and-swap; a takeover instead needs an authority of an earlier format. */
  predicate Admits(w: World, a: Authority, op: Op, token: Option<Token>) {
    if op.Takeover? then !a.Current? && (a.Earlier? && a.heads.Some? ==> a.heads.value == HeadsOf(w, op.profiles))
    else token.Some? && token == TokenOf(w, a) && (op.Activate? ==> a.Current?)
  }

  predicate Preflight(w: World, d: Disk, change: Change) {
    forall pub :: pub in change.pubs && PathOf(w, pub.key, pub.revision) in d.revisions ==> Read(w, d, pub.key, pub.revision).Some?
  }

  /** What the lock holder decides on reading the catalog: the work to do, or nothing. */
  function Plan(w: World, d: Disk, op: Op, token: Option<Token>): (r: Option<Proc>)
    ensures r.Some? ==> r.value.Working?
  {
    var seen := SeenBy(w, d, op);
    if !Admits(w, d.authority, op, token) then None
    else
      var change :- Apply(w, op, seen, BaseOf(d.authority));
      if Committed(w, change).None? || (op.Takeover? && !Preflight(w, d, change)) then None
      else Some(Working(op, token, d.authority, seen, change, change.pubs, None))
  }

  // ---------------------------------------------------------------- steps

  function Put(s: State, p: nat, proc: Proc): State { s.(procs := s.procs[p := proc]) }

  /** Leaves the lock, if held, with everything on disk as it is. */
  function Leave(s: State, p: nat): State {
    Put(s, p, Idle).(disk := s.disk.(lock := if s.disk.lock == Some(p) then None else s.disk.lock))
  }

  function StepLoad(w: World, s: State, p: nat): State
    requires s.Proc(p).Locked?
  {
    var plan := Plan(w, s.disk, s.Proc(p).op, s.Proc(p).token);
    if plan.Some? then Put(s, p, plan.value) else Leave(s, p)
  }

  function StepIdentify(w: World, s: State, p: nat): State
    requires s.Proc(p).Working? && s.Proc(p).pubs != []
  {
    var storage := w.storage(s.Proc(p).pubs[0].key);
    if storage in s.disk.identities then s
    else s.(disk := s.disk.(identities := s.disk.identities[storage := s.Proc(p).pubs[0].key]))
  }

  /** An existing revision is read back and reused. */
  function StepReuse(w: World, s: State, p: nat): State
    requires s.Proc(p).Working? && s.Proc(p).pubs != []
  {
    var proc := s.Proc(p);
    if proc.stage.None? && Read(w, s.disk, proc.pubs[0].key, proc.pubs[0].revision).Some?
    then Put(s, p, proc.(pubs := proc.pubs[1..])) else s
  }

  /** A staging directory is new, or was left empty. */
  function StepOpen(w: World, s: State, p: nat, nonce: nat): State
    requires s.Proc(p).Working? && s.Proc(p).pubs != []
  {
    var proc := s.Proc(p);
    var pub := proc.pubs[0];
    if proc.stage.None? && Identified(w, s.disk, pub.key) && PathOf(w, pub.key, pub.revision) !in s.disk.revisions &&
       (nonce !in s.disk.staging || s.disk.staging[nonce] == Staging([], false))
    then Put(s, p, proc.(stage := Some(nonce))).(disk := s.disk.(staging := s.disk.staging[nonce := Staging([], false)]))
    else s
  }

  function Writing(s: State, p: nat): Option<Staging>
    requires s.Proc(p).Working?
  {
    var nonce :- s.Proc(p).stage;
    if nonce in s.disk.staging then Some(s.disk.staging[nonce]) else None
  }

  function StepWrite(s: State, p: nat, start: bool): State
    requires s.Proc(p).Working? && s.Proc(p).pubs != []
  {
    var dir := Writing(s, p);
    var pub := s.Proc(p).pubs[0];
    var layout := Layout(pub.key, pub.revision, pub.bundle);
    if dir.None? || |dir.value.parts| >= |layout| || dir.value.torn == start then s
    else
      var next := if start then dir.value.(torn := true) else Staging(dir.value.parts + [layout[|dir.value.parts|]], false);
      s.(disk := s.disk.(staging := s.disk.staging[s.Proc(p).stage.value := next]))
  }

  /** The rename that makes a finished staging directory a revision. */
  function StepInstall(w: World, s: State, p: nat): State
    requires s.Proc(p).Working? && s.Proc(p).pubs != []
  {
    var dir := Writing(s, p);
    var pub := s.Proc(p).pubs[0];
    var path := PathOf(w, pub.key, pub.revision);
    if dir.None? || dir.value.torn || |dir.value.parts| < |Layout(pub.key, pub.revision, pub.bundle)| || path in s.disk.revisions then s
    else
      Put(s, p, s.Proc(p).(pubs := s.Proc(p).pubs[1..], stage := None)).
      (disk := s.disk.(revisions := s.disk.revisions[path := dir.value.parts], staging := s.disk.staging - {s.Proc(p).stage.value}))
  }

  /** The atomic replacement of the state file; the lock goes with it. */
  function StepCommit(w: World, s: State, p: nat): State
    requires s.Proc(p).Working?
  {
    var proc := s.Proc(p);
    var next := Committed(w, proc.change);
    if proc.pubs != [] || next.None? then s
    else
      Leave(s, p).(disk := Leave(s, p).disk.(authority := Current(next.value)),
                   log := s.log + [Entry(proc.op, proc.token, proc.base, proc.seen, next.value)])
  }

  /** One step of process `p`; a step that is not enabled changes nothing. */
  function Next(w: World, s: State, p: nat, a: Action): State {
    var proc := s.Proc(p);
    match a
    case Begin(op, token) => if proc.Idle? then Put(s, p, Waiting(op, token)) else s
    case Acquire =>
      if proc.Waiting? && s.disk.lock.None? then Put(s, p, Locked(proc.op, proc.token)).(disk := s.disk.(lock := Some(p))) else s
    case Load => if proc.Locked? then StepLoad(w, s, p) else s
    case Identify => if proc.Working? && proc.pubs != [] then StepIdentify(w, s, p) else s
    case Reuse => if proc.Working? && proc.pubs != [] then StepReuse(w, s, p) else s
    case Open(nonce) => if proc.Working? && proc.pubs != [] then StepOpen(w, s, p, nonce) else s
    case StartWrite => if proc.Working? && proc.pubs != [] then StepWrite(s, p, true) else s
    case EndWrite => if proc.Working? && proc.pubs != [] then StepWrite(s, p, false) else s
    case Install => if proc.Working? && proc.pubs != [] then StepInstall(w, s, p) else s
    case Commit => if proc.Working? then StepCommit(w, s, p) else s
    case Stop => Leave(s, p)
  }

  datatype Event = Event(proc: nat, action: Action)

  function Run(w: World, s: State, events: seq<Event>): State {
    if events == [] then s
    else Next(w, Run(w, s, events[..|events| - 1]), events[|events| - 1].proc, events[|events| - 1].action)
  }
}
