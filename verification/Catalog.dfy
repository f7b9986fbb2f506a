/** The versioned catalog of profiles: its canonical form and the pure effect of each operation. */
module Catalog {
  import opened Base
  import opened Ordering

  const MAX_SELECTIONS := 1024

  datatype Selection = Selection(group: string, proxy: string)
  datatype Profile = Profile(key: string, storage: string, head: string, generation: nat,
                             selections: seq<Selection>, secret: Option<string>)
  datatype Active = Active(key: string, revision: string)
  datatype Catalog = Catalog(sequence: nat, active: Option<Active>, profiles: seq<Profile>)

  /** An immutable revision's content: its files in the order they are written. */
  datatype Bundle = Bundle(files: seq<string>)

  /** What lies outside the model: digests, of which nothing is assumed, bundle validation, and encoding size. */
  datatype World = World(storage: string -> string, revision: (string, Bundle) -> string,
                         ready: Bundle -> Option<bool>, offers: (Bundle, Selection) -> bool,
                         digest: Catalog -> string, fits: Catalog -> bool)

  // ---------------------------------------------------------------- keys and selections

  predicate SafeChar(c: char) {
    var n := c as int;
    !(n <= 31 || 127 <= n <= 159 || n == 0x61c || n == 0x200e || n == 0x200f || 0x2028 <= n <= 0x202e ||
      0x2066 <= n <= 0x2069 || n == 0xfeff)
  }

  predicate SafeText(s: string) { s != [] && forall i :: 0 <= i < |s| ==> SafeChar(s[i]) }

  predicate StoredKey(key: string) {
    && Utf8Length(key) <= 255 && SafeText(key) && key != "." && key != ".."
    && forall i :: 0 <= i < |key| ==> key[i] != '/' && key[i] != '\\'
  }

  predicate ValidKey(key: string) { Utf8Length(key) <= 250 && StoredKey(key) }

  function KeyOf(p: Profile): string { p.key }

  function GroupOf(s: Selection): string { s.group }

  predicate SelectionsOk(sel: seq<Selection>) {
    && |sel| <= MAX_SELECTIONS
    && (forall i :: 0 <= i < |sel| ==> SafeText(sel[i].group) && SafeText(sel[i].proxy))
    && AdjacentDiffer(GroupOf, Sort(GroupOf, sel))
  }

  // ---------------------------------------------------------------- canonical form

  function Tidy(p: Profile): Profile { p.(selections := Sort(GroupOf, p.selections)) }

  function TidyAll(ps: seq<Profile>): seq<Profile> { seq(|ps|, i requires 0 <= i < |ps| => Tidy(ps[i])) }

  /** A revision name: sixteen bytes in lower-case hexadecimal. */
  predicate RevisionName(text: string) {
    |text| == 32 && forall i :: 0 <= i < |text| ==> '0' <= text[i] <= '9' || 'a' <= text[i] <= 'f'
  }

  predicate ProfileOk(w: World, p: Profile) {
    StoredKey(p.key) && p.storage == w.storage(p.key) && RevisionName(p.head) && SelectionsOk(p.selections)
  }

  /** An active identity names some profile's current head. */
  predicate ActiveOk(active: Option<Active>, ps: seq<Profile>) {
    active.Some? ==> exists p :: p in ps && p.key == active.value.key && p.head == active.value.revision
  }

  /** Sorted by key, neighbours checked for duplicates, every profile validated, the active one a head. */
  function Canonical(w: World, c: Catalog): Option<Catalog> {
    var sorted := Sort(KeyOf, c.profiles);
    var d := c.(profiles := TidyAll(sorted));
    if AdjacentDiffer(KeyOf, sorted) && (forall p :: p in sorted ==> ProfileOk(w, p)) && ActiveOk(c.active, sorted) && w.fits(d)
    then Some(d) else None
  }

  /** What every stored catalog satisfies. */
  ghost predicate Sound(w: World, c: Catalog) {
    && Increasing(KeyOf, c.profiles)
    && (forall p :: p in c.profiles ==> ProfileOk(w, p) && Increasing(GroupOf, p.selections))
    && ActiveOk(c.active, c.profiles) && w.fits(c)
  }

  lemma SameElements<T>(a: seq<T>, b: seq<T>, x: T)
    requires multiset(a) == multiset(b)
    ensures x in a <==> x in b
  {
    assert x in a <==> x in multiset(a);
    assert x in b <==> x in multiset(b);
  }

  lemma {:induction false} SortSize<T>(key: T -> string, s: seq<T>)
    ensures |Sort(key, s)| == |s|
  {
    SortElements(key, s);
    assert |multiset(Sort(key, s))| == |Sort(key, s)|;
  }

  lemma TidySound(w: World, p: Profile)
    requires ProfileOk(w, p)
    ensures ProfileOk(w, Tidy(p)) && Increasing(GroupOf, Tidy(p).selections)
  {
    hide StoredKey, SafeText;
    var sel, sorted := p.selections, Sort(GroupOf, p.selections);
    SortSorted(GroupOf, sel);
    SortedUnique(GroupOf, sorted);
    SortSize(GroupOf, sel);
    SortElements(GroupOf, sel);
    SortStable(GroupOf, sorted);
    forall i | 0 <= i < |sorted|
      ensures SafeText(sorted[i].group) && SafeText(sorted[i].proxy)
    {
      SameElements(sorted, sel, sorted[i]);
    }
  }

  /** A canonical catalog is sound and holds exactly the given profiles, tidied. */
  lemma CanonicalSound(w: World, c: Catalog)
    requires Canonical(w, c).Some?
    ensures var d := Canonical(w, c).value;
            && Sound(w, d) && d.sequence == c.sequence && d.active == c.active
            && forall p :: p in d.profiles <==> exists q :: q in c.profiles && p == Tidy(q)
  {
    hide StoredKey, SelectionsOk, Sort, ProfileOk;
    var sorted, d := Sort(KeyOf, c.profiles), Canonical(w, c).value;
    SortSorted(KeyOf, c.profiles);
    SortedUnique(KeyOf, sorted);
    SortElements(KeyOf, c.profiles);
    forall i, j | 0 <= i < j < |d.profiles|
      ensures Below(KeyOf(d.profiles[i]), KeyOf(d.profiles[j]))
    {
      assert Below(KeyOf(sorted[i]), KeyOf(sorted[j]));
    }
    forall i | 0 <= i < |sorted|
      ensures ProfileOk(w, d.profiles[i]) && Increasing(GroupOf, d.profiles[i].selections)
      ensures sorted[i] in c.profiles && d.profiles[i] == Tidy(sorted[i])
    {
      TidySound(w, sorted[i]);
      SameElements(sorted, c.profiles, sorted[i]);
    }
    forall q | q in c.profiles
      ensures Tidy(q) in d.profiles
    {
      SameElements(sorted, c.profiles, q);
      var i :| 0 <= i < |sorted| && sorted[i] == q;
      assert d.profiles[i] == Tidy(q);
    }
    if c.active.Some? {
      var p :| p in sorted && p.key == c.active.value.key && p.head == c.active.value.revision;
      SameElements(sorted, c.profiles, p);
      assert Tidy(p) in d.profiles;
    }
  }

  /** Selections are accepted exactly when there are not too many, every name is safe and no group is named twice. */
  lemma SelectionsMeaning(sel: seq<Selection>)
    ensures SelectionsOk(sel) <==>
            && |sel| <= MAX_SELECTIONS && DistinctKeys(GroupOf, sel)
            && forall s :: s in sel ==> SafeText(s.group) && SafeText(s.proxy)
  {
    hide SafeText, Sort;
    DuplicatesFound(GroupOf, sel);
  }

  /** A catalog is accepted exactly when no key stands twice, every profile is valid, the active one is a head, and the
      sorted catalog fits. */
  lemma CanonicalExactly(w: World, c: Catalog)
    ensures Canonical(w, c).Some? <==>
            && DistinctKeys(KeyOf, c.profiles) && (forall p :: p in c.profiles ==> ProfileOk(w, p)) && ActiveOk(c.active, c.profiles)
            && w.fits(c.(profiles := TidyAll(Sort(KeyOf, c.profiles))))
  {
    hide ProfileOk, Sort, TidyAll;
    var sorted := Sort(KeyOf, c.profiles);
    DuplicatesFound(KeyOf, c.profiles);
    SortElements(KeyOf, c.profiles);
    assert forall p :: p in sorted <==> p in multiset(sorted);
    assert forall p :: p in c.profiles <==> p in multiset(c.profiles);
  }

  /** Reading back a stored catalog re-encodes it unchanged, so it is never taken for corrupt. */
  lemma SoundStable(w: World, c: Catalog)
    requires Sound(w, c)
    ensures Canonical(w, c) == Some(c)
  {
    hide StoredKey, SafeText;
    SortStable(KeyOf, c.profiles);
    IncreasingUnique(KeyOf, c.profiles);
    forall i | 0 <= i < |c.profiles|
      ensures Tidy(c.profiles[i]) == c.profiles[i]
    {
      SortStable(GroupOf, c.profiles[i].selections);
    }
    assert TidyAll(c.profiles) == c.profiles;
  }

  // ---------------------------------------------------------------- operations

  datatype Legacy = Legacy(key: string, bundle: Bundle, selections: Option<seq<Selection>>)

  datatype Op =
    | Publish(key: string, expected: Option<string>, bundle: Bundle, activate: bool)
    | Activate(target: Option<string>)
    | Delete(key: string, head: string)
    | Rename(key: string, head: string, to: string)
    | Select(key: string, head: string, generation: nat, selections: seq<Selection>)
    | Secret(key: string, head: string, drawn: string)
    | Takeover(profiles: seq<Legacy>, active: Option<string>)

  /** A revision to make visible before the catalog that refers to it. */
  datatype Pub = Pub(key: string, revision: string, bundle: Bundle)

  datatype Change = Change(catalog: Catalog, pubs: seq<Pub>)

  function Find(ps: seq<Profile>, key: string): (r: Option<nat>)
    ensures r.Some? ==> r.value < |ps| && ps[r.value].key == key
    ensures r.None? <==> forall i :: 0 <= i < |ps| ==> ps[i].key != key
  {
    if ps == [] then None
    else if ps[0].key == key then Some(0)
    else
      assert ps == [ps[0]] + ps[1..];
      var rest := Find(ps[1..], key);
      if rest.None? then None else Some(rest.value + 1)
  }

  predicate IsActive(c: Catalog, key: string) { c.active.Some? && c.active.value.key == key }

  function Retained(w: World, bundle: Bundle, sel: seq<Selection>): seq<Selection> {
    if sel == [] then []
    else (if w.offers(bundle, sel[0]) then [sel[0]] else []) + Retained(w, bundle, sel[1..])
  }

  /** The profile a publication leaves: the new head, the selections it still offers, the old secret. */
  function Republished(w: World, key: string, bundle: Bundle, prior: Option<Profile>): Profile {
    var sel := if prior.Some? then prior.value.selections else [];
    var kept := Retained(w, bundle, sel);
    var generation := if prior.Some? then prior.value.generation else 0;
    Profile(key, w.storage(key), w.revision(key, bundle), generation + (if |kept| != |sel| then 1 else 0), kept,
            if prior.Some? then prior.value.secret else None)
  }

  function ApplyPublish(w: World, op: Op, c: Catalog): Option<Change>
    requires op.Publish?
  {
    var at := Find(c.profiles, op.key);
    var prior := if at.Some? then Some(c.profiles[at.value]) else None;
    var active := op.activate || IsActive(c, op.key);
    var profile := Republished(w, op.key, op.bundle, prior);
    if (if prior.Some? then Some(prior.value.head) else None) != op.expected then None
    else if !(if prior.None? then ValidKey(op.key) else StoredKey(op.key)) then None
    else if w.ready(op.bundle).None? || (active && w.ready(op.bundle) != Some(true)) then None
    else if profile.generation > U64_MAX then None
    else
      var profiles := if at.Some? then c.profiles[at.value := profile] else c.profiles + [profile];
      var identity := if active then Some(Active(op.key, profile.head)) else c.active;
      Some(Change(c.(profiles := profiles, active := identity), [Pub(op.key, profile.head, op.bundle)]))
  }

  function ApplyActivate(w: World, op: Op, seen: Option<Bundle>, c: Catalog): Option<Change>
    requires op.Activate?
  {
    if op.target.None? then Some(Change(c.(active := None), []))
    else
      var at :- Find(c.profiles, op.target.value);
      var bundle :- seen;
      if w.ready(bundle) != Some(true) then None
      else Some(Change(c.(active := Some(Active(op.target.value, c.profiles[at].head))), []))
  }

  function ApplyDelete(op: Op, c: Catalog): Option<Change>
    requires op.Delete?
  {
    var at :- Find(c.profiles, op.key);
    if c.profiles[at].head != op.head then None
    else
      Some(Change(c.(profiles := c.profiles[..at] + c.profiles[at + 1..],
                     active := if IsActive(c, op.key) then None else c.active), []))
  }

  function ApplyRename(w: World, op: Op, seen: Option<Bundle>, c: Catalog): Option<Change>
    requires op.Rename?
  {
    if !ValidKey(op.to) || Find(c.profiles, op.to).Some? then None
    else
      var at :- Find(c.profiles, op.key);
      if c.profiles[at].head != op.head then None
      else
        var bundle :- seen;
        var head := w.revision(op.to, bundle);
        var profile := c.profiles[at].(key := op.to, storage := w.storage(op.to), head := head);
        Some(Change(c.(profiles := c.profiles[at := profile],
                       active := if IsActive(c, op.key) then Some(Active(op.to, head)) else c.active),
                    [Pub(op.to, head, bundle)]))
  }

  function ApplySelect(op: Op, seen: Option<Bundle>, c: Catalog): Option<Change>
    requires op.Select?
  {
    if !SelectionsOk(op.selections) then None
    else
      var at :- Find(c.profiles, op.key);
      var p := c.profiles[at];
      if p.head != op.head || p.generation != op.generation || seen.None? || p.generation == U64_MAX then None
      else
        var next := p.(generation := p.generation + 1, selections := Sort(GroupOf, op.selections));
        Some(Change(c.(profiles := c.profiles[at := next]), []))
  }

  /** An assigned secret is returned, not replaced: then nothing is committed. */
  function ApplySecret(op: Op, seen: Option<Bundle>, c: Catalog): Option<Change>
    requires op.Secret?
  {
    var at :- Find(c.profiles, op.key);
    var p := c.profiles[at];
    if p.head != op.head || seen.None? || p.secret.Some? then None
    else Some(Change(c.(profiles := c.profiles[at := p.(secret := Some(op.drawn))]), []))
  }

  function Imported(w: World, l: Legacy): Profile {
    Profile(l.key, w.storage(l.key), w.revision(l.key, l.bundle), if l.selections.Some? then 1 else 0,
            if l.selections.Some? then Sort(GroupOf, l.selections.value) else [], None)
  }

  /** The active identity a takeover carries over from the first `n` entries: only a ready bundle becomes active. */
  function ImportedActive(w: World, op: Op, n: nat): Option<Active>
    requires op.Takeover? && n <= |op.profiles|
  {
    if n == 0 then None
    else
      var l := op.profiles[n - 1];
      if op.active == Some(l.key) && w.ready(l.bundle) == Some(true) then Some(Active(l.key, w.revision(l.key, l.bundle)))
      else ImportedActive(w, op, n - 1)
  }

  function ApplyTakeover(w: World, op: Op, sequence: nat): Option<Change>
    requires op.Takeover?
  {
    if exists l :: l in op.profiles && (w.ready(l.bundle).None? || (l.selections.Some? && !SelectionsOk(l.selections.value))) then None
    else
      Some(Change(Catalog(sequence, ImportedActive(w, op, |op.profiles|), seq(|op.profiles|, i requires 0 <= i < |op.profiles| => Imported(w, op.profiles[i]))),
                  seq(|op.profiles|, i requires 0 <= i < |op.profiles| => Import(w, op.profiles[i]))))
  }

  function Import(w: World, l: Legacy): Pub { Pub(l.key, w.revision(l.key, l.bundle), l.bundle) }

  /** The effect of an operation on a catalog, before its sequence number is raised; `seen` is the bundle read
      back from the profile's head where the operation reads one. */
  function Apply(w: World, op: Op, seen: Option<Bundle>, c: Catalog): Option<Change> {
    match op
    case Publish(_, _, _, _) => ApplyPublish(w, op, c)
    case Activate(_) => ApplyActivate(w, op, seen, c)
    case Delete(_, _) => ApplyDelete(op, c)
    case Rename(_, _, _) => ApplyRename(w, op, seen, c)
    case Select(_, _, _, _) => ApplySelect(op, seen, c)
    case Secret(_, _, _) => ApplySecret(op, seen, c)
    case Takeover(_, _) => ApplyTakeover(w, op, c.sequence)
  }

  /** The catalog a change commits: one step later in the sequence, in canonical form. */
  function Committed(w: World, change: Change): Option<Catalog> {
    if change.catalog.sequence >= U64_MAX then None
    else Canonical(w, change.catalog.(sequence := change.catalog.sequence + 1))
  }

  // ---------------------------------------------------------------- what every operation keeps

  lemma FindThe(c: Catalog, p: Profile)
    requires Increasing(KeyOf, c.profiles) && p in c.profiles
    ensures var at := Find(c.profiles, p.key); at.Some? && c.profiles[at.value] == p
  {
    IncreasingUnique(KeyOf, c.profiles);
    var i :| 0 <= i < |c.profiles| && c.profiles[i] == p;
    assert Find(c.profiles, p.key).Some?;
    var at := Find(c.profiles, p.key).value;
    assert KeyOf(c.profiles[at]) == KeyOf(c.profiles[i]);
  }

  /** Every head of the new catalog is an old head or is published with the change, under its own identity. */
  ghost predicate Covered(w: World, c: Catalog, change: Change) {
    && (forall pub :: pub in change.pubs ==> pub.revision == w.revision(pub.key, pub.bundle))
    && forall p :: p in change.catalog.profiles ==>
         || (exists q :: q in c.profiles && q.key == p.key && q.head == p.head)
         || (exists pub :: pub in change.pubs && pub.key == p.key && pub.revision == p.head)
  }

  lemma TakeoverCovered(w: World, op: Op, c: Catalog)
    requires op.Takeover? && ApplyTakeover(w, op, c.sequence).Some?
    ensures Covered(w, c, ApplyTakeover(w, op, c.sequence).value)
  {
    hide SelectionsOk, Sort;
    var change := ApplyTakeover(w, op, c.sequence).value;
    forall p | p in change.catalog.profiles
      ensures exists pub :: pub in change.pubs && pub.key == p.key && pub.revision == p.head
    {
      var i :| 0 <= i < |op.profiles| && change.catalog.profiles[i] == p;
      assert change.pubs[i] in change.pubs && change.pubs[i] == Import(w, op.profiles[i]);
    }
  }

  /** Publishing and renaming bring in one new head, with its publication. */
  lemma OneCovered(w: World, op: Op, seen: Option<Bundle>, c: Catalog)
    requires (op.Publish? || op.Rename?) && Apply(w, op, seen, c).Some?
    ensures Covered(w, c, Apply(w, op, seen, c).value)
  {
    hide ValidKey, StoredKey, Retained;
    var change := Apply(w, op, seen, c).value;
    var pub := change.pubs[0];
    assert pub in change.pubs;
    forall p | p in change.catalog.profiles
      ensures p in c.profiles || (pub.key == p.key && pub.revision == p.head)
    {
    }
  }

  lemma HeadsCovered(w: World, op: Op, seen: Option<Bundle>, c: Catalog)
    requires Apply(w, op, seen, c).Some?
    ensures Covered(w, c, Apply(w, op, seen, c).value)
    ensures Apply(w, op, seen, c).value.catalog.sequence == c.sequence
  {
    hide ValidKey, StoredKey, SelectionsOk, Sort;
    var change := Apply(w, op, seen, c).value;
    if op.Takeover? {
      TakeoverCovered(w, op, c);
    } else if op.Publish? || op.Rename? {
      OneCovered(w, op, seen, c);
    } else {
      forall p | p in change.catalog.profiles
        ensures exists q :: q in c.profiles && q.key == p.key && q.head == p.head
      {
        if p !in c.profiles {
          var at := Find(c.profiles, op.key).value;
          assert c.profiles[at] in c.profiles;
        }
      }
    }
  }

  /** While a profile exists its generation never falls and an assigned secret is never replaced. */
  lemma ProfileKept(w: World, op: Op, seen: Option<Bundle>, c: Catalog, p: Profile, q: Profile)
    requires Increasing(KeyOf, c.profiles) && !op.Takeover? && Apply(w, op, seen, c).Some?
    requires p in c.profiles && q in Apply(w, op, seen, c).value.catalog.profiles && p.key == q.key
    ensures p.generation <= q.generation && (p.secret.Some? ==> q.secret == p.secret)
  {
    hide ValidKey, StoredKey, SelectionsOk, Sort;
    FindThe(c, p);
    if q in c.profiles {
      FindThe(c, q);
    }
  }

  /** Where the new active identity comes from, and why its bundle is ready. */
  ghost predicate ActiveFrom(w: World, op: Op, seen: Option<Bundle>, c: Catalog, change: Change) {
    change.catalog.active.Some? ==>
      var a := change.catalog.active.value;
      || c.active == Some(a)
      || (op.Activate? && seen.Some? && w.ready(seen.value) == Some(true) && op.target == Some(a.key) &&
          exists p :: p in c.profiles && p.key == a.key && p.head == a.revision)
      || (exists pub :: pub in change.pubs && pub.key == a.key && pub.revision == a.revision && w.ready(pub.bundle) == Some(true))
      || (op.Rename? && c.active == Some(Active(op.key, op.head)) && seen.Some? && change.pubs == [Pub(a.key, a.revision, seen.value)])
  }

  lemma {:induction false} ImportedReady(w: World, op: Op, n: nat)
    requires op.Takeover? && n <= |op.profiles| && ImportedActive(w, op, n).Some?
    ensures var a := ImportedActive(w, op, n).value;
            exists i :: 0 <= i < n && w.ready(op.profiles[i].bundle) == Some(true) && op.profiles[i].key == a.key &&
                        Import(w, op.profiles[i]).revision == a.revision
  {
    var l := op.profiles[n - 1];
    if !(op.active == Some(l.key) && w.ready(l.bundle) == Some(true)) {
      ImportedReady(w, op, n - 1);
    }
  }

  lemma ActiveOrigin(w: World, op: Op, seen: Option<Bundle>, c: Catalog)
    requires Sound(w, c) && Apply(w, op, seen, c).Some?
    ensures ActiveFrom(w, op, seen, c, Apply(w, op, seen, c).value)
  {
    hide ValidKey, StoredKey, SelectionsOk, Sort, ProfileOk;
    var change := Apply(w, op, seen, c).value;
    if op.Takeover? && change.catalog.active.Some? {
      ImportedReady(w, op, |op.profiles|);
      var i :| 0 <= i < |op.profiles| && w.ready(op.profiles[i].bundle) == Some(true) &&
               op.profiles[i].key == change.catalog.active.value.key &&
               Import(w, op.profiles[i]).revision == change.catalog.active.value.revision;
      assert change.pubs[i] == Import(w, op.profiles[i]);
    } else if op.Publish? {
      assert change.pubs[0] in change.pubs;
    } else if op.Activate? && op.target.Some? {
      assert c.profiles[Find(c.profiles, op.target.value).value] in c.profiles;
    } else if op.Rename? && IsActive(c, op.key) {
      var p :| p in c.profiles && p.key == c.active.value.key && p.head == c.active.value.revision;
      FindThe(c, p);
    }
  }

  /** The keys an operation may touch. */
  function Touched(op: Op): set<string> {
    match op
    case Publish(key, _, _, _) => {key}
    case Activate(_) => {}
    case Delete(key, _) => {key}
    case Rename(key, _, to) => {key, to}
    case Select(key, _, _, _) => {key}
    case Secret(key, _, _) => {key}
    case Takeover(_, _) => {}
  }

  /** Every profile outside the keys an operation names is left exactly as it was. */
  lemma OthersKept(w: World, op: Op, seen: Option<Bundle>, c: Catalog, p: Profile)
    requires !op.Takeover? && Apply(w, op, seen, c).Some? && p.key !in Touched(op)
    ensures p in Apply(w, op, seen, c).value.catalog.profiles <==> p in c.profiles
  {
    hide ValidKey, StoredKey, SelectionsOk, Sort;
    var next := Apply(w, op, seen, c).value.catalog.profiles;
    if !op.Activate? && Find(c.profiles, op.key).Some? {
      var at := Find(c.profiles, op.key).value;
      if p in c.profiles {
        var i :| 0 <= i < |c.profiles| && c.profiles[i] == p;
        assert op.Delete? && i > at ==> next[i - 1] == p;
        assert !(op.Delete? && i > at) ==> next[i] == p;
      }
    } else if op.Publish? && p in c.profiles {
      var i :| 0 <= i < |c.profiles| && c.profiles[i] == p;
      assert next[i] == p;
    }
  }

  /** Each entry that is left comes from its place in the list, and `keep` allows it. */
  ghost predicate Sources(before: seq<Selection>, after: seq<Selection>, keep: Selection -> bool, at: seq<nat>) {
    |at| == |after| && forall i :: 0 <= i < |at| ==> at[i] < |before| && after[i] == before[at[i]] && keep(after[i])
  }

  ghost predicate Rising(at: seq<nat>) { forall i, j :: 0 <= i < j < |at| ==> at[i] < at[j] }

  /** Everything `keep` allows is left. */
  ghost predicate NoneMissing(before: seq<Selection>, keep: Selection -> bool, at: seq<nat>) {
    forall k :: 0 <= k < |before| && keep(before[k]) ==> k in at
  }

  /** What is left of a list when only what `keep` allows stays, in the same order; `at` says where each came from. */
  ghost predicate KeptAt(before: seq<Selection>, after: seq<Selection>, keep: Selection -> bool, at: seq<nat>) {
    Sources(before, after, keep, at) && Rising(at) && NoneMissing(before, keep, at)
  }

  ghost predicate Kept(before: seq<Selection>, after: seq<Selection>, keep: Selection -> bool) {
    exists at :: KeptAt(before, after, keep, at)
  }

  /** A republished profile: the new head; of the profile it replaces the secret and, in order, every selection the new
      bundle still offers, counted as a change only if one was dropped. */
  ghost predicate Replaces(w: World, bundle: Bundle, q: Profile, p: Profile) {
    && p == q.(head := w.revision(q.key, bundle), storage := w.storage(q.key), selections := p.selections, generation := p.generation)
    && Kept(q.selections, p.selections, s => w.offers(bundle, s))
    && p.generation == q.generation + (if forall s :: s in q.selections ==> w.offers(bundle, s) then 0 else 1)
  }

  /** The only profile under a key becomes `p`. */
  ghost predicate Becomes(c: Catalog, next: Catalog, key: string, p: Profile) {
    p in next.profiles && p.key == key && forall r :: r in next.profiles && r.key == key ==> r == p
  }

  ghost predicate PublishEffect(w: World, op: Op, c: Catalog, change: Change)
    requires op.Publish?
  {
    var next, head := change.catalog, w.revision(op.key, op.bundle);
    && (exists p :: Becomes(c, next, op.key, p) &&
                    if Find(c.profiles, op.key).None? then p == Profile(op.key, w.storage(op.key), head, 0, [], None)
                    else forall q :: q in c.profiles && q.key == op.key ==> Replaces(w, op.bundle, q, p))
    && next.active == (if op.activate || IsActive(c, op.key) then Some(Active(op.key, head)) else c.active)
    && change.pubs == [Pub(op.key, head, op.bundle)]
  }

  ghost predicate RenameEffect(w: World, op: Op, seen: Option<Bundle>, c: Catalog, change: Change)
    requires op.Rename?
  {
    var next := change.catalog;
    && seen.Some? && change.pubs == [Pub(op.to, w.revision(op.to, seen.value), seen.value)]
    && (forall p :: p in next.profiles ==> p.key != op.key)
    && (forall p :: p in c.profiles && p.key == op.key ==>
          p.(key := op.to, storage := w.storage(op.to), head := w.revision(op.to, seen.value)) in next.profiles)
    && next.active == if IsActive(c, op.key) then Some(Active(op.to, w.revision(op.to, seen.value))) else c.active
  }

  /** What an operation leaves under the keys it names, which identity it leaves active and what it publishes. */
  ghost predicate OwnEffect(w: World, op: Op, seen: Option<Bundle>, c: Catalog, change: Change) {
    var next := change.catalog;
    match op
    case Publish(_, _, _, _) => PublishEffect(w, op, c, change)
    case Activate(target) =>
      && next.profiles == c.profiles && change.pubs == []
      && (if target.None? then next.active.None?
          else exists p :: p in c.profiles && p.key == target.value && next.active == Some(Active(p.key, p.head)))
    case Delete(key, _) =>
      && (forall p :: p in next.profiles ==> p.key != key) && change.pubs == []
      && next.active == if IsActive(c, key) then None else c.active
    case Rename(_, _, _) => RenameEffect(w, op, seen, c, change)
    case Select(key, head, generation, selections) =>
      && next.active == c.active && change.pubs == []
      && exists p, q :: q in c.profiles && q.key == key && q.head == head && q.generation == generation && Becomes(c, next, key, p)
                        && p == q.(generation := generation + 1, selections := p.selections)
                        && multiset(p.selections) == multiset(selections) && Increasing(GroupOf, p.selections)
    case Secret(key, head, drawn) =>
      && next.active == c.active && change.pubs == []
      && exists q :: q in c.profiles && q.key == key && q.head == head && q.secret.None? && Becomes(c, next, key, q.(secret := Some(drawn)))
    case Takeover(profiles, active) =>
      && |next.profiles| == |profiles| && (forall i :: 0 <= i < |profiles| ==> CarriedOver(w, profiles[i], next.profiles[i]))
      && (next.active.Some? ==> active == Some(next.active.value.key))
      && (next.active.Some? <==> exists l :: l in profiles && active == Some(l.key) && w.ready(l.bundle) == Some(true))
      && |change.pubs| == |profiles|
      && forall i :: 0 <= i < |profiles| ==>
           change.pubs[i] == Pub(profiles[i].key, w.revision(profiles[i].key, profiles[i].bundle), profiles[i].bundle)
  }

  /** A taken-over profile: the legacy bundle's revision and the legacy selections in order, counted as one change. */
  ghost predicate CarriedOver(w: World, l: Legacy, p: Profile) {
    && p.key == l.key && p.storage == w.storage(l.key) && p.head == w.revision(l.key, l.bundle) && p.secret.None?
    && multiset(p.selections) == multiset(if l.selections.Some? then l.selections.value else [])
    && Increasing(GroupOf, p.selections) && p.generation == (if l.selections.Some? then 1 else 0)
  }

  lemma {:induction false} TakeoverActive(w: World, op: Op, n: nat)
    requires op.Takeover? && n <= |op.profiles|
    ensures var a := ImportedActive(w, op, n);
            && (a.Some? <==> exists i :: 0 <= i < n && op.active == Some(op.profiles[i].key) && w.ready(op.profiles[i].bundle) == Some(true))
            && (a.Some? ==> op.active == Some(a.value.key))
  {
    if n != 0 {
      TakeoverActive(w, op, n - 1);
    }
  }

  lemma TakeoverMeant(w: World, op: Op, seen: Option<Bundle>, c: Catalog)
    requires op.Takeover? && Apply(w, op, seen, c).Some?
    ensures OwnEffect(w, op, seen, c, Apply(w, op, seen, c).value)
  {
    hide SafeText, Sort, ImportedActive;
    var next := Apply(w, op, seen, c).value.catalog;
    TakeoverActive(w, op, |op.profiles|);
    forall i | 0 <= i < |op.profiles|
      ensures CarriedOver(w, op.profiles[i], next.profiles[i])
    {
      var l := op.profiles[i];
      assert l in op.profiles;
      if l.selections.Some? {
        SortSorted(GroupOf, l.selections.value);
        SortedUnique(GroupOf, Sort(GroupOf, l.selections.value));
        SortElements(GroupOf, l.selections.value);
      }
    }
  }

  function Shifted(at: seq<nat>, first: bool): seq<nat> {
    (if first then [0] else []) + seq(|at|, i requires 0 <= i < |at| => at[i] + 1)
  }

  lemma ShiftedAt(at: seq<nat>, first: bool, i: nat)
    requires i < |Shifted(at, first)|
    ensures Shifted(at, first)[i] == if first then (if i == 0 then 0 else at[i - 1] + 1) else at[i] + 1
  {
  }

  lemma SourcesMore(x: Selection, before: seq<Selection>, after: seq<Selection>, keep: Selection -> bool, at: seq<nat>)
    requires Sources(before, after, keep, at)
    ensures Sources([x] + before, (if keep(x) then [x] else []) + after, keep, Shifted(at, keep(x)))
  {
    var all, left, places := [x] + before, (if keep(x) then [x] else []) + after, Shifted(at, keep(x));
    forall i | 0 <= i < |places|
      ensures places[i] < |all| && left[i] == all[places[i]] && keep(left[i])
    {
      ShiftedAt(at, keep(x), i);
    }
  }

  lemma RisingMore(at: seq<nat>, first: bool)
    requires Rising(at)
    ensures Rising(Shifted(at, first))
  {
    forall i, j | 0 <= i < j < |Shifted(at, first)|
      ensures Shifted(at, first)[i] < Shifted(at, first)[j]
    {
      ShiftedAt(at, first, i);
      ShiftedAt(at, first, j);
    }
  }

  lemma NoneMissingMore(x: Selection, before: seq<Selection>, keep: Selection -> bool, at: seq<nat>)
    requires NoneMissing(before, keep, at)
    ensures NoneMissing([x] + before, keep, Shifted(at, keep(x)))
  {
    var all, places := [x] + before, Shifted(at, keep(x));
    forall k | 0 <= k < |all| && keep(all[k])
      ensures k in places
    {
      if k == 0 {
        ShiftedAt(at, true, 0);
      } else {
        assert keep(before[k - 1]);
        var m :| 0 <= m < |at| && at[m] == k - 1;
        ShiftedAt(at, keep(x), if keep(x) then m + 1 else m);
      }
    }
  }

  /** Filtering keeps what is offered, in order. */
  lemma {:induction false} RetainedKept(w: World, bundle: Bundle, sel: seq<Selection>, keep: Selection -> bool) returns (at: seq<nat>)
    requires forall s :: keep(s) == w.offers(bundle, s)
    ensures KeptAt(sel, Retained(w, bundle, sel), keep, at)
    decreases |sel|
  {
    hide Sources, Rising, NoneMissing;
    at := [];
    if sel == [] {
      KeptNothing(keep);
    } else {
      var rest := RetainedKept(w, bundle, sel[1..], keep);
      at := Shifted(rest, keep(sel[0]));
      SourcesMore(sel[0], sel[1..], Retained(w, bundle, sel[1..]), keep, rest);
      RisingMore(rest, keep(sel[0]));
      NoneMissingMore(sel[0], sel[1..], keep, rest);
      assert [sel[0]] + sel[1..] == sel;
    }
  }

  lemma KeptNothing(keep: Selection -> bool)
    ensures KeptAt([], [], keep, [])
  {
  }

  /** Filtering is shorter exactly when something is not offered. */
  lemma {:induction false} RetainedAll(w: World, bundle: Bundle, sel: seq<Selection>)
    ensures |Retained(w, bundle, sel)| <= |sel|
    ensures |Retained(w, bundle, sel)| == |sel| <==> forall s :: s in sel ==> w.offers(bundle, s)
    decreases |sel|
  {
    if sel != [] {
      RetainedAll(w, bundle, sel[1..]);
      assert sel == [sel[0]] + sel[1..];
    }
  }

  /** Only the found index holds the key. */
  lemma UniqueAt(c: Catalog, key: string)
    requires Increasing(KeyOf, c.profiles) && Find(c.profiles, key).Some?
    ensures forall i :: 0 <= i < |c.profiles| && c.profiles[i].key == key ==> i == Find(c.profiles, key).value
  {
    IncreasingUnique(KeyOf, c.profiles);
    forall i | 0 <= i < |c.profiles| && c.profiles[i].key == key
      ensures i == Find(c.profiles, key).value
    {
      assert KeyOf(c.profiles[i]) == KeyOf(c.profiles[Find(c.profiles, key).value]);
    }
  }

  /** Replacing the profile found under a key replaces the only one. */
  lemma UpdatedBecomes(c: Catalog, next: Catalog, key: string, p: Profile)
    requires Increasing(KeyOf, c.profiles) && Find(c.profiles, key).Some? && p.key == key
    requires next.profiles == c.profiles[Find(c.profiles, key).value := p]
    ensures Becomes(c, next, key, p) && c.profiles[Find(c.profiles, key).value] in c.profiles
  {
    hide Increasing;
    UniqueAt(c, key);
    assert next.profiles[Find(c.profiles, key).value] == p;
  }

  lemma RepublishedReplaces(w: World, bundle: Bundle, q: Profile)
    ensures Replaces(w, bundle, q, Republished(w, q.key, bundle, Some(q)))
  {
    hide Retained;
    var keep := s => w.offers(bundle, s);
    var at := RetainedKept(w, bundle, q.selections, keep);
    assert KeptAt(q.selections, Retained(w, bundle, q.selections), s => w.offers(bundle, s), at);
    RetainedAll(w, bundle, q.selections);
  }

  lemma PublishMeant(w: World, op: Op, seen: Option<Bundle>, c: Catalog)
    requires op.Publish? && Increasing(KeyOf, c.profiles) && Apply(w, op, seen, c).Some?
    ensures OwnEffect(w, op, seen, c, Apply(w, op, seen, c).value)
  {
    hide ValidKey, StoredKey, Retained, Increasing, Replaces;
    var change, at := Apply(w, op, seen, c).value, Find(c.profiles, op.key);
    var next := change.catalog;
    if at.Some? {
      var q := c.profiles[at.value];
      var p := Republished(w, op.key, op.bundle, Some(q));
      RepublishedReplaces(w, op.bundle, q);
      UpdatedBecomes(c, next, op.key, p);
      UniqueAt(c, op.key);
    } else {
      var p := Republished(w, op.key, op.bundle, None);
      assert next.profiles == c.profiles + [p] && next.profiles[|c.profiles|] == p;
      NothingRetained(w, op.bundle);
      assert Becomes(c, next, op.key, p);
    }
  }

  lemma NothingRetained(w: World, bundle: Bundle)
    ensures Retained(w, bundle, []) == []
  {
  }

  lemma RenameMeant(w: World, op: Op, seen: Option<Bundle>, c: Catalog)
    requires op.Rename? && Increasing(KeyOf, c.profiles) && Apply(w, op, seen, c).Some?
    ensures OwnEffect(w, op, seen, c, Apply(w, op, seen, c).value)
  {
    hide ValidKey, Increasing;
    UniqueAt(c, op.key);
    var next := Apply(w, op, seen, c).value.catalog;
    assert next.profiles[Find(c.profiles, op.key).value] in next.profiles;
  }

  lemma SelectMeant(w: World, op: Op, seen: Option<Bundle>, c: Catalog)
    requires op.Select? && Increasing(KeyOf, c.profiles) && Apply(w, op, seen, c).Some?
    ensures OwnEffect(w, op, seen, c, Apply(w, op, seen, c).value)
  {
    hide Sort, SafeText;
    var next, at := Apply(w, op, seen, c).value.catalog, Find(c.profiles, op.key).value;
    var q, p := c.profiles[at], next.profiles[at];
    SortSorted(GroupOf, op.selections);
    SortedUnique(GroupOf, Sort(GroupOf, op.selections));
    SortElements(GroupOf, op.selections);
    UpdatedBecomes(c, next, op.key, p);
  }

  lemma EffectMeant(w: World, op: Op, seen: Option<Bundle>, c: Catalog)
    requires Increasing(KeyOf, c.profiles) && Apply(w, op, seen, c).Some?
    ensures OwnEffect(w, op, seen, c, Apply(w, op, seen, c).value)
  {
    hide SelectionsOk, Sort, Increasing, ApplyPublish, ApplyRename, ApplyTakeover, ApplySelect, CarriedOver, PublishEffect, RenameEffect;
    var next := Apply(w, op, seen, c).value.catalog;
    match op {
      case Publish(_, _, _, _) => PublishMeant(w, op, seen, c);
      case Activate(target) =>
        if target.Some? {
          assert c.profiles[Find(c.profiles, target.value).value] in c.profiles;
        }
      case Delete(key, _) => UniqueAt(c, key);
      case Rename(_, _, _) => RenameMeant(w, op, seen, c);
      case Select(_, _, _, _) => SelectMeant(w, op, seen, c);
      case Secret(key, _, drawn) => UpdatedBecomes(c, next, key, c.profiles[Find(c.profiles, key).value].(secret := Some(drawn)));
      case Takeover(_, _) => TakeoverMeant(w, op, seen, c);
    }
  }

  /** The profile an operation expects to find: the one with its key, at the head and generation it names. */
  ghost predicate Expected(op: Op, c: Catalog) {
    match op
    case Publish(key, expected, _, _) =>
      if expected.None? then forall p :: p in c.profiles ==> p.key != key
      else exists p :: p in c.profiles && p.key == key && p.head == expected.value
    case Activate(target) => target.Some? ==> exists p :: p in c.profiles && p.key == target.value
    case Delete(key, head) => exists p :: p in c.profiles && p.key == key && p.head == head
    case Rename(key, head, to) =>
      (exists p :: p in c.profiles && p.key == key && p.head == head) && forall p :: p in c.profiles ==> p.key != to
    case Select(key, head, generation, _) =>
      exists p :: p in c.profiles && p.key == key && p.head == head && p.generation == generation
    case Secret(key, head, _) => exists p :: p in c.profiles && p.key == key && p.head == head && p.secret.None?
    case Takeover(_, _) => true
  }

  /** What else an operation needs: valid names, a bundle that is valid, and ready where it becomes active, and counters
      that do not overflow. */
  ghost predicate Acceptable(w: World, op: Op, seen: Option<Bundle>, c: Catalog) {
    match op
    case Publish(key, expected, bundle, activate) =>
      && (if expected.None? then ValidKey(key) else StoredKey(key))
      && w.ready(bundle).Some? && (activate || IsActive(c, key) ==> w.ready(bundle) == Some(true))
      && (forall q :: q in c.profiles && q.key == key ==>
            q.generation + (if forall s :: s in q.selections ==> w.offers(bundle, s) then 0 else 1) <= U64_MAX)
    case Activate(target) => target.Some? ==> seen.Some? && w.ready(seen.value) == Some(true)
    case Delete(_, _) => true
    case Rename(_, _, to) => ValidKey(to) && seen.Some?
    case Select(_, _, generation, selections) => SelectionsOk(selections) && seen.Some? && generation != U64_MAX
    case Secret(_, _, _) => seen.Some?
    case Takeover(profiles, _) =>
      forall l :: l in profiles ==> w.ready(l.bundle).Some? && (l.selections.Some? ==> SelectionsOk(l.selections.value))
  }

  lemma PublishAccepted(w: World, op: Op, seen: Option<Bundle>, c: Catalog)
    requires op.Publish? && Increasing(KeyOf, c.profiles)
    ensures Apply(w, op, seen, c).Some? <==> Expected(op, c) && Acceptable(w, op, seen, c)
  {
    hide ValidKey, StoredKey, Retained, Increasing;
    var at := Find(c.profiles, op.key);
    if at.Some? {
      UniqueAt(c, op.key);
      assert c.profiles[at.value] in c.profiles;
      RetainedAll(w, op.bundle, c.profiles[at.value].selections);
    } else {
      NothingRetained(w, op.bundle);
    }
  }

  /** An operation takes effect exactly when the catalog is as it expects and the rest is in order. */
  lemma AppliedExactly(w: World, op: Op, seen: Option<Bundle>, c: Catalog)
    requires Increasing(KeyOf, c.profiles)
    ensures Apply(w, op, seen, c).Some? <==> Expected(op, c) && Acceptable(w, op, seen, c)
  {
    hide ValidKey, StoredKey, SelectionsOk, Sort, Increasing, ApplyPublish;
    if op.Publish? {
      PublishAccepted(w, op, seen, c);
    } else if !op.Takeover? && !(op.Activate? && op.target.None?) {
      var key := if op.Activate? then op.target.value else op.key;
      var at := Find(c.profiles, key);
      if at.Some? {
        UniqueAt(c, key);
        assert c.profiles[at.value] in c.profiles;
      }
      if op.Rename? {
        var to := Find(c.profiles, op.to);
        assert to.Some? ==> c.profiles[to.value] in c.profiles;
      }
    }
  }
}
