/** The connection registry and the validator its listings are checked with on the client's side. */
module Registry {
  import opened Base

  const LIMIT := 1024
  const MAX_RULES := 262144

  // ---------------------------------------------------------------- identifiers

  predicate Digit(c: char) { '0' <= c <= '9' }

  predicate Hex(c: char) { Digit(c) || 'a' <= c <= 'f' }

  predicate NonceOk(nonce: string) { |nonce| == 32 && forall i :: 0 <= i < |nonce| ==> Hex(nonce[i]) }

  function DigitOf(n: nat): (c: char)
    requires n < 10
    ensures Digit(c)
  {
    '0' + n as char
  }

  function Decimal(n: nat): (s: string)
    ensures s != [] && forall i :: 0 <= i < |s| ==> Digit(s[i])
    ensures s[0] == '0' <==> n == 0
  {
    if n < 10 then [DigitOf(n)] else Decimal(n / 10) + [DigitOf(n % 10)]
  }

  function DigitValue(c: char): (n: nat)
    requires Digit(c)
    ensures n < 10 && DigitOf(n) == c
  {
    c as int - '0' as int
  }

  function ValueOf(s: string): nat
    requires forall i :: 0 <= i < |s| ==> Digit(s[i])
  {
    if s == [] then 0 else ValueOf(s[..|s| - 1]) * 10 + DigitValue(s[|s| - 1])
  }

  lemma {:induction false} ValueOfDecimal(n: nat)
    ensures ValueOf(Decimal(n)) == n
  {
    if n < 10 {
      assert Decimal(n)[..0] == [];
    } else {
      ValueOfDecimal(n / 10);
      assert Decimal(n)[..|Decimal(n)| - 1] == Decimal(n / 10);
    }
  }

  lemma Tens(v: nat, d: nat)
    requires d < 10
    ensures (v * 10 + d) / 10 == v && (v * 10 + d) % 10 == d
  {
  }

  lemma {:induction false} DecimalOfValue(s: string)
    requires s != [] && (forall i :: 0 <= i < |s| ==> Digit(s[i])) && s[0] != '0'
    ensures ValueOf(s) > 0 && Decimal(ValueOf(s)) == s
    decreases |s|
  {
    hide Digit;
    var front, last := s[..|s| - 1], DigitValue(s[|s| - 1]);
    assert s == front + [s[|s| - 1]];
    if |s| == 1 {
      assert front == [] && last != 0;
    } else {
      DecimalOfValue(front);
      Tens(ValueOf(front), last);
    }
  }

  function LastDash(s: string): (r: Option<nat>)
    ensures r.Some? ==> r.value < |s| && s[r.value] == '-' && '-' !in s[r.value + 1..]
    ensures r.None? ==> '-' !in s
  {
    if s == [] then None
    else if s[|s| - 1] == '-' then Some(|s| - 1)
    else
      var r := LastDash(s[..|s| - 1]);
      assert s == s[..|s| - 1] + [s[|s| - 1]];
      assert r.Some? ==> s[r.value + 1..] == s[..|s| - 1][r.value + 1..] + [s[|s| - 1]];
      r
  }

  lemma {:induction false} DashAt(before: string, after: string)
    requires '-' !in after
    ensures LastDash(before + "-" + after) == Some(|before|)
    decreases |after|
  {
    var s := before + "-" + after;
    if after != [] {
      var front := after[..|after| - 1];
      assert s[..|s| - 1] == before + "-" + front && s[|s| - 1] == after[|after| - 1];
      DashAt(before, front);
    }
  }

  datatype Id = Id(nonce: string, sequence: nat)

  function Format(id: Id): string { id.nonce + "-" + Decimal(id.sequence) }

  function SplitId(s: string): Option<Id> {
    var dash :- LastDash(s);
    var nonce, digits := s[..dash], s[dash + 1..];
    if !NonceOk(nonce) || (digits != [] && digits[0] == '0') || (exists i :: 0 <= i < |digits| && !Digit(digits[i])) || digits == [] then None
    else if ValueOf(digits) > U64_MAX then None
    else Some(Id(nonce, ValueOf(digits)))
  }

  /** Splitting accepts exactly the formatted identifiers of positive 64-bit sequence numbers, and undoes formatting. */
  lemma SplitInverts(s: string, id: Id)
    ensures SplitId(s) == Some(id) <==> s == Format(id) && NonceOk(id.nonce) && 0 < id.sequence <= U64_MAX
  {
    if SplitId(s) == Some(id) {
      var dash := LastDash(s).value;
      DecimalOfValue(s[dash + 1..]);
      assert s == s[..dash] + [s[dash]] + s[dash + 1..];
    }
    if s == Format(id) && NonceOk(id.nonce) && 0 < id.sequence <= U64_MAX {
      var digits := Decimal(id.sequence);
      assert s[32] == '-' && s[33..] == digits && s[..32] == id.nonce;
      DashAt(id.nonce, digits);
      ValueOfDecimal(id.sequence);
    }
  }

  lemma FormatInjective(a: Id, b: Id)
    requires NonceOk(a.nonce) && NonceOk(b.nonce) && 0 < a.sequence <= U64_MAX && 0 < b.sequence <= U64_MAX
    requires Format(a) == Format(b)
    ensures a == b
  {
    SplitInverts(Format(a), a);
    SplitInverts(Format(b), b);
  }

  // ---------------------------------------------------------------- entries

  datatype Phase = Handshake | Routing | Connecting | Active | Idle | UdpWait | Rejected | Closing
  datatype Inbound = HttpConnect | HttpForward | Socks5Connect | Socks5Udp

  /** A destination; `host` is its text in bytes. */
  datatype Target = Target(host: string, port: nat)

  predicate TargetOk(t: Target) { 0 < |t.host| <= 255 && 1 <= t.port <= 65535 }

  datatype Route = Route(rule: nat, leaf: nat)

  datatype Entry = Entry(id: string, source: string, udp: bool, phase: Phase, inbound: Option<Inbound>,
                         target: Option<Target>, routed: Option<Target>, sender: Option<string>, scoped: bool,
                         route: Option<Route>, cancelled: bool)

  function Opened(id: string, source: string): Entry {
    Entry(id, source, false, Handshake, None, None, None, None, false, None, false)
  }

  /** The calls a connection's task makes on its guard. */
  datatype Call =
    | Enter(phase: Phase)
    | Arrive(inbound: Inbound)
    | Aim(target: Target, sender: Option<string>, inbound: Inbound)
    | Take(routed: Target, route: Route)
    | Rest

  function Changed(e: Entry, call: Call): Entry {
    match call
    case Enter(phase) => e.(phase := phase)
    case Arrive(inbound) =>
      if inbound.Socks5Udp? then e.(inbound := Some(inbound), udp := true, phase := UdpWait) else e.(inbound := Some(inbound))
    case Aim(target, sender, inbound) =>
      e.(inbound := Some(inbound), target := Some(target), routed := None, route := None, phase := Routing,
         sender := sender, scoped := sender.Some?)
    case Take(routed, route) => e.(routed := Some(routed), route := Some(route), phase := Connecting)
    case Rest => e.(phase := Idle, target := None, routed := None, route := None)
  }

  // ---------------------------------------------------------------- the validator

  /** A listed entry: its metadata with the rule and proxy its route stands for. */
  datatype View = View(entry: Entry, rule: Option<nat>, proxy: Option<nat>)

  function ViewOf(e: Entry): View {
    View(e, if e.route.Some? then Some(e.route.value.rule) else None, if e.route.Some? then Some(e.route.value.leaf) else None)
  }

  /** What a client demands of one listed entry. */
  predicate EntryValid(v: View, nonce: string) {
    var e := v.entry;
    var id := SplitId(e.id);
    var datagram := e.udp && e.target.Some?;
    && id.Some? && id.value.nonce == nonce
    && (e.target.Some? ==> TargetOk(e.target.value)) && (e.routed.Some? ==> TargetOk(e.routed.value))
    && (e.scoped ==> e.udp && e.sender.Some?)
    && v.rule.Some? == v.proxy.Some? == e.routed.Some?
    && (v.rule.Some? ==> v.rule.value < MAX_RULES)
    && (e.phase.Idle? || e.phase.Handshake? || e.phase.UdpWait? ==> e.target.None? && v.rule.None?)
    && (e.phase.Active? || e.phase.Connecting? || e.phase.Rejected? ==> e.target.Some? && v.rule.Some? && e.inbound.Some?)
    && (e.phase.Routing? ==> e.target.Some? && v.rule.None?)
    && e.udp == (e.inbound == Some(Socks5Udp)) && (e.phase.UdpWait? ==> e.udp) && (e.phase.Handshake? ==> !e.udp)
    && e.sender.Some? == datagram && e.scoped == datagram
    && (e.phase.Idle? ==> e.inbound == Some(HttpForward))
    && (e.routed.Some? ==> e.target.Some?)
  }

  /** A response is valid: bounded, with distinct identifiers, every entry valid. */
  ghost predicate ResponseValid(list: seq<View>, nonce: string) {
    && |list| <= LIMIT
    && (forall i, j :: 0 <= i < j < |list| ==> list[i].entry.id != list[j].entry.id)
    && (forall i :: 0 <= i < |list| ==> EntryValid(list[i], nonce))
  }

  // ---------------------------------------------------------------- the order of calls

  /** Where a connection's task stands; `Bound` is a UDP association before its first datagram. */
  datatype Stage = Started | Bound | Aimed(inbound: Inbound) | Taken(inbound: Inbound) | Refused(inbound: Inbound)
                 | Relaying(inbound: Inbound) | Resting

  /** The next stage, if the task may make this call where it stands: one SOCKS request or a sequence of HTTP
      requests, each aimed, then routed, then rejected or relayed; only a forwarded request may rest. */
  function After(stage: Stage, call: Call, rules: nat): Option<Stage> {
    match call
    case Arrive(inbound) => if stage.Started? && inbound.Socks5Udp? then Some(Bound) else None
    case Aim(target, sender, inbound) =>
      if !TargetOk(target) then None
      else if inbound.Socks5Udp? then (if stage.Bound? && sender.Some? then Some(Aimed(inbound)) else None)
      else if sender.Some? then None
      else if inbound.Socks5Connect? then (if stage.Started? then Some(Aimed(inbound)) else None)
      else if stage.Started? || stage.Resting? then Some(Aimed(inbound)) else None
    case Take(routed, route) =>
      if stage.Aimed? && TargetOk(routed) && route.rule < rules then Some(Taken(stage.inbound)) else None
    case Enter(phase) =>
      if !stage.Taken? then None
      else if phase.Rejected? then Some(Refused(stage.inbound))
      else if phase.Active? then Some(Relaying(stage.inbound)) else None
    case Rest => if stage == Relaying(HttpForward) then Some(Resting) else None
  }

  /** What an entry that is not closing shows at each stage. */
  predicate Shows(e: Entry, stage: Stage, rules: nat) {
    && (e.target.Some? ==> TargetOk(e.target.value)) && (e.routed.Some? ==> TargetOk(e.routed.value))
    && e.route.Some? == e.routed.Some? && (e.route.Some? ==> e.route.value.rule < rules)
    && e.udp == (e.inbound == Some(Socks5Udp)) && e.sender.Some? == e.scoped == (e.udp && e.target.Some?)
    && (match stage
        case Started => e.phase.Handshake? && e.inbound.None? && e.target.None? && e.routed.None?
        case Bound => e.phase.UdpWait? && e.inbound == Some(Socks5Udp) && e.target.None? && e.routed.None?
        case Aimed(inbound) => e.phase.Routing? && e.inbound == Some(inbound) && e.target.Some? && e.routed.None?
        case Taken(inbound) => e.phase.Connecting? && e.inbound == Some(inbound) && e.target.Some? && e.routed.Some?
        case Refused(inbound) => e.phase.Rejected? && e.inbound == Some(inbound) && e.target.Some? && e.routed.Some?
        case Relaying(inbound) => e.phase.Active? && e.inbound == Some(inbound) && e.target.Some? && e.routed.Some?
        case Resting => e.phase.Idle? && e.inbound == Some(HttpForward) && e.target.None? && e.routed.None?)
  }

  /** An entry agrees with its task, or was closed while it agreed with some stage and is frozen since. */
  ghost predicate Agrees(e: Entry, stage: Stage, rules: nat) {
    if e.phase.Closing? then exists phase, s :: Shows(e.(phase := phase), s, rules) else Shows(e, stage, rules)
  }

  lemma CallKeeps(e: Entry, stage: Stage, call: Call, rules: nat)
    requires Shows(e, stage, rules) && After(stage, call, rules).Some?
    ensures Shows(Changed(e, call), After(stage, call, rules).value, rules)
  {
  }

  /** A guard cannot close its own entry. */
  lemma NeverClosing(stage: Stage, call: Call, rules: nat)
    requires After(stage, call, rules).Some?
    ensures call != Enter(Closing)
  {
  }

  /** A guard's update: ignored once the entry is closing. */
  function Updated(e: Entry, call: Call): Entry { if e.phase.Closing? then e else Changed(e, call) }

  lemma UpdatedSits(nonce: string, rules: nat, sequence: nat, k: nat, e: Entry, stage: Stage, call: Call)
    requires Sits(nonce, rules, sequence, k, e, stage) && After(stage, call, rules).Some?
    ensures Sits(nonce, rules, sequence, k, Updated(e, call), After(stage, call, rules).value)
    ensures e.phase.Closing? ==> Updated(e, call) == e
  {
    hide Format;
    if !e.phase.Closing? {
      CallKeeps(e, stage, call, rules);
    }
  }

  function CloseEntry(e: Entry): Entry { e.(phase := Closing, cancelled := true) }

  lemma ClosedSits(nonce: string, rules: nat, sequence: nat, k: nat, e: Entry, stage: Stage)
    requires Sits(nonce, rules, sequence, k, e, stage)
    ensures Sits(nonce, rules, sequence, k, CloseEntry(e), stage) && (e.phase.Closing? ==> CloseEntry(e) == e)
  {
    hide Format, Shows;
    ClosedAgrees(e, stage, rules);
  }

  /** Whatever its task is doing, and whenever it was closed, the validator accepts the entry. */
  lemma AgreesValid(e: Entry, stage: Stage, rules: nat, id: Id)
    requires Agrees(e, stage, rules) && rules <= MAX_RULES
    requires e.id == Format(id) && NonceOk(id.nonce) && 0 < id.sequence <= U64_MAX
    ensures EntryValid(ViewOf(e), id.nonce)
  {
    SplitInverts(e.id, id);
    hide SplitId;
    if e.phase.Closing? {
      var phase, s :| Shows(e.(phase := phase), s, rules);
    }
  }

  // ---------------------------------------------------------------- what was last given

  /** An entry after a list of calls. */
  function Played(e: Entry, calls: seq<Call>): Entry {
    if calls == [] then e else Changed(Played(e, calls[..|calls| - 1]), calls[|calls| - 1])
  }

  /** An entry as it was opened, after the calls it took in, and closed since or not. */
  ghost predicate Tells(e: Entry, calls: seq<Call>) {
    && Enter(Closing) !in calls
    && var open := Played(Opened(e.id, e.source), calls);
    e == open || e == CloseEntry(open)
  }

  /** The call at `i` gives the target, and no later one takes it back or gives another. */
  ghost predicate AimsLast(calls: seq<Call>, i: nat) {
    i < |calls| && calls[i].Aim? && forall j :: i < j < |calls| ==> !calls[j].Aim? && !calls[j].Rest?
  }

  /** The call at `i` gives the route, and no later one takes it back or gives another. */
  ghost predicate TakesLast(calls: seq<Call>, i: nat) {
    i < |calls| && calls[i].Take? && forall j :: i < j < |calls| ==> !calls[j].Take? && !calls[j].Aim? && !calls[j].Rest?
  }

  ghost predicate TargetGiven(calls: seq<Call>, target: Target) { exists i: nat :: AimsLast(calls, i) && calls[i].target == target }

  ghost predicate RouteGiven(calls: seq<Call>, routed: Target, route: Route) {
    exists i: nat :: TakesLast(calls, i) && calls[i].routed == routed && calls[i].route == route
  }

  lemma TargetNext(calls: seq<Call>, call: Call, target: Target)
    ensures TargetGiven(calls + [call], target) <==>
            if call.Aim? then call.target == target else !call.Rest? && TargetGiven(calls, target)
  {
    var all, n := calls + [call], |calls|;
    assert all[n] == call;
    if call.Aim? {
      assert AimsLast(all, n);
    } else if !call.Rest? {
      if i: nat :| AimsLast(calls, i) && calls[i].target == target {
        assert AimsLast(all, i);
      }
      if i: nat :| AimsLast(all, i) && all[i].target == target {
        assert AimsLast(calls, i) by {
          assert forall j :: i < j < n ==> all[j] == calls[j];
        }
      }
    }
  }

  lemma RouteNext(calls: seq<Call>, call: Call, routed: Target, route: Route)
    ensures RouteGiven(calls + [call], routed, route) <==>
            if call.Take? then call == Take(routed, route) else !call.Aim? && !call.Rest? && RouteGiven(calls, routed, route)
  {
    var all, n := calls + [call], |calls|;
    assert all[n] == call;
    if call.Take? {
      assert TakesLast(all, n);
    } else if !call.Aim? && !call.Rest? {
      if i: nat :| TakesLast(calls, i) && calls[i].routed == routed && calls[i].route == route {
        assert TakesLast(all, i);
      }
      if i: nat :| TakesLast(all, i) && all[i].routed == routed && all[i].route == route {
        assert TakesLast(calls, i) by {
          assert forall j :: i < j < n ==> all[j] == calls[j];
        }
      }
    }
  }

  lemma {:induction false} PlayedLast(id: string, source: string, calls: seq<Call>, t: Target, u: Target, r: Route)
    ensures var e := Played(Opened(id, source), calls);
            && e.id == id && e.source == source
            && (e.target == Some(t) <==> TargetGiven(calls, t))
            && (e.routed == Some(u) && e.route == Some(r) <==> RouteGiven(calls, u, r))
    decreases |calls|
  {
    hide TargetGiven, RouteGiven;
    if calls == [] {
      NothingGiven(t, u, r);
    } else {
      var front, call := calls[..|calls| - 1], calls[|calls| - 1];
      assert calls == front + [call];
      PlayedLast(id, source, front, t, u, r);
      TargetNext(front, call, t);
      RouteNext(front, call, u, r);
    }
  }

  lemma NothingGiven(t: Target, u: Target, r: Route)
    ensures !TargetGiven([], t) && !RouteGiven([], u, r)
  {
  }

  /** An entry shows a target exactly when it is the one last given, and a routed target with its route likewise;
      closing it changes neither. */
  lemma LastGiven(e: Entry, calls: seq<Call>, t: Target, u: Target, r: Route)
    requires Tells(e, calls)
    ensures e.target == Some(t) <==> TargetGiven(calls, t)
    ensures e.routed == Some(u) && e.route == Some(r) <==> RouteGiven(calls, u, r)
  {
    hide TargetGiven, RouteGiven, Played;
    PlayedLast(e.id, e.source, calls, t, u, r);
  }

  /** A call goes into an open entry's list, and leaves a closed one's alone. */
  function Taught(e: Entry, calls: seq<Call>, call: Call): seq<Call> { if e.phase.Closing? then calls else calls + [call] }

  lemma TellsNext(e: Entry, calls: seq<Call>, call: Call)
    requires Tells(e, calls) && call != Enter(Closing)
    ensures Tells(Updated(e, call), Taught(e, calls, call)) && Updated(e, call).id == e.id
  {
    assert (calls + [call])[..|calls|] == calls;
  }

  ghost predicate Told(entries: map<nat, Entry>, heard: map<nat, seq<Call>>) {
    forall k :: k in entries ==> k in heard && Tells(entries[k], heard[k])
  }

  lemma ToldPut(entries: map<nat, Entry>, heard: map<nat, seq<Call>>, k: nat, e: Entry, calls: seq<Call>)
    requires Told(entries, heard) && Tells(e, calls)
    ensures Told(entries[k := e], heard[k := calls])
  {
    hide Tells;
  }

  lemma ToldRemove(entries: map<nat, Entry>, heard: map<nat, seq<Call>>, k: nat)
    requires Told(entries, heard)
    ensures Told(entries - {k}, heard - {k})
  {
    hide Tells;
  }

  lemma OpenedTells(id: string, source: string)
    ensures Tells(Opened(id, source), [])
  {
  }

  lemma ClosedTells(e: Entry, calls: seq<Call>)
    requires Tells(e, calls)
    ensures Tells(CloseEntry(e), calls)
  {
  }

  // ---------------------------------------------------------------- the registry

  ghost predicate Coherent(nonce: string, rules: nat, sequence: nat, entries: map<nat, Entry>, stages: map<nat, Stage>) {
    && NonceOk(nonce) && rules <= MAX_RULES && sequence <= U64_MAX && |entries| <= LIMIT && entries.Keys == stages.Keys
    && forall k :: k in entries ==> Sits(nonce, rules, sequence, k, entries[k], stages[k])
  }

  /** One entry under its key: issued, named after it, and in agreement with its task. */
  ghost predicate Sits(nonce: string, rules: nat, sequence: nat, k: nat, e: Entry, stage: Stage) {
    && 0 < k <= sequence && e.id == Format(Id(nonce, k)) && Agrees(e, stage, rules) && e.cancelled == e.phase.Closing?
  }

  lemma CoherentPut(nonce: string, rules: nat, sequence: nat, entries: map<nat, Entry>, stages: map<nat, Stage>,
                    k: nat, e: Entry, stage: Stage)
    requires Coherent(nonce, rules, sequence, entries, stages) && k in entries && Sits(nonce, rules, sequence, k, e, stage)
    ensures Coherent(nonce, rules, sequence, entries[k := e], stages[k := stage])
  {
    hide Sits;
    assert entries[k := e].Keys == entries.Keys && |entries[k := e]| == |entries[k := e].Keys|;
  }

  lemma CoherentAdd(nonce: string, rules: nat, sequence: nat, entries: map<nat, Entry>, stages: map<nat, Stage>, source: string)
    requires Coherent(nonce, rules, sequence, entries, stages) && |entries| < LIMIT && sequence < U64_MAX
    ensures var k := sequence + 1;
            k !in entries && Coherent(nonce, rules, k, entries[k := Opened(Format(Id(nonce, k)), source)], stages[k := Started])
  {
    hide Format;
    var k := sequence + 1;
    var next := entries[k := Opened(Format(Id(nonce, k)), source)];
    assert k in entries ==> Sits(nonce, rules, sequence, k, entries[k], stages[k]);
    assert next.Keys == entries.Keys + {k};
    forall j | j in next
      ensures Sits(nonce, rules, k, j, next[j], stages[k := Started][j])
    {
      assert j != k ==> Sits(nonce, rules, sequence, j, entries[j], stages[j]);
    }
  }

  lemma CoherentRemove(nonce: string, rules: nat, sequence: nat, entries: map<nat, Entry>, stages: map<nat, Stage>, k: nat)
    requires Coherent(nonce, rules, sequence, entries, stages)
    ensures Coherent(nonce, rules, sequence, entries - {k}, stages - {k})
  {
    hide Sits;
    SubsetSize(entries.Keys - {k}, entries.Keys);
    assert (entries - {k}).Keys == entries.Keys - {k};
    assert |entries - {k}| == |(entries - {k}).Keys|;
  }

  /** Closed entries stay as they are until removed, and no key comes back. */
  ghost predicate Absorbing(sequence: nat, before: map<nat, Entry>, after: map<nat, Entry>) {
    && (forall k :: k in before && before[k].phase.Closing? && k in after ==> after[k] == before[k])
    && (forall k :: k in after ==> k in before || k > sequence)
  }

  lemma AbsorbingPut(sequence: nat, entries: map<nat, Entry>, k: nat, e: Entry)
    requires k in entries && (entries[k].phase.Closing? ==> e == entries[k])
    ensures Absorbing(sequence, entries, entries[k := e])
  {
  }

  lemma AbsorbingRemove(sequence: nat, entries: map<nat, Entry>, k: nat)
    ensures Absorbing(sequence, entries, entries - {k})
  {
  }

  lemma AbsorbingAdd(sequence: nat, entries: map<nat, Entry>, k: nat, e: Entry)
    requires k !in entries && k > sequence
    ensures Absorbing(sequence, entries, entries[k := e]) && Absorbing(sequence, entries, entries)
  {
  }

  lemma AbsorbingTransitive(s: nat, t: nat, a: map<nat, Entry>, b: map<nat, Entry>, c: map<nat, Entry>)
    requires s <= t && (forall k :: k in a ==> k <= s) && Absorbing(s, a, b) && Absorbing(t, b, c)
    ensures Absorbing(s, a, c)
  {
  }

  /** The listing in key order of the entries up to `n`. */
  function Listed(entries: map<nat, Entry>, n: nat): seq<View> {
    if n == 0 then [] else Listed(entries, n - 1) + if n in entries then [ViewOf(entries[n])] else []
  }

  function KeysUpTo(entries: map<nat, Entry>, n: nat): set<nat> {
    if n == 0 then {} else KeysUpTo(entries, n - 1) + if n in entries then {n} else {}
  }

  lemma {:induction false} KeysBounded(entries: map<nat, Entry>, n: nat)
    ensures KeysUpTo(entries, n) <= entries.Keys && (forall k :: k in KeysUpTo(entries, n) ==> k <= n)
    ensures |KeysUpTo(entries, n)| == |Listed(entries, n)|
  {
    if n > 0 {
      KeysBounded(entries, n - 1);
    }
  }

  /** Every listed view is some entry's, in key order. */
  lemma {:induction false} ListedEntries(entries: map<nat, Entry>, n: nat) returns (keys: seq<nat>)
    ensures |keys| == |Listed(entries, n)|
    ensures forall i :: 0 <= i < |keys| ==> keys[i] in entries && keys[i] <= n && Listed(entries, n)[i] == ViewOf(entries[keys[i]])
    ensures forall i, j :: 0 <= i < j < |keys| ==> keys[i] < keys[j]
  {
    keys := [];
    if n > 0 {
      keys := ListedEntries(entries, n - 1);
      if n in entries {
        keys := keys + [n];
      }
    }
  }

  /** Every entry is listed. */
  lemma {:induction false} ListedAll(entries: map<nat, Entry>, n: nat)
    ensures forall k :: k in entries && 0 < k <= n ==> ViewOf(entries[k]) in Listed(entries, n)
  {
    if n > 0 {
      ListedAll(entries, n - 1);
    }
  }

  /** Every listing of a coherent registry is a valid response for its nonce. */
  lemma ListingValid(nonce: string, rules: nat, sequence: nat, entries: map<nat, Entry>, stages: map<nat, Stage>)
    requires Coherent(nonce, rules, sequence, entries, stages)
    ensures ResponseValid(Listed(entries, sequence), nonce)
  {
    hide EntryValid, Agrees, Format;
    var list := Listed(entries, sequence);
    KeysBounded(entries, sequence);
    SubsetSize(KeysUpTo(entries, sequence), entries.Keys);
    assert |entries.Keys| == |entries|;
    var keys := ListedEntries(entries, sequence);
    forall i | 0 <= i < |list|
      ensures EntryValid(list[i], nonce)
    {
      var k := keys[i];
      AgreesValid(entries[k], stages[k], rules, Id(nonce, k));
    }
    forall i, j | 0 <= i < j < |list|
      ensures list[i].entry.id != list[j].entry.id
    {
      if list[i].entry.id == list[j].entry.id {
        FormatInjective(Id(nonce, keys[i]), Id(nonce, keys[j]));
      }
    }
  }

  datatype CloseResult = Closed | Invalid | Instance | NoEntry

  datatype Step = Connect(source: string) | Act(key: nat, call: Call) | Close(id: string) | Drop(key: nat)

  class Registry {
    const nonce: string
    const rules: nat
    var sequence: nat
    var entries: map<nat, Entry>
    var stages: map<nat, Stage>  // where each guard's own task stands
    ghost var heard: map<nat, seq<Call>>  // the calls each entry took in

    ghost predicate Valid()
      reads this
    {
      Coherent(nonce, rules, sequence, entries, stages) && Told(entries, heard)
    }

    constructor (nonce: string, rules: nat)
      requires NonceOk(nonce) && rules <= MAX_RULES
      ensures Valid() && this.nonce == nonce && this.rules == rules && entries == map[] && sequence == 0 && heard == map[]
    {
      this.nonce, this.rules := nonce, rules;
      sequence, entries, stages, heard := 0, map[], map[], map[];
    }

    method Register(source: string) returns (key: Option<nat>)
      requires Valid()
      modifies this
      ensures Valid() && Absorbing(old(sequence), old(entries), entries) && sequence >= old(sequence)
      ensures key.None? <==> |old(entries)| >= LIMIT || old(sequence) == U64_MAX
      ensures key.None? ==> unchanged(this)
      ensures key.Some? ==>
                && key.value == sequence == old(sequence) + 1 && key.value !in old(entries)
                && entries == old(entries)[sequence := Opened(Format(Id(nonce, sequence)), source)]
                && stages == old(stages)[sequence := Started] && heard == old(heard)[sequence := []]
    {
      hide Format, Coherent, Absorbing, Told, Opened;
      KeysIssued();
      if |entries| >= LIMIT || sequence == U64_MAX {
        return None;
      }
      CoherentAdd(nonce, rules, sequence, entries, stages, source);
      AbsorbingAdd(sequence, entries, sequence + 1, Opened(Format(Id(nonce, sequence + 1)), source));
      sequence := sequence + 1;
      entries := entries[sequence := Opened(Format(Id(nonce, sequence)), source)];
      stages := stages[sequence := Started];
      OpenedTells(Format(Id(nonce, sequence)), source);
      ToldPut(old(entries), heard, sequence, Opened(Format(Id(nonce, sequence)), source), []);
      heard := heard[sequence := []];
      return Some(sequence);
    }

    /** A guard's update; the task goes on whether or not the entry still listens. */
    method Update(key: nat, call: Call)
      requires Valid() && key in entries && key in stages && After(stages[key], call, rules).Some?
      modifies this`entries, this`stages, this`heard
      ensures Valid() && Absorbing(old(sequence), old(entries), entries)
      ensures key in old(heard) && heard == old(heard)[key := Taught(old(entries)[key], old(heard)[key], call)]
      ensures stages == old(stages)[key := After(old(stages)[key], call, rules).value]
      ensures entries == old(entries)[key := Updated(old(entries)[key], call)]
    {
      hide Format, Coherent, Absorbing, Sits, Updated, After, Told, Taught, Tells;
      KeyKnown(key);
      NeverClosing(stages[key], call, rules);
      TellsNext(entries[key], heard[key], call);
      ToldPut(entries, heard, key, Updated(entries[key], call), Taught(entries[key], heard[key], call));
      var e, stage := Updated(entries[key], call), After(stages[key], call, rules).value;
      UpdatedSits(nonce, rules, sequence, key, entries[key], stages[key], call);
      CoherentPut(nonce, rules, sequence, entries, stages, key, e, stage);
      AbsorbingPut(sequence, entries, key, e);
      heard := heard[key := Taught(entries[key], heard[key], call)];
      entries, stages := entries[key := e], stages[key := stage];
    }

    method CloseById(id: string) returns (r: CloseResult)
      requires Valid()
      modifies this`entries
      ensures Valid() && Absorbing(sequence, old(entries), entries)
      ensures r.Invalid? <==> SplitId(id).None?
      ensures r.Instance? <==> SplitId(id).Some? && SplitId(id).value.nonce != nonce
      ensures r.Closed? <==> exists k :: k in old(entries) && old(entries)[k].id == id
      ensures !r.Closed? ==> entries == old(entries)
      ensures r.Closed? ==>
                && SplitId(id).Some? && SplitId(id).value.sequence in old(entries)
                && var k := SplitId(id).value.sequence;
                   entries == old(entries)[k := CloseEntry(old(entries)[k])]
    {
      hide Format, SplitId, Sits, Coherent, CloseEntry, Absorbing, Tells, Told;
      FoundById(id);
      KeysIssued();
      var split := SplitId(id);
      if split.None? {
        return Invalid;
      }
      if split.value.nonce != nonce {
        return Instance;
      }
      var k := split.value.sequence;
      if k !in entries {
        return NoEntry;
      }
      KeyKnown(k);
      ClosedSits(nonce, rules, sequence, k, entries[k], stages[k]);
      CoherentPut(nonce, rules, sequence, entries, stages, k, CloseEntry(entries[k]), stages[k]);
      AbsorbingPut(sequence, entries, k, CloseEntry(entries[k]));
      assert stages[k := stages[k]] == stages && heard[k := heard[k]] == heard;
      ClosedTells(entries[k], heard[k]);
      ToldPut(entries, heard, k, CloseEntry(entries[k]), heard[k]);
      entries := entries[k := CloseEntry(entries[k])];
      return Closed;
    }

    /** An identifier finds the entry that bears it, and only that one. */
    lemma FoundById(id: string)
      requires Valid()
      ensures (exists k :: k in entries && entries[k].id == id) <==>
              SplitId(id).Some? && SplitId(id).value.nonce == nonce && SplitId(id).value.sequence in entries
    {
      hide Format, SplitId, Sits, Coherent;
      forall k | k in entries && entries[k].id == id
        ensures SplitId(id) == Some(Id(nonce, k))
      {
        KeyKnown(k);
        SplitInverts(id, Id(nonce, k));
      }
      if SplitId(id).Some? && SplitId(id).value.nonce == nonce && SplitId(id).value.sequence in entries {
        KeyKnown(SplitId(id).value.sequence);
        SplitInverts(id, SplitId(id).value);
      }
    }

    method Remove(key: nat)
      requires Valid()
      modifies this`entries, this`stages, this`heard
      ensures Valid() && Absorbing(old(sequence), old(entries), entries)
      ensures entries == old(entries) - {key} && stages == old(stages) - {key} && heard == old(heard) - {key}
    {
      KeysIssued();
      hide Coherent, Absorbing, Told;
      ToldRemove(entries, heard, key);
      heard := heard - {key};
      CoherentRemove(nonce, rules, sequence, entries, stages, key);
      AbsorbingRemove(sequence, entries, key);
      entries, stages := entries - {key}, stages - {key};
    }

    method WriteList() returns (list: seq<View>)
      requires Valid()
      ensures list == Listed(entries, sequence) && ResponseValid(list, nonce)
      ensures forall k :: k in entries ==> ViewOf(entries[k]) in list
      ensures forall v :: v in list ==> exists k :: k in entries && v == ViewOf(entries[k]) && Tells(v.entry, heard[k])
    {
      hide EntryValid, Agrees, Format, Tells;
      list := [];
      var n := 0;
      while n < sequence
        invariant n <= sequence && list == Listed(entries, n)
      {
        n := n + 1;
        if n in entries {
          list := list + [ViewOf(entries[n])];
        }
      }
      ListingValid(nonce, rules, sequence, entries, stages);
      KeysIssued();
      ListedAll(entries, sequence);
      ghost var keys := ListedEntries(entries, sequence);
    }

    /** Any schedule of connections, guard calls in program order, closes and removals: every listing taken after
        any step is valid, closing absorbs, and no identifier is issued twice. */
    method Run(schedule: seq<Step>) returns (lists: seq<seq<View>>)
      requires Valid()
      modifies this
      ensures Valid() && Absorbing(old(sequence), old(entries), entries)
      ensures |lists| == |schedule| && forall i :: 0 <= i < |lists| ==> ResponseValid(lists[i], nonce)
    {
      hide Coherent, ResponseValid, After, Told;
      lists := [];
      KeysIssued();
      while |lists| < |schedule|
        invariant Valid() && |lists| <= |schedule| && old(sequence) <= sequence
        invariant Absorbing(old(sequence), old(entries), entries)
        invariant forall i :: 0 <= i < |lists| ==> ResponseValid(lists[i], nonce)
        decreases |schedule| - |lists|
      {
        ghost var s, before := sequence, entries;
        Perform(schedule[|lists|]);
        AbsorbingTransitive(old(sequence), s, old(entries), before, entries);
        var list := WriteList();
        lists := lists + [list];
      }
    }

    lemma KeyKnown(k: nat)
      requires Valid() && k in entries
      ensures k in heard && Tells(entries[k], heard[k])
      ensures k in stages && Sits(nonce, rules, sequence, k, entries[k], stages[k])
      ensures NonceOk(nonce) && 0 < k <= U64_MAX && entries[k].id == Format(Id(nonce, k))
    {
    }

    lemma KeysIssued()
      requires Valid()
      ensures forall k :: k in entries ==> 0 < k <= sequence
      ensures Absorbing(sequence, entries, entries) && sequence <= U64_MAX
    {
      hide Format, Agrees;
      forall k | k in entries
        ensures 0 < k <= sequence
      {
        assert Sits(nonce, rules, sequence, k, entries[k], stages[k]);
      }
    }

    /** One step of the schedule; a call that is not the task's next is not made. */
    method Perform(step: Step)
      requires Valid()
      modifies this
      ensures Valid() && Absorbing(old(sequence), old(entries), entries) && sequence >= old(sequence)
    {
      hide After, Format, SplitId;
      KeysIssued();
      match step {
        case Connect(source) =>
          var key := Register(source);
        case Act(key, call) =>
          if Permitted(key, call) {
            Update(key, call);
          }
        case Close(id) =>
          var r := CloseById(id);
        case Drop(key) =>
          Remove(key);
      }
    }

    predicate Permitted(key: nat, call: Call)
      reads this
    {
      key in entries && key in stages && After(stages[key], call, rules).Some?
    }
  }

  /** Closing an entry at any moment freezes a state some stage shows. */
  lemma ClosedAgrees(e: Entry, stage: Stage, rules: nat)
    requires Agrees(e, stage, rules)
    ensures Agrees(e.(phase := Closing, cancelled := true), stage, rules)
  {
    var closed := e.(phase := Closing, cancelled := true);
    if e.phase.Closing? {
      var phase, s :| Shows(e.(phase := phase), s, rules);
      assert Shows(closed.(phase := phase), s, rules);
    } else {
      assert Shows(closed.(phase := e.phase), stage, rules);
    }
  }
}
