/** Starting, handing over and stopping runtime instances: any number of launchers, daemons and stop requesters over
    one runtime directory, each of which may die between any two steps. */
module Lifecycle {
  import opened Base

  // ---------------------------------------------------------------- state

  /** Who keeps the instance lock open: the launcher that took it, the daemon that inherited it, or both. */
  datatype Holder = Launcher(id: nat) | Owner(nonce: nat)

  /** A launcher drops the lock once its daemon is forked and waits for it; a start that failed is swept up. */
  datatype Launch = Out | Owning | Forked(nonce: nat) | Waiting(nonce: nat) | Sweeping(nonce: nat)

  /** `Looked`: the stop file was seen and read; `Stopping` names the request that stopped it, if one did. */
  datatype Daemon = Running | Looked | Stopping(request: Option<nat>) | Cleaned | Gone

  /** A call of `stop_instance`: it holds the stop lock from `Asking` on. `Refused`: its publication failed, so it wrote
      nothing, but it still revokes. `Settling`: its revocation found nothing. */
  datatype Caller = Quiet | Asking(expected: nat) | Armed(expected: nat, request: nat) | Refused(expected: nat) | Settling(expected: nat)

  /** `published` tells a caller's revocation of what it wrote from one after a failed publication. */
  datatype Party =
    | ByCaller(id: nat, published: bool) | ByDaemon(nonce: nat) | ByCleanup(nonce: nat) | ByLauncher(id: nat, nonce: nat) | Overwritten

  /** A stop file that went away: which request it was and who removed it. */
  datatype Removal = Removal(request: nat, party: Party)

  datatype State = State(
    holders: set<Holder>,
    descriptor: Option<nat>,
    files: map<nat, nat>,        // stop files by instance nonce, with the request that wrote them
    stopLock: Option<nat>,
    launches: map<nat, Launch>,
    daemons: map<nat, Daemon>,
    callers: map<nat, Caller>,
    authors: seq<nat>,           // which caller wrote each request so far
    removals: seq<Removal>,
    orphans: set<nat>,           // requests whose caller died while armed
    stopped: set<nat>)           // instances some call has reported stopped
  {
    function Launch(l: nat): Launch { if l in launches then launches[l] else Out }
    function Daemon(n: nat): Daemon { if n in daemons then daemons[n] else Gone }
    function Caller(c: nat): Caller { if c in callers then callers[c] else Quiet }
  }

  datatype Event =
    | Take(launcher: nat) | Fork(launcher: nat, nonce: nat) | Release(launcher: nat) | Return(launcher: nat) | Kill(launcher: nat) | Sweep(launcher: nat)
    | Announce(nonce: nat) | Look(nonce: nat) | Consume(nonce: nat) | Quit(nonce: nat) | Clean(nonce: nat) | Exit(nonce: nat)
    | Ask(caller: nat, nonce: nat) | Publish(caller: nat) | Fail(caller: nat) | Poll(caller: nat) | Expire(caller: nat) | Cancel(caller: nat) | Die(caller: nat)

  predicate OfLauncher(e: Event) { e.Take? || e.Fork? || e.Release? || e.Return? || e.Kill? || e.Sweep? }

  predicate OfDaemon(e: Event) { e.Announce? || e.Look? || e.Consume? || e.Quit? || e.Clean? || e.Exit? }

  predicate OfCaller(e: Event) { e.Ask? || e.Publish? || e.Fail? || e.Poll? || e.Expire? || e.Cancel? || e.Die? }

  // ---------------------------------------------------------------- steps

  /** Unlinking a stop file succeeds for exactly the one who finds it. */
  function Unlink(s: State, n: nat, party: Party): State {
    if n in s.files then s.(files := s.files - {n}, removals := s.removals + [Removal(s.files[n], party)]) else s
  }

  /** The call ends: while armed, whatever file is there is revoked; the stop lock is released. */
  function Finish(s: State, c: nat): State {
    var t := if s.Caller(c).Armed? || s.Caller(c).Refused? then Unlink(s, s.Caller(c).expected, ByCaller(c, s.Caller(c).Armed?)) else s;
    t.(callers := t.callers[c := Quiet], stopLock := if t.stopLock == Some(c) then None else t.stopLock)
  }

  function StepLaunch(s: State, e: Event): State
    requires OfLauncher(e)
  {
    match e
    case Take(l) =>
      if s.Launch(l).Out? && s.holders == {} then s.(holders := {Launcher(l)}, launches := s.launches[l := Owning], descriptor := None) else s
    case Fork(l, n) =>
      if s.Launch(l).Owning? && n !in s.daemons && Launcher(l) in s.holders
      then s.(launches := s.launches[l := Forked(n)], daemons := s.daemons[n := Running], holders := s.holders + {Owner(n)}) else s
    case Release(l) =>
      s.(holders := s.holders - {Launcher(l)},
         launches := s.launches[l := if s.Launch(l).Forked? then Waiting(s.Launch(l).nonce) else if s.Launch(l).Owning? then Out else s.Launch(l)])
    case Return(l) => s.(holders := s.holders - {Launcher(l)}, launches := s.launches[l := Out])
    case Kill(l) =>
      if !s.Launch(l).Waiting? then s
      else
        var n := s.Launch(l).nonce;
        s.(launches := s.launches[l := Sweeping(n)], daemons := s.daemons[n := Gone], holders := s.holders - {Owner(n)})
    case Sweep(l) =>
      if !s.Launch(l).Sweeping? then s
      else
        var t := Unlink(s, s.Launch(l).nonce, ByLauncher(l, s.Launch(l).nonce));
        t.(launches := t.launches[l := Out])
  }

  function StepDaemon(s: State, e: Event): State
    requires OfDaemon(e)
  {
    match e
    case Announce(n) => if s.Daemon(n).Running? then s.(descriptor := Some(n)) else s
    case Look(n) => if s.Daemon(n).Running? && n in s.files then s.(daemons := s.daemons[n := Looked]) else s
    case Consume(n) =>
      if !s.Daemon(n).Looked? then s
      else
        var request := if n in s.files then Some(s.files[n]) else None;
        var t := Unlink(s, n, ByDaemon(n));
        t.(daemons := t.daemons[n := if request.Some? then Stopping(request) else Running])
    case Quit(n) => if s.Daemon(n).Running? || s.Daemon(n).Looked? then s.(daemons := s.daemons[n := Stopping(None)]) else s
    case Clean(n) =>
      if !s.Daemon(n).Stopping? then s
      else
        var t := Unlink(s, n, ByCleanup(n));
        t.(daemons := t.daemons[n := Cleaned], descriptor := if t.descriptor == Some(n) then None else t.descriptor)
    case Exit(n) => if n in s.daemons then s.(daemons := s.daemons[n := Gone], holders := s.holders - {Owner(n)}) else s
  }

  function StepCaller(s: State, e: Event): State
    requires OfCaller(e)
  {
    match e
    case Ask(c, n) =>
      if s.Caller(c).Quiet? && s.stopLock.None? && s.descriptor == Some(n)
      then s.(stopLock := Some(c), callers := s.callers[c := Asking(n)]) else s
    case Publish(c) =>
      if !s.Caller(c).Asking? then s
      else
        var n, request := s.Caller(c).expected, |s.authors|;
        var t := Unlink(s, n, Overwritten);
        t.(files := t.files[n := request], authors := t.authors + [c], callers := t.callers[c := Armed(n, request)])
    case Fail(c) => if s.Caller(c).Asking? then s.(callers := s.callers[c := Refused(s.Caller(c).expected)]) else s
    case Poll(c) =>
      var caller := s.Caller(c);
      if !caller.Armed? && !caller.Settling? then s
      else if s.holders == {} then Finish(s.(stopped := s.stopped + {caller.expected}), c)
      else if s.descriptor.Some? && s.descriptor != Some(caller.expected) then Finish(s, c)
      else s
    case Expire(c) =>
      var caller := s.Caller(c);
      if caller.Settling? then Finish(s, c)
      else if !caller.Armed? && !caller.Refused? then s
      else if caller.expected in s.files then Finish(s, c)
      else s.(callers := s.callers[c := Settling(caller.expected)])
    case Cancel(c) => Finish(s, c)
    case Die(c) =>
      s.(callers := s.callers[c := Quiet], stopLock := if s.stopLock == Some(c) then None else s.stopLock,
         orphans := s.orphans + if s.Caller(c).Armed? then {s.Caller(c).request} else {})
  }

  function Next(s: State, e: Event): State {
    if OfLauncher(e) then StepLaunch(s, e)
    else if OfDaemon(e) then StepDaemon(s, e)
    else StepCaller(s, e)
  }

  const START := State({}, None, map[], None, map[], map[], map[], [], [], {}, {})

  function Run(events: seq<Event>): State {
    if events == [] then START else Next(Run(events[..|events| - 1]), events[|events| - 1])
  }

  // ---------------------------------------------------------------- the instance lock

  /** The lock is one open file: held by a launcher, by the daemon it forked, or shared by the two in between. */
  ghost predicate LockOk(s: State) {
    && (forall h, k :: h in s.holders && k in s.holders && h.Owner? && k.Owner? ==> h == k)
    && (forall h, k :: h in s.holders && k in s.holders && h.Launcher? && k.Launcher? ==> h == k)
    && (forall h, k :: h in s.holders && k in s.holders && h.Launcher? && k.Owner? ==> s.Launch(h.id) == Forked(k.nonce))
    && (forall n: nat :: Owner(n) in s.holders ==> n in s.daemons && !s.daemons[n].Gone?)
    && (forall l: nat :: Launcher(l) in s.holders ==> s.Launch(l).Owning? || s.Launch(l).Forked?)
  }

  lemma LaunchLock(s: State, e: Event)
    requires LockOk(s) && OfLauncher(e)
    ensures LockOk(StepLaunch(s, e))
  {
  }

  lemma DaemonLock(s: State, e: Event)
    requires LockOk(s) && OfDaemon(e)
    ensures LockOk(StepDaemon(s, e))
  {
  }

  lemma CallerLock(s: State, e: Event)
    requires LockOk(s) && OfCaller(e)
    ensures LockOk(StepCaller(s, e))
  {
    CallerSame(s, e);
    hide StepCaller;
    var t := StepCaller(s, e);
    forall l: nat | true
      ensures t.Launch(l) == s.Launch(l)
    {
    }
  }

  lemma CallerSame(s: State, e: Event)
    requires OfCaller(e)
    ensures var t := StepCaller(s, e); t.holders == s.holders && t.launches == s.launches && t.daemons == s.daemons
  {
    hide Finish;
    FinishSame(s, e.caller);
    if s.Caller(e.caller).Armed? || s.Caller(e.caller).Settling? {
      FinishSame(s.(stopped := s.stopped + {s.Caller(e.caller).expected}), e.caller);
    }
  }

  lemma FinishSame(s: State, c: nat)
    ensures var t := Finish(s, c); t.holders == s.holders && t.launches == s.launches && t.daemons == s.daemons
  {
  }

  /** A launcher knows its daemon, and sweeps up only after it is gone. */
  ghost predicate LaunchesOk(s: State) {
    && (forall l: nat :: s.Launch(l).Forked? || s.Launch(l).Waiting? ==> s.Launch(l).nonce in s.daemons)
    && (forall l: nat :: s.Launch(l).Sweeping? ==> s.Launch(l).nonce in s.daemons && s.daemons[s.Launch(l).nonce].Gone?)
    && (forall i :: 0 <= i < |s.removals| && s.removals[i].party.ByLauncher? ==>
          s.removals[i].party.nonce in s.daemons && s.daemons[s.removals[i].party.nonce].Gone?)
  }

  /** Gone is for good, and other parties do not remove in a launcher's name. */
  ghost predicate Apart(s: State, t: State) {
    && (forall n :: n in s.daemons ==> n in t.daemons && (s.daemons[n].Gone? ==> t.daemons[n].Gone?))
    && s.removals <= t.removals && (forall i :: |s.removals| <= i < |t.removals| ==> !t.removals[i].party.ByLauncher?)
  }

  lemma ApartLaunches(s: State, t: State)
    requires LaunchesOk(s) && Apart(s, t) && t.launches == s.launches
    ensures LaunchesOk(t)
  {
    forall l: nat | true
      ensures t.Launch(l) == s.Launch(l)
    {
    }
    forall i | 0 <= i < |t.removals| && t.removals[i].party.ByLauncher?
      ensures t.removals[i].party.nonce in t.daemons && t.daemons[t.removals[i].party.nonce].Gone?
    {
      assert i < |s.removals| && t.removals[i] == s.removals[i];
    }
  }

  lemma DaemonApart(s: State, e: Event)
    requires OfDaemon(e)
    ensures Apart(s, StepDaemon(s, e)) && StepDaemon(s, e).launches == s.launches
  {
  }

  lemma CallerApart(s: State, e: Event)
    requires OfCaller(e)
    ensures Apart(s, StepCaller(s, e)) && StepCaller(s, e).launches == s.launches
  {
  }

  lemma LaunchLaunches(s: State, e: Event)
    requires LaunchesOk(s) && OfLauncher(e)
    ensures LaunchesOk(StepLaunch(s, e))
  {
    var t := StepLaunch(s, e);
    assert s.Launch(e.launcher) == s.Launch(e.launcher);
    forall l: nat | true
      ensures l != e.launcher ==> t.Launch(l) == s.Launch(l)
    {
    }
    forall i | 0 <= i < |t.removals| && t.removals[i].party.ByLauncher?
      ensures t.removals[i].party.nonce in t.daemons && t.daemons[t.removals[i].party.nonce].Gone?
    {
      assert i < |s.removals| ==> t.removals[i] == s.removals[i];
    }
  }

  // ---------------------------------------------------------------- stop requests

  predicate Filed(files: map<nat, nat>, request: nat) { exists n :: n in files && files[n] == request }

  predicate Removed(removals: seq<Removal>, request: nat) { exists i :: 0 <= i < |removals| && removals[i].request == request }

  /** Every request written is on disk under one name, or was removed exactly once, and never both. */
  ghost predicate Accounted(files: map<nat, nat>, removals: seq<Removal>, written: nat) {
    && (forall n :: n in files ==> files[n] < written && !Removed(removals, files[n]))
    && (forall n, m :: n in files && m in files && files[n] == files[m] ==> n == m)
    && (forall i, j :: 0 <= i < j < |removals| ==> removals[i].request != removals[j].request)
    && (forall i :: 0 <= i < |removals| ==> removals[i].request < written)
    && (forall r: nat :: r < written ==> Filed(files, r) || Removed(removals, r))
  }

  lemma UnlinkAccounted(s: State, n: nat, party: Party)
    requires Accounted(s.files, s.removals, |s.authors|)
    ensures var t := Unlink(s, n, party); Accounted(t.files, t.removals, |t.authors|) && n !in t.files
  {
    if n in s.files {
      var t := Unlink(s, n, party);
      var last := |s.removals|;
      assert t.removals[last].request == s.files[n];
      forall r: nat | r < |s.authors|
        ensures Filed(t.files, r) || Removed(t.removals, r)
      {
        if Filed(s.files, r) {
          var m :| m in s.files && s.files[m] == r;
          assert m != n ==> m in t.files && t.files[m] == r;
        } else {
          var i :| 0 <= i < |s.removals| && s.removals[i].request == r;
          assert t.removals[i].request == r;
        }
      }
      forall m, i | m in t.files && 0 <= i < |t.removals|
        ensures t.removals[i].request != t.files[m]
      {
        assert !Removed(s.removals, s.files[m]) && (i < last ==> t.removals[i] == s.removals[i]);
      }
    }
  }

  lemma WriteAccounted(files: map<nat, nat>, removals: seq<Removal>, written: nat, n: nat)
    requires Accounted(files, removals, written) && n !in files
    ensures Accounted(files[n := written], removals, written + 1)
  {
    var next := files[n := written];
    forall r: nat | r < written + 1
      ensures Filed(next, r) || Removed(removals, r)
    {
      if r == written {
        assert n in next && next[n] == r;
      } else if Filed(files, r) {
        var m :| m in files && files[m] == r;
        assert m in next && next[m] == r;
      }
    }
  }

  ghost predicate Inside(s: State, c: nat) {
    var caller := s.Caller(c);
    && (!caller.Quiet? ==> s.stopLock == Some(c) && caller.expected in s.daemons)
    && (caller.Armed? ==>
          && caller.request < |s.authors| && s.authors[caller.request] == c
          && (caller.expected in s.files ==> s.files[caller.expected] == caller.request))
  }

  /** Whoever removed a request had the right to: a caller only its own, and a daemon stops only for what it consumed. */
  ghost predicate Rightful(s: State) {
    && (forall i :: 0 <= i < |s.removals| && s.removals[i].party.ByCaller? && s.removals[i].party.published ==>
          s.removals[i].request < |s.authors| && s.authors[s.removals[i].request] == s.removals[i].party.id)
    && (forall n: nat :: s.Daemon(n).Stopping? && s.Daemon(n).request.Some? ==>
          Removal(s.Daemon(n).request.value, ByDaemon(n)) in s.removals)
  }

  ghost predicate RequestsOk(s: State) {
    && Accounted(s.files, s.removals, |s.authors|) && Rightful(s)
    && (forall c: nat :: Inside(s, c))
    && (s.descriptor.Some? ==> s.descriptor.value in s.daemons)
    && (forall n :: n in s.stopped ==> n in s.daemons && Owner(n) !in s.holders)
  }

  lemma LaunchRequests(s: State, e: Event)
    requires RequestsOk(s) && LaunchesOk(s) && OfLauncher(e)
    ensures RequestsOk(StepLaunch(s, e))
  {
    hide Accounted;
    var t := StepLaunch(s, e);
    if e.Kill? && s.Launch(e.launcher).Waiting? {
      DaemonMoves(s, t.(launches := s.launches), s.Launch(e.launcher).nonce, Gone);
    } else if e.Sweep? && s.Launch(e.launcher).Sweeping? {
      UnlinkRequests(s, s.Launch(e.launcher).nonce, ByLauncher(e.launcher, s.Launch(e.launcher).nonce));
    } else if !e.Kill? && !e.Sweep? {
      LaunchMoves(s, e);
    }
    var u := t.(launches := s.launches);
    if RequestsOk(u) {
      forall c: nat | true
        ensures Inside(t, c)
      {
        assert Inside(u, c);
      }
      RightfulSame(u, t);
    }
  }

  lemma LaunchMoves(s: State, e: Event)
    requires RequestsOk(s) && (e.Take? || e.Fork? || e.Release? || e.Return?)
    ensures RequestsOk(StepLaunch(s, e))
  {
    hide Accounted;
    var t := StepLaunch(s, e);
    forall c: nat | true
      ensures Inside(t, c)
    {
      assert Inside(s, c);
    }
    forall n: nat | true
      ensures t.Daemon(n).Stopping? ==> t.Daemon(n) == s.Daemon(n)
    {
    }
  }

  lemma UnlinkRequests(s: State, n: nat, party: Party)
    requires RequestsOk(s) && (party.ByCaller? && party.published ==> n in s.files ==> s.authors[s.files[n]] == party.id)
    ensures RequestsOk(Unlink(s, n, party))
    ensures n in s.files ==> Removal(s.files[n], party) in Unlink(s, n, party).removals
  {
    UnlinkAccounted(s, n, party);
    var t := Unlink(s, n, party);
    assert n in s.files ==> t.removals[|s.removals|] == Removal(s.files[n], party);
    assert n in s.files ==> s.files[n] < |s.authors|;
    hide Accounted;
    forall c: nat | true
      ensures Inside(t, c)
    {
      assert Inside(s, c);
    }
    forall m: nat | t.Daemon(m).Stopping? && t.Daemon(m).request.Some?
      ensures Removal(t.Daemon(m).request.value, ByDaemon(m)) in t.removals
    {
      assert s.Daemon(m) == t.Daemon(m);
    }
  }

  /** A step that only moves one known daemon, lets go of the lock or changes the descriptor to a known instance. */
  lemma DaemonMoves(u: State, t: State, n: nat, d: Daemon)
    requires RequestsOk(u) && n in u.daemons && t == u.(daemons := u.daemons[n := d], descriptor := t.descriptor, holders := t.holders)
    requires t.holders <= u.holders && (t.descriptor.Some? ==> t.descriptor == u.descriptor || t.descriptor.value == n)
    requires d.Stopping? && d.request.Some? ==> Removal(d.request.value, ByDaemon(n)) in u.removals
    ensures RequestsOk(t)
  {
    hide Accounted;
    forall c: nat | true
      ensures Inside(t, c)
    {
      assert Inside(u, c);
    }
    forall m: nat | t.Daemon(m).Stopping? && t.Daemon(m).request.Some?
      ensures Removal(t.Daemon(m).request.value, ByDaemon(m)) in t.removals
    {
      assert m != n ==> t.Daemon(m) == u.Daemon(m);
    }
  }

  lemma DaemonRequests(s: State, e: Event)
    requires RequestsOk(s) && OfDaemon(e)
    ensures RequestsOk(StepDaemon(s, e))
  {
    var t, n := StepDaemon(s, e), e.nonce;
    if t != s {
      if e.Announce? {
        assert s.daemons[n := s.daemons[n]] == s.daemons;
      }
      if e.Consume? {
        UnlinkRequests(s, n, ByDaemon(n));
      } else if e.Clean? {
        UnlinkRequests(s, n, ByCleanup(n));
      }
      hide RequestsOk;
      var u := if e.Consume? then Unlink(s, n, ByDaemon(n)) else if e.Clean? then Unlink(s, n, ByCleanup(n)) else s;
      DaemonMoves(u, t, n, t.Daemon(n));
    }
  }

  lemma FinishRequests(s: State, c: nat)
    requires RequestsOk(s)
    ensures RequestsOk(Finish(s, c))
  {
    var t := Finish(s, c);
    assert Inside(s, c);
    var caller := s.Caller(c);
    var u := if caller.Armed? || caller.Refused? then Unlink(s, caller.expected, ByCaller(c, caller.Armed?)) else s;
    if caller.Armed? || caller.Refused? {
      UnlinkRequests(s, caller.expected, ByCaller(c, caller.Armed?));
    }
    LeaveRequests(u, c);
  }

  /** A caller that lets go of the stop lock leaves everything else in order. */
  lemma LeaveRequests(u: State, c: nat)
    requires RequestsOk(u)
    ensures RequestsOk(u.(callers := u.callers[c := Quiet], stopLock := if u.stopLock == Some(c) then None else u.stopLock))
  {
    hide Accounted, Rightful;
    var t := u.(callers := u.callers[c := Quiet], stopLock := if u.stopLock == Some(c) then None else u.stopLock);
    assert Rightful(t) by { RightfulSame(u, t); }
    forall d: nat | true
      ensures Inside(t, d)
    {
      assert Inside(u, d);
    }
  }

  lemma DieRequests(s: State, c: nat)
    requires RequestsOk(s)
    ensures RequestsOk(StepCaller(s, Die(c)))
  {
    hide Accounted, Rightful;
    LeaveRequests(s, c);
    var t := StepCaller(s, Die(c));
    var u := t.(orphans := s.orphans);
    RightfulSame(u, t);
    forall d: nat | true
      ensures Inside(t, d)
    {
      assert Inside(u, d);
    }
  }

  lemma RightfulSame(s: State, t: State)
    requires Rightful(s) && t.removals == s.removals && s.authors <= t.authors && t.daemons == s.daemons
    ensures Rightful(t)
  {
    forall n: nat | t.Daemon(n).Stopping? && t.Daemon(n).request.Some?
      ensures Removal(t.Daemon(n).request.value, ByDaemon(n)) in t.removals
    {
      assert s.Daemon(n) == t.Daemon(n);
    }
  }

  /** Writing a fresh request where no file is. */
  lemma WriteRequests(u: State, c: nat, n: nat)
    requires RequestsOk(u) && u.Caller(c) == Asking(n) && n !in u.files
    ensures RequestsOk(u.(files := u.files[n := |u.authors|], authors := u.authors + [c], callers := u.callers[c := Armed(n, |u.authors|)]))
  {
    var t := u.(files := u.files[n := |u.authors|], authors := u.authors + [c], callers := u.callers[c := Armed(n, |u.authors|)]);
    WriteAccounted(u.files, u.removals, |u.authors|, n);
    RightfulSame(u, t);
    hide Accounted, Rightful;
    assert Inside(u, c);
    forall d: nat | true
      ensures Inside(t, d)
    {
      assert Inside(u, d);
    }
  }

  lemma PublishRequests(s: State, c: nat)
    requires RequestsOk(s) && s.Caller(c).Asking?
    ensures RequestsOk(StepCaller(s, Publish(c)))
  {
    var n := s.Caller(c).expected;
    UnlinkRequests(s, n, Overwritten);
    assert n !in Unlink(s, n, Overwritten).files && Unlink(s, n, Overwritten).Caller(c) == s.Caller(c);
    hide RequestsOk;
    WriteRequests(Unlink(s, n, Overwritten), c, n);
  }

  lemma CallerRequests(s: State, e: Event)
    requires RequestsOk(s) && OfCaller(e)
    ensures RequestsOk(StepCaller(s, e))
  {
    hide Accounted, Finish;
    var c := e.caller;
    assert Inside(s, c);
    match e {
      case Ask(_, n) => MoveRequests(s, StepCaller(s, e), c);
      case Publish(_) => if s.Caller(c).Asking? { PublishRequests(s, c); }
      case Poll(_) =>
        FinishRequests(s, c);
        if s.holders == {} && (s.Caller(c).Armed? || s.Caller(c).Settling?) {
          var r := s.(stopped := s.stopped + {s.Caller(c).expected});
          MoveRequests(s, r, c);
          FinishRequests(r, c);
        }
      case Expire(_) =>
        FinishRequests(s, c);
        if (s.Caller(c).Armed? || s.Caller(c).Refused?) && s.Caller(c).expected !in s.files {
          MoveRequests(s, StepCaller(s, e), c);
        }
      case Cancel(_) => FinishRequests(s, c);
      case Fail(_) => MoveRequests(s, StepCaller(s, e), c);
      case Die(_) => DieRequests(s, c);
    }
  }

  /** A step that only moves one caller, or notes a stopped instance. */
  lemma MoveRequests(s: State, t: State, c: nat)
    requires RequestsOk(s) && t == s.(callers := t.callers, stopLock := t.stopLock, stopped := t.stopped)
    requires (forall d: nat :: d != c ==> t.Caller(d) == s.Caller(d)) && Inside(t, c)
    requires s.stopLock.Some? ==> t.stopLock == s.stopLock
    requires forall n :: n in t.stopped ==> n in s.stopped || (n in s.daemons && s.holders == {})
    ensures RequestsOk(t)
  {
    hide Accounted, Rightful;
    RightfulSame(s, t);
    forall d: nat | true
      ensures Inside(t, d)
    {
      assert Inside(s, d);
    }
  }

  // ---------------------------------------------------------------- whose request is removed

  ghost predicate FileKnown(s: State, n: nat)
    requires n in s.files
  {
    s.files[n] in s.orphans || (s.files[n] < |s.authors| && s.Caller(s.authors[s.files[n]]) == Armed(n, s.files[n]))
  }

  /** A removal by a call is of its own request or, exactly after a failed publication, of an orphan; what is
      overwritten is an orphan too. */
  ghost predicate RemovalKnown(s: State, r: Removal) {
    && (r.party.ByCaller? ==> (r.party.published <==> r.request !in s.orphans))
    && (r.party.ByCaller? ==> forall c: nat :: s.Caller(c).Armed? ==> s.Caller(c).request != r.request)
    && (r.party.Overwritten? ==> r.request in s.orphans)
  }

  /** A file on disk belongs to a call still armed with it, or is an orphan. */
  ghost predicate OrphansOk(s: State) {
    && (forall r :: r in s.orphans ==> r < |s.authors|)
    && (forall n :: n in s.files ==> FileKnown(s, n))
    && (forall c: nat :: s.Caller(c).Armed? ==> s.Caller(c).request !in s.orphans)
    && (forall i :: 0 <= i < |s.removals| ==> RemovalKnown(s, s.removals[i]))
  }

  /** Only files go away, and neither a call nor a write takes them. */
  ghost predicate Quietly(s: State, t: State) {
    && t.callers == s.callers && t.authors == s.authors && t.orphans == s.orphans && s.removals <= t.removals
    && (forall n :: n in t.files ==> n in s.files && t.files[n] == s.files[n])
    && (forall i :: |s.removals| <= i < |t.removals| ==> !t.removals[i].party.ByCaller? && !t.removals[i].party.Overwritten?)
  }

  lemma QuietlyOrphans(s: State, t: State)
    requires OrphansOk(s) && Quietly(s, t)
    ensures OrphansOk(t)
  {
    forall c: nat | true
      ensures t.Caller(c) == s.Caller(c)
    {
    }
    forall n | n in t.files
      ensures FileKnown(t, n)
    {
      assert FileKnown(s, n);
    }
    forall i | 0 <= i < |t.removals|
      ensures RemovalKnown(t, t.removals[i])
    {
      if i < |s.removals| {
        assert RemovalKnown(s, s.removals[i]) && t.removals[i] == s.removals[i];
      }
    }
  }

  lemma LaunchQuietly(s: State, e: Event)
    requires OfLauncher(e)
    ensures Quietly(s, StepLaunch(s, e))
  {
  }

  lemma DaemonQuietly(s: State, e: Event)
    requires OfDaemon(e)
    ensures Quietly(s, StepDaemon(s, e))
  {
  }

  /** Under the stop lock, a call that has not written finds only orphans. */
  lemma FoundOrphan(s: State, c: nat)
    requires RequestsOk(s) && OrphansOk(s) && (s.Caller(c).Asking? || s.Caller(c).Refused?)
    ensures s.Caller(c).expected in s.files ==> s.files[s.Caller(c).expected] in s.orphans
  {
    hide Accounted, Rightful;
    var n := s.Caller(c).expected;
    if n in s.files {
      assert FileKnown(s, n) && Inside(s, c);
      if s.files[n] < |s.authors| {
        assert Inside(s, s.authors[s.files[n]]);
      }
    }
  }

  /** One call stops being armed; what it was armed with is off the disk or an orphan now. */
  lemma CallerOrphans(s: State, t: State, c: nat)
    requires OrphansOk(s) && t.authors == s.authors && s.removals == t.removals && s.orphans <= t.orphans
    requires forall d: nat :: d != c ==> t.Caller(d) == s.Caller(d)
    requires !t.Caller(c).Armed? && forall n :: n in t.files ==> n in s.files && t.files[n] == s.files[n]
    requires s.Caller(c).Armed? ==> s.Caller(c).expected !in t.files || s.Caller(c).request in t.orphans
    requires forall r :: r in t.orphans && r !in s.orphans ==> s.Caller(c).Armed? && r == s.Caller(c).request && r < |s.authors|
    requires forall d: nat :: d != c && s.Caller(d).Armed? && s.Caller(c).Armed? ==> s.Caller(d).request != s.Caller(c).request
    ensures OrphansOk(t)
  {
    forall n | n in t.files
      ensures FileKnown(t, n)
    {
      assert FileKnown(s, n);
    }
    forall i | 0 <= i < |t.removals|
      ensures RemovalKnown(t, t.removals[i])
    {
      assert RemovalKnown(s, s.removals[i]);
    }
  }

  lemma ArmedApart(s: State, c: nat, d: nat)
    requires RequestsOk(s) && c != d && s.Caller(c).Armed? && s.Caller(d).Armed?
    ensures s.Caller(d).request != s.Caller(c).request
  {
    hide Accounted, Rightful;
    assert Inside(s, c) && Inside(s, d);
  }

  lemma FinishOrphans(s: State, c: nat)
    requires RequestsOk(s) && OrphansOk(s)
    ensures OrphansOk(Finish(s, c))
  {
    hide Accounted, Rightful;
    var caller, t := s.Caller(c), Finish(s, c);
    assert Inside(s, c);
    forall d: nat | d != c && s.Caller(d).Armed? && caller.Armed?
      ensures s.Caller(d).request != caller.request
    {
      ArmedApart(s, c, d);
    }
    if caller.Refused? {
      FoundOrphan(s, c);
    }
    var u := t.(removals := s.removals);
    CallerOrphans(s, u, c);
    forall d: nat | t.Caller(d).Armed?
      ensures d != c && t.Caller(d) == s.Caller(d) && u.Caller(d) == s.Caller(d)
    {
    }
    forall i | 0 <= i < |t.removals|
      ensures RemovalKnown(t, t.removals[i])
    {
      if i < |s.removals| {
        assert RemovalKnown(u, u.removals[i]) && t.removals[i] == s.removals[i];
      } else {
        assert t.removals[i] == Removal(s.files[caller.expected], ByCaller(c, caller.Armed?));
      }
    }
    forall n | n in t.files
      ensures FileKnown(t, n)
    {
      assert FileKnown(u, n);
    }
  }

  lemma PublishOrphans(s: State, c: nat)
    requires RequestsOk(s) && OrphansOk(s) && s.Caller(c).Asking?
    ensures OrphansOk(StepCaller(s, Publish(c)))
  {
    hide Rightful;
    var t, n := StepCaller(s, Publish(c)), s.Caller(c).expected;
    FoundOrphan(s, c);
    assert t.authors[..|s.authors|] == s.authors;
    forall d: nat | true
      ensures t.Caller(d) == if d == c then Armed(n, |s.authors|) else s.Caller(d)
    {
    }
    forall m | m in t.files
      ensures FileKnown(t, m)
    {
      assert m != n ==> FileKnown(s, m);
    }
    forall i | 0 <= i < |t.removals|
      ensures RemovalKnown(t, t.removals[i])
    {
      if i < |s.removals| {
        assert RemovalKnown(s, s.removals[i]) && t.removals[i] == s.removals[i] && s.removals[i].request < |s.authors|;
      } else {
        assert t.removals[i] == Removal(s.files[n], Overwritten);
      }
    }
  }

  lemma DieOrphans(s: State, c: nat)
    requires RequestsOk(s) && OrphansOk(s)
    ensures OrphansOk(StepCaller(s, Die(c)))
  {
    hide Accounted, Rightful;
    assert Inside(s, c);
    forall d: nat | d != c && s.Caller(d).Armed? && s.Caller(c).Armed?
      ensures s.Caller(d).request != s.Caller(c).request
    {
      ArmedApart(s, c, d);
    }
    hide RequestsOk, OrphansOk;
    CallerOrphans(s, StepCaller(s, Die(c)), c);
  }

  lemma StepOrphans(s: State, e: Event)
    requires RequestsOk(s) && OrphansOk(s) && OfCaller(e)
    ensures OrphansOk(StepCaller(s, e))
  {
    hide RequestsOk, OrphansOk, Finish;
    var c := e.caller;
    match e {
      case Publish(_) => if s.Caller(c).Asking? { PublishOrphans(s, c); }
      case Cancel(_) => FinishOrphans(s, c);
      case Die(_) => DieOrphans(s, c);
      case Poll(_) => PollOrphans(s, c);
      case _ => WaitOrphans(s, e);
    }
  }

  lemma PollOrphans(s: State, c: nat)
    requires RequestsOk(s) && OrphansOk(s)
    ensures OrphansOk(StepCaller(s, Poll(c)))
  {
    hide Accounted, Rightful, OrphansOk;
    FinishOrphans(s, c);
    var caller := s.Caller(c);
    if s.holders == {} && (caller.Armed? || caller.Settling?) {
      var r := s.(stopped := s.stopped + {caller.expected});
      StoppedSame(Finish(s, c), Finish(r, c));
    }
  }

  lemma StoppedSame(s: State, t: State)
    requires OrphansOk(s) && t == s.(stopped := t.stopped)
    ensures OrphansOk(t)
  {
    QuietlyOrphans(s, t);
  }

  lemma WaitOrphans(s: State, e: Event)
    requires RequestsOk(s) && OrphansOk(s) && (e.Ask? || e.Fail? || e.Expire?)
    ensures OrphansOk(StepCaller(s, e))
  {
    hide Accounted, Rightful, OrphansOk, Finish;
    var c, t := e.caller, StepCaller(s, e);
    assert Inside(s, c);
    FinishOrphans(s, c);
    if t != s && t != Finish(s, c) {
      forall d: nat | d != c && s.Caller(d).Armed? && s.Caller(c).Armed?
        ensures s.Caller(d).request != s.Caller(c).request
      {
        ArmedApart(s, c, d);
      }
      CallerOrphans(s, t, c);
    }
  }

  // ---------------------------------------------------------------- every run

  ghost predicate Inv(s: State) { LockOk(s) && LaunchesOk(s) && RequestsOk(s) && OrphansOk(s) }

  lemma StepKeeps(s: State, e: Event)
    requires Inv(s)
    ensures Inv(Next(s, e))
  {
    hide LockOk, LaunchesOk, RequestsOk, OrphansOk, Apart, Quietly, StepLaunch, StepDaemon, StepCaller;
    if OfLauncher(e) {
      LaunchLock(s, e);
      LaunchLaunches(s, e);
      LaunchRequests(s, e);
      LaunchQuietly(s, e);
      QuietlyOrphans(s, StepLaunch(s, e));
    } else if OfDaemon(e) {
      DaemonLock(s, e);
      DaemonApart(s, e);
      ApartLaunches(s, StepDaemon(s, e));
      DaemonRequests(s, e);
      DaemonQuietly(s, e);
      QuietlyOrphans(s, StepDaemon(s, e));
    } else {
      CallerLock(s, e);
      CallerApart(s, e);
      ApartLaunches(s, StepCaller(s, e));
      CallerRequests(s, e);
      StepOrphans(s, e);
    }
  }

  lemma {:induction false} RunKeeps(events: seq<Event>)
    ensures Inv(Run(events))
    decreases |events|
  {
    if events != [] {
      RunKeeps(events[..|events| - 1]);
      hide Inv, Next;
      StepKeeps(Run(events[..|events| - 1]), events[|events| - 1]);
    }
  }

  lemma SingleOwner(s: State, a: nat, b: nat)
    requires LockOk(s) && Owner(a) in s.holders && Owner(b) in s.holders
    ensures a == b
  {
    assert Owner(a) == Owner(b);
  }

  /** At every moment at most one instance owns the lock, also while it is handed over and after failed starts. */
  lemma OneOwner(events: seq<Event>, a: nat, b: nat)
    requires Owner(a) in Run(events).holders && Owner(b) in Run(events).holders
    ensures a == b
  {
    hide LockOk, RequestsOk, Run;
    RunKeeps(events);
    SingleOwner(Run(events), a, b);
  }

  /** An instance reported stopped does not hold the lock, then or ever again. */
  lemma StoppedReleased(events: seq<Event>, more: seq<Event>, n: nat)
    requires n in Run(events).stopped
    ensures Owner(n) !in Run(events + more).holders
  {
    hide Run, LockOk, Accounted, Rightful;
    StoppedStays(events, more, n);
    RunKeeps(events + more);
  }

  lemma StepStopped(s: State, e: Event)
    ensures s.stopped <= Next(s, e).stopped
  {
  }

  lemma {:induction false} StoppedStays(events: seq<Event>, more: seq<Event>, n: nat)
    requires n in Run(events).stopped
    ensures n in Run(events + more).stopped
    decreases |more|
  {
    hide Next;
    if more == [] {
      assert events + more == events;
    } else {
      var front, last := more[..|more| - 1], more[|more| - 1];
      var all := events + more;
      assert all[..|all| - 1] == events + front && all[|all| - 1] == last;
      StoppedStays(events, front, n);
      StepStopped(Run(events + front), last);
    }
  }

  /** Every stop request ever written is on disk or was removed by exactly one party. A call removes its own request,
      or, exactly when its own publication failed, one whose caller died while armed; only the latter kind is ever
      overwritten. One swept up by a launcher was for an instance it had killed. None of these stops a daemon. */
  lemma OneConsumer(events: seq<Event>)
    ensures var s := Run(events);
            && Accounted(s.files, s.removals, |s.authors|)
            && (forall i :: 0 <= i < |s.removals| && s.removals[i].party.ByCaller? ==>
                  && s.removals[i].request < |s.authors|
                  && (s.removals[i].party.published ==> s.authors[s.removals[i].request] == s.removals[i].party.id)
                  && (s.removals[i].party.published <==> s.removals[i].request !in s.orphans))
            && (forall i :: 0 <= i < |s.removals| && s.removals[i].party.Overwritten? ==> s.removals[i].request in s.orphans)
            && (forall i :: 0 <= i < |s.removals| && s.removals[i].party.ByLauncher? ==>
                  s.removals[i].party.nonce in s.daemons && s.daemons[s.removals[i].party.nonce].Gone?)
            && (forall i, n: nat :: 0 <= i < |s.removals| && !s.removals[i].party.ByDaemon? ==>
                  s.Daemon(n) != Stopping(Some(s.removals[i].request)))
  {
    hide Run, LockOk;
    RunKeeps(events);
    var s := Run(events);
    forall i | 0 <= i < |s.removals|
      ensures RemovalKnown(s, s.removals[i])
    {
    }
    forall i, n: nat | 0 <= i < |s.removals| && !s.removals[i].party.ByDaemon?
      ensures s.Daemon(n) != Stopping(Some(s.removals[i].request))
    {
      if s.Daemon(n) == Stopping(Some(s.removals[i].request)) {
        var j :| 0 <= j < |s.removals| && s.removals[j] == Removal(s.removals[i].request, ByDaemon(n));
      }
    }
  }

  // ---------------------------------------------------------------- what stops a daemon

  ghost predicate ConsumedBy(removals: seq<Removal>, n: nat) {
    exists i :: 0 <= i < |removals| && removals[i].party == ByDaemon(n)
  }

  predicate Ending(d: Daemon) { d.Stopping? || d.Cleaned? }

  /** A daemon that was not told otherwise ends only over a request it removed itself. */
  ghost predicate EndsRightly(s: State, n: nat) {
    && (Ending(s.Daemon(n)) ==> ConsumedBy(s.removals, n))
    && (s.Daemon(n).Stopping? ==> s.Daemon(n).request.Some? && Removal(s.Daemon(n).request.value, ByDaemon(n)) in s.removals)
  }

  lemma ConsumedStays(a: seq<Removal>, b: seq<Removal>, n: nat)
    requires a <= b && ConsumedBy(a, n)
    ensures ConsumedBy(b, n)
  {
    var i :| 0 <= i < |a| && a[i].party == ByDaemon(n);
    assert b[i] == a[i];
  }

  lemma RemovalsGrow(s: State, e: Event)
    ensures s.removals <= Next(s, e).removals
  {
  }

  lemma LaunchEnding(s: State, e: Event, n: nat)
    requires OfLauncher(e)
    ensures Ending(StepLaunch(s, e).Daemon(n)) ==> StepLaunch(s, e).Daemon(n) == s.Daemon(n)
  {
  }

  lemma CallerEnding(s: State, e: Event, n: nat)
    requires OfCaller(e)
    ensures StepCaller(s, e).Daemon(n) == s.Daemon(n)
  {
    CallerSame(s, e);
  }

  /** Only consuming a request that is there makes a daemon end. */
  lemma DaemonEnding(s: State, e: Event, n: nat)
    requires OfDaemon(e) && e != Quit(n)
    ensures var t := StepDaemon(s, e);
            Ending(t.Daemon(n)) ==>
              || t.Daemon(n) == s.Daemon(n)
              || (s.Daemon(n).Stopping? && t.Daemon(n).Cleaned?)
              || (n in s.files && t.Daemon(n) == Stopping(Some(s.files[n])) && |t.removals| == |s.removals| + 1 &&
                  t.removals[|s.removals|] == Removal(s.files[n], ByDaemon(n)))
  {
  }

  lemma StepEndsRightly(s: State, e: Event, n: nat)
    requires EndsRightly(s, n) && e != Quit(n)
    ensures EndsRightly(Next(s, e), n)
  {
    hide Ending, StepLaunch, StepDaemon, StepCaller;
    RemovalsGrow(s, e);
    var t := Next(s, e);
    if OfLauncher(e) {
      LaunchEnding(s, e, n);
    } else if OfDaemon(e) {
      DaemonEnding(s, e, n);
    } else {
      CallerEnding(s, e, n);
    }
    EndingOr(t.Daemon(n));
    EndingOr(s.Daemon(n));
    if ConsumedBy(s.removals, n) {
      ConsumedStays(s.removals, t.removals, n);
    }
  }

  lemma EndingOr(d: Daemon)
    ensures Ending(d) <==> d.Stopping? || d.Cleaned?
  {
  }

  /** In every run in which nothing else tells daemon `n` to quit, it ends only if it removed a request itself; so a
      request that its caller or anyone else removed first never stops it. */
  lemma {:induction false} StopsOnlyOnRequest(events: seq<Event>, n: nat)
    requires Quit(n) !in events
    ensures var s := Run(events);
            && (s.Daemon(n).Stopping? || s.Daemon(n).Cleaned? ==> exists i :: 0 <= i < |s.removals| && s.removals[i].party == ByDaemon(n))
            && (s.Daemon(n).Stopping? ==> s.Daemon(n).request.Some? && Removal(s.Daemon(n).request.value, ByDaemon(n)) in s.removals)
    decreases |events|
  {
    hide Next;
    if events != [] {
      var front := events[..|events| - 1];
      StopsOnlyOnRequest(front, n);
      assert EndsRightly(Run(front), n);
      StepEndsRightly(Run(front), events[|events| - 1], n);
    }
  }

  /** A request that is there when the daemon looks and consumes stops it; one that is gone by then leaves it running. */
  lemma ConsumeDecides(s: State, n: nat)
    requires s.Daemon(n).Looked?
    ensures var t := Next(s, Consume(n));
            if n in s.files then t.Daemon(n) == Stopping(Some(s.files[n])) && n !in t.files else t.Daemon(n).Running? && t.removals == s.removals
  {
  }

  lemma LookSees(s: State, n: nat)
    requires s.Daemon(n).Running?
    ensures var t := Next(s, Look(n)); t.Daemon(n) == (if n in s.files then Looked else Running) && t == s.(daemons := t.daemons) && (n in s.daemons ==> n in t.daemons)
  {
  }

  // ---------------------------------------------------------------- a start and a stop that go through

  /** With the lock free, a launcher starts a new instance and hands the lock over to it. */
  lemma StartCompletes(s: State, l: nat, n: nat)
    requires s.holders == {} && s.Launch(l).Out? && n !in s.daemons
    ensures var t := Next(Next(Next(Next(s, Take(l)), Fork(l, n)), Release(l)), Announce(n));
            t.holders == {Owner(n)} && t.descriptor == Some(n) && t.Daemon(n).Running? && t.files == s.files && t.stopLock == s.stopLock
  {
  }

  /** A call that asks a running instance to stop, and is not disturbed, reports it stopped once it is gone. */
  lemma StopCompletes(s: State, c: nat, n: nat)
    requires s.holders == {Owner(n)} && s.Daemon(n).Running? && n in s.daemons && s.descriptor == Some(n)
    requires s.stopLock.None? && s.Caller(c).Quiet? && n !in s.files
    ensures var asked := Next(Next(Next(Next(s, Ask(c, n)), Publish(c)), Look(n)), Consume(n));
            var t := Next(Next(Next(asked, Clean(n)), Exit(n)), Poll(c));
            && asked.Daemon(n) == Stopping(Some(|s.authors|)) && n in t.stopped && t.holders == {} && t.descriptor.None?
            && t.Caller(c).Quiet? && t.stopLock.None? && t.files == s.files
            && t.removals == s.removals + [Removal(|s.authors|, ByDaemon(n))]
  {
    hide Next;
    var asked := Next(Next(s, Ask(c, n)), Publish(c));
    AskPublishes(s, c, n);
    LookSees(asked, n);
    var looked := Next(asked, Look(n));
    assert looked.Caller(c) == asked.Caller(c);
    StopRuns(looked, c, n);
    assert s.files[n := |s.authors|] - {n} == s.files;
  }

  lemma AskPublishes(s: State, c: nat, n: nat)
    requires s.stopLock.None? && s.Caller(c).Quiet? && s.descriptor == Some(n) && n !in s.files
    ensures var t := Next(Next(s, Ask(c, n)), Publish(c));
            t == s.(stopLock := Some(c), callers := t.callers, files := s.files[n := |s.authors|], authors := s.authors + [c]) &&
            t.Caller(c) == Armed(n, |s.authors|)
  {
  }

  lemma StopRuns(s: State, c: nat, n: nat)
    requires s.holders == {Owner(n)} && s.Daemon(n).Looked? && s.descriptor == Some(n) && n in s.files && n in s.daemons
    requires s.stopLock == Some(c) && s.Caller(c).Armed? && s.Caller(c).expected == n
    ensures var asked := Next(s, Consume(n));
            var t := Next(Next(Next(asked, Clean(n)), Exit(n)), Poll(c));
            && asked.Daemon(n) == Stopping(Some(s.files[n])) && n in t.stopped && t.holders == {} && t.descriptor.None?
            && t.Caller(c).Quiet? && t.stopLock.None? && t.files == s.files - {n}
            && t.removals == s.removals + [Removal(s.files[n], ByDaemon(n))]
  {
  }

  lemma RunOne(events: seq<Event>, e: Event)
    ensures Run(events + [e]) == Next(Run(events), e)
  {
    assert (events + [e])[..|events|] == events;
  }

  /** A run in which a call removes a request it did not write: caller 1 dies with its request on disk, caller 2 cannot
      publish its own and revokes what it finds. */
  lemma ForeignRevoked() returns (events: seq<Event>)
    ensures Run(events).removals == [Removal(0, ByCaller(2, false))] && Run(events).authors == [1] && Run(events).orphans == {0}
  {
    hide Run, Next;
    var died := DiedArmed();
    var asked := died + [Ask(2, 7)];
    var refused := asked + [Fail(2)];
    events := refused + [Expire(2)];
    RunOne(died, Ask(2, 7));
    RunOne(asked, Fail(2));
    RunOne(refused, Expire(2));
    RevokesFound(Run(died), 2, 7);
  }

  lemma RevokesFound(s: State, c: nat, n: nat)
    requires s.Caller(c).Quiet? && s.stopLock.None? && s.descriptor == Some(n) && n in s.files
    ensures var t := Next(Next(Next(s, Ask(c, n)), Fail(c)), Expire(c));
            t.removals == s.removals + [Removal(s.files[n], ByCaller(c, false))] && t.authors == s.authors && t.orphans == s.orphans
  {
  }

  lemma DiedArmed() returns (events: seq<Event>)
    ensures var s := Run(events);
            && s.files == map[7 := 0] && s.removals == [] && s.authors == [1] && s.orphans == {0}
            && s.descriptor == Some(7) && s.stopLock.None? && s.Caller(2).Quiet?
  {
    hide Run, Next;
    var started := Started();
    var asked := started + [Ask(1, 7)];
    var published := asked + [Publish(1)];
    events := published + [Die(1)];
    RunOne(started, Ask(1, 7));
    RunOne(asked, Publish(1));
    RunOne(published, Die(1));
    DiesArmed(Run(started), 1, 7);
    assert [] + [1] == [1] && {} + {0} == {0};
  }

  lemma DiesArmed(s: State, c: nat, n: nat)
    requires s.Caller(c).Quiet? && s.stopLock.None? && s.descriptor == Some(n) && n !in s.files
    ensures var t := Next(Next(Next(s, Ask(c, n)), Publish(c)), Die(c));
            && t.files == s.files[n := |s.authors|] && t.removals == s.removals && t.authors == s.authors + [c]
            && t.orphans == s.orphans + {|s.authors|} && t.descriptor == s.descriptor && t.stopLock.None?
            && forall d: nat :: d != c ==> t.Caller(d) == s.Caller(d)
  {
  }

  lemma Started() returns (events: seq<Event>)
    ensures var s := Run(events); s == START.(holders := s.holders, launches := s.launches, daemons := s.daemons, descriptor := Some(7))
  {
    hide Run;
    var taken := [] + [Take(0)];
    var forked := taken + [Fork(0, 7)];
    events := forked + [Announce(7)];
    RunNone();
    RunOne([], Take(0));
    RunOne(taken, Fork(0, 7));
    RunOne(forked, Announce(7));
  }

  lemma RunNone()
    ensures Run([]) == START
  {
  }
}
