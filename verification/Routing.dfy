/** First-match routing with a lazy, single DNS lookup and address pinning. */
module Routing {
  import opened Base
  import opened Config

  // ---------------------------------------------------------------- destinations and matchers

  datatype Address = V4(bits: nat) | V6(bits: nat) {
    function Width(): nat { if V4? then 32 else 128 }
  }

  datatype Network = Network(base: Address, prefix: nat) {
    /** Same family, same leading `prefix` bits. */
    predicate Contains(ip: Address) {
      && base.V4? == ip.V4? && prefix <= ip.Width()
      && ip.bits / Pow2(ip.Width() - prefix) == base.bits / Pow2(ip.Width() - prefix)
    }
  }

  datatype Host = Literal(ip: Address) | Name(text: string)
  datatype Target = Target(host: Host, port: nat)
  datatype Context = Context(sourceIp: Option<Address>, sourcePort: Option<nat>, process: Option<string>)

  /** What one route call is asked: the destination, its context and the country table. */
  datatype Query = Query(target: Target, context: Context, geo: Address -> Option<string>)

  datatype Matcher =
    | Domain(domain: string)
    | DomainSuffix(suffix: string)
    | DomainKeyword(keyword: string)
    | Ip(network: Network, noResolve: bool)
    | DestinationPort(first: nat, last: nat)
    | SourcePort(first: nat, last: nat)
    | SourceIp(network: Network)
    | ProcessName(process: string)
    | GeoIp(country: string, noResolve: bool)
    | Match
  {
    predicate OnAddress() { Ip? || GeoIp? }

    predicate Resolving() { OnAddress() && !noResolve }

    /** An address rule's own test of one address. */
    predicate Fits(ip: Address, geo: Address -> Option<string>)
      requires OnAddress()
    {
      if Ip? then network.Contains(ip) else geo(ip) == Some(country)
    }
  }

  function Lower(c: char): char { if 'A' <= c <= 'Z' then c - 'A' + 'a' else c }

  /** One trailing dot dropped, ASCII letters lowered. */
  function Canonical(name: string): string {
    var bare := if name != [] && name[|name| - 1] == '.' then name[..|name| - 1] else name;
    seq(|bare|, i requires 0 <= i < |bare| => Lower(bare[i]))
  }

  predicate EndsWith(s: string, suffix: string) { |suffix| <= |s| && s[|s| - |suffix|..] == suffix }

  /** The name is the suffix itself or a subdomain of it. */
  predicate Under(domain: string, suffix: string) { domain == suffix || EndsWith(domain, "." + suffix) }

  predicate Occurs(domain: string, keyword: string) {
    exists i :: 0 <= i <= |domain| && keyword <= domain[i..]
  }

  /** Whether a matcher accepts without asking DNS; an address rule never accepts a bare name. */
  predicate Accepts(m: Matcher, q: Query) {
    match m
    case Domain(domain) => q.target.host.Name? && Canonical(q.target.host.text) == domain
    case DomainSuffix(suffix) => q.target.host.Name? && Under(Canonical(q.target.host.text), suffix)
    case DomainKeyword(keyword) => q.target.host.Name? && Occurs(Canonical(q.target.host.text), keyword)
    case Ip(_, _) => q.target.host.Literal? && m.Fits(q.target.host.ip, q.geo)
    case GeoIp(_, _) => q.target.host.Literal? && m.Fits(q.target.host.ip, q.geo)
    case DestinationPort(first, last) => first <= q.target.port <= last
    case SourcePort(first, last) => q.context.sourcePort.Some? && first <= q.context.sourcePort.value <= last
    case SourceIp(network) => q.context.sourceIp.Some? && network.Contains(q.context.sourceIp.value)
    case ProcessName(name) => q.context.process == Some(name)
    case Match => true
  }

  datatype Rule = Rule(matcher: Matcher, proxy: nat, payload: string)

  // ---------------------------------------------------------------- the reference evaluation

  datatype Outcome = Routed(rule: nat, leaf: nat, target: Target) | Failed | Denied

  /** `allowed`: the name may still be handed to a remote proxy; `asked`: the one lookup happened. */
  datatype Walk = Walk(allowed: bool, asked: bool)
  datatype Scan = Done(outcome: Outcome, asked: bool) | More(walk: Walk)

  /** Where the walk happens and what DNS would say, if asked. */
  datatype World = World(plan: Plan, selections: seq<nat>, query: Query, answer: Option<seq<Address>>) {
    predicate Remote(leaf: nat) {
      leaf < |plan.proxies| && (plan.proxies[leaf].kind.Shadowsocks? || plan.proxies[leaf].kind.Trojan? || plan.proxies[leaf].kind.AnyTls?)
    }

    predicate Direct(node: nat) { node < |plan.proxies| && plan.proxies[node].kind.Direct? }

    /** Whether evaluating a matcher needs the destination's addresses. */
    predicate Asks(m: Matcher, quiet: bool) { m.Resolving() && !quiet && query.target.host.Name? }

    /** The address an address rule pins: the first answer that satisfies it. */
    function Pin(m: Matcher): Option<Address>
      requires m.OnAddress()
    {
      if answer.None? then None else FirstFit(m, query.geo, answer.value)
    }

    predicate Hits(m: Matcher, quiet: bool) {
      if Asks(m, quiet) then Pin(m).Some? else Accepts(m, query)
    }

    /** Evaluation ends at this rule: it matches, or it needs a lookup that fails. */
    predicate Stops(m: Matcher, quiet: bool) { Hits(m, quiet) || (Asks(m, quiet) && answer.None?) }

    function After(m: Matcher, proxy: nat, quiet: bool, walk: Walk): Walk {
      Walk(walk.allowed && (m.Resolving() && !quiet ==> Direct(proxy)), walk.asked || Asks(m, quiet))
    }

    /** The destination to dial once a rule has won. */
    function Destination(m: Matcher, quiet: bool, leaf: nat, walk: Walk): Target {
      if Asks(m, quiet) && Pin(m).Some? then Target(Literal(Pin(m).value), query.target.port)
      else if walk.allowed && Remote(leaf) then query.target
      else if walk.asked && answer.Some? && answer.value != [] then Target(Literal(answer.value[0]), query.target.port)
      else query.target
    }

    function Win(m: Matcher, proxy: nat, quiet: bool, index: nat, walk: Walk): Outcome {
      var leaf := plan.Leaf(selections, proxy);
      Routed(index, leaf, Destination(m, quiet, leaf, walk))
    }
  }

  function FirstFit(m: Matcher, geo: Address -> Option<string>, addresses: seq<Address>): (r: Option<Address>)
    requires m.OnAddress()
    ensures r.Some? ==> r.value in addresses && m.Fits(r.value, geo)
    ensures r.None? <==> forall ip :: ip in addresses ==> !m.Fits(ip, geo)
  {
    if addresses == [] then None
    else if m.Fits(addresses[0], geo) then Some(addresses[0])
    else
      assert addresses == [addresses[0]] + addresses[1..];
      FirstFit(m, geo, addresses[1..])
  }

  /** The pinned address is the first answer that satisfies the rule. */
  lemma {:induction false} PinsFirst(m: Matcher, geo: Address -> Option<string>, addresses: seq<Address>) returns (i: nat)
    requires m.OnAddress() && FirstFit(m, geo, addresses).Some?
    ensures i < |addresses| && FirstFit(m, geo, addresses) == Some(addresses[i])
    ensures forall j :: 0 <= j < i ==> !m.Fits(addresses[j], geo)
    decreases |addresses|
  {
    if m.Fits(addresses[0], geo) {
      i := 0;
    } else {
      var k := PinsFirst(m, geo, addresses[1..]);
      i := k + 1;
      forall j | 0 <= j < i
        ensures !m.Fits(addresses[j], geo)
      {
        assert j > 0 ==> addresses[j] == addresses[1..][j - 1];
      }
    }
  }

  /** Evaluates rules in order from index `base`; with `proxy` set every rule sends its traffic there,
      with `quiet` set no rule asks DNS. */
  function Evaluate(w: World, rules: seq<Rule>, proxy: Option<nat>, quiet: bool, base: nat, walk: Walk): Scan
    decreases |rules|
  {
    if rules == [] then More(walk)
    else
      var to := if proxy.Some? then proxy.value else rules[0].proxy;
      var m := rules[0].matcher;
      var next := w.After(m, to, quiet, walk);
      if w.Hits(m, quiet) then Done(w.Win(m, to, quiet, base, next), next.asked)
      else if w.Asks(m, quiet) && w.answer.None? then Done(Failed, true)
      else Evaluate(w, rules[1..], proxy, quiet, base + 1, next)
  }

  function Closed(s: Scan): Scan { if s.Done? then s else Done(Denied, s.walk.asked) }

  /** What routing over a flat rule list decides. */
  function Decide(w: World, rules: seq<Rule>, tcp: bool): (s: Scan)
    ensures s.Done?
  {
    Closed(Evaluate(w, rules, None, false, 0, Walk(tcp, false)))
  }

  function Resume(w: World, s: Scan, rules: seq<Rule>, base: nat): Scan {
    if s.Done? then s else Evaluate(w, rules, None, false, base, s.walk)
  }

  lemma {:induction false} EvaluateConcat(w: World, a: seq<Rule>, b: seq<Rule>, base: nat, walk: Walk)
    ensures Evaluate(w, a + b, None, false, base, walk) ==
            Resume(w, Evaluate(w, a, None, false, base, walk), b, base + |a|)
    decreases |a|
  {
    hide World.Hits, World.Win, World.After;
    if a == [] {
      assert a + b == b;
    } else {
      assert (a + b)[0] == a[0] && (a + b)[1..] == a[1..] + b;
      var next := w.After(a[0].matcher, a[0].proxy, false, walk);
      EvaluateConcat(w, a[1..], b, base + 1, next);
    }
  }

  /** Rules appended after a decision never change it. */
  lemma SuffixIrrelevant(w: World, rules: seq<Rule>, more: seq<Rule>, tcp: bool)
    ensures !Decide(w, rules, tcp).outcome.Denied? ==> Decide(w, rules + more, tcp) == Decide(w, rules, tcp)
  {
    EvaluateConcat(w, rules, more, 0, Walk(tcp, false));
  }

  // ---------------------------------------------------------------- what a decision means

  /** The first `n` rules neither match nor fail. */
  ghost predicate Passed(w: World, rules: seq<Rule>, n: nat)
    requires n <= |rules|
  {
    forall j :: 0 <= j < n ==> !w.Stops(rules[j].matcher, false)
  }

  /** Some rule among the first `n` needs the destination's addresses. */
  ghost predicate Asked(w: World, rules: seq<Rule>, n: nat)
    requires n <= |rules|
  {
    exists j :: 0 <= j < n && w.Asks(rules[j].matcher, false)
  }

  /** Every resolving rule among the first `n` is statically DIRECT. */
  ghost predicate AllDirect(w: World, rules: seq<Rule>, n: nat)
    requires n <= |rules|
  {
    forall j :: 0 <= j < n && rules[j].matcher.Resolving() ==> w.Direct(rules[j].proxy)
  }

  lemma {:induction false} WalkMeaning(w: World, rules: seq<Rule>, tcp: bool, n: nat)
    requires n <= |rules| && Passed(w, rules, n)
    ensures Evaluate(w, rules[..n], None, false, 0, Walk(tcp, false)) ==
            More(Walk(tcp && AllDirect(w, rules, n), Asked(w, rules, n)))
  {
    hide World.Hits, World.Asks, World.Direct, World.Win;
    if n > 0 {
      WalkMeaning(w, rules, tcp, n - 1);
      var last := rules[n - 1];
      assert rules[..n] == rules[..n - 1] + [last];
      EvaluateConcat(w, rules[..n - 1], [last], 0, Walk(tcp, false));
      assert !w.Stops(last.matcher, false) && [last][1..] == [];
      var walk := Walk(tcp && AllDirect(w, rules, n - 1), Asked(w, rules, n - 1));
      assert Evaluate(w, [last], None, false, n - 1, walk) == More(w.After(last.matcher, last.proxy, false, walk));
      assert AllDirect(w, rules, n) <==> AllDirect(w, rules, n - 1) && (last.matcher.Resolving() ==> w.Direct(last.proxy));
      assert Asked(w, rules, n) <==> Asked(w, rules, n - 1) || w.Asks(last.matcher, false);
    }
  }

  /** The first rule that matches, or that needs a failing lookup, decides. */
  lemma DecideAt(w: World, rules: seq<Rule>, tcp: bool, n: nat)
    requires n < |rules| && Passed(w, rules, n) && w.Stops(rules[n].matcher, false)
    ensures var walk := Walk(tcp && AllDirect(w, rules, n + 1), Asked(w, rules, n + 1));
            Decide(w, rules, tcp) ==
            if w.Hits(rules[n].matcher, false) then Done(w.Win(rules[n].matcher, rules[n].proxy, false, n, walk), walk.asked)
            else Done(Failed, true)
  {
    hide World.Hits, World.Asks, World.Direct, World.Win;
    WalkMeaning(w, rules, tcp, n);
    var rest := rules[n..];
    assert rules == rules[..n] + rest && rest[0] == rules[n];
    EvaluateConcat(w, rules[..n], rest, 0, Walk(tcp, false));
  }

  lemma {:induction false} FirstStop(w: World, rules: seq<Rule>, n: nat) returns (k: nat)
    requires n <= |rules|
    ensures k <= n && Passed(w, rules, k) && (k < n ==> w.Stops(rules[k].matcher, false))
  {
    if n == 0 {
      k := 0;
    } else {
      k := FirstStop(w, rules, n - 1);
      if k == n - 1 && !w.Stops(rules[k].matcher, false) {
        k := n;
      }
    }
  }

  /** Routing in full: the winner is the first matching rule, no earlier rule failed; the lookup happens
      exactly when some visited rule needs it, and denial means that nothing matched. */
  lemma RouteMeaning(w: World, rules: seq<Rule>, tcp: bool)
    ensures var s := Decide(w, rules, tcp);
            && (s.outcome.Routed? ==>
                  var i := s.outcome.rule;
                  && i < |rules| && Passed(w, rules, i) && w.Hits(rules[i].matcher, false)
                  && s.outcome.leaf == w.plan.Leaf(w.selections, rules[i].proxy) && s.asked == Asked(w, rules, i + 1))
            && (s.outcome.Failed? ==> w.answer.None? && s.asked && Asked(w, rules, |rules|))
            && (s.outcome.Denied? ==> Passed(w, rules, |rules|) && s.asked == Asked(w, rules, |rules|))
  {
    hide World.Hits, World.Asks, World.Direct;
    var k := FirstStop(w, rules, |rules|);
    if k < |rules| {
      DecideAt(w, rules, tcp, k);
    } else {
      assert rules[..k] == rules;
      WalkMeaning(w, rules, tcp, k);
    }
  }

  /** The dialled destination: a matching address rule pins an answer that satisfies it; after any other
      lookup the name survives only for a TCP route to a remote proxy past purely DIRECT address rules. */
  lemma TargetMeaning(w: World, rules: seq<Rule>, tcp: bool)
    requires w.answer.Some? ==> w.answer.value != []
    ensures var s := Decide(w, rules, tcp);
            s.outcome.Routed? ==>
              && var i, to := s.outcome.rule, s.outcome.target;
              && i < |rules| && to.port == w.query.target.port
              && (w.Asks(rules[i].matcher, false) ==>
                    && to.host.Literal? && w.answer.Some? && to.host.ip in w.answer.value
                    && rules[i].matcher.Fits(to.host.ip, w.query.geo))
              && (!w.Asks(rules[i].matcher, false) ==>
                    if !s.asked || (tcp && AllDirect(w, rules, i + 1) && w.Remote(s.outcome.leaf)) then to == w.query.target
                    else w.answer.Some? && to.host == Literal(w.answer.value[0]) && w.query.target.host.Name?)
  {
    hide World.Direct;
    var k := FirstStop(w, rules, |rules|);
    if k < |rules| {
      DecideAt(w, rules, tcp, k);
      if Asked(w, rules, k + 1) && !w.Asks(rules[k].matcher, false) {
        var j :| 0 <= j < k + 1 && w.Asks(rules[j].matcher, false);
        assert !w.Stops(rules[j].matcher, false);
      }
    } else {
      assert rules[..k] == rules;
      WalkMeaning(w, rules, tcp, k);
    }
  }

  // ---------------------------------------------------------------- the routing loop

  /** The resolver: its `n`-th lookup answers `answers(n)`, a nonempty list or a failure. */
  class Resolver {
    const answers: nat -> Option<seq<Address>>
    var lookups: nat

    constructor (answers: nat -> Option<seq<Address>>)
      ensures this.answers == answers && lookups == 0
    {
      this.answers := answers;
      lookups := 0;
    }

    method Resolve() returns (r: Option<seq<Address>>)
      modifies this
      ensures r == answers(old(lookups)) && lookups == old(lookups) + 1
    {
      r := answers(lookups);
      lookups := lookups + 1;
    }
  }

  ghost predicate Targets(c: Plan, rules: seq<Rule>) {
    forall i :: 0 <= i < |rules| ==> rules[i].proxy < |c.proxies| + |c.groups|
  }

  /** The loop agrees with the reference evaluation, whatever later lookups would answer, and asks at most once. */
  method Route(config: Config, rules: seq<Rule>, query: Query, tcp: bool, dns: Resolver) returns (r: Outcome)
    requires config.Valid() && Targets(config.plan, rules)
    requires forall n :: dns.answers(n).Some? ==> dns.answers(n).value != []
    modifies dns
    ensures var w := World(config.plan, config.selections, query, dns.answers(old(dns.lookups)));
            && r == Decide(w, rules, tcp).outcome
            && dns.lookups == old(dns.lookups) + if Decide(w, rules, tcp).asked then 1 else 0
  {
    hide Accepts, FirstFit;
    ghost var w := World(config.plan, config.selections, query, dns.answers(dns.lookups));
    var allowed := tcp;
    var resolved: Option<seq<Address>> := None;
    var i := 0;
    while i < |rules|
      invariant i <= |rules|
      invariant Decide(w, rules, tcp) == Closed(Evaluate(w, rules[i..], None, false, i, Walk(allowed, resolved.Some?)))
      invariant resolved.Some? ==> resolved == w.answer
      invariant dns.lookups == old(dns.lookups) + if resolved.Some? then 1 else 0
    {
      var rule := rules[i];
      if rule.matcher.Resolving() {
        allowed := allowed && rule.proxy < |config.plan.proxies| && config.plan.proxies[rule.proxy].kind.Direct?;
      }
      var pinned: Option<Address> := None;
      var matched := false;
      if rule.matcher.Resolving() && query.target.host.Name? {
        if resolved.None? {
          resolved := dns.Resolve();
          if resolved.None? {
            return Failed;
          }
        }
        pinned := FirstFit(rule.matcher, query.geo, resolved.value);
        matched := pinned.Some?;
      } else {
        matched := Accepts(rule.matcher, query);
      }
      if matched {
        var leaf := config.ResolveProxy(rule.proxy);
        var kind := config.plan.proxies[leaf].kind;
        var remote := allowed && (kind.Shadowsocks? || kind.Trojan? || kind.AnyTls?);
        if pinned.None? && !remote && resolved.Some? {
          pinned := Some(resolved.value[0]);
        }
        var target := if pinned.Some? then Target(Literal(pinned.value), query.target.port) else query.target;
        return Routed(i, leaf, target);
      }
      i := i + 1;
    }
    return Denied;
  }
}
