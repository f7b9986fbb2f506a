/** Compiling rule-set references away: every budget is reserved before the flat list is built, and
    routing over the flat list means what the nested declaration means. */
module Expansion {
  import opened Base
  import opened Groups
  import opened Routing

  const MAX_PROVIDERS := 4096
  const MAX_SOURCE := 16 * 1024 * 1024
  const MAX_RULES := 262144
  const MAX_AGGREGATE := 64 * 1024 * 1024

  /** A normalized provider entry: its length and the rule it parses to, if it does. */
  datatype Entry = Entry(bytes: nat, rule: Option<Rule>)

  /** A captured source file: its size and its entries under a behaviour, if it can be read as one. */
  datatype Asset = Asset(path: string, size: nat, read: string -> Option<seq<Entry>>)

  /** A provider as declared. */
  datatype Declaration = Declaration(name: string, kind: string, behavior: string, path: string, url: Option<string>, interval: nat)

  /** A declared provider with its source: the length of its captured asset and its entries, if present and readable. */
  datatype Provider = Provider(name: string, asset: Option<nat>, entries: Option<seq<Entry>>)

  /** A source rule: a plain rule, a reference to a provider, or text that is neither. */
  datatype Declared =
    | Plain(rule: Rule, target: string)
    | RuleSet(provider: string, target: string, quiet: bool)
    | Malformed

  datatype Template = Template(rules: seq<Rule>, bytes: nat)

  /** A planned item: one rule, or a provider's rules under a target and a no-resolve option. */
  datatype Item = One(rule: Rule) | Set(rules: seq<Rule>, proxy: nat, quiet: bool)

  // ---------------------------------------------------------------- sums

  function Sum(s: seq<nat>): nat { if s == [] then 0 else Sum(s[..|s| - 1]) + s[|s| - 1] }

  lemma {:induction false} SumPrefix(s: seq<nat>, n: nat)
    requires n <= |s|
    ensures Sum(s[..n]) <= Sum(s)
    decreases |s|
  {
    if n == |s| {
      assert s[..n] == s;
    } else {
      assert s[..|s| - 1][..n] == s[..n];
      SumPrefix(s[..|s| - 1], n);
    }
  }

  lemma SumStep(s: seq<nat>, n: nat)
    requires n < |s|
    ensures Sum(s[..n + 1]) == Sum(s[..n]) + s[n] && Sum(s[..n + 1]) <= Sum(s)
  {
    assert s[..n + 1][..n] == s[..n];
    SumPrefix(s, n + 1);
  }

  lemma SumAll(s: seq<nat>)
    ensures Sum(s[..|s|]) == Sum(s) && Sum(s[..0]) == 0
  {
    assert s[..|s|] == s;
  }

  /** Adds to a running total unless the limit would be passed; then nothing is added. */
  function AddBudget(total: nat, amount: nat, max: nat): (r: Option<nat>)
    ensures r.Some? <==> total + amount <= max
    ensures r.Some? ==> r.value == total + amount
  {
    if total + amount <= max then Some(total + amount) else None
  }

  // ---------------------------------------------------------------- providers

  function EntrySizes(entries: seq<Entry>): seq<nat> { seq(|entries|, i requires 0 <= i < |entries| => entries[i].bytes) }

  predicate Parsed(entries: seq<Entry>) { forall i :: 0 <= i < |entries| ==> entries[i].rule.Some? }

  function RulesOf(entries: seq<Entry>): seq<Rule>
    requires Parsed(entries)
  {
    seq(|entries|, i requires 0 <= i < |entries| => entries[i].rule.value)
  }

  predicate Readable(p: Provider) { p.asset.Some? && p.entries.Some? && Parsed(p.entries.value) }

  function TemplateOf(p: Provider): Template
    requires Readable(p)
  {
    Template(RulesOf(p.entries.value), Sum(EntrySizes(p.entries.value)))
  }

  function Assets(ps: seq<Provider>): seq<nat>
  { seq(|ps|, i requires 0 <= i < |ps| => if ps[i].asset.Some? then ps[i].asset.value else 0) }

  function Counts(ps: seq<Provider>): seq<nat>
  { seq(|ps|, i requires 0 <= i < |ps| => if ps[i].entries.Some? then |ps[i].entries.value| else 0) }

  function Sizes(ps: seq<Provider>): seq<nat>
  { seq(|ps|, i requires 0 <= i < |ps| => if ps[i].entries.Some? then Sum(EntrySizes(ps[i].entries.value)) else 0) }

  /** Every provider is readable and the three aggregate limits hold. */
  ghost predicate Loadable(ps: seq<Provider>) {
    && (forall i :: 0 <= i < |ps| ==> Readable(ps[i]))
    && Sum(Assets(ps)) <= MAX_AGGREGATE && Sum(Counts(ps)) <= MAX_RULES && Sum(Sizes(ps)) <= MAX_AGGREGATE
  }

  function Templates(ps: seq<Provider>, n: nat): map<string, Template>
    requires n <= |ps| && forall i :: 0 <= i < n ==> Readable(ps[i])
  {
    if n == 0 then map[] else Templates(ps, n - 1)[ps[n - 1].name := TemplateOf(ps[n - 1])]
  }

  /** Parses one provider's entries, charging each against the aggregate of normalized bytes. */
  method Parse(entries: seq<Entry>, start: nat) returns (r: Option<Template>)
    requires start <= MAX_AGGREGATE
    ensures r.Some? <==> Parsed(entries) && start + Sum(EntrySizes(entries)) <= MAX_AGGREGATE
    ensures r.Some? ==> Parsed(entries) && r.value == Template(RulesOf(entries), Sum(EntrySizes(entries)))
  {
    ghost var sizes := EntrySizes(entries);
    var total, bytes, rules := start, 0, [];
    SumAll(sizes);
    var n := 0;
    while n < |entries|
      invariant n <= |entries| && bytes == Sum(sizes[..n]) && total == start + bytes <= MAX_AGGREGATE
      invariant |rules| == n && forall i :: 0 <= i < n ==> entries[i].rule == Some(rules[i])
    {
      SumStep(sizes, n);
      var next := AddBudget(total, entries[n].bytes, MAX_AGGREGATE);
      if next.None? || entries[n].rule.None? {
        return None;
      }
      total, bytes, rules := next.value, bytes + entries[n].bytes, rules + [entries[n].rule.value];
      n := n + 1;
    }
    assert rules == RulesOf(entries);
    return Some(Template(rules, bytes));
  }

  /** Reads every provider in name order under the aggregate limits. */
  method Load(ps: seq<Provider>) returns (r: Option<map<string, Template>>)
    ensures r.Some? <==> Loadable(ps)
    ensures r.Some? ==> r.value == Templates(ps, |ps|)
  {
    hide Sum, Parsed, RulesOf, EntrySizes;
    ghost var assets, counts, sizes := Assets(ps), Counts(ps), Sizes(ps);
    SumAll(assets);
    SumAll(counts);
    SumAll(sizes);
    var raw, count, bytes, templates := 0, 0, 0, map[];
    var n := 0;
    while n < |ps|
      invariant n <= |ps| && (forall i :: 0 <= i < n ==> Readable(ps[i])) && templates == Templates(ps, n)
      invariant raw == Sum(assets[..n]) <= MAX_AGGREGATE && count == Sum(counts[..n]) <= MAX_RULES
      invariant bytes == Sum(sizes[..n]) <= MAX_AGGREGATE
    {
      var p := ps[n];
      SumStep(assets, n);
      SumStep(counts, n);
      SumStep(sizes, n);
      if p.asset.None? || p.entries.None? {
        assert !Readable(ps[n]);
        return None;
      }
      var nextRaw := AddBudget(raw, p.asset.value, MAX_AGGREGATE);
      var nextCount := AddBudget(count, |p.entries.value|, MAX_RULES);
      if nextRaw.None? || nextCount.None? {
        return None;
      }
      var t := Parse(p.entries.value, bytes);
      if t.None? {
        assert Readable(ps[n]) ==> bytes + sizes[n] > MAX_AGGREGATE;
        return None;
      }
      raw, count, bytes := nextRaw.value, nextCount.value, bytes + t.value.bytes;
      templates := templates[p.name := t.value];
      n := n + 1;
    }
    return Some(templates);
  }

  /** What a declaration must be; `web` says what is an HTTP URL with a host. */
  predicate DeclarationOk(d: Declaration, web: string -> bool) {
    && ValidName(d.name) && d.kind in ["file", "http"] && d.behavior in ["classical", "domain", "ipcidr"]
    && d.path != [] && '\0' !in d.path && d.interval != 0
    && (d.kind == "http" ==> d.url.Some?) && (d.url.Some? ==> web(d.url.value))
  }

  predicate DeclarationsOk(ds: seq<Declaration>, web: string -> bool) {
    |ds| <= MAX_PROVIDERS && forall i :: 0 <= i < |ds| ==> DeclarationOk(ds[i], web)
  }

  function AssetSizes(assets: seq<Asset>): seq<nat> { seq(|assets|, i requires 0 <= i < |assets| => assets[i].size) }

  ghost predicate AssetsOk(assets: seq<Asset>) {
    && |assets| <= MAX_PROVIDERS && (forall i :: 0 <= i < |assets| ==> assets[i].size <= MAX_SOURCE)
    && Sum(AssetSizes(assets)) <= MAX_AGGREGATE
  }

  method CheckAssets(assets: seq<Asset>) returns (ok: bool)
    ensures ok <==> AssetsOk(assets)
  {
    if |assets| > MAX_PROVIDERS {
      return false;
    }
    ghost var sizes := AssetSizes(assets);
    SumAll(sizes);
    var total := 0;
    for n := 0 to |assets|
      invariant total == Sum(sizes[..n]) <= MAX_AGGREGATE && forall i :: 0 <= i < n ==> assets[i].size <= MAX_SOURCE
    {
      SumStep(sizes, n);
      var next := AddBudget(total, assets[n].size, MAX_AGGREGATE);
      if assets[n].size > MAX_SOURCE || next.None? {
        return false;
      }
      total := next.value;
    }
    return true;
  }

  function AssetAt(assets: seq<Asset>, path: string): Option<Asset> {
    if assets == [] then None else if assets[0].path == path then Some(assets[0]) else AssetAt(assets[1..], path)
  }

  function Sourced(d: Declaration, assets: seq<Asset>): Provider {
    var asset := AssetAt(assets, d.path);
    if asset.None? then Provider(d.name, None, None) else Provider(d.name, Some(asset.value.size), asset.value.read(d.behavior))
  }

  function SourcedAll(ds: seq<Declaration>, assets: seq<Asset>): seq<Provider>
  { seq(|ds|, i requires 0 <= i < |ds| => Sourced(ds[i], assets)) }

  // ---------------------------------------------------------------- planning

  function ItemOf(d: Declared, templates: map<string, Template>, names: map<string, nat>): Option<Item> {
    match d
    case Plain(rule, _) => Some(One(rule))
    case RuleSet(provider, target, quiet) =>
      if provider in templates && target in names then Some(Set(templates[provider].rules, names[target], quiet)) else None
    case Malformed => None
  }

  ghost predicate Known(ds: seq<Declared>, templates: map<string, Template>, names: map<string, nat>) {
    forall i :: 0 <= i < |ds| ==> ItemOf(ds[i], templates, names).Some?
  }

  function ItemsOf(ds: seq<Declared>, templates: map<string, Template>, names: map<string, nat>): seq<Item>
    requires Known(ds, templates, names)
  {
    seq(|ds|, i requires 0 <= i < |ds| => ItemOf(ds[i], templates, names).value)
  }

  function Size(item: Item): nat { if item.One? then 1 else |item.rules| }

  function ItemSizes(items: seq<Item>): seq<nat> { seq(|items|, i requires 0 <= i < |items| => Size(items[i])) }

  /** The payload and target bytes an item reserves: one target per rule plus the provider's entries. */
  function Cost(d: Declared, templates: map<string, Template>): nat {
    match d
    case Plain(rule, target) => Utf8Length(rule.payload) + Utf8Length(target)
    case RuleSet(provider, target, _) =>
      if provider in templates then Utf8Length(target) * |templates[provider].rules| + templates[provider].bytes else 0
    case Malformed => 0
  }

  function Costs(ds: seq<Declared>, templates: map<string, Template>): seq<nat>
  { seq(|ds|, i requires 0 <= i < |ds| => Cost(ds[i], templates)) }

  predicate IsFinal(item: Item) { item.One? && item.rule.matcher.Match? }

  predicate HasFinal(items: seq<Item>) { exists i :: 0 <= i < |items| && IsFinal(items[i]) }

  const REJECT := "REJECT"

  function Fallback(names: map<string, nat>): Rule
    requires REJECT in names
  {
    Rule(Match, names[REJECT], [])
  }

  /** The items to expand: with providers and no final rule of its own, a list ends in MATCH,REJECT. */
  function Planned(items: seq<Item>, providers: bool, names: map<string, nat>): seq<Item>
    requires REJECT in names
  {
    if providers && !HasFinal(items) then items + [One(Fallback(names))] else items
  }

  function Adapt(rule: Rule, proxy: nat, quiet: bool): Rule {
    var matcher := if quiet && rule.matcher.OnAddress() then rule.matcher.(noResolve := true) else rule.matcher;
    rule.(proxy := proxy, matcher := matcher)
  }

  function Adapted(rules: seq<Rule>, proxy: nat, quiet: bool): seq<Rule>
  { seq(|rules|, i requires 0 <= i < |rules| => Adapt(rules[i], proxy, quiet)) }

  function Flat(item: Item): seq<Rule> { if item.One? then [item.rule] else Adapted(item.rules, item.proxy, item.quiet) }

  function Flatten(items: seq<Item>): seq<Rule> {
    if items == [] then [] else Flatten(items[..|items| - 1]) + Flat(items[|items| - 1])
  }

  lemma {:induction false} FlattenSize(items: seq<Item>)
    ensures |Flatten(items)| == Sum(ItemSizes(items))
  {
    if items != [] {
      var front := items[..|items| - 1];
      FlattenSize(front);
      assert ItemSizes(items)[..|items| - 1] == ItemSizes(front);
    }
  }

  /** Exactly one MATCH, and it is the last rule. */
  ghost predicate OneFinal(rules: seq<Rule>) {
    rules != [] && forall i :: 0 <= i < |rules| ==> (rules[i].matcher.Match? <==> i == |rules| - 1)
  }

  // ---------------------------------------------------------------- meaning

  /** An unexpanded item on its own: a rule set tests its provider's entries in order, sends what matches
      to the set's target, and asks DNS only if the set does not say no-resolve. */
  function EvaluateItem(w: World, item: Item, base: nat, walk: Walk): Scan {
    if item.One? then Evaluate(w, [item.rule], None, false, base, walk)
    else Evaluate(w, item.rules, Some(item.proxy), item.quiet, base, walk)
  }

  /** The reference interpreter over unexpanded items. */
  function Interpret(w: World, items: seq<Item>, base: nat, walk: Walk): Scan {
    if items == [] then More(walk)
    else
      var s := EvaluateItem(w, items[0], base, walk);
      if s.Done? then s else Interpret(w, items[1..], base + Size(items[0]), s.walk)
  }

  lemma {:induction false} AdaptedMeaning(w: World, rules: seq<Rule>, proxy: nat, quiet: bool, base: nat, walk: Walk)
    ensures Evaluate(w, Adapted(rules, proxy, quiet), None, false, base, walk) == Evaluate(w, rules, Some(proxy), quiet, base, walk)
    decreases |rules|
  {
    if rules != [] {
      var adapted := Adapted(rules, proxy, quiet);
      assert adapted[1..] == Adapted(rules[1..], proxy, quiet) && adapted[0] == Adapt(rules[0], proxy, quiet);
      AdaptedMeaning(w, rules[1..], proxy, quiet, base + 1, w.After(rules[0].matcher, proxy, quiet, walk));
      AdaptedStep(w, rules[0], proxy, quiet, base, walk);
      hide World.After, World.Hits, World.Win, World.Asks, Adapt;
    }
  }

  /** Rewriting a rule for its set has the effect of evaluating it under the set's options. */
  lemma AdaptedStep(w: World, rule: Rule, proxy: nat, quiet: bool, base: nat, walk: Walk)
    ensures var m, a := rule.matcher, Adapt(rule, proxy, quiet);
            && a.proxy == proxy
            && w.After(a.matcher, proxy, false, walk) == w.After(m, proxy, quiet, walk)
            && w.Hits(a.matcher, false) == w.Hits(m, quiet) && w.Asks(a.matcher, false) == w.Asks(m, quiet)
            && (forall next :: w.Win(a.matcher, proxy, false, base, next) == w.Win(m, proxy, quiet, base, next))
  {
  }

  lemma FlatMeaning(w: World, item: Item, base: nat, walk: Walk)
    ensures Evaluate(w, Flat(item), None, false, base, walk) == EvaluateItem(w, item, base, walk)
  {
    if item.Set? {
      AdaptedMeaning(w, item.rules, item.proxy, item.quiet, base, walk);
    }
  }

  lemma {:induction false} FlattenHead(items: seq<Item>)
    requires items != []
    ensures Flatten(items) == Flat(items[0]) + Flatten(items[1..])
    decreases |items|
  {
    hide Flat;
    var front, last := items[..|items| - 1], items[|items| - 1];
    if |items| > 1 {
      FlattenHead(front);
      assert front[1..] == items[1..][..|items| - 2];
      Assoc(Flat(items[0]), Flatten(front[1..]), Flat(last));
    } else {
      assert front == [] && items[1..] == [];
    }
  }

  lemma {:induction false} InterpretFlat(w: World, items: seq<Item>, base: nat, walk: Walk)
    ensures Interpret(w, items, base, walk) == Evaluate(w, Flatten(items), None, false, base, walk)
    decreases |items|
  {
    hide Evaluate, EvaluateItem, Flat;
    if items == [] {
      NothingLeft(w, base, walk);
    } else {
      FlattenHead(items);
      FlatMeaning(w, items[0], base, walk);
      FlatSize(items[0]);
      var s := Evaluate(w, Flat(items[0]), None, false, base, walk);
      EvaluateConcat(w, Flat(items[0]), Flatten(items[1..]), base, walk);
      if s.More? {
        InterpretFlat(w, items[1..], base + Size(items[0]), s.walk);
      }
    }
  }

  lemma NothingLeft(w: World, base: nat, walk: Walk)
    ensures Evaluate(w, [], None, false, base, walk) == More(walk)
  {
  }

  lemma FlatSize(item: Item)
    ensures |Flat(item)| == Size(item)
  {
  }

  /** Expansion preserves meaning: routing over the flat list gives the rule index, leaf, destination, failure
      and lookup behaviour of the unexpanded declaration, for every destination and every DNS answer. */
  lemma ExpansionPreserves(w: World, items: seq<Item>, tcp: bool)
    ensures Decide(w, Flatten(items), tcp) == Closed(Interpret(w, items, 0, Walk(tcp, false)))
  {
    InterpretFlat(w, items, 0, Walk(tcp, false));
  }

  // ---------------------------------------------------------------- the declaration's own meaning

  /** The rules a provider name stands for. */
  function RulesNamed(ps: seq<Provider>, name: string): Option<seq<Rule>> {
    if ps == [] then None
    else
      var last := ps[|ps| - 1];
      if last.name == name then (if Readable(last) then Some(RulesOf(last.entries.value)) else None)
      else RulesNamed(ps[..|ps| - 1], name)
  }

  /** A declaration on its own: the rule it is, or its provider's rules under its target and option. */
  function EvaluateDeclared(w: World, d: Declared, ps: seq<Provider>, names: map<string, nat>, base: nat, walk: Walk): Scan {
    match d
    case Plain(rule, _) => Evaluate(w, [rule], None, false, base, walk)
    case RuleSet(provider, target, quiet) =>
      var rules := RulesNamed(ps, provider);
      if rules.None? || target !in names then More(walk) else Evaluate(w, rules.value, Some(names[target]), quiet, base, walk)
    case Malformed => More(walk)
  }

  function Span(d: Declared, ps: seq<Provider>): nat {
    if d.RuleSet? && RulesNamed(ps, d.provider).Some? then |RulesNamed(ps, d.provider).value| else 1
  }

  /** The reference interpreter over declarations and providers. */
  function InterpretDeclared(w: World, ds: seq<Declared>, ps: seq<Provider>, names: map<string, nat>, base: nat, walk: Walk): Scan
    decreases |ds|
  {
    if ds == [] then More(walk)
    else
      var s := EvaluateDeclared(w, ds[0], ps, names, base, walk);
      if s.Done? then s else InterpretDeclared(w, ds[1..], ps, names, base + Span(ds[0], ps), s.walk)
  }

  predicate FinalDeclared(ds: seq<Declared>) { exists i :: 0 <= i < |ds| && ds[i].Plain? && ds[i].rule.matcher.Match? }

  /** With providers and no final rule of its own, a declaration ends in MATCH,REJECT. */
  function Completed(ds: seq<Declared>, providers: bool, names: map<string, nat>): seq<Declared>
    requires REJECT in names
  {
    if providers && !FinalDeclared(ds) then ds + [Plain(Fallback(names), REJECT)] else ds
  }

  /** What a configuration's rules decide, provider references taken for what they refer to. */
  function Means(w: World, ds: seq<Declared>, ps: seq<Provider>, names: map<string, nat>, tcp: bool): Scan
    requires REJECT in names
  {
    Closed(InterpretDeclared(w, Completed(ds, ps != [], names), ps, names, 0, Walk(tcp, false)))
  }

  lemma {:induction false} TemplatesNamed(ps: seq<Provider>, n: nat, name: string)
    requires n <= |ps| && forall i :: 0 <= i < n ==> Readable(ps[i])
    ensures var rules := RulesNamed(ps[..n], name);
            && (rules.Some? <==> name in Templates(ps, n))
            && (rules.Some? ==> rules.value == Templates(ps, n)[name].rules)
    decreases n
  {
    hide Parsed, RulesOf;
    if n > 0 {
      TemplatesNamed(ps, n - 1, name);
      assert ps[..n][..n - 1] == ps[..n - 1];
    }
  }

  lemma DeclaredItem(w: World, d: Declared, ps: seq<Provider>, names: map<string, nat>, base: nat, walk: Walk)
    requires (forall i :: 0 <= i < |ps| ==> Readable(ps[i])) && ItemOf(d, Templates(ps, |ps|), names).Some?
    ensures var item := ItemOf(d, Templates(ps, |ps|), names).value;
            EvaluateDeclared(w, d, ps, names, base, walk) == EvaluateItem(w, item, base, walk) && Span(d, ps) == Size(item)
  {
    hide Readable, RulesNamed, Templates, Evaluate;
    if d.RuleSet? {
      TemplatesNamed(ps, |ps|, d.provider);
      assert ps[..|ps|] == ps;
    }
  }

  lemma {:induction false} DeclaredItems(w: World, ds: seq<Declared>, ps: seq<Provider>, names: map<string, nat>, base: nat, walk: Walk)
    requires (forall i :: 0 <= i < |ps| ==> Readable(ps[i])) && Known(ds, Templates(ps, |ps|), names)
    ensures InterpretDeclared(w, ds, ps, names, base, walk) == Interpret(w, ItemsOf(ds, Templates(ps, |ps|), names), base, walk)
    decreases |ds|
  {
    hide Readable, Templates, ItemOf, EvaluateDeclared, EvaluateItem, Span, Size;
    if ds != [] {
      var templates := Templates(ps, |ps|);
      var items := ItemsOf(ds, templates, names);
      assert ItemOf(ds[0], templates, names).Some? && items[0] == ItemOf(ds[0], templates, names).value;
      assert items[1..] == ItemsOf(ds[1..], templates, names);
      DeclaredItem(w, ds[0], ps, names, base, walk);
      var s := EvaluateDeclared(w, ds[0], ps, names, base, walk);
      if s.More? {
        DeclaredItems(w, ds[1..], ps, names, base + Span(ds[0], ps), s.walk);
      }
    }
  }

  /** Planning and completing agree. */
  lemma CompletedItems(ds: seq<Declared>, templates: map<string, Template>, names: map<string, nat>, providers: bool)
    requires REJECT in names && Known(ds, templates, names)
    ensures Known(Completed(ds, providers, names), templates, names)
    ensures ItemsOf(Completed(ds, providers, names), templates, names) == Planned(ItemsOf(ds, templates, names), providers, names)
  {
    hide Fallback;
    var items := ItemsOf(ds, templates, names);
    forall i | 0 <= i < |ds|
      ensures items[i] == ItemOf(ds[i], templates, names).value
      ensures IsFinal(items[i]) <==> ds[i].Plain? && ds[i].rule.matcher.Match?
    {
      assert ItemOf(ds[i], templates, names).Some?;
    }
    assert HasFinal(items) <==> FinalDeclared(ds);
  }

  /** Expansion preserves meaning, from the declarations and providers to the flat list. */
  lemma DeclarationPreserved(w: World, ds: seq<Declared>, ps: seq<Provider>, names: map<string, nat>, tcp: bool)
    requires REJECT in names && (forall i :: 0 <= i < |ps| ==> Readable(ps[i])) && Known(ds, Templates(ps, |ps|), names)
    ensures Decide(w, Flatten(Planned(ItemsOf(ds, Templates(ps, |ps|), names), ps != [], names)), tcp) == Means(w, ds, ps, names, tcp)
  {
    hide Readable, Templates, Known, ItemsOf, Planned, Completed, Flatten, Interpret, InterpretDeclared, Evaluate;
    var templates, whole := Templates(ps, |ps|), Completed(ds, ps != [], names);
    CompletedItems(ds, templates, names, ps != []);
    DeclaredItems(w, whole, ps, names, 0, Walk(tcp, false));
    ExpansionPreserves(w, ItemsOf(whole, templates, names), tcp);
  }

  /** With one final MATCH no destination is denied for lack of a rule. */
  lemma FinalDecides(w: World, rules: seq<Rule>, tcp: bool)
    requires OneFinal(rules)
    ensures !Decide(w, rules, tcp).outcome.Denied?
  {
    RouteMeaning(w, rules, tcp);
    var last := rules[|rules| - 1];
    assert last.matcher.Match?;
    assert w.Stops(last.matcher, false);
  }

  // ---------------------------------------------------------------- the compiler

  datatype Reserved = Reserved(items: seq<Item>, count: nat, bytes: nat)

  /** Resolves every declaration and reserves its count and bytes before anything is expanded. */
  method Reserve(ds: seq<Declared>, templates: map<string, Template>, names: map<string, nat>) returns (r: Option<Reserved>)
    ensures r.Some? <==>
              && Known(ds, templates, names)
              && Sum(ItemSizes(ItemsOf(ds, templates, names))) <= MAX_RULES && Sum(Costs(ds, templates)) <= MAX_AGGREGATE
    ensures r.Some? ==>
              r.value == Reserved(ItemsOf(ds, templates, names), Sum(ItemSizes(ItemsOf(ds, templates, names))), Sum(Costs(ds, templates)))
  {
    hide Sum, Utf8Length;
    ghost var sizes := seq(|ds|, i requires 0 <= i < |ds| => SizeOf(ds[i], templates, names));
    ghost var costs := Costs(ds, templates);
    assert Known(ds, templates, names) ==> sizes == ItemSizes(ItemsOf(ds, templates, names));
    SumAll(sizes);
    SumAll(costs);
    var items, count, bytes := [], 0, 0;
    var n := 0;
    while n < |ds|
      invariant n <= |ds| == |sizes| && |items| == n
      invariant forall i :: 0 <= i < n ==> ItemOf(ds[i], templates, names) == Some(items[i])
      invariant count == Sum(sizes[..n]) <= MAX_RULES && bytes == Sum(costs[..n]) <= MAX_AGGREGATE
    {
      SumStep(sizes, n);
      SumStep(costs, n);
      var item := ItemOf(ds[n], templates, names);
      if item.None? {
        return None;
      }
      var nextCount := AddBudget(count, Size(item.value), MAX_RULES);
      var nextBytes := Charge(ds[n], templates, bytes);
      if nextCount.None? || nextBytes.None? {
        return None;
      }
      items, count, bytes := items + [item.value], nextCount.value, nextBytes.value;
      n := n + 1;
    }
    assert items == ItemsOf(ds, templates, names);
    return Some(Reserved(items, count, bytes));
  }

  function SizeOf(d: Declared, templates: map<string, Template>, names: map<string, nat>): nat {
    var item := ItemOf(d, templates, names);
    if item.Some? then Size(item.value) else 0
  }

  /** A rule set is charged in two steps, its targets and then its entries. */
  function Charge(d: Declared, templates: map<string, Template>, bytes: nat): (r: Option<nat>)
    requires d.Plain? || (d.RuleSet? && d.provider in templates)
    ensures r.Some? <==> bytes + Cost(d, templates) <= MAX_AGGREGATE
    ensures r.Some? ==> r.value == bytes + Cost(d, templates)
  {
    match d
    case Plain(rule, target) => AddBudget(bytes, Utf8Length(rule.payload) + Utf8Length(target), MAX_AGGREGATE)
    case RuleSet(provider, target, _) =>
      var targets :- AddBudget(bytes, Utf8Length(target) * |templates[provider].rules|, MAX_AGGREGATE);
      AddBudget(targets, templates[provider].bytes, MAX_AGGREGATE)
  }

  method FlattenAll(items: seq<Item>) returns (rules: seq<Rule>)
    ensures rules == Flatten(items)
  {
    rules := [];
    var n := 0;
    assert items[..0] == [];
    while n < |items|
      invariant n <= |items| && rules == Flatten(items[..n])
    {
      assert items[..n + 1][..n] == items[..n];
      match items[n] {
        case One(rule) =>
          rules := rules + [rule];
        case Set(own, proxy, quiet) =>
          var k := 0;
          while k < |own|
            invariant k <= |own| && rules == Flatten(items[..n]) + Adapted(own, proxy, quiet)[..k]
          {
            assert Adapted(own, proxy, quiet)[..k + 1] == Adapted(own, proxy, quiet)[..k] + [Adapt(own[k], proxy, quiet)];
            rules := rules + [Adapt(own[k], proxy, quiet)];
            k := k + 1;
          }
          assert Adapted(own, proxy, quiet)[..k] == Adapted(own, proxy, quiet);
      }
      n := n + 1;
    }
    assert items[..n] == items;
  }

  method CheckFinal(rules: seq<Rule>) returns (ok: bool)
    ensures ok <==> OneFinal(rules)
  {
    var finals: seq<nat> := [];
    var n := 0;
    while n < |rules|
      invariant n <= |rules|
      invariant forall k :: 0 <= k < |finals| ==> finals[k] < n && rules[finals[k]].matcher.Match?
      invariant forall i :: 0 <= i < n && rules[i].matcher.Match? ==> i in finals
      invariant forall j, k :: 0 <= j < k < |finals| ==> finals[j] < finals[k]
    {
      if rules[n].matcher.Match? {
        finals := finals + [n];
      }
      n := n + 1;
    }
    ok := rules != [] && finals == [|rules| - 1];
    assert |finals| > 1 ==> finals[0] < finals[1];
    if OneFinal(rules) {
      assert |rules| - 1 in finals && forall k :: 0 <= k < |finals| ==> finals[k] == |rules| - 1;
    }
  }

  /** What `Compile` demands of declarations and sourced providers. */
  ghost predicate Expandable(ds: seq<Declared>, ps: seq<Provider>, names: map<string, nat>)
    requires REJECT in names
  {
    && Loadable(ps)
    && var templates := Templates(ps, |ps|);
    && Known(ds, templates, names)
    && var items := ItemsOf(ds, templates, names);
    && var planned := Planned(items, ps != [], names);
    && |Flatten(planned)| <= MAX_RULES
    && Sum(Costs(ds, templates)) + (if |planned| > |items| then |REJECT| else 0) <= MAX_AGGREGATE
    && (ps != [] ==> OneFinal(Flatten(planned)))
  }

  /** Compiles the declarations: succeeds exactly when they are expandable, and then yields the flattening
      of the planned items. */
  method Compile(ds: seq<Declared>, ps: seq<Provider>, names: map<string, nat>) returns (r: Option<seq<Rule>>)
    requires REJECT in names
    ensures r.Some? <==> Expandable(ds, ps, names)
    ensures r.Some? ==>
              && r.value == Flatten(Planned(ItemsOf(ds, Templates(ps, |ps|), names), ps != [], names))
              && |r.value| <= MAX_RULES && (ps != [] ==> OneFinal(r.value))
  {
    hide Sum, Loadable, Templates, Known, Costs, OneFinal, Flatten, Fallback;
    var templates := Load(ps);
    if templates.None? {
      return None;
    }
    var reserved := Reserve(ds, templates.value, names);
    ghost var bare := if Known(ds, templates.value, names) then ItemsOf(ds, templates.value, names) else [];
    FlattenSize(bare);
    PlannedSize(bare, ps != [], names);
    if reserved.None? {
      return None;
    }
    var items, count, bytes := reserved.value.items, reserved.value.count, reserved.value.bytes;
    if ps != [] && !HasFinal(items) {
      var nextCount := AddBudget(count, 1, MAX_RULES);
      var nextBytes := AddBudget(bytes, |REJECT|, MAX_AGGREGATE);
      if nextCount.None? || nextBytes.None? {
        return None;
      }
      items := items + [One(Fallback(names))];
    }
    var rules := FlattenAll(items);
    if ps != [] {
      var ok := CheckFinal(rules);
      if !ok {
        return None;
      }
    }
    return Some(rules);
  }

  /** The whole compilation: succeeds exactly when declarations, captured files, references and budgets are in order,
      and then routes every destination as the declarations mean. */
  method Expand(ds: seq<Declared>, providers: seq<Declaration>, assets: seq<Asset>, web: string -> bool, names: map<string, nat>)
    returns (r: Option<seq<Rule>>)
    requires REJECT in names
    ensures r.Some? <==> DeclarationsOk(providers, web) && AssetsOk(assets) && Expandable(ds, SourcedAll(providers, assets), names)
    ensures r.Some? ==> |r.value| <= MAX_RULES && (providers != [] ==> OneFinal(r.value))
    ensures r.Some? ==> forall w, tcp :: Decide(w, r.value, tcp) == Means(w, ds, SourcedAll(providers, assets), names, tcp)
  {
    hide DeclarationOk, AssetsOk, Templates, Known, OneFinal, Flatten, Planned, ItemsOf, Means, Decide, Sum, Costs, Readable;
    if |providers| > MAX_PROVIDERS {
      return None;
    }
    for n := 0 to |providers|
      invariant forall i :: 0 <= i < n ==> DeclarationOk(providers[i], web)
    {
      if !DeclarationOk(providers[n], web) {
        return None;
      }
    }
    var ok := CheckAssets(assets);
    if !ok {
      return None;
    }
    var ps := SourcedAll(providers, assets);
    r := Compile(ds, ps, names);
    if r.Some? {
      forall w, tcp | true
        ensures Decide(w, r.value, tcp) == Means(w, ds, ps, names, tcp)
      {
        DeclarationPreserved(w, ds, ps, names, tcp);
      }
    }
  }

  lemma PlannedSize(items: seq<Item>, providers: bool, names: map<string, nat>)
    requires REJECT in names
    ensures var planned := Planned(items, providers, names);
            && |Flatten(planned)| == |Flatten(items)| + |planned| - |items|
            && |planned| == |items| + if providers && !HasFinal(items) then 1 else 0
  {
    if providers && !HasFinal(items) {
      assert (items + [One(Fallback(names))])[..|items|] == items;
    }
  }

  /** With providers and no plain MATCH of its own, whatever no rule takes is rejected. */
  lemma FailsClosed(items: seq<Item>, names: map<string, nat>, w: World, tcp: bool)
    requires REJECT in names && !HasFinal(items) && OneFinal(Flatten(Planned(items, true, names)))
    requires Decide(w, Flatten(items), tcp).outcome.Denied?
    ensures var o := Decide(w, Flatten(Planned(items, true, names)), tcp).outcome;
            o.Routed? && o.rule == |Flatten(items)| && o.leaf == w.plan.Leaf(w.selections, names[REJECT])
  {
    var rules, last := Flatten(items), Fallback(names);
    var planned := Planned(items, true, names);
    assert planned[..|items|] == items;
    assert Flatten(planned) == rules + [last];
    RouteMeaning(w, rules, tcp);
    WalkMeaning(w, rules, tcp, |rules|);
    assert rules[..|rules|] == rules && w.Hits(last.matcher, false);
    EvaluateConcat(w, rules, [last], 0, Walk(tcp, false));
  }
}
