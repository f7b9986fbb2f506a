/** The text of a padding scheme: every valid scheme has a text that parses back to it. */
module SchemeText {
  import opened Base
  import opened Padding

  // ---------------------------------------------------------------- rendering

  function StepText(step: Step): seq<byte> {
    match step
    case Check => CHECK
    case Size(min, max) => Decimal(min) + ([DASH] + Decimal(max))
  }

  function StepTexts(steps: seq<Step>): seq<seq<byte>> { seq(|steps|, i requires 0 <= i < |steps| => StepText(steps[i])) }

  function JoinWith(parts: seq<seq<byte>>, sep: byte): seq<byte>
    requires parts != []
  {
    if |parts| == 1 then parts[0] else parts[0] + ([sep] + JoinWith(parts[1..], sep))
  }

  function GroupField(group: nat, steps: seq<Step>): Field
    requires steps != []
  {
    Field(Decimal(group), JoinWith(StepTexts(steps), COMMA))
  }

  /** No group is declared empty. */
  predicate Filled(groups: map<nat, seq<Step>>) { forall g :: g in groups ==> groups[g] != [] }

  /** The fields of the groups from `g` up to `stop`, in order. */
  function GroupFields(groups: map<nat, seq<Step>>, g: nat, stop: nat): seq<Field>
    requires Filled(groups)
    decreases stop - g
  {
    if g >= stop then []
    else (if g in groups then [GroupField(g, groups[g])] else []) + GroupFields(groups, g + 1, stop)
  }

  function SchemeFields(p: Scheme): seq<Field>
    requires Filled(p.groups)
  {
    [Field(STOP, Decimal(p.stop))] + GroupFields(p.groups, 0, p.stop)
  }

  function LineOf(f: Field): seq<byte> { f.key + ([EQUALS] + f.value) }

  function LinesOf(fs: seq<Field>): seq<seq<byte>> { seq(|fs|, i requires 0 <= i < |fs| => LineOf(fs[i])) }

  function Render(p: Scheme): seq<byte>
    requires Filled(p.groups)
  {
    JoinWith(LinesOf(SchemeFields(p)), NEWLINE)
  }

  // ---------------------------------------------------------------- splitting

  lemma {:induction false} FindAfter(a: seq<byte>, sep: byte, b: seq<byte>)
    requires sep !in a
    ensures Find(a + ([sep] + b), sep) == |a|
    decreases |a|
  {
    if a != [] {
      FindAfter(a[1..], sep, b);
      assert (a + ([sep] + b))[1..] == a[1..] + ([sep] + b);
    }
  }

  lemma {:induction false} FindNone(a: seq<byte>, sep: byte)
    requires sep !in a
    ensures Find(a, sep) == |a|
  {
    if a != [] {
      FindNone(a[1..], sep);
    }
  }

  lemma {:induction false} SplitJoin(parts: seq<seq<byte>>, sep: byte)
    requires parts != [] && forall i :: 0 <= i < |parts| ==> sep !in parts[i]
    ensures Split(JoinWith(parts, sep), sep) == parts
    decreases |parts|
  {
    hide Find;
    var first := parts[0];
    if |parts| == 1 {
      FindNone(first, sep);
    } else {
      var rest := JoinWith(parts[1..], sep);
      FindAfter(first, sep, rest);
      SplitJoin(parts[1..], sep);
      var all := first + ([sep] + rest);
      assert all[..|first|] == first && all[|first| + 1..] == rest;
    }
  }

  // ---------------------------------------------------------------- numbers

  predicate Digital(s: seq<byte>) { forall i :: 0 <= i < |s| ==> IsDigit(s[i]) }

  lemma {:induction false} DecimalValue(n: nat)
    ensures Digital(Decimal(n)) && Decimal(n) != [] && Value(Decimal(n)) == n
  {
    if n < 10 {
      assert Decimal(n)[..0] == [];
    } else {
      DecimalValue(n / 10);
      assert Decimal(n)[..|Decimal(n)| - 1] == Decimal(n / 10);
    }
  }

  lemma DecimalNumber(n: nat)
    requires n <= USIZE_MAX
    ensures Number(Decimal(n)) == Some(n)
  {
    DecimalValue(n);
  }

  // ---------------------------------------------------------------- which bytes occur

  /** Bytes that separate nothing: digits, the dash and the check mark. */
  predicate Body(s: seq<byte>) { forall i :: 0 <= i < |s| ==> IsDigit(s[i]) || s[i] == DASH || s[i] == 99 }

  /** A text line: printable and within ASCII. */
  predicate Printable(s: seq<byte>) { forall i :: 0 <= i < |s| ==> 0x20 <= s[i] < 0x7F }

  lemma StepBody(step: Step)
    ensures Body(StepText(step)) && StepText(step) != []
  {
    if step.Size? {
      DecimalValue(step.min);
      DecimalValue(step.max);
    }
  }

  lemma {:induction false} JoinPrintable(parts: seq<seq<byte>>, sep: byte)
    requires parts != [] && (forall i :: 0 <= i < |parts| ==> Printable(parts[i])) && 0x20 <= sep < 0x7F
    ensures Printable(JoinWith(parts, sep))
    decreases |parts|
  {
    if |parts| > 1 {
      JoinPrintable(parts[1..], sep);
    }
  }

  lemma JoinNonEmpty(parts: seq<seq<byte>>, sep: byte)
    requires parts != [] && parts[0] != []
    ensures JoinWith(parts, sep) != []
  {
  }

  lemma {:induction false} AsciiUtf8(s: seq<byte>)
    requires forall i :: 0 <= i < |s| ==> s[i] < 0x80
    ensures Utf8(s)
  {
    if s != [] {
      AsciiUtf8(s[1..]);
    }
  }

  lemma {:induction false} JoinAscii(parts: seq<seq<byte>>, sep: byte)
    requires parts != [] && (forall i :: 0 <= i < |parts| ==> Printable(parts[i])) && sep < 0x80
    ensures forall i :: 0 <= i < |JoinWith(parts, sep)| ==> JoinWith(parts, sep)[i] < 0x80
    decreases |parts|
  {
    if |parts| > 1 {
      JoinAscii(parts[1..], sep);
    }
  }

  /** A field whose line can be read back. */
  predicate FieldOk(f: Field) {
    f.key != [] && f.value != [] && EQUALS !in f.key && Printable(f.key) && Printable(f.value)
  }

  lemma GroupFieldOk(group: nat, steps: seq<Step>)
    requires steps != []
    ensures FieldOk(GroupField(group, steps)) && Digital(GroupField(group, steps).key)
    ensures Split(GroupField(group, steps).value, COMMA) == StepTexts(steps)
  {
    hide Decimal;
    var parts := StepTexts(steps);
    DecimalValue(group);
    forall i | 0 <= i < |parts|
      ensures Printable(parts[i]) && COMMA !in parts[i] && parts[i] != []
    {
      StepBody(steps[i]);
    }
    JoinPrintable(parts, COMMA);
    JoinNonEmpty(parts, COMMA);
    SplitJoin(parts, COMMA);
  }

  // ---------------------------------------------------------------- fields

  /** Keys differ from each other and from those already read. */
  ghost predicate Fresh(fs: seq<Field>, done: seq<Field>) {
    && (forall i :: 0 <= i < |fs| ==> !HasKey(done, fs[i].key))
    && (forall i, j :: 0 <= i < j < |fs| ==> fs[i].key != fs[j].key)
  }

  lemma LineRead(f: Field)
    requires FieldOk(f)
    ensures var line, i := LineOf(f), Find(LineOf(f), EQUALS);
            && i == |f.key| && 0 < i < |line| - 1 && !HasControl(line) && Field(line[..i], line[i + 1..]) == f
  {
    hide Find;
    FindAfter(f.key, EQUALS, f.value);
    var line := LineOf(f);
    assert line[..|f.key|] == f.key && line[|f.key| + 1..] == f.value;
    forall i | 0 <= i < |line|
      ensures 0x20 <= line[i] < 0x7F
    {
      assert line[i] == if i < |f.key| then f.key[i] else if i == |f.key| then EQUALS else f.value[i - |f.key| - 1];
    }
  }

  lemma {:induction false} FieldsRead(fs: seq<Field>, done: seq<Field>)
    requires (forall i :: 0 <= i < |fs| ==> FieldOk(fs[i])) && |done| + |fs| <= 33 && Fresh(fs, done)
    ensures FieldsFrom(LinesOf(fs), done) == Some(done + fs)
    decreases |fs|
  {
    hide Find, LineOf, HasControl;
    if fs == [] {
      assert done + fs == done;
    } else {
      LineRead(fs[0]);
      var next := done + [fs[0]];
      assert LinesOf(fs)[1..] == LinesOf(fs[1..]);
      FreshNext(fs, done);
      FieldsRead(fs[1..], next);
      assert next + fs[1..] == done + fs;
    }
  }

  lemma FreshNext(fs: seq<Field>, done: seq<Field>)
    requires fs != [] && Fresh(fs, done)
    ensures Fresh(fs[1..], done + [fs[0]])
  {
    forall i | 0 <= i < |fs| - 1
      ensures !HasKey(done + [fs[0]], fs[1..][i].key)
    {
      assert fs[1..][i] == fs[i + 1] && !HasKey(done, fs[i + 1].key);
    }
  }

  /** The key of a group at or after `g`. */
  ghost predicate Numbered(key: seq<byte>, g: nat) { exists n: nat :: g <= n && key == Decimal(n) }

  lemma {:induction false} GroupFieldsOk(groups: map<nat, seq<Step>>, g: nat, stop: nat)
    requires Filled(groups) && g <= stop
    ensures var fs := GroupFields(groups, g, stop);
            && |fs| <= stop - g && (forall i :: 0 <= i < |fs| ==> FieldOk(fs[i]) && Numbered(fs[i].key, g))
            && (forall i, j :: 0 <= i < j < |fs| ==> fs[i].key != fs[j].key)
    decreases stop - g
  {
    hide Decimal, FieldOk, GroupField;
    if g < stop {
      GroupFieldsOk(groups, g + 1, stop);
      var rest := GroupFields(groups, g + 1, stop);
      forall i | 0 <= i < |rest|
        ensures Numbered(rest[i].key, g) && rest[i].key != Decimal(g)
      {
        LaterKey(rest[i].key, g);
      }
      if g in groups {
        GroupFieldOk(g, groups[g]);
        KeyNumbered(g, groups[g]);
      }
    }
  }

  lemma KeyNumbered(g: nat, steps: seq<Step>)
    requires steps != []
    ensures GroupField(g, steps).key == Decimal(g) && Numbered(Decimal(g), g)
  {
  }

  lemma LaterKey(key: seq<byte>, g: nat)
    requires Numbered(key, g + 1)
    ensures Numbered(key, g) && key != Decimal(g)
  {
    hide Decimal;
    var n: nat :| g + 1 <= n && key == Decimal(n);
    DecimalValue(n);
    DecimalValue(g);
  }

  // ---------------------------------------------------------------- groups

  lemma StepRead(step: Step)
    requires step.Size? && step.min <= USIZE_MAX && step.max <= USIZE_MAX
    ensures var text, i := StepText(step), Find(StepText(step), DASH);
            && i < |text| && text != CHECK && Number(text[..i]) == Some(step.min) && Number(text[i + 1..]) == Some(step.max)
  {
    hide Find, Number, Decimal;
    DecimalValue(step.min);
    DecimalNumber(step.min);
    DecimalNumber(step.max);
    var a, b := Decimal(step.min), Decimal(step.max);
    FindAfter(a, DASH, b);
    var text := StepText(step);
    assert text[..|a|] == a && text[|a| + 1..] == b;
    assert text[0] == a[0] && IsDigit(a[0]);
  }

  lemma {:induction false} StepsRead(group: nat, rest: seq<Step>, done: Parsed)
    requires ValidSteps(group, done.steps + rest) && done.overhead + Cost(rest) <= MAX_PADDING
    ensures StepsFrom(group, StepTexts(rest), done) == Some(Parsed(done.steps + rest, done.overhead + Cost(rest)))
    decreases |rest|
  {
    hide Find, Number, StepText, Cost;
    if rest == [] {
      assert done.steps + rest == done.steps;
      NoCost();
    } else {
      var step, texts := rest[0], StepTexts(rest);
      assert (done.steps + rest)[|done.steps|] == step && texts[0] == StepText(step) && texts[1..] == StepTexts(rest[1..]);
      CostFirst(rest);
      var next := Parsed(done.steps + [step], done.overhead + if step.Size? then step.max + 7 else 0);
      assert next.steps + rest[1..] == done.steps + rest;
      StepsRead(group, rest[1..], next);
      if step.Size? {
        StepRead(step);
      } else {
        CheckRead();
      }
    }
  }

  lemma CheckRead()
    ensures StepText(Check) == CHECK
  {
  }

  lemma NoCost()
    ensures Cost([]) == 0
  {
  }

  lemma CostFirst(steps: seq<Step>)
    requires steps != []
    ensures Cost(steps) == (if steps[0].Size? then steps[0].max + 7 else 0) + Cost(steps[1..])
  {
    CostHead(steps);
    CostOne(steps[0]);
    assert steps[..1] == [steps[0]];
  }

  function Below(groups: map<nat, seq<Step>>, g: nat): map<nat, seq<Step>> { map k | k in groups && k < g :: groups[k] }

  lemma BelowNext(groups: map<nat, seq<Step>>, g: nat)
    ensures Below(groups, g + 1) == if g in groups then Below(groups, g)[g := groups[g]] else Below(groups, g)
  {
  }

  /** One group's field is read back, with its cost added. */
  lemma GroupRead(p: Scheme, g: nat, rest: seq<Field>)
    requires Valid(p) && Filled(p.groups) && g in p.groups
    ensures GroupsFrom(p.stop, [GroupField(g, p.groups[g])] + rest, Below(p.groups, g), Total(p.groups, g)) ==
            GroupsFrom(p.stop, rest, Below(p.groups, g + 1), Total(p.groups, g + 1))
  {
    hide Decimal, Number, Cost, StepsFrom, Split, JoinWith, Find, StepTexts;
    var steps := p.groups[g];
    var f := GroupField(g, steps);
    GroupFieldOk(g, steps);
    DecimalValue(g);
    DecimalNumber(g);
    BelowNext(p.groups, g);
    TotalGrows(p.groups, g + 1, p.stop);
    assert [] + steps == steps;
    StepsRead(g, steps, Parsed([], Total(p.groups, g)));
    NotStop(f.key);
    var fields := [f] + rest;
    assert fields[0] == f && fields[1..] == rest;
  }

  lemma NotStop(key: seq<byte>)
    requires Digital(key)
    ensures key != STOP
  {
    assert key != [] ==> IsDigit(key[0]);
  }

  lemma {:induction false} GroupsRead(p: Scheme, g: nat)
    requires Valid(p) && Filled(p.groups) && g <= p.stop
    ensures GroupsFrom(p.stop, GroupFields(p.groups, g, p.stop), Below(p.groups, g), Total(p.groups, g)) == Some(p.groups)
    decreases p.stop - g
  {
    hide GroupsFrom, GroupField, Below, Total, Valid;
    if g == p.stop {
      GroupsDone(p);
    } else {
      GroupsRead(p, g + 1);
      var rest := GroupFields(p.groups, g + 1, p.stop);
      if g in p.groups {
        GroupRead(p, g, rest);
      } else {
        assert [] + rest == rest;
        BelowNext(p.groups, g);
        NoGroup(p.groups, g);
      }
    }
  }

  lemma NoGroup(groups: map<nat, seq<Step>>, g: nat)
    requires g !in groups
    ensures Total(groups, g + 1) == Total(groups, g)
  {
  }

  lemma GroupsDone(p: Scheme)
    requires Valid(p)
    ensures GroupsFrom(p.stop, [], Below(p.groups, p.stop), Total(p.groups, p.stop)) == Some(p.groups)
  {
    assert Below(p.groups, p.stop) == p.groups;
  }

  // ---------------------------------------------------------------- the round trip

  lemma FieldsOfScheme(p: Scheme)
    requires Valid(p) && Filled(p.groups)
    ensures var fs := SchemeFields(p);
            |fs| <= 33 && (forall i :: 0 <= i < |fs| ==> FieldOk(fs[i])) && Fresh(fs, [])
  {
    hide Decimal, Total;
    var tail, fs := GroupFields(p.groups, 0, p.stop), SchemeFields(p);
    GroupFieldsOk(p.groups, 0, p.stop);
    DecimalValue(p.stop);
    assert FieldOk(fs[0]);
    forall i | 0 <= i < |tail|
      ensures fs[i + 1] == tail[i] && tail[i].key != STOP
    {
      var n: nat :| 0 <= n && tail[i].key == Decimal(n);
      DecimalValue(n);
      NotStop(tail[i].key);
    }
    forall i, j | 0 <= i < j < |fs|
      ensures fs[i].key != fs[j].key
    {
      assert fs[j] == tail[j - 1] && (i > 0 ==> fs[i] == tail[i - 1]);
    }
    forall i | 0 <= i < |fs|
      ensures FieldOk(fs[i])
    {
      assert i > 0 ==> fs[i] == tail[i - 1];
    }
  }

  lemma RenderFields(p: Scheme)
    requires Valid(p) && Filled(p.groups) && |Render(p)| <= MAX_TEXT
    ensures Fields(Render(p)) == Some(SchemeFields(p))
  {
    hide Decimal, Total, Valid, Split, Utf8, JoinWith, FieldsFrom, SchemeFields;
    var fs := SchemeFields(p);
    var lines := LinesOf(fs);
    FieldsOfScheme(p);
    assert fs != [] by { SomeFields(p); }
    forall i | 0 <= i < |lines|
      ensures Printable(lines[i]) && lines[i] != []
    {
      LinePrintable(fs[i]);
    }
    JoinAscii(lines, NEWLINE);
    AsciiUtf8(Render(p));
    JoinNonEmpty(lines, NEWLINE);
    forall i | 0 <= i < |lines|
      ensures NEWLINE !in lines[i]
    {
    }
    SplitJoin(lines, NEWLINE);
    FieldsRead(fs, []);
    assert [] + fs == fs;
  }

  lemma SomeFields(p: Scheme)
    requires Filled(p.groups)
    ensures SchemeFields(p) != []
  {
  }

  lemma LinePrintable(f: Field)
    requires FieldOk(f)
    ensures Printable(LineOf(f)) && LineOf(f) != []
  {
  }

  /** Every valid scheme without empty groups is what its text parses to, if the text is short enough to be accepted. */
  lemma RenderParses(p: Scheme)
    requires Valid(p) && Filled(p.groups)
    ensures |Render(p)| <= MAX_TEXT ==> Parse(Render(p)) == Some(p)
    ensures |Render(p)| > MAX_TEXT ==> Parse(Render(p)).None?
  {
    hide Decimal, Total, Number, GroupsFrom, Render, GroupFields;
    if |Render(p)| <= MAX_TEXT {
      RenderFields(p);
      var fs, tail := SchemeFields(p), GroupFields(p.groups, 0, p.stop);
      assert fs[0] == Field(STOP, Decimal(p.stop)) && fs[1..] == tail;
      DecimalNumber(p.stop);
      StopSkipped(p.stop, fs);
      GroupsRead(p, 0);
      assert Below(p.groups, 0) == map[];
      NoTotal(p.groups);
    }
  }

  lemma NoTotal(groups: map<nat, seq<Step>>)
    ensures Total(groups, 0) == 0
  {
  }

  lemma StopSkipped(stop: nat, fs: seq<Field>)
    requires fs != [] && fs[0].key == STOP
    ensures GroupsFrom(stop, fs, map[], 0) == GroupsFrom(stop, fs[1..], map[], 0) && Lookup(fs, STOP) == Some(fs[0].value)
  {
  }

  /** No accepted text declares an empty group, so together with `ParseValid` these are exactly the schemes there are. */
  lemma ParseFilled(raw: seq<byte>)
    ensures Parse(raw).Some? ==> Filled(Parse(raw).value.groups)
  {
    hide Fields, Lookup, Number, GroupsFrom;
    if Parse(raw).Some? {
      var fields := Fields(raw).value;
      GroupsFilled(Number(Lookup(fields, STOP).value).value, fields, map[], 0);
    }
  }

  lemma {:induction false} GroupsFilled(stop: nat, fields: seq<Field>, groups: map<nat, seq<Step>>, overhead: nat)
    requires Filled(groups)
    ensures GroupsFrom(stop, fields, groups, overhead).Some? ==> Filled(GroupsFrom(stop, fields, groups, overhead).value)
    decreases |fields|
  {
    hide Number, Decimal, StepsFrom, Split;
    if fields != [] && GroupsFrom(stop, fields, groups, overhead).Some? {
      if fields[0].key == STOP {
        GroupsFilled(stop, fields[1..], groups, overhead);
      } else {
        var group, parts := Number(fields[0].key).value, Split(fields[0].value, COMMA);
        var q := StepsFrom(group, parts, Parsed([], overhead)).value;
        StepsCount(group, parts, Parsed([], overhead));
        GroupsFilled(stop, fields[1..], groups[group := q.steps], q.overhead);
      }
    }
  }

  lemma {:induction false} StepsCount(group: nat, parts: seq<seq<byte>>, done: Parsed)
    requires StepsFrom(group, parts, done).Some?
    ensures |StepsFrom(group, parts, done).value.steps| == |done.steps| + |parts|
    decreases |parts|
  {
    hide Number, Find;
    if parts != [] {
      if parts[0] == CHECK && group != 0 {
        StepsCount(group, parts[1..], Parsed(done.steps + [Check], done.overhead));
      } else {
        var i := Find(parts[0], DASH);
        var min, max := Number(parts[0][..i]).value, Number(parts[0][i + 1..]).value;
        StepsCount(group, parts[1..], Parsed(done.steps + [Size(min, max)], done.overhead + max + 7));
      }
    }
  }

  // ---------------------------------------------------------------- the built-in scheme

  const PAIR := ",c,500-1000"

  /** The built-in text, line by line. */
  function DefaultLines(): seq<seq<byte>> {
    [Text("stop=8"), Text("0=30-30"), Text("1=100-400"), Text("2=" + ("400-500" + PAIR + PAIR + PAIR + PAIR)),
     Text("3=9-9,500-1000"), Text("4=500-1000"), Text("5=500-1000"), Text("6=500-1000"), Text("7=500-1000")]
  }

  function DefaultText(): seq<byte> { JoinWith(DefaultLines(), NEWLINE) }

  lemma DefaultDecimals()
    ensures Decimal(30) == Text("30") && Decimal(9) == Text("9") && Decimal(100) == Text("100")
    ensures Decimal(400) == Text("400") && Decimal(500) == Text("500") && Decimal(1000) == Text("1000")
  {
    assert Decimal(10) == [49, 48] && Decimal(40) == [52, 48] && Decimal(50) == [53, 48];
    assert Decimal(100) == [49, 48, 48];
  }

  lemma DefaultSteps()
    ensures StepText(Size(30, 30)) == Text("30-30") && StepText(Size(100, 400)) == Text("100-400")
    ensures StepText(Size(400, 500)) == Text("400-500") && StepText(Size(500, 1000)) == Text("500-1000")
    ensures StepText(Size(9, 9)) == Text("9-9") && StepText(Check) == Text("c")
  {
    DefaultDecimals();
    hide Decimal;
  }

  /** The text of a group's steps. */
  ghost predicate Spelled(steps: seq<Step>, text: string) { steps != [] && JoinWith(StepTexts(steps), COMMA) == Text(text) }

  lemma SpelledOne(step: Step, text: string)
    requires StepText(step) == Text(text)
    ensures Spelled([step], text)
  {
    assert StepTexts([step]) == [StepText(step)];
  }

  lemma {:induction false} JoinLast(parts: seq<seq<byte>>, part: seq<byte>, sep: byte)
    requires parts != []
    ensures JoinWith(parts + [part], sep) == JoinWith(parts, sep) + ([sep] + part)
    decreases |parts|
  {
    if |parts| == 1 {
      assert (parts + [part])[1..] == [part];
    } else {
      JoinLast(parts[1..], part, sep);
      assert (parts + [part])[1..] == parts[1..] + [part];
      Assoc([sep], JoinWith(parts[1..], sep), [sep] + part);
      Assoc(parts[0], [sep] + JoinWith(parts[1..], sep), [sep] + part);
    }
  }

  lemma SpelledMore(steps: seq<Step>, text: string, step: Step, more: string)
    requires Spelled(steps, text) && StepText(step) == Text(more)
    ensures Spelled(steps + [step], text + ("," + more))
  {
    hide StepText, JoinWith;
    assert StepTexts(steps + [step]) == StepTexts(steps) + [StepText(step)];
    JoinLast(StepTexts(steps), StepText(step), COMMA);
    assert Text(text + ("," + more)) == Text(text) + ([COMMA] + Text(more));
  }

  lemma SpelledPair(steps: seq<Step>, text: string)
    requires Spelled(steps, text)
    ensures Spelled((steps + [Check]) + [Size(500, 1000)], text + PAIR)
  {
    DefaultSteps();
    hide StepText, Spelled;
    SpelledMore(steps, text, Check, "c");
    SpelledMore(steps + [Check], text + ("," + "c"), Size(500, 1000), "500-1000");
    assert (text + ("," + "c")) + ("," + "500-1000") == text + PAIR;
  }

  lemma SpelledLine(group: nat, steps: seq<Step>, text: string, key: string)
    requires Spelled(steps, text) && group < 10 && Text(key) == [ZERO + group, EQUALS]
    ensures LineOf(GroupField(group, steps)) == Text(key + text)
  {
    hide StepTexts, JoinWith;
    assert Text(key + text) == Text(key) + Text(text);
  }

  lemma Group2()
    ensures LineOf(GroupField(2, DefaultScheme().groups[2])) == DefaultLines()[3]
  {
    DefaultSteps();
    hide StepText, Spelled, LineOf, GroupField;
    var s := Size(500, 1000);
    var a := [Size(400, 500)];
    var b := (a + [Check]) + [s];
    var c := (b + [Check]) + [s];
    var d := (c + [Check]) + [s];
    var e := (d + [Check]) + [s];
    assert e == DefaultScheme().groups[2];
    SpelledOne(a[0], "400-500");
    SpelledPair(a, "400-500");
    SpelledPair(b, "400-500" + PAIR);
    SpelledPair(c, "400-500" + PAIR + PAIR);
    SpelledPair(d, "400-500" + PAIR + PAIR + PAIR);
    SpelledLine(2, e, "400-500" + PAIR + PAIR + PAIR + PAIR, "2=");
  }

  lemma OneSize(group: nat, step: Step, text: string, key: string, line: string)
    requires StepText(step) == Text(text) && group < 10 && Text(key) == [ZERO + group, EQUALS] && key + text == line
    ensures LineOf(GroupField(group, [step])) == Text(line)
  {
    hide StepText, Spelled, LineOf, GroupField;
    SpelledOne(step, text);
    SpelledLine(group, [step], text, key);
  }

  lemma EarlyGroups()
    ensures LineOf(GroupField(0, [Size(30, 30)])) == Text("0=30-30") && LineOf(GroupField(1, [Size(100, 400)])) == Text("1=100-400")
  {
    DefaultSteps();
    hide StepText, Spelled, LineOf, GroupField;
    OneSize(0, Size(30, 30), "30-30", "0=", "0=30-30");
    OneSize(1, Size(100, 400), "100-400", "1=", "1=100-400");
  }

  lemma Group3()
    ensures LineOf(GroupField(3, [Size(9, 9), Size(500, 1000)])) == Text("3=9-9,500-1000")
  {
    DefaultSteps();
    hide StepText, Spelled, LineOf, GroupField;
    SpelledOne(Size(9, 9), "9-9");
    SpelledMore([Size(9, 9)], "9-9", Size(500, 1000), "500-1000");
    assert [Size(9, 9)] + [Size(500, 1000)] == [Size(9, 9), Size(500, 1000)];
    SpelledLine(3, [Size(9, 9), Size(500, 1000)], "9-9" + ("," + "500-1000"), "3=");
    assert "3=" + ("9-9" + ("," + "500-1000")) == "3=9-9,500-1000";
  }

  lemma LateGroup(group: nat, key: string, line: string)
    requires group < 10 && Text(key) == [ZERO + group, EQUALS] && key + "500-1000" == line
    ensures LineOf(GroupField(group, [Size(500, 1000)])) == Text(line)
  {
    DefaultSteps();
    hide StepText, LineOf, GroupField, Text;
    OneSize(group, Size(500, 1000), "500-1000", key, line);
  }

  lemma LateGroups()
    ensures var tail := [Size(500, 1000)];
            LinesOf([GroupField(4, tail), GroupField(5, tail), GroupField(6, tail), GroupField(7, tail)]) == DefaultLines()[5..]
  {
    hide LineOf, GroupField;
    LateGroup(4, "4=", "4=500-1000");
    LateGroup(5, "5=", "5=500-1000");
    LateGroup(6, "6=", "6=500-1000");
    LateGroup(7, "7=", "7=500-1000");
  }

  lemma NextField(groups: map<nat, seq<Step>>, g: nat, stop: nat)
    requires Filled(groups) && g in groups && g < stop
    ensures GroupFields(groups, g, stop) == [GroupField(g, groups[g])] + GroupFields(groups, g + 1, stop)
  {
  }

  lemma FourFields(groups: map<nat, seq<Step>>, g: nat, stop: nat)
    requires Filled(groups) && g in groups && g + 1 in groups && g + 2 in groups && g + 3 in groups && g + 4 <= stop
    ensures GroupFields(groups, g, stop) ==
            [GroupField(g, groups[g]), GroupField(g + 1, groups[g + 1]), GroupField(g + 2, groups[g + 2]), GroupField(g + 3, groups[g + 3])] +
            GroupFields(groups, g + 4, stop)
  {
    hide GroupField, GroupFields;
    NextField(groups, g, stop);
    NextField(groups, g + 1, stop);
    NextField(groups, g + 2, stop);
    NextField(groups, g + 3, stop);
  }

  lemma LateFields(groups: map<nat, seq<Step>>)
    requires Filled(groups) && 4 in groups && 5 in groups && 6 in groups && 7 in groups
    ensures GroupFields(groups, 4, 8) == [GroupField(4, groups[4]), GroupField(5, groups[5]), GroupField(6, groups[6]), GroupField(7, groups[7])]
  {
    hide GroupField;
    FourFields(groups, 4, 8);
    assert GroupFields(groups, 8, 8) == [];
  }

  lemma StopLine()
    ensures LineOf(Field(STOP, Decimal(8))) == Text("stop=8")
  {
  }

  lemma LinesConcat(a: seq<Field>, b: seq<Field>)
    ensures LinesOf(a + b) == LinesOf(a) + LinesOf(b)
  {
  }

  function EarlyOnes(groups: map<nat, seq<Step>>): seq<Field>
    requires Filled(groups) && 0 in groups && 1 in groups && 2 in groups && 3 in groups
  {
    [Field(STOP, Decimal(8)), GroupField(0, groups[0]), GroupField(1, groups[1]), GroupField(2, groups[2]), GroupField(3, groups[3])]
  }

  lemma EarlyLines()
    ensures Filled(DefaultScheme().groups) && LinesOf(EarlyOnes(DefaultScheme().groups)) == DefaultLines()[..5]
  {
    EarlyGroups();
    Group2();
    Group3();
    StopLine();
    hide LineOf, GroupField, Text, Decimal;
  }

  lemma DefaultSplit(p: Scheme)
    requires Filled(p.groups) && p.stop == 8 && 0 in p.groups && 1 in p.groups && 2 in p.groups && 3 in p.groups
    ensures SchemeFields(p) == EarlyOnes(p.groups) + GroupFields(p.groups, 4, 8)
  {
    hide GroupField, GroupFields, Decimal;
    FourFields(p.groups, 0, 8);
  }

  /** The lines of the built-in scheme, rendered, are the built-in text's. */
  lemma DefaultRendered()
    ensures Filled(DefaultScheme().groups) && Render(DefaultScheme()) == DefaultText()
  {
    hide LineOf, GroupField, GroupFields, LinesOf, SchemeFields, EarlyOnes, DefaultLines, JoinWith, Decimal;
    var groups := DefaultScheme().groups;
    EarlyLines();
    LateGroups();
    LateFields(groups);
    DefaultSplit(DefaultScheme());
    LinesConcat(EarlyOnes(groups), GroupFields(groups, 4, 8));
    NineLines();
    assert DefaultLines()[..5] + DefaultLines()[5..] == DefaultLines();
  }

  lemma NineLines()
    ensures |DefaultLines()| == 9
  {
  }

  lemma {:induction false} JoinBound(parts: seq<seq<byte>>, sep: byte)
    requires parts != [] && forall i :: 0 <= i < |parts| ==> |parts[i]| <= 60
    ensures |JoinWith(parts, sep)| <= 61 * |parts|
    decreases |parts|
  {
    if |parts| > 1 {
      JoinBound(parts[1..], sep);
    }
  }

  lemma DefaultCosts()
    ensures var groups := DefaultScheme().groups;
            && Cost(groups[0]) == 37 && Cost(groups[1]) == 407 && Cost(groups[2]) == 4535 && Cost(groups[3]) == 1023
            && forall g :: 4 <= g < 8 ==> Cost(groups[g]) == 1007
  {
    var groups := DefaultScheme().groups;
    var s := groups[2];
    forall i | 0 <= i < 9
      ensures s[..i + 1][..i] == s[..i]
    {
    }
    assert Cost(s[..1]) == 507 && Cost(s[..2]) == 507 && Cost(s[..3]) == 1514 && Cost(s[..4]) == 1514 && Cost(s[..5]) == 2521;
    assert Cost(s[..6]) == 2521 && Cost(s[..7]) == 3528 && Cost(s[..8]) == 3528 && Cost(s[..9]) == 4535;
    assert s[..9] == s;
    assert Cost(groups[3][..1]) == 16;
  }

  lemma DefaultValid()
    ensures Valid(DefaultScheme())
  {
    DefaultCosts();
    hide Cost;
    var groups := DefaultScheme().groups;
    assert Total(groups, 2) == 444 && Total(groups, 4) == 6002 && Total(groups, 6) == 8016 && Total(groups, 8) == 10030;
  }

  lemma DefaultShort()
    ensures |DefaultText()| <= 549
  {
    hide JoinWith;
    JoinBound(DefaultLines(), NEWLINE);
  }

  /** The built-in text is accepted and means the built-in scheme. */
  lemma DefaultParses()
    ensures Parse(DefaultText()) == Some(DefaultScheme())
  {
    hide Parse, Render, Valid, DefaultText, DefaultScheme, Filled;
    DefaultRendered();
    DefaultValid();
    DefaultShort();
    RenderParses(DefaultScheme());
  }
}
