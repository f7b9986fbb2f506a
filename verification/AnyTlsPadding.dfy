/** AnyTLS padding schemes: the text format, the random sizes and the cutting of one
    queued frame into padded packets. The entropy source is a tape of 32-bit draws;
    running off its end is the source's "random source unavailable" error. */
module Padding {
  import opened Base
  import opened Frames

  const MAX_TEXT := 4096
  const MAX_STOP := 32
  const MAX_PADDING := 65536
  const MAX_STEPS := 16
  const U32_MAX := 0xFFFF_FFFF
  const USIZE_MAX := 0xFFFF_FFFF_FFFF_FFFF

  datatype Step = Size(min: nat, max: nat) | Check
  datatype Scheme = Scheme(stop: nat, groups: map<nat, seq<Step>>)

  // ---------------------------------------------------------------- text format

  const NEWLINE: byte := 10
  const COMMA: byte := 44
  const DASH: byte := 45
  const ZERO: byte := 48
  const EQUALS: byte := 61
  const STOP: seq<byte> := [115, 116, 111, 112]
  const CHECK: seq<byte> := [99]

  predicate Continuation(b: byte) { 0x80 <= b < 0xC0 }

  /** Well-formed UTF-8, as the standard library's validating conversion accepts it. */
  predicate Utf8(s: seq<byte>)
    decreases |s|
  {
    if s == [] then true
    else if s[0] < 0x80 then Utf8(s[1..])
    else if 0xC2 <= s[0] < 0xE0 then |s| >= 2 && Continuation(s[1]) && Utf8(s[2..])
    else if 0xE0 <= s[0] < 0xF0 then
      && |s| >= 3 && Continuation(s[1]) && Continuation(s[2])
      && (s[0] == 0xE0 ==> s[1] >= 0xA0) && (s[0] == 0xED ==> s[1] < 0xA0)
      && Utf8(s[3..])
    else if 0xF0 <= s[0] < 0xF5 then
      && |s| >= 4 && Continuation(s[1]) && Continuation(s[2]) && Continuation(s[3])
      && (s[0] == 0xF0 ==> s[1] >= 0x90) && (s[0] == 0xF4 ==> s[1] < 0x90)
      && Utf8(s[4..])
    else false
  }

  /** Control characters are U+0000..U+001F and U+007F..U+009F. */
  predicate HasControl(s: seq<byte>) {
    exists i :: 0 <= i < |s| &&
      (s[i] < 0x20 || s[i] == 0x7F || (s[i] == 0xC2 && i + 1 < |s| && s[i + 1] < 0xA0))
  }

  /** Position of the first `sep`, or the length when there is none. */
  function Find(s: seq<byte>, sep: byte): (i: nat)
    ensures i <= |s| && sep !in s[..i]
    ensures i < |s| ==> s[i] == sep
  {
    if s == [] || s[0] == sep then 0 else 1 + Find(s[1..], sep)
  }

  function Split(s: seq<byte>, sep: byte): (parts: seq<seq<byte>>)
    ensures |parts| >= 1
    decreases |s|
  {
    var i := Find(s, sep);
    if i == |s| then [s] else [s[..i]] + Split(s[i + 1..], sep)
  }

  function Lines(raw: seq<byte>): seq<seq<byte>> {
    var parts := Split(raw, NEWLINE);
    if parts[|parts| - 1] == [] then parts[..|parts| - 1] else parts
  }

  datatype Field = Field(key: seq<byte>, value: seq<byte>)

  predicate HasKey(fields: seq<Field>, key: seq<byte>) {
    exists i :: 0 <= i < |fields| && fields[i].key == key
  }

  function FieldsFrom(lines: seq<seq<byte>>, done: seq<Field>): Option<seq<Field>> {
    if lines == [] then Some(done)
    else
      var line := lines[0];
      var i := Find(line, EQUALS);
      if i == |line| || i == 0 || i == |line| - 1 || HasControl(line) || |done| == 33 then None
      else
        var field := Field(line[..i], line[i + 1..]);
        if HasKey(done, field.key) then None else FieldsFrom(lines[1..], done + [field])
  }

  function Fields(raw: seq<byte>): Option<seq<Field>> {
    if raw == [] || |raw| > MAX_TEXT || !Utf8(raw) then None else FieldsFrom(Lines(raw), [])
  }

  function Lookup(fields: seq<Field>, key: seq<byte>): Option<seq<byte>> {
    if fields == [] then None
    else if fields[0].key == key then Some(fields[0].value)
    else Lookup(fields[1..], key)
  }

  predicate IsDigit(b: byte) { ZERO <= b <= ZERO + 9 }

  function Value(text: seq<byte>): nat
    requires forall i :: 0 <= i < |text| ==> IsDigit(text[i])
  {
    if text == [] then 0
    else
      var last := text[|text| - 1];
      assert IsDigit(last);
      Value(text[..|text| - 1]) * 10 + (last - ZERO)
  }

  function Number(text: seq<byte>): Option<nat> {
    if text == [] || exists i :: 0 <= i < |text| && !IsDigit(text[i]) then None
    else if Value(text) > USIZE_MAX then None
    else Some(Value(text))
  }

  function Decimal(n: nat): seq<byte> {
    if n < 10 then [ZERO + n] else Decimal(n / 10) + [ZERO + n % 10]
  }

  /** Authentication must stay within one TLS record, so group 0 has a smaller limit. */
  function Limit(group: nat): nat { if group == 0 then 4096 - 34 else 16384 }

  datatype Parsed = Parsed(steps: seq<Step>, overhead: nat)

  function StepsFrom(group: nat, parts: seq<seq<byte>>, done: Parsed): Option<Parsed> {
    if parts == [] then Some(done)
    else if |done.steps| == MAX_STEPS then None
    else if parts[0] == CHECK && group != 0 then
      StepsFrom(group, parts[1..], Parsed(done.steps + [Check], done.overhead))
    else
      var i := Find(parts[0], DASH);
      if i == |parts[0]| then None
      else
        var min :- Number(parts[0][..i]);
        var max :- Number(parts[0][i + 1..]);
        if min == 0 || min > max || max > Limit(group) || done.overhead + max + 7 > MAX_PADDING then None
        else StepsFrom(group, parts[1..], Parsed(done.steps + [Size(min, max)], done.overhead + max + 7))
  }

  /** The running overhead makes the outcome independent of the order of the groups. */
  function GroupsFrom(stop: nat, fields: seq<Field>, groups: map<nat, seq<Step>>, overhead: nat)
    : Option<map<nat, seq<Step>>>
  {
    if fields == [] then Some(groups)
    else if fields[0].key == STOP then GroupsFrom(stop, fields[1..], groups, overhead)
    else
      var group :- Number(fields[0].key);
      if group >= stop || fields[0].key != Decimal(group) then None
      else
        var p :- StepsFrom(group, Split(fields[0].value, COMMA), Parsed([], overhead));
        if group == 0 && |p.steps| != 1 then None
        else GroupsFrom(stop, fields[1..], groups[group := p.steps], p.overhead)
  }

  function Parse(raw: seq<byte>): Option<Scheme> {
    var fields :- Fields(raw);
    var text :- Lookup(fields, STOP);
    var stop :- Number(text);
    if !(1 <= stop <= MAX_STOP) then None
    else
      var groups :- GroupsFrom(stop, fields, map[], 0);
      Some(Scheme(stop, groups))
  }

  // ---------------------------------------------------------------- what a parsed scheme guarantees

  /** The most bytes one group can add to the wire. */
  function Cost(steps: seq<Step>): nat {
    if steps == [] then 0
    else Cost(steps[..|steps| - 1]) +
         (match steps[|steps| - 1] case Size(_, max) => max + 7 case Check => 0)
  }

  function StepsOf(p: Scheme, group: nat): seq<Step> {
    if group < p.stop && group in p.groups then p.groups[group] else []
  }

  /** The most bytes the first `n` groups can add. */
  function Total(groups: map<nat, seq<Step>>, n: nat): nat {
    if n == 0 then 0 else Total(groups, n - 1) + (if n - 1 in groups then Cost(groups[n - 1]) else 0)
  }

  ghost predicate ValidSteps(group: nat, steps: seq<Step>) {
    && |steps| <= MAX_STEPS
    && forall i :: 0 <= i < |steps| ==>
         (if steps[i].Size? then 1 <= steps[i].min <= steps[i].max <= Limit(group) else group != 0)
  }

  ghost predicate Valid(p: Scheme) {
    && 1 <= p.stop <= MAX_STOP
    && (forall g :: g in p.groups ==> g < p.stop && ValidSteps(g, p.groups[g]))
    && (0 in p.groups ==> |p.groups[0]| == 1)
    && Total(p.groups, p.stop) <= MAX_PADDING
  }

  lemma {:induction false} StepsFromValid(group: nat, parts: seq<seq<byte>>, done: Parsed)
    requires ValidSteps(group, done.steps) && done.overhead <= MAX_PADDING
    requires StepsFrom(group, parts, done).Some?
    ensures ValidSteps(group, StepsFrom(group, parts, done).value.steps)
    ensures StepsFrom(group, parts, done).value.overhead - Cost(StepsFrom(group, parts, done).value.steps)
         == done.overhead - Cost(done.steps)
    ensures StepsFrom(group, parts, done).value.overhead <= MAX_PADDING
    decreases |parts|
  {
    if parts == [] {
    } else if parts[0] == CHECK && group != 0 {
      var next := Parsed(done.steps + [Check], done.overhead);
      assert next.steps[..|done.steps|] == done.steps;
      StepsFromValid(group, parts[1..], next);
    } else {
      var i := Find(parts[0], DASH);
      var max := Number(parts[0][i + 1..]).value;
      var next := Parsed(done.steps + [Size(Number(parts[0][..i]).value, max)], done.overhead + max + 7);
      assert next.steps[..|done.steps|] == done.steps;
      StepsFromValid(group, parts[1..], next);
    }
  }

  lemma {:induction false} TotalUpdate(groups: map<nat, seq<Step>>, g: nat, steps: seq<Step>, n: nat)
    ensures Total(groups[g := steps], n) <= Total(groups, n) + Cost(steps)
    ensures n <= g ==> Total(groups[g := steps], n) == Total(groups, n)
  {
    if n > 0 {
      TotalUpdate(groups, g, steps, n - 1);
    }
  }

  lemma {:induction false} GroupsFromValid(stop: nat, fields: seq<Field>, groups: map<nat, seq<Step>>, overhead: nat)
    requires 1 <= stop <= MAX_STOP && overhead <= MAX_PADDING
    requires Valid(Scheme(stop, groups)) && Total(groups, stop) <= overhead
    requires GroupsFrom(stop, fields, groups, overhead).Some?
    ensures Valid(Scheme(stop, GroupsFrom(stop, fields, groups, overhead).value))
    decreases |fields|
  {
    if fields == [] {
    } else if fields[0].key == STOP {
      GroupsFromValid(stop, fields[1..], groups, overhead);
    } else {
      var group := Number(fields[0].key).value;
      var parts := Split(fields[0].value, COMMA);
      StepsFromValid(group, parts, Parsed([], overhead));
      var p := StepsFrom(group, parts, Parsed([], overhead)).value;
      TotalUpdate(groups, group, p.steps, stop);
      GroupsFromValid(stop, fields[1..], groups[group := p.steps], p.overhead);
    }
  }

  lemma {:induction false} TotalGrows(groups: map<nat, seq<Step>>, a: nat, b: nat)
    requires a <= b
    ensures Total(groups, a) <= Total(groups, b)
    decreases b
  {
    if a < b {
      TotalGrows(groups, a, b - 1);
    }
  }

  lemma {:induction false} TotalEmpty(n: nat)
    ensures Total(map[], n) == 0
  {
    if n > 0 {
      TotalEmpty(n - 1);
    }
  }

  /** Whatever text a peer sends, an accepted scheme is bounded in every respect. */
  lemma ParseValid(raw: seq<byte>)
    ensures Parse(raw).Some? ==> Valid(Parse(raw).value)
  {
    if Parse(raw).Some? {
      var stop := Number(Lookup(Fields(raw).value, STOP).value).value;
      TotalEmpty(stop);
      GroupsFromValid(stop, Fields(raw).value, map[], 0);
    }
  }

  // ---------------------------------------------------------------- random sizes

  type Tape = seq<u32>

  datatype Drawn = Drawn(size: nat, tape: Tape)

  /** Draws at or above this multiple of `span` are rejected. */
  function Bound(span: nat): nat
    requires 1 <= span
  {
    U32_MAX - U32_MAX % span
  }

  function Draw(min: nat, max: nat, tape: Tape): Option<Drawn>
    requires min <= max
    decreases |tape|
  {
    if min == max then Some(Drawn(min, tape))
    else if tape == [] then None
    else if tape[0] < Bound(max - min) then Some(Drawn(min + tape[0] % (max - min), tape[1..]))
    else Draw(min, max, tape[1..])
  }

  method RandomSize(min: nat, max: nat, tape: Tape) returns (r: Option<Drawn>)
    requires min <= max
    ensures r == Draw(min, max, tape)
    ensures r.Some? ==> min <= r.value.size && (if min < max then r.value.size < max else r.value.size == max)
  {
    if min == max {
      return Some(Drawn(min, tape));
    }
    var span := max - min;
    var bound := U32_MAX - U32_MAX % span;
    var left := tape;
    while true
      invariant Draw(min, max, tape) == Draw(min, max, left)
      decreases |left|
    {
      if left == [] {
        return None;
      }
      var n := left[0];
      left := left[1..];
      if n < bound {
        return Some(Drawn(min + n % span, left));
      }
    }
  }

  lemma {:induction false} DrawRange(min: nat, max: nat, tape: Tape)
    requires min <= max
    ensures Draw(min, max, tape).Some? ==> min <= Draw(min, max, tape).value.size <= max
    decreases |tape|
  {
    if min < max && tape != [] {
      DrawRange(min, max, tape[1..]);
    }
  }

  /** The accepted draws below `n` that yield residue `k`. */
  function Accepted(n: nat, span: nat, k: nat): set<int>
    requires 1 <= span
  {
    set i: int | 0 <= i < n && i % span == k
  }

  lemma {:induction false} AcceptedCount(turns: nat, span: nat, k: nat)
    requires k < span
    ensures |Accepted(turns * span, span, k)| == turns
  {
    if turns == 0 {
      assert Accepted(0, span, k) == {};
    } else {
      AcceptedCount(turns - 1, span, k);
      var before, extra := (turns - 1) * span, (turns - 1) * span + k;
      assert turns * span == before + span;
      assert extra % span == k by { ModuloOfSum(turns - 1, span, k); }
      forall i: int | before <= i < before + span && i % span == k
        ensures i == extra
      {
        ModuloOfSum(turns - 1, span, i - before);
      }
      assert Accepted(turns * span, span, k) == Accepted(before, span, k) + {extra};
    }
  }

  /** Rejection sampling is unbiased: every residue is hit by equally many accepted draws. */
  lemma DrawUniform(span: nat, k: nat)
    requires 1 <= span <= 0xFFFF && k < span
    ensures |Accepted(Bound(span), span, k)| == Bound(span) / span
    ensures 0 < Bound(span) <= U32_MAX && U32_MAX - Bound(span) < span
  {
    var turns := U32_MAX / span;
    assert U32_MAX == span * turns + U32_MAX % span;
    assert Bound(span) == turns * span;
    AcceptedCount(turns, span, k);
    assert Bound(span) / span == turns by {
      ModuloOfSum(turns, span, 0);
      var b := Bound(span);
      assert b == span * (b / span) + b % span;
      assert span * (b / span) == span * turns;
    }
  }

  // ---------------------------------------------------------------- cutting a frame into packets

  datatype Packed = Packed(packets: seq<seq<byte>>, tape: Tape)

  function Zeros(n: nat): (z: seq<byte>)
    ensures |z| == n
  {
    seq(n, _ => 0)
  }

  function Pad(n: nat): Frame
    requires n <= MAX_FRAME
  {
    Frame(PADDING, 0, Zeros(n))
  }

  /** The last data packet of a group is filled up to `size` when a padding header fits. */
  function Filler(rest: nat, size: nat): seq<Frame>
    requires size <= MAX_FRAME
  {
    if size > rest + HEADER then [Pad(size - rest - HEADER)] else []
  }

  ghost predicate SmallSteps(steps: seq<Step>) {
    forall i :: 0 <= i < |steps| ==> steps[i].Size? ==> 1 <= steps[i].min <= steps[i].max <= 16384
  }

  function Prepend(packets: seq<seq<byte>>, p: Option<Packed>): Option<Packed> {
    match p case None => None case Some(q) => Some(Packed(packets + q.packets, q.tape))
  }

  /** The packets one group makes of `rest`, and what is left of the tape. */
  function PacketsOf(steps: seq<Step>, tape: Tape, rest: seq<byte>): Option<Packed>
    requires SmallSteps(steps)
    decreases |steps|
  {
    if steps == [] then Some(Packed(if rest == [] then [] else [rest], tape))
    else match steps[0]
      case Check => if rest == [] then Some(Packed([], tape)) else PacketsOf(steps[1..], tape, rest)
      case Size(min, max) =>
        var d :- Draw(min, max, tape);
        assert d.size <= max by { DrawRange(min, max, tape); }
        if |rest| > d.size then
          Prepend([rest[..d.size]], PacketsOf(steps[1..], d.tape, rest[d.size..]))
        else if rest != [] then
          Prepend([rest + EncodeAll(Filler(|rest|, d.size))], PacketsOf(steps[1..], d.tape, []))
        else
          Prepend([Encode(Pad(d.size))], PacketsOf(steps[1..], d.tape, []))
  }

  /** Whether a group asks the random source for `n` bytes of data: a step is reached whose size is not fixed. Before
      the first such step every size is fixed, so what is left of the data is known. */
  predicate Draws(steps: seq<Step>, n: nat) {
    steps != [] &&
    if steps[0].Check? then n != 0 && Draws(steps[1..], n)
    else steps[0].min != steps[0].max || Draws(steps[1..], if n > steps[0].min then n - steps[0].min else 0)
  }

  /** A group that does not draw cannot fail, whatever the random source does. */
  lemma {:induction false} NoDrawNoFailure(steps: seq<Step>, tape: Tape, rest: seq<byte>)
    requires SmallSteps(steps) && !Draws(steps, |rest|)
    ensures PacketsOf(steps, tape, rest).Some?
    decreases |steps|
  {
    if steps != [] {
      if steps[0].Check? {
        if rest != [] {
          NoDrawNoFailure(steps[1..], tape, rest);
        }
      } else {
        var n := steps[0].max;
        NoDrawNoFailure(steps[1..], tape, if |rest| > n then rest[n..] else []);
      }
    }
  }

  /** A group that draws fails when the random source does. */
  lemma {:induction false} DrawFails(steps: seq<Step>, rest: seq<byte>)
    requires SmallSteps(steps) && Draws(steps, |rest|)
    ensures PacketsOf(steps, [], rest).None?
    decreases |steps|
  {
    if steps[0].Check? {
      DrawFails(steps[1..], rest);
    } else if steps[0].min == steps[0].max {
      var n := steps[0].max;
      DrawFails(steps[1..], if |rest| > n then rest[n..] else []);
    }
  }

  /** Packing fails for some behaviour of the random source exactly when the group draws. */
  lemma FailsExactly(steps: seq<Step>, rest: seq<byte>)
    requires SmallSteps(steps)
    ensures (exists tape: Tape :: PacketsOf(steps, tape, rest).None?) <==> Draws(steps, |rest|)
  {
    if Draws(steps, |rest|) {
      DrawFails(steps, rest);
    } else {
      forall tape: Tape | true
        ensures PacketsOf(steps, tape, rest).Some?
      {
        NoDrawNoFailure(steps, tape, rest);
      }
    }
  }

  /** No group that can carry a frame of `n` bytes after the opening draws for it. */
  ghost predicate Quiet(p: Scheme, n: nat) { forall g :: 2 <= g <= MAX_STOP ==> !Draws(StepsOf(p, g), n) }

  /** The groups of the built-in scheme. */
  function DefaultScheme(): Scheme {
    var tail := [Size(500, 1000)];
    Scheme(8, map[0 := [Size(30, 30)], 1 := [Size(100, 400)],
                  2 := [Size(400, 500), Check, Size(500, 1000), Check, Size(500, 1000), Check, Size(500, 1000), Check, Size(500, 1000)],
                  3 := [Size(9, 9), Size(500, 1000)], 4 := tail, 5 := tail, 6 := tail, 7 := tail])
  }

  /** Under the built-in scheme a bare frame draws in groups 2 to 7 and in no later one. */
  lemma DefaultDraws(g: nat)
    requires 2 <= g
    ensures Draws(StepsOf(DefaultScheme(), g), HEADER) <==> g < 8
  {
    var steps := StepsOf(DefaultScheme(), g);
    if g == 3 {
      assert steps[1..] == [Size(500, 1000)];
    }
  }

  /** The padding frames the same run inserts; they depend on the length of the data only. */
  function PadsOf(steps: seq<Step>, tape: Tape, n: nat): seq<Frame>
    requires SmallSteps(steps)
    decreases |steps|
  {
    if steps == [] then []
    else match steps[0]
      case Check => if n == 0 then [] else PadsOf(steps[1..], tape, n)
      case Size(min, max) =>
        match Draw(min, max, tape)
        case None => []
        case Some(d) =>
          assert d.size <= max by { DrawRange(min, max, tape); }
          if n > d.size then PadsOf(steps[1..], d.tape, n - d.size)
          else if n > 0 then Filler(n, d.size) + PadsOf(steps[1..], d.tape, 0)
          else [Pad(d.size)] + PadsOf(steps[1..], d.tape, 0)
  }

  function Join(packets: seq<seq<byte>>): seq<byte> {
    if packets == [] then [] else packets[0] + Join(packets[1..])
  }

  lemma JoinPrepend(head: seq<byte>, p: Option<Packed>)
    requires p.Some?
    ensures Join(Prepend([head], p).value.packets) == head + Join(p.value.packets)
  {
    assert ([head] + p.value.packets)[1..] == p.value.packets;
  }

  ghost predicate NonEmpty(packets: seq<seq<byte>>) {
    forall i :: 0 <= i < |packets| ==> packets[i] != []
  }

  lemma CostHead(steps: seq<Step>)
    requires steps != []
    ensures Cost(steps) == Cost(steps[..1]) + Cost(steps[1..])
    decreases |steps|
  {
    if |steps| > 1 {
      var front := steps[..|steps| - 1];
      CostHead(front);
      assert front[..1] == steps[..1];
      assert steps[1..][..|steps| - 2] == front[1..];
    }
  }

  lemma CostOne(s: Step)
    ensures Cost([s]) == if s.Size? then s.max + 7 else 0
  {
    assert [s][..0] == [];
  }

  /** Cutting loses nothing and adds only whole padding frames behind the data. */
  lemma {:induction false} PacketsJoin(steps: seq<Step>, tape: Tape, rest: seq<byte>)
    requires SmallSteps(steps)
    requires PacketsOf(steps, tape, rest).Some?
    ensures Join(PacketsOf(steps, tape, rest).value.packets) == rest + EncodeAll(PadsOf(steps, tape, |rest|))
    decreases |steps|
  {
    if steps == [] {
      assert rest != [] ==> [rest][1..] == [];
    } else if steps[0].Check? {
      if rest != [] {
        PacketsJoin(steps[1..], tape, rest);
      }
    } else {
      var d := Draw(steps[0].min, steps[0].max, tape).value;
      DrawRange(steps[0].min, steps[0].max, tape);
      if |rest| > d.size {
        PacketsJoin(steps[1..], d.tape, rest[d.size..]);
        JoinPrepend(rest[..d.size], PacketsOf(steps[1..], d.tape, rest[d.size..]));
        Assoc(rest[..d.size], rest[d.size..], EncodeAll(PadsOf(steps[1..], d.tape, |rest| - d.size)));
        assert rest == rest[..d.size] + rest[d.size..];
      } else {
        PacketsJoin(steps[1..], d.tape, []);
        JoinLast(rest, d.size, PacketsOf(steps[1..], d.tape, []), PadsOf(steps[1..], d.tape, 0));
      }
    }
  }

  lemma JoinLast(rest: seq<byte>, size: nat, tail: Option<Packed>, later: seq<Frame>)
    requires size <= MAX_FRAME && tail.Some? && Join(tail.value.packets) == EncodeAll(later)
    ensures Join(Prepend([rest + EncodeAll(Filler(|rest|, size))], tail).value.packets)
         == rest + EncodeAll(Filler(|rest|, size) + later)
    ensures Join(Prepend([Encode(Pad(size))], tail).value.packets) == EncodeAll([Pad(size)] + later)
  {
    var fill := Filler(|rest|, size);
    JoinPrepend(rest + EncodeAll(fill), tail);
    EncodeAllConcat(fill, later);
    Assoc(rest, EncodeAll(fill), EncodeAll(later));
    JoinPrepend(Encode(Pad(size)), tail);
    EncodeAllConcat([Pad(size)], later);
    EncodeAllOne(Pad(size));
  }

  /** At most one packet per step and one for the remainder; none is empty, so a
      write that accepts nothing always means a stopped transport. */
  lemma {:induction false} PacketsBounded(steps: seq<Step>, tape: Tape, rest: seq<byte>)
    requires SmallSteps(steps)
    requires PacketsOf(steps, tape, rest).Some?
    ensures |PacketsOf(steps, tape, rest).value.packets| <= |steps| + 1
    ensures NonEmpty(PacketsOf(steps, tape, rest).value.packets)
    decreases |steps|
  {
    if steps == [] {
    } else if steps[0].Check? {
      if rest != [] {
        PacketsBounded(steps[1..], tape, rest);
      }
    } else {
      var d := Draw(steps[0].min, steps[0].max, tape).value;
      DrawRange(steps[0].min, steps[0].max, tape);
      PacketsBounded(steps[1..], d.tape, if |rest| > d.size then rest[d.size..] else []);
    }
  }

  /** The padding one size step adds when `n` bytes of data are left. */
  function FirstPads(n: nat, size: nat): seq<Frame>
    requires size <= MAX_FRAME
  {
    if n > size then [] else if n > 0 then Filler(n, size) else [Pad(size)]
  }

  lemma NoPads()
    ensures EncodeAll([]) == []
  {}

  lemma FirstPadsBounded(n: nat, size: nat)
    requires size <= MAX_FRAME
    ensures |EncodeAll(FirstPads(n, size))| <= size + HEADER && OnlyPadding(FirstPads(n, size))
  {
    var first := FirstPads(n, size);
    if first != [] {
      EncodeAllOne(first[0]);
    }
  }

  /** One group never adds more than its reserved overhead. */
  lemma {:induction false} PadsBounded(steps: seq<Step>, tape: Tape, n: nat)
    requires SmallSteps(steps)
    ensures |EncodeAll(PadsOf(steps, tape, n))| <= Cost(steps)
    ensures OnlyPadding(PadsOf(steps, tape, n))
    decreases |steps|
  {
    hide EncodeAll;
    NoPads();
    if steps != [] {
      CostHead(steps);
      CostOne(steps[0]);
      assert steps[..1] == [steps[0]];
      if steps[0].Check? {
        PadsBounded(steps[1..], tape, n);
      } else if Draw(steps[0].min, steps[0].max, tape).Some? {
        var d := Draw(steps[0].min, steps[0].max, tape).value;
        DrawRange(steps[0].min, steps[0].max, tape);
        PadsBounded(steps[1..], d.tape, if n > d.size then n - d.size else 0);
        FirstPadsBounded(n, d.size);
        EncodeAllConcat(FirstPads(n, d.size), PadsOf(steps[1..], d.tape, if n > d.size then n - d.size else 0));
      }
    }
  }

  lemma StepsOfSmall(p: Scheme, group: nat)
    requires Valid(p)
    ensures SmallSteps(StepsOf(p, group)) && |StepsOf(p, group)| <= MAX_STEPS
  {}

  method Packets(p: Scheme, group: nat, data: seq<byte>, tape: Tape) returns (r: Option<Packed>)
    requires Valid(p)
    ensures SmallSteps(StepsOf(p, group))
    ensures r == PacketsOf(StepsOf(p, group), tape, data)
    ensures r.Some? ==> |r.value.packets| <= 17 && NonEmpty(r.value.packets)
  {
    StepsOfSmall(p, group);
    var steps := StepsOf(p, group);
    var packets, rest, left := [], data, tape;
    var i := 0;
    ghost var whole := PacketsOf(steps, tape, data);
    if whole.Some? {
      PacketsBounded(steps, tape, data);
      assert [] + whole.value.packets == whole.value.packets;
    }
    assert steps[0..] == steps;
    while i < |steps|
      invariant 0 <= i <= |steps|
      invariant whole == Prepend(packets, PacketsOf(steps[i..], left, rest))
    {
      var step := steps[i];
      ghost var before, more := packets, steps[i..][1..];
      assert more == steps[i + 1..];
      i := i + 1;
      if step.Check? {
        if rest == [] {
          assert packets + [] == packets;
          return Some(Packed(packets, left));
        }
        continue;
      }
      var d := RandomSize(step.min, step.max, left);
      if d.None? {
        return None;
      }
      var size := d.value.size;
      left := d.value.tape;
      if |rest| > size {
        packets, rest := packets + [rest[..size]], rest[size..];
      } else if rest != [] {
        var packet := rest;
        if size > |rest| + HEADER {
          packet := packet + Encode(Pad(size - |rest| - HEADER));
          EncodeAllOne(Pad(size - |rest| - HEADER));
        }
        assert packet == rest + EncodeAll(Filler(|rest|, size));
        packets, rest := packets + [packet], [];
      } else {
        packets := packets + [Encode(Pad(size))];
      }
      PrependTwice(before, packets[|before|], PacketsOf(more, left, rest));
    }
    assert steps[i..] == [];
    if rest != [] {
      packets := packets + [rest];
    } else {
      assert packets + [] == packets;
    }
    r := Some(Packed(packets, left));
  }

  lemma PrependTwice(packets: seq<seq<byte>>, last: seq<byte>, p: Option<Packed>)
    ensures Prepend(packets, Prepend([last], p)) == Prepend(packets + [last], p)
  {
    if p.Some? {
      Assoc(packets, [last], p.value.packets);
    }
  }
}
