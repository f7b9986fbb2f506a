/** The AnyTLS frame codec: one command byte, a big-endian stream id, a big-endian
    16-bit body length, and the body. */
module Frames {
  import opened Base

  type u16 = n: int | 0 <= n < 0x1_0000
  type u32 = n: int | 0 <= n < 0x1_0000_0000

  const HEADER := 7
  const MAX_FRAME := 65535

  // Commands used by the session.
  const PADDING: byte := 0
  const SYN: byte := 1
  const PSH: byte := 2
  const FIN: byte := 3
  const SETTINGS: byte := 4
  const HEART_REQUEST: byte := 8
  const HEART_REPLY: byte := 9

  /** The length field is 16 bits wide, so every caller of `append_frame` owes this bound. */
  type Body = b: seq<byte> | |b| <= MAX_FRAME

  datatype Frame = Frame(cmd: byte, id: u32, body: Body)

  function Be16(n: u16): (r: seq<byte>) { [n / 0x100, n % 0x100] }

  function Be32(n: u32): (r: seq<byte>) {
    [n / 0x100_0000, n / 0x1_0000 % 0x100, n / 0x100 % 0x100, n % 0x100]
  }

  function FromBe16(s: seq<byte>): u16
    requires |s| == 2
  {
    var (a: int, b: int) := (s[0], s[1]);
    a * 0x100 + b
  }

  function FromBe32(s: seq<byte>): u32
    requires |s| == 4
  {
    var (a: int, b: int, c: int, d: int) := (s[0], s[1], s[2], s[3]);
    a * 0x100_0000 + b * 0x1_0000 + c * 0x100 + d
  }

  lemma BeRoundTrip(n: u32)
    ensures FromBe32(Be32(n)) == n
    ensures n < 0x1_0000 ==> FromBe16(Be16(n)) == n
  {
    var low, mid, high := n / 0x100, n / 0x1_0000, n / 0x100_0000;
    assert n == low * 0x100 + n % 0x100;
    assert low == mid * 0x100 + low % 0x100 by { assert low / 0x100 == mid; }
    assert mid == high * 0x100 + mid % 0x100 by { assert mid / 0x100 == high; }
    assert high < 0x100;
  }

  /** The first differing byte decides. */
  ghost predicate FirstLess(a: seq<byte>, b: seq<byte>) {
    exists i :: 0 <= i < |a| && i < |b| && a[..i] == b[..i] && a[i] < b[i]
  }

  lemma LessAt(a: seq<byte>, b: seq<byte>, i: nat)
    requires i < |a| && i < |b| && a[..i] == b[..i] && a[i] < b[i]
    ensures FirstLess(a, b)
  {
  }

  /** The most significant byte comes first: numbers are ordered as their encodings read from the left. */
  lemma BigEndian(n: u32, m: u32)
    requires n < m
    ensures FirstLess(Be32(n), Be32(m)) && (m < 0x1_0000 ==> FirstLess(Be16(n), Be16(m)))
  {
    BeRoundTrip(n);
    BeRoundTrip(m);
    var a, b := Be32(n), Be32(m);
    var i := if a[0] != b[0] then 0 else if a[1] != b[1] then 1 else if a[2] != b[2] then 2 else 3;
    assert a[..i] == b[..i] && a[i] < b[i];
    LessAt(a, b, i);
    if m < 0x1_0000 {
      var c, d := Be16(n), Be16(m);
      LessAt(c, d, if c[0] != d[0] then 0 else 1);
    }
  }

  lemma Be16Inverse(s: seq<byte>)
    requires |s| == 2
    ensures Be16(FromBe16(s)) == s
  {}

  lemma Be32Inverse(s: seq<byte>)
    requires |s| == 4
    ensures Be32(FromBe32(s)) == s
  {
    var (a: int, b: int, c: int, d: int) := (s[0], s[1], s[2], s[3]);
    var n := FromBe32(s);
    assert n / 0x100 == a * 0x1_0000 + b * 0x100 + c;
    assert n / 0x1_0000 == a * 0x100 + b;
    assert n / 0x100_0000 == a;
  }

  /** What `append_frame` adds to its buffer. */
  function Encode(f: Frame): (r: seq<byte>)
    ensures |r| == HEADER + |f.body|
  {
    [f.cmd] + Be32(f.id) + Be16(|f.body|) + f.body
  }

  function EncodeAll(fs: seq<Frame>): seq<byte> {
    if fs == [] then [] else Encode(fs[0]) + EncodeAll(fs[1..])
  }

  /** True when `s` starts with a whole frame. */
  predicate Complete(s: seq<byte>) {
    |s| >= HEADER && |s| >= HEADER + FromBe16(s[5..7])
  }

  function First(s: seq<byte>): Frame
    requires Complete(s)
  {
    Frame(s[0], FromBe32(s[1..5]), s[HEADER..HEADER + FromBe16(s[5..7])])
  }

  function AfterFirst(s: seq<byte>): (r: seq<byte>)
    requires Complete(s)
    ensures |r| < |s|
  {
    s[HEADER + FromBe16(s[5..7])..]
  }

  /** Reads as many whole frames as `s` holds. */
  function Decode(s: seq<byte>): seq<Frame>
    decreases |s|
  {
    if Complete(s) then [First(s)] + Decode(AfterFirst(s)) else []
  }

  /** The incomplete rest behind the last whole frame of `s`. */
  function Rest(s: seq<byte>): seq<byte>
    decreases |s|
  {
    if Complete(s) then Rest(AfterFirst(s)) else s
  }

  lemma FirstOfEncode(f: Frame, tail: seq<byte>)
    ensures Complete(Encode(f) + tail)
    ensures First(Encode(f) + tail) == f
    ensures AfterFirst(Encode(f) + tail) == tail
  {
    var s := Encode(f) + tail;
    assert s[5..7] == Be16(|f.body|);
    assert s[1..5] == Be32(f.id);
    BeRoundTrip(f.id);
    BeRoundTrip(|f.body|);
    assert s[HEADER..HEADER + |f.body|] == f.body;
  }

  lemma EncodeFirst(s: seq<byte>)
    requires Complete(s)
    ensures s == Encode(First(s)) + AfterFirst(s)
  {
    var f := First(s);
    Be32Inverse(s[1..5]);
    Be16Inverse(s[5..7]);
    assert s[..HEADER] == [s[0]] + s[1..5] + s[5..7];
    assert s == s[..HEADER] + f.body + AfterFirst(s);
  }

  /** Decoding peels encoded frames off the front of any byte string. */
  lemma {:induction false} DecodeAfter(fs: seq<Frame>, rest: seq<byte>)
    ensures Decode(EncodeAll(fs) + rest) == fs + Decode(rest)
    ensures Rest(EncodeAll(fs) + rest) == Rest(rest)
  {
    if fs == [] {
      assert EncodeAll(fs) + rest == rest;
    } else {
      var tail := EncodeAll(fs[1..]) + rest;
      Assoc(Encode(fs[0]), EncodeAll(fs[1..]), rest);
      FirstOfEncode(fs[0], tail);
      DecodeAfter(fs[1..], rest);
      Assoc([fs[0]], fs[1..], Decode(rest));
      assert fs == [fs[0]] + fs[1..];
    }
  }

  /** Decoding undoes encoding, and leaves any incomplete tail alone. */
  lemma DecodeEncodeAll(fs: seq<Frame>, tail: seq<byte>)
    requires !Complete(tail)
    ensures Decode(EncodeAll(fs) + tail) == fs
    ensures Rest(EncodeAll(fs) + tail) == tail
  {
    DecodeAfter(fs, tail);
  }

  /** Encoding undoes decoding: no byte string is decoded with loss. */
  lemma {:induction false} EncodeDecode(s: seq<byte>)
    ensures EncodeAll(Decode(s)) + Rest(s) == s
    ensures !Complete(Rest(s))
    decreases |s|
  {
    if Complete(s) {
      var later := AfterFirst(s);
      EncodeDecode(later);
      EncodeFirst(s);
      assert Decode(s)[1..] == Decode(later);
      Assoc(Encode(First(s)), EncodeAll(Decode(later)), Rest(later));
    }
  }

  /** More bytes never change a frame that was already decoded. */
  lemma DecodeMonotone(s: seq<byte>, t: seq<byte>)
    ensures Decode(s) <= Decode(s + t)
  {
    EncodeDecode(s);
    Assoc(EncodeAll(Decode(s)), Rest(s), t);
    DecodeAfter(Decode(s), Rest(s) + t);
  }

  lemma {:induction false} EncodeAllConcat(a: seq<Frame>, b: seq<Frame>)
    ensures EncodeAll(a + b) == EncodeAll(a) + EncodeAll(b)
  {
    if a == [] {
      assert a + b == b;
    } else {
      EncodeAllConcat(a[1..], b);
      assert (a + b)[1..] == a[1..] + b;
      Assoc(Encode(a[0]), EncodeAll(a[1..]), EncodeAll(b));
    }
  }

  lemma EncodeAllOne(f: Frame)
    ensures EncodeAll([f]) == Encode(f)
  {
    assert EncodeAll([f]) == Encode(f) + EncodeAll([]);
  }

  // Projections of a frame sequence.

  /** The frames that carry meaning: everything but padding. */
  function Strip(fs: seq<Frame>): seq<Frame> {
    if fs == [] then []
    else (if fs[0].cmd == PADDING then [] else [fs[0]]) + Strip(fs[1..])
  }

  /** Concatenated bodies of the data frames. */
  function Payload(fs: seq<Frame>): seq<byte> {
    if fs == [] then []
    else (if fs[0].cmd == PSH then fs[0].body else []) + Payload(fs[1..])
  }

  /** Ids of the frames with command `cmd`. */
  function Ids(cmd: byte, fs: seq<Frame>): seq<u32> {
    if fs == [] then []
    else (if fs[0].cmd == cmd then [fs[0].id] else []) + Ids(cmd, fs[1..])
  }

  lemma {:induction false} StripConcat(a: seq<Frame>, b: seq<Frame>)
    ensures Strip(a + b) == Strip(a) + Strip(b)
  {
    if a == [] {
      assert a + b == b;
    } else {
      StripConcat(a[1..], b);
      assert (a + b)[1..] == a[1..] + b;
      var head := if a[0].cmd == PADDING then [] else [a[0]];
      Assoc(head, Strip(a[1..]), Strip(b));
    }
  }

  lemma {:induction false} PayloadConcat(a: seq<Frame>, b: seq<Frame>)
    ensures Payload(a + b) == Payload(a) + Payload(b)
  {
    if a == [] {
      assert a + b == b;
    } else {
      PayloadConcat(a[1..], b);
      assert (a + b)[1..] == a[1..] + b;
      var head := if a[0].cmd == PSH then a[0].body else [];
      Assoc(head, Payload(a[1..]), Payload(b));
    }
  }

  lemma {:induction false} IdsConcat(cmd: byte, a: seq<Frame>, b: seq<Frame>)
    ensures Ids(cmd, a + b) == Ids(cmd, a) + Ids(cmd, b)
  {
    if a == [] {
      assert a + b == b;
    } else {
      IdsConcat(cmd, a[1..], b);
      assert (a + b)[1..] == a[1..] + b;
      var head := if a[0].cmd == cmd then [a[0].id] else [];
      Assoc(head, Ids(cmd, a[1..]), Ids(cmd, b));
    }
  }

  /** Padding frames only: nothing is left once they are stripped. */
  ghost predicate OnlyPadding(fs: seq<Frame>) {
    forall i :: 0 <= i < |fs| ==> fs[i].cmd == PADDING
  }

  lemma {:induction false} StripOnlyPadding(fs: seq<Frame>)
    requires OnlyPadding(fs)
    ensures Strip(fs) == []
  {
    if fs != [] {
      StripOnlyPadding(fs[1..]);
    }
  }
}
