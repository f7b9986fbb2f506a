/** One AnyTLS session: queued frames, padding groups, heartbeat replies, an incremental
    frame parser and a close that reads and writes at once. Every poll of the transport
    takes the next answer of an arbitrary script, so what is proved holds for every
    interleaving of polls, every short write and every split of the inbound bytes. */
module SessionSpec {
  import opened Base
  import opened Frames
  import P = Padding

  const MAX_HEARTS := 32
  const MAX_CLOSE_DRAIN := 1024 * 1024
  const DISCARD := 16384

  datatype Kind =
    UnexpectedEof | InvalidData | BrokenPipe | WriteZero | TimedOut | PermissionDenied | ConnectionRefused | Other

  datatype Poll<+T> = Pending | Ok(value: T) | Err(kind: Kind)

  // ---------------------------------------------------------------- the environment

  datatype Answer = Later | Ready(n: nat) | Failed(kind: Kind)

  function Upcoming(answers: seq<Answer>): Answer { if answers == [] then Later else answers[0] }

  function Remaining(answers: seq<Answer>): seq<Answer> { if answers == [] then [] else answers[1..] }

  /** The TLS stream below the session, with a ghost record of what crossed it. */
  class Transport {
    var answers: seq<Answer>
    var inbound: seq<byte>
    var entropy: P.Tape
    ghost var wire: seq<byte>
    ghost var taken: seq<byte>
    ghost var shut: bool

    constructor (answers: seq<Answer>, inbound: seq<byte>, entropy: P.Tape)
      ensures this.answers == answers && this.inbound == inbound && this.entropy == entropy
      ensures wire == [] && taken == [] && !shut
    {
      this.answers, this.inbound, this.entropy := answers, inbound, entropy;
      wire, taken, shut := [], [], false;
    }

    /** The script runs dry into an endless `Pending`. */
    method Next() returns (a: Answer)
      modifies this`answers
      ensures a == Upcoming(old(answers)) && answers == Remaining(old(answers))
    {
      if answers == [] {
        return Later;
      }
      a := answers[0];
      answers := answers[1..];
    }

    method Write(data: seq<byte>) returns (r: Poll<nat>)
      modifies this`answers, this`wire
      ensures r.Ok? ==> r.value <= |data| && wire == old(wire) + data[..r.value]
      ensures !r.Ok? ==> wire == old(wire)
      ensures Upcoming(old(answers)).Ready? ==> r == Ok(Min(Upcoming(old(answers)).n, |data|))
      ensures answers == Remaining(old(answers))
    {
      var a := Next();
      match a
      case Later => r := Pending;
      case Failed(kind) => r := Err(kind);
      case Ready(n) =>
        r := Ok(Min(n, |data|));
        wire := wire + data[..r.value];
    }

    /** An empty result is end of stream. */
    method Read(max: nat) returns (r: Poll<seq<byte>>)
      modifies this`answers, this`inbound, this`taken
      ensures r.Ok? ==> |r.value| <= max && taken == old(taken) + r.value
      ensures !r.Ok? ==> taken == old(taken)
      ensures taken + inbound == old(taken + inbound) && (r.Ok? ==> r.value <= old(inbound) && inbound == old(inbound)[|r.value|..])
      ensures Upcoming(old(answers)).Ready? ==> r == Ok(old(inbound)[..Min(Upcoming(old(answers)).n, Min(max, |old(inbound)|))])
      ensures answers == Remaining(old(answers))
    {
      var a := Next();
      match a
      case Later => r := Pending;
      case Failed(kind) => r := Err(kind);
      case Ready(n) =>
        var k := Min(n, Min(max, |inbound|));
        r := Ok(inbound[..k]);
        taken := taken + inbound[..k];
        inbound := inbound[k..];
    }

    method Flush() returns (r: Poll<()>)
      modifies this`answers
      ensures (Upcoming(old(answers)).Ready? ==> r.Ok?) && answers == Remaining(old(answers))
    {
      var a := Next();
      r := match a case Later => Pending case Ready(_) => Ok(()) case Failed(kind) => Err(kind);
    }

    method Shutdown() returns (r: Poll<()>)
      modifies this`answers, this`shut
      ensures shut == (old(shut) || r.Ok?)
      ensures (Upcoming(old(answers)).Ready? ==> r.Ok?) && answers == Remaining(old(answers))
    {
      var a := Next();
      r := match a case Later => Pending case Ready(_) => Ok(()) case Failed(kind) => Err(kind);
      shut := shut || r.Ok?;
    }

    /** The close deadline: expiry is one more thing the environment decides. */
    method Expired() returns (b: bool)
      modifies this`answers
      ensures b == Upcoming(old(answers)).Ready? && answers == Remaining(old(answers))
    {
      var a := Next();
      b := a.Ready?;
    }
  }

  // ---------------------------------------------------------------- what the session says

  datatype Msg = Data(bytes: Body) | Reply(id: u32) | Fin

  function FrameOf(m: Msg): (f: Frame)
    ensures f.cmd != PADDING
  {
    match m
    case Data(bytes) => Frame(PSH, 1, bytes)
    case Reply(id) => Frame(HEART_REPLY, id, [])
    case Fin => Frame(FIN, 1, [])
  }

  function FramesOf(log: seq<Msg>): seq<Frame> { seq(|log|, i requires 0 <= i < |log| => FrameOf(log[i])) }

  /** The application bytes accepted so far. */
  function Accepted(log: seq<Msg>): seq<byte> {
    if log == [] then []
    else
      var m := log[|log| - 1];
      Accepted(log[..|log| - 1]) + (if m.Data? then m.bytes else [])
  }

  /** The heartbeat ids answered so far. */
  function Answered(log: seq<Msg>): seq<u32> {
    if log == [] then []
    else
      var m := log[|log| - 1];
      Answered(log[..|log| - 1]) + (if m.Reply? then [m.id] else [])
  }

  ghost predicate NoFin(log: seq<Msg>) { forall i :: 0 <= i < |log| ==> !log[i].Fin? }

  function Replies(ids: seq<u32>): seq<Msg> { seq(|ids|, i requires 0 <= i < |ids| => Reply(ids[i])) }

  lemma LogAppend(log: seq<Msg>, m: Msg)
    ensures Accepted(log + [m]) == Accepted(log) + (if m.Data? then m.bytes else [])
    ensures Answered(log + [m]) == Answered(log) + (if m.Reply? then [m.id] else [])
    ensures FramesOf(log + [m]) == FramesOf(log) + [FrameOf(m)]
  {
    assert (log + [m])[..|log|] == log;
  }

  lemma {:induction false} LogReplies(log: seq<Msg>, ids: seq<u32>)
    ensures Accepted(log + Replies(ids)) == Accepted(log)
    ensures Answered(log + Replies(ids)) == Answered(log) + ids
    decreases |ids|
  {
    if ids == [] {
      assert log + Replies(ids) == log;
    } else {
      var front, last := ids[..|ids| - 1], ids[|ids| - 1];
      LogReplies(log, front);
      assert log + Replies(ids) == (log + Replies(front)) + [Reply(last)];
      LogAppend(log + Replies(front), Reply(last));
      assert ids == front + [last];
    }
  }

  // ---------------------------------------------------------------- padding on the wire

  function PadBytes(fs: seq<Frame>): nat {
    if fs == [] then 0
    else (if fs[0].cmd == PADDING then |Encode(fs[0])| else 0) + PadBytes(fs[1..])
  }

  lemma {:induction false} PadBytesConcat(a: seq<Frame>, b: seq<Frame>)
    ensures PadBytes(a + b) == PadBytes(a) + PadBytes(b)
  {
    if a == [] {
      assert a + b == b;
    } else {
      PadBytesConcat(a[1..], b);
      assert (a + b)[1..] == a[1..] + b;
    }
  }

  /** The wire carries the meaningful frames and the padding, and nothing else. */
  lemma {:induction false} PadBytesMeaning(fs: seq<Frame>)
    ensures |EncodeAll(fs)| == |EncodeAll(Strip(fs))| + PadBytes(fs)
  {
    if fs != [] {
      PadBytesMeaning(fs[1..]);
      if fs[0].cmd != PADDING {
        EncodeAllConcat([fs[0]], Strip(fs[1..]));
        EncodeAllOne(fs[0]);
      } else {
        assert Strip(fs) == Strip(fs[1..]);
      }
    }
  }

  /** Appending one meaningful frame with its padding. */
  lemma Enqueue(all: seq<Frame>, f: Frame, pads: seq<Frame>)
    requires f.cmd != PADDING && OnlyPadding(pads)
    ensures EncodeAll(all + ([f] + pads)) == EncodeAll(all) + (Encode(f) + EncodeAll(pads))
    ensures Strip(all + ([f] + pads)) == Strip(all) + [f]
    ensures PadBytes(all + ([f] + pads)) == PadBytes(all) + |EncodeAll(pads)|
  {
    EncodeAllConcat(all, [f] + pads);
    EncodeAllConcat([f], pads);
    EncodeAllOne(f);
    StripConcat(all, [f] + pads);
    StripConcat([f], pads);
    StripOnlyPadding(pads);
    assert Strip([f]) == [f] + Strip([]);
    PadBytesConcat(all, [f] + pads);
    PadBytesConcat([f], pads);
    PadBytesMeaning(pads);
  }

  /** Padding that groups below `group` may have used; group 0 covers authentication. */
  ghost function Reserved(p: P.Scheme, group: nat): nat { P.Total(p.groups, if group < p.stop then group else p.stop) }

  lemma ReserveNext(p: P.Scheme, group: nat)
    requires P.Valid(p) && group <= P.MAX_STOP
    ensures Reserved(p, group) + P.Cost(P.StepsOf(p, group)) == Reserved(p, group + 1)
    ensures Reserved(p, Min(group + 1, P.MAX_STOP)) == Reserved(p, group + 1)
  {}

  function Unsent(outgoing: seq<seq<byte>>, written: nat): seq<byte>
    requires written <= |P.Join(outgoing)|
  {
    P.Join(outgoing)[written..]
  }

  ghost predicate Cursor(outgoing: seq<seq<byte>>, written: nat) {
    && P.NonEmpty(outgoing)
    && (if outgoing == [] then written == 0 else written < |outgoing[0]|)
  }

  /** Only an empty queue has nothing unsent. */
  lemma UnsentNothing(outgoing: seq<seq<byte>>, written: nat)
    requires Cursor(outgoing, written) && written <= |P.Join(outgoing)|
    ensures Unsent(outgoing, written) == [] <==> outgoing == []
  {}

  /** A transport that accepts `n` bytes of the front packet moves them to the wire. */
  lemma Advance(wire: seq<byte>, outgoing: seq<seq<byte>>, written: nat, n: nat, total: seq<byte>)
    requires outgoing != [] && written + n <= |outgoing[0]|
    requires wire + Unsent(outgoing, written) == total
    ensures wire + outgoing[0][written..][..n] + Unsent(outgoing, written + n) == total
    ensures written + n == |outgoing[0]| ==> Unsent(outgoing, written + n) == P.Join(outgoing[1..])
  {
    var join := P.Join(outgoing);
    var step := outgoing[0][written..][..n];
    assert join[written..] == step + join[written + n..];
    Assoc(wire, step, join[written + n..]);
  }

  // ---------------------------------------------------------------- what the peer may say

  /** The parts of the receiver that decide which frame is legal next. */
  datatype Peer = Peer(v2: bool, acknowledged: bool)

  predicate HeaderOk(p: Peer, cmd: byte, id: u32, len: nat) {
    if cmd == PADDING then id == 0
    else if cmd == PSH then id == 1
    else if cmd == FIN then id == 1 && len == 0
    else if cmd == 5 || cmd == 6 then id == 0 && len <= P.MAX_TEXT
    else if cmd == 7 then p.v2 && !p.acknowledged && id == 1 && len <= P.MAX_TEXT
    else if cmd == HEART_REQUEST || cmd == HEART_REPLY then p.v2 && len == 0
    else cmd == 10 && !p.v2 && id == 0 && len <= P.MAX_TEXT
  }

  const UPDATE_PADDING: byte := 6

  /** What one legal frame teaches about padding. */
  function Teach(known: P.Scheme, f: Frame): P.Scheme {
    if f.cmd == UPDATE_PADDING && P.Parse(f.body).Some? then P.Parse(f.body).value else known
  }

  /** The padding scheme kept for later sessions after these frames. */
  function Learned(known: P.Scheme, fs: seq<Frame>): P.Scheme {
    if fs == [] then known else Teach(Learned(known, fs[..|fs| - 1]), fs[|fs| - 1])
  }

  lemma LearnedOne(known: P.Scheme, fs: seq<Frame>, n: nat, f: Frame)
    requires n <= |fs|
    ensures Learned(known, (fs + [f])[n..]) == Teach(Learned(known, fs[n..]), f)
  {
    hide Teach;
    assert (fs + [f])[n..] == fs[n..] + [f];
    assert (fs[n..] + [f])[..|fs[n..]|] == fs[n..];
  }

  /** It is the last one announced. */
  lemma {:induction false} LearnedLast(known: P.Scheme, fs: seq<Frame>, i: nat)
    requires i < |fs| && fs[i].cmd == UPDATE_PADDING && P.Parse(fs[i].body).Some?
    requires forall j :: i < j < |fs| ==> fs[j].cmd != UPDATE_PADDING
    ensures P.Parse(fs[i].body) == Some(Learned(known, fs))
    decreases |fs|
  {
    hide P.Parse;
    if i < |fs| - 1 {
      LearnedLast(known, fs[..|fs| - 1], i);
    }
  }

  const VERSION: seq<byte> := [118]

  /** A server settings body names a protocol version of at least two. */
  predicate SettingsOk(body: seq<byte>) {
    var fields := P.Fields(body);
    fields.Some? &&
    var v := P.Lookup(fields.value, VERSION);
    v.Some? &&
    var n := P.Number(v.value);
    n.Some? && 2 <= n.value <= 0xFFFF
  }

  /** The effect of a legal frame on the receiver, or nothing when it ends the session in error. */
  function Step(p: Peer, f: Frame): Option<Peer> {
    if !HeaderOk(p, f.cmd, f.id, |f.body|) || f.cmd == 5 then None
    else if f.cmd == 6 then (if P.Parse(f.body).Some? then Some(p) else None)
    else if f.cmd == 7 then (if f.body == [] then Some(p.(acknowledged := true)) else None)
    else if f.cmd == 10 then (if SettingsOk(f.body) then Some(p.(v2 := true)) else None)
    else Some(p)
  }

  function PeerAfter(fs: seq<Frame>): Option<Peer> {
    if fs == [] then Some(Peer(false, false))
    else
      var p :- PeerAfter(fs[..|fs| - 1]);
      Step(p, fs[|fs| - 1])
  }

  ghost predicate NoCmd(cmd: byte, fs: seq<Frame>) { forall i :: 0 <= i < |fs| ==> fs[i].cmd != cmd }

  lemma HeardOne(fs: seq<Frame>, f: Frame)
    ensures EncodeAll(fs + [f]) == EncodeAll(fs) + Encode(f)
    ensures Payload(fs + [f]) == Payload(fs) + (if f.cmd == PSH then f.body else [])
    ensures Ids(HEART_REQUEST, fs + [f]) == Ids(HEART_REQUEST, fs) + (if f.cmd == HEART_REQUEST then [f.id] else [])
    ensures PeerAfter(fs).Some? ==> PeerAfter(fs + [f]) == Step(PeerAfter(fs).value, f)
  {
    EncodeAllConcat(fs, [f]);
    EncodeAllOne(f);
    PayloadConcat(fs, [f]);
    assert Payload([f]) == (if f.cmd == PSH then f.body else []) + Payload([]);
    IdsConcat(HEART_REQUEST, fs, [f]);
    assert Ids(HEART_REQUEST, [f]) == (if f.cmd == HEART_REQUEST then [f.id] else []) + Ids(HEART_REQUEST, []);
    assert (fs + [f])[..|fs|] == fs;
  }

  /** Overwrites part of a fixed buffer, as a read into a sub-slice does. */
  function Fill(buffer: seq<byte>, at: nat, bytes: seq<byte>): (r: seq<byte>)
    requires at + |bytes| <= |buffer|
    ensures |r| == |buffer|
    ensures r[..at + |bytes|] == buffer[..at] + bytes
  {
    buffer[..at] + bytes + buffer[at + |bytes|..]
  }

  function Resize(buffer: seq<byte>, n: nat): (r: seq<byte>)
    ensures |r| == n
  {
    if |buffer| >= n then buffer[..n] else buffer + P.Zeros(n - |buffer|)
  }

  function HeaderLen(header: seq<byte>): nat
    requires |header| == HEADER
  {
    FromBe16(header[5..7])
  }

  /** The bytes of the frame being assembled. */
  ghost function Partial(header: seq<byte>, headerRead: nat, body: seq<byte>, bodyRead: nat): seq<byte>
    requires |header| == HEADER && headerRead <= HEADER
    requires headerRead == HEADER ==> bodyRead <= |body|
  {
    if headerRead < HEADER then header[..headerRead] else header + body[..bodyRead]
  }

  lemma PartialIncomplete(header: seq<byte>, headerRead: nat, body: seq<byte>, bodyRead: nat)
    requires |header| == HEADER && headerRead <= HEADER
    requires headerRead == HEADER ==> bodyRead <= |body| == HeaderLen(header)
    ensures Complete(Partial(header, headerRead, body, bodyRead)) <==> headerRead == HEADER && bodyRead == |body|
    ensures headerRead == HEADER && bodyRead == |body| ==>
              header + body == Encode(Frame(header[0], FromBe32(header[1..5]), body))
  {
    if headerRead == HEADER {
      var s := Partial(header, headerRead, body, bodyRead);
      assert s[5..7] == header[5..7];
      Be32Inverse(header[1..5]);
      Be16Inverse(header[5..7]);
      assert header == [header[0]] + header[1..5] + header[5..7];
    }
  }

  lemma FillHeader(header: seq<byte>, at: nat, bytes: seq<byte>, body: seq<byte>, bodyRead: nat, next: seq<byte>)
    requires |header| == HEADER && at < HEADER && at + |bytes| <= HEADER
    ensures at + |bytes| < HEADER ==>
              Partial(Fill(header, at, bytes), at + |bytes|, body, bodyRead) == Partial(header, at, body, bodyRead) + bytes
    ensures at + |bytes| == HEADER ==>
              Partial(Fill(header, at, bytes), HEADER, next, 0) == Partial(header, at, body, bodyRead) + bytes
  {}

  lemma FillBody(header: seq<byte>, body: seq<byte>, at: nat, bytes: seq<byte>)
    requires |header| == HEADER && at + |bytes| <= |body|
    ensures Partial(header, HEADER, Fill(body, at, bytes), at + |bytes|) == Partial(header, HEADER, body, at) + bytes
  {
    Assoc(header, body[..at], bytes);
  }

  // ---------------------------------------------------------------- session state and its invariant

  /** The writing half. */
  datatype Send = Send(group: nat, outgoing: seq<seq<byte>>, written: nat, hearts: seq<u32>,
                       finQueued: bool, writeClosed: bool)

  /** The frame parser. */
  datatype Recv = Recv(header: seq<byte>, headerRead: nat, body: seq<byte>, bodyRead: nat, delivered: nat,
                       dataReady: bool, replyPending: bool, v2: bool, acknowledged: bool) {
    function Speaker(): Peer { Peer(v2, acknowledged) }
  }

  /** The local close: `armed` is the deadline being set. */
  datatype Close = Close(armed: bool, drained: nat, peerClosed: bool)

  /** Fixed when the session opens: its scheme, the authentication bytes with the padding in
      them, and the SETTINGS, SYN and address frames. */
  datatype Setup = Setup(padding: P.Scheme, auth: seq<byte>, authPad: u16, opening: seq<Frame>)

  /** History of the writing half: every frame queued, what they say, and the heartbeat requests
      taken up for an answer with the number lost to a failing random source. */
  datatype Said = Said(all: seq<Frame>, log: seq<Msg>, popped: seq<u32>, dropped: nat)

  /** History of the reading half: bytes parsed, frames finished, bytes handed to the application. */
  datatype Heard = Heard(received: seq<byte>, frames: seq<Frame>, out: seq<byte>)

  /** While the transport is held, wire and queue together are exactly the queued frames;
      a closed write side has put all of them on the wire. */
  ghost predicate FlowOk(su: Setup, open: bool, wire: seq<byte>, shut: bool, send: Send, all: seq<Frame>) {
    var total := su.auth + EncodeAll(all);
    && su.auth <= wire
    && (if open
        then && Cursor(send.outgoing, send.written) && send.written <= |P.Join(send.outgoing)|
             && wire + Unsent(send.outgoing, send.written) == total
        else send.outgoing == [] && wire <= total)
    && (send.writeClosed ==> send.finQueued && shut && send.outgoing == [] && wire == total)
  }

  /** What never reached the wire, given the writing half at the moment the transport was given up. */
  function Lost(left: Send): seq<byte> {
    if left.written <= |P.Join(left.outgoing)| then Unsent(left.outgoing, left.written) else []
  }

  /** Nothing is lost while the transport is held, and afterwards exactly what was unsent when it was given up. */
  ghost predicate LossOk(su: Setup, open: bool, wire: seq<byte>, left: Send, all: seq<Frame>) {
    && Cursor(left.outgoing, left.written) && left.written <= |P.Join(left.outgoing)|
    && (if open then left.outgoing == [] else wire + Lost(left) == su.auth + EncodeAll(all))
  }

  /** Without padding the queued frames are the opening and the log; padding stays in budget. */
  ghost predicate SaidOk(su: Setup, group: nat, all: seq<Frame>, log: seq<Msg>) {
    && Strip(all) == su.opening + FramesOf(log)
    && P.Valid(su.padding) && 2 <= group <= P.MAX_STOP
    && PadBytes(all) + su.authPad <= Reserved(su.padding, group)
  }

  /** Every heartbeat request is pending, answered in order, or lost to the random source. */
  ghost predicate HeartOk(open: bool, hearts: seq<u32>, said: Said, frames: seq<Frame>) {
    && |hearts| <= MAX_HEARTS
    && (if open then Ids(HEART_REQUEST, frames) == said.popped + hearts
        else hearts == [] && said.popped <= Ids(HEART_REQUEST, frames))
    && |said.popped| == |Answered(said.log)| + said.dropped
    && (said.dropped == 0 ==> said.popped == Answered(said.log))
  }

  /** FIN is said at most once, and nothing is said after it. */
  ghost predicate FinOk(open: bool, armed: bool, finQueued: bool, hearts: seq<u32>, log: seq<Msg>) {
    if finQueued
    then log != [] && log[|log| - 1].Fin? && NoFin(log[..|log| - 1]) && (open ==> armed && hearts == [])
    else NoFin(log)
  }

  /** Delivered bytes and the assembled tail are the payload of the finished frames. */
  ghost predicate RecvCore(recv: Recv, heard: Heard) {
    && |recv.header| == HEADER && recv.headerRead <= HEADER
    && EncodeAll(heard.frames) <= heard.received
    && (recv.dataReady ==> recv.headerRead == 0 && recv.delivered < |recv.body|)
    && heard.out + (if recv.dataReady then recv.body[recv.delivered..] else []) == Payload(heard.frames)
  }

  /** Bytes read into the body keep the parser in step with the stream. */
  lemma BodyFilled(recv: Recv, heard: Heard, bytes: seq<byte>)
    requires RecvCore(recv, heard) && RecvLive(recv, heard) && recv.headerRead == HEADER && !recv.dataReady
    requires recv.bodyRead + |bytes| <= |recv.body|
    ensures var next, more := recv.(body := Fill(recv.body, recv.bodyRead, bytes), bodyRead := recv.bodyRead + |bytes|),
                              heard.(received := heard.received + bytes);
            RecvCore(next, more) && RecvLive(next, more)
  {
    hide EncodeAll, Payload, PeerAfter, HeaderOk, NoCmd, FromBe32, HeaderLen, Partial, Fill;
    Assoc(EncodeAll(heard.frames), Partial(recv.header, HEADER, recv.body, recv.bodyRead), bytes);
    FillBody(recv.header, recv.body, recv.bodyRead, bytes);
  }

  /** The parser state is a function of the bytes read, however they were split. */
  ghost predicate RecvLive(recv: Recv, heard: Heard)
    requires RecvCore(recv, heard)
  {
    && (recv.headerRead == HEADER ==>
          && recv.delivered == 0 && recv.bodyRead <= |recv.body| == HeaderLen(recv.header)
          && HeaderOk(recv.Speaker(), recv.header[0], FromBe32(recv.header[1..5]), |recv.body|))
    && heard.received == EncodeAll(heard.frames) + Partial(recv.header, recv.headerRead, recv.body, recv.bodyRead)
    && PeerAfter(heard.frames) == Some(recv.Speaker())
    && (heard.frames != [] ==> NoCmd(FIN, heard.frames[..|heard.frames| - 1]))
  }

  ghost predicate FinHeard(frames: seq<Frame>) { frames != [] && frames[|frames| - 1].cmd == FIN }

  /** A frame is complete but not acted on only inside one poll. */
  ghost predicate Parked(recv: Recv) { recv.headerRead == HEADER ==> recv.bodyRead < |recv.body| }

  function FrameIn(recv: Recv): Frame
    requires |recv.header| == HEADER && |recv.body| <= MAX_FRAME
  {
    Frame(recv.header[0], FromBe32(recv.header[1..5]), recv.body)
  }

  /** The parser after acting on a complete legal frame. */
  function Next(recv: Recv, peer: Peer, pending: bool): Recv
    requires |recv.header| == HEADER
  {
    recv.(headerRead := 0, replyPending := pending, v2 := peer.v2, acknowledged := peer.acknowledged,
          dataReady := recv.header[0] == PSH && recv.body != [])
  }

  /** The bytes of a complete frame are all the parser holds. */
  lemma HearBytes(recv: Recv, heard: Heard)
    requires RecvCore(recv, heard) && RecvLive(recv, heard)
    requires recv.headerRead == HEADER && recv.bodyRead == |recv.body|
    ensures heard.received == EncodeAll(heard.frames + [FrameIn(recv)])
  {
    hide EncodeAll, Encode, Payload, PeerAfter, FromBe32, FromBe16, Step, HeaderOk, Complete, Ids, NoCmd;
    HeardOne(heard.frames, FrameIn(recv));
    PartialIncomplete(recv.header, recv.headerRead, recv.body, recv.bodyRead);
    assert recv.body[..recv.bodyRead] == recv.body;
  }

  lemma HearCore(recv: Recv, heard: Heard, peer: Peer, pending: bool)
    requires RecvCore(recv, heard) && RecvLive(recv, heard) && !recv.dataReady
    requires recv.headerRead == HEADER && recv.bodyRead == |recv.body|
    ensures RecvCore(Next(recv, peer, pending), heard.(frames := heard.frames + [FrameIn(recv)]))
  {
    hide EncodeAll, Encode, Payload, PeerAfter, FromBe32, HeaderOk, NoCmd, Partial;
    HeardOne(heard.frames, FrameIn(recv));
    HearBytes(recv, heard);
    assert recv.body[recv.delivered..] == recv.body;
  }

  lemma Hear(recv: Recv, heard: Heard, peer: Peer, pending: bool)
    requires RecvCore(recv, heard) && RecvLive(recv, heard) && !recv.dataReady && NoCmd(FIN, heard.frames)
    requires recv.headerRead == HEADER && recv.bodyRead == |recv.body|
    requires Step(recv.Speaker(), FrameIn(recv)) == Some(peer)
    ensures var next, after := Next(recv, peer, pending), heard.(frames := heard.frames + [FrameIn(recv)]);
            RecvCore(next, after) && RecvLive(next, after) && Parked(next)
  {
    HearCore(recv, heard, peer, pending);
    HearBytes(recv, heard);
    HeardOne(heard.frames, FrameIn(recv));
    hide RecvCore, EncodeAll, Encode, Payload, PeerAfter, FromBe32, HeaderLen, Step, HeaderOk, NoCmd, Ids;
    var next := Next(recv, peer, pending);
    var frames := heard.frames + [FrameIn(recv)];
    assert Partial(next.header, next.headerRead, next.body, next.bodyRead) == [];
    assert EncodeAll(frames) + [] == EncodeAll(frames);
    assert frames[..|frames| - 1] == heard.frames;
  }
}
