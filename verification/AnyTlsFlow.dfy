/** What a transport's coming answers are enough for: reading one whole frame or writing the whole queue, however they
    split it. */
module SessionFlow {
  import opened Base
  import opened Frames
  import opened SessionSpec
  import P = Padding

  // ---------------------------------------------------------------- reading a header

  /** The header buffer after a read. */
  function FillIn(recv: Recv, bytes: seq<byte>): Recv
    requires |recv.header| == HEADER && recv.headerRead + |bytes| <= HEADER
  {
    recv.(header := Fill(recv.header, recv.headerRead, bytes), headerRead := recv.headerRead + |bytes|)
  }

  /** The parser after a read into the header; a complete header is judged and sizes the body. */
  function TakeHeader(recv: Recv, bytes: seq<byte>): Option<Recv>
    requires |recv.header| == HEADER && recv.headerRead + |bytes| <= HEADER
  {
    var next := FillIn(recv, bytes);
    if next.headerRead < HEADER then Some(next)
    else if HeaderOk(next.Speaker(), next.header[0], FromBe32(next.header[1..5]), HeaderLen(next.header))
    then Some(next.(body := Resize(next.body, HeaderLen(next.header)), bodyRead := 0, delivered := 0))
    else None
  }

  lemma HeaderFills(recv: Recv, heard: Heard, bytes: seq<byte>)
    requires RecvCore(recv, heard) && RecvLive(recv, heard) && !recv.dataReady
    requires recv.headerRead < HEADER && recv.headerRead + |bytes| <= HEADER && bytes != []
    ensures var next, after := TakeHeader(recv, bytes), heard.(received := heard.received + bytes);
            && RecvCore(FillIn(recv, bytes), after)
            && (next.Some? ==>
                  && RecvCore(next.value, after) && RecvLive(next.value, after) && !next.value.dataReady
                  && next.value.headerRead == recv.headerRead + |bytes|)
  {
    hide EncodeAll, Payload, PeerAfter, HeaderOk, NoCmd, FromBe32, FromBe16, HeaderLen, Partial, Fill, Resize;
    var header := Fill(recv.header, recv.headerRead, bytes);
    Assoc(EncodeAll(heard.frames), Partial(recv.header, recv.headerRead, recv.body, recv.bodyRead), bytes);
    FillHeader(recv.header, recv.headerRead, bytes, recv.body, recv.bodyRead, Resize(recv.body, HeaderLen(header)));
  }

  // ---------------------------------------------------------------- a frame that is arriving

  /** The answers left once `k` bytes have been read, if the answers are enough for that. */
  function ReadsLeft(answers: seq<Answer>, k: nat): Option<seq<Answer>> {
    if k == 0 then Some(answers)
    else if answers == [] || !answers[0].Ready? || answers[0].n == 0 then None
    else ReadsLeft(answers[1..], k - Min(answers[0].n, k))
  }

  /** The rest of a legal frame is inbound and the answers are enough to read it. */
  ghost predicate Arriving(f: Frame, recv: Recv, inbound: seq<byte>, answers: seq<Answer>) {
    && |recv.header| == HEADER && recv.headerRead <= HEADER && Step(recv.Speaker(), f).Some?
    && if recv.headerRead < HEADER
       then Encode(f) <= recv.header[..recv.headerRead] + inbound && BothLeft(answers, HEADER - recv.headerRead, |f.body|)
       else && recv.header == Encode(f)[..HEADER] && |recv.body| == |f.body| && recv.bodyRead <= |recv.body|
            && f.body <= recv.body[..recv.bodyRead] + inbound && ReadsLeft(answers, |recv.body| - recv.bodyRead).Some?
  }

  predicate BothLeft(answers: seq<Answer>, header: nat, body: nat) {
    ReadsLeft(answers, header).Some? && ReadsLeft(ReadsLeft(answers, header).value, body).Some?
  }

  lemma EncodedHeader(f: Frame)
    ensures |Encode(f)| == HEADER + |f.body| && Encode(f)[HEADER..] == f.body
    ensures var header := Encode(f)[..HEADER];
            header[0] == f.cmd && FromBe32(header[1..5]) == f.id && HeaderLen(header) == |f.body|
  {
    BeRoundTrip(f.id);
    BeRoundTrip(|f.body|);
    var header := Encode(f)[..HEADER];
    assert header[1..5] == Be32(f.id) && header[5..7] == Be16(|f.body|);
  }

  lemma StepHeader(p: Peer, f: Frame)
    requires Step(p, f).Some?
    ensures HeaderOk(p, f.cmd, f.id, |f.body|)
  {
  }

  lemma BothNext(answers: seq<Answer>, header: nat, body: nat)
    requires header > 0 && BothLeft(answers, header, body)
    ensures Upcoming(answers).Ready? && Upcoming(answers).n > 0
    ensures var n := Min(Upcoming(answers).n, header);
            if n < header then BothLeft(Remaining(answers), header - n, body) else ReadsLeft(Remaining(answers), body).Some?
  {
    var n := Min(answers[0].n, header);
    assert ReadsLeft(answers, header) == ReadsLeft(answers[1..], header - n);
    assert ReadsLeft(answers[1..], 0) == Some(answers[1..]);
  }

  /** Bytes moved from the stream to the buffer leave the whole as it is. */
  lemma Moved(recv: Recv, bytes: seq<byte>, rest: seq<byte>)
    requires |recv.header| == HEADER && recv.headerRead + |bytes| <= HEADER
    ensures var next := FillIn(recv, bytes);
            recv.header[..recv.headerRead] + (bytes + rest) == next.header[..next.headerRead] + rest
  {
    hide Fill;
    var next := FillIn(recv, bytes);
    assert next.header[..next.headerRead] == recv.header[..recv.headerRead] + bytes;
    Assoc(recv.header[..recv.headerRead], bytes, rest);
  }

  /** A complete header is the frame's, and the body follows it. */
  lemma HeaderWhole(f: Frame, header: seq<byte>, rest: seq<byte>)
    requires |header| == HEADER && Encode(f) <= header + rest
    ensures header == Encode(f)[..HEADER] && f.body <= rest
  {
    hide Encode, FromBe32, HeaderLen;
    EncodedHeader(f);
    var whole := header + rest;
    assert Encode(f) == whole[..|Encode(f)|];
    assert whole[..|Encode(f)|][..HEADER] == header && whole[..|Encode(f)|][HEADER..] == rest[..|f.body|];
  }

  /** The next read makes progress on the header and keeps the frame arriving. */
  lemma HeaderArrives(f: Frame, recv: Recv, inbound: seq<byte>, answers: seq<Answer>)
    requires Arriving(f, recv, inbound, answers) && recv.headerRead < HEADER
    ensures Upcoming(answers).Ready?
    ensures var bytes := inbound[..Min(Upcoming(answers).n, Min(HEADER - recv.headerRead, |inbound|))];
            && bytes != [] && recv.headerRead + |bytes| <= HEADER && TakeHeader(recv, bytes).Some?
            && Arriving(f, TakeHeader(recv, bytes).value, inbound[|bytes|..], Remaining(answers))
            && TakeHeader(recv, bytes).value.Speaker() == recv.Speaker()
  {
    hide Encode, HeaderOk, Step, FromBe32, HeaderLen, Fill, Resize, BothLeft, ReadsLeft, Upcoming, Remaining;
    EncodedHeader(f);
    StepHeader(recv.Speaker(), f);
    BothNext(answers, HEADER - recv.headerRead, |f.body|);
    var bytes := inbound[..Min(Upcoming(answers).n, Min(HEADER - recv.headerRead, |inbound|))];
    var next, rest := FillIn(recv, bytes), inbound[|bytes|..];
    assert inbound == bytes + rest;
    Moved(recv, bytes, rest);
    if next.headerRead == HEADER {
      assert next.header[..HEADER] == next.header;
      HeaderWhole(f, next.header, rest);
      var done := TakeHeader(recv, bytes).value;
      assert done.body[..0] + rest == rest;
    }
  }

  /** The next read makes progress on the body and keeps the frame arriving. */
  lemma BodyArrives(f: Frame, recv: Recv, inbound: seq<byte>, answers: seq<Answer>)
    requires Arriving(f, recv, inbound, answers) && recv.headerRead == HEADER && recv.bodyRead < |recv.body|
    ensures Upcoming(answers).Ready?
    ensures var bytes := inbound[..Min(Upcoming(answers).n, Min(|recv.body| - recv.bodyRead, |inbound|))];
            && bytes != [] && recv.bodyRead + |bytes| <= |recv.body|
            && Arriving(f, recv.(body := Fill(recv.body, recv.bodyRead, bytes), bodyRead := recv.bodyRead + |bytes|),
                        inbound[|bytes|..], Remaining(answers))
  {
    hide Encode, Step, Fill;
    var bytes := inbound[..Min(Upcoming(answers).n, Min(|recv.body| - recv.bodyRead, |inbound|))];
    var body := Fill(recv.body, recv.bodyRead, bytes);
    assert body[..recv.bodyRead + |bytes|] == recv.body[..recv.bodyRead] + bytes;
    Assoc(recv.body[..recv.bodyRead], bytes, inbound[|bytes|..]);
    assert inbound == bytes + inbound[|bytes|..];
  }

  /** A frame that has arrived is what the parser holds. */
  lemma Arrived(f: Frame, recv: Recv, inbound: seq<byte>, answers: seq<Answer>)
    requires Arriving(f, recv, inbound, answers) && recv.headerRead == HEADER && recv.bodyRead == |recv.body|
    ensures recv.body == f.body && recv.header[0] == f.cmd && FrameIn(recv) == f
  {
    hide Encode, Step, FromBe32, HeaderLen;
    EncodedHeader(f);
    assert recv.body[..recv.bodyRead] == recv.body;
    assert (recv.body + inbound)[..|f.body|] == recv.body;
  }

  /** The first frame of what was read but not acted on and what is inbound. */
  ghost function Coming(recv: Recv, inbound: seq<byte>): Frame
    requires |recv.header| == HEADER && recv.headerRead <= HEADER && (recv.headerRead == HEADER ==> recv.bodyRead <= |recv.body|)
  {
    var stream := Decode(Partial(recv.header, recv.headerRead, recv.body, recv.bodyRead) + inbound);
    if stream == [] then Frame(PADDING, 0, []) else stream[0]
  }

  /** A frame at the front of a fresh stream is the one coming. */
  lemma ComingFresh(f: Frame, recv: Recv, inbound: seq<byte>)
    requires |recv.header| == HEADER && recv.headerRead == 0 && Encode(f) <= inbound
    ensures Coming(recv, inbound) == f
  {
    var rest := inbound[|Encode(f)|..];
    assert inbound == Encode(f) + rest && [] + inbound == inbound && recv.header[..0] == [];
    FirstOfEncode(f, rest);
  }

  // ---------------------------------------------------------------- a queue that is taken

  /** The answers left once everything queued is written, if the answers are enough for that. */
  function WritesLeft(outgoing: seq<seq<byte>>, written: nat, answers: seq<Answer>): Option<seq<Answer>>
    decreases |answers|
  {
    if outgoing == [] then Some(answers)
    else if answers == [] || !answers[0].Ready? || answers[0].n == 0 then None
    else if written + answers[0].n >= |outgoing[0]| then WritesLeft(outgoing[1..], 0, answers[1..])
    else WritesLeft(outgoing, written + answers[0].n, answers[1..])
  }

  function Taken(send: Send, answers: seq<Answer>): Option<seq<Answer>> { WritesLeft(send.outgoing, send.written, answers) }

  /** The transport takes the queue and flushes, and no reply waits. */
  predicate Drains(send: Send, answers: seq<Answer>) {
    send.hearts == [] && Taken(send, answers).Some? && Upcoming(Taken(send, answers).value).Ready?
  }

  /** One write moves on towards it. */
  lemma WriteNext(outgoing: seq<seq<byte>>, written: nat, answers: seq<Answer>)
    requires outgoing != [] && written < |outgoing[0]| && WritesLeft(outgoing, written, answers).Some?
    ensures Upcoming(answers).Ready?
    ensures var n := Min(Upcoming(answers).n, |outgoing[0]| - written);
            && n > 0
            && WritesLeft(outgoing, written, answers) ==
               if written + n == |outgoing[0]| then WritesLeft(outgoing[1..], 0, Remaining(answers))
               else WritesLeft(outgoing, written + n, Remaining(answers))
  {
  }

  /** The writing half after `n` more bytes of the front packet are on the wire. */
  function Wrote(send: Send, n: nat): Send
    requires send.outgoing != []
  {
    if send.written + n == |send.outgoing[0]| then send.(outgoing := send.outgoing[1..], written := 0)
    else send.(written := send.written + n)
  }

  lemma FlowWrites(su: Setup, wire: seq<byte>, shut: bool, send: Send, all: seq<Frame>, n: nat)
    requires FlowOk(su, true, wire, shut, send, all) && send.outgoing != [] && 0 < n <= |send.outgoing[0]| - send.written
    ensures FlowOk(su, true, wire + send.outgoing[0][send.written..][..n], shut, Wrote(send, n), all)
    ensures |Unsent(Wrote(send, n).outgoing, Wrote(send, n).written)| < |Unsent(send.outgoing, send.written)|
  {
    hide EncodeAll;
    Advance(wire, send.outgoing, send.written, n, su.auth + EncodeAll(all));
  }

  lemma FlowFront(su: Setup, wire: seq<byte>, shut: bool, send: Send, all: seq<Frame>)
    requires FlowOk(su, true, wire, shut, send, all) && send.outgoing != []
    ensures send.written < |send.outgoing[0]| && !send.writeClosed && send.written <= |P.Join(send.outgoing)|
  {
  }

  lemma FlowHearts(su: Setup, wire: seq<byte>, shut: bool, send: Send, all: seq<Frame>, hearts: seq<u32>)
    requires FlowOk(su, true, wire, shut, send, all)
    ensures FlowOk(su, true, wire, shut, send.(hearts := hearts), all)
  {
  }

  /** Before a local close the pending replies may change without touching FIN. */
  lemma FinHearts(finQueued: bool, hearts: seq<u32>, more: seq<u32>, log: seq<Msg>)
    requires FinOk(true, false, finQueued, hearts, log)
    ensures FinOk(true, false, finQueued, more, log)
  {
    hide NoFin;
  }

  lemma HeartsHeard(hearts: seq<u32>, said: Said, frames: seq<Frame>, f: Frame)
    requires HeartOk(true, hearts, said, frames)
    ensures |hearts| <= MAX_HEARTS
    ensures var more := hearts + if f.cmd == HEART_REQUEST then [f.id] else [];
            |more| <= MAX_HEARTS ==> HeartOk(true, more, said, frames + [f])
  {
    hide Ids, Answered;
    HeardOne(frames, f);
    Assoc(said.popped, hearts, if f.cmd == HEART_REQUEST then [f.id] else []);
  }

  lemma RecvFlags(recv: Recv, heard: Heard, v2: bool, acknowledged: bool, replyPending: bool)
    requires RecvCore(recv, heard)
    ensures RecvCore(recv.(v2 := v2, acknowledged := acknowledged, replyPending := replyPending), heard)
  {
    hide Payload, EncodeAll;
  }

  lemma RecvSizes(recv: Recv, heard: Heard)
    requires RecvCore(recv, heard) && RecvLive(recv, heard) && recv.headerRead == HEADER
    ensures |recv.header| == HEADER && |recv.body| <= MAX_FRAME && recv.delivered == 0
    ensures HeaderOk(recv.Speaker(), recv.header[0], FromBe32(recv.header[1..5]), |recv.body|)
  {
  }

  lemma FinLastHeard(frames: seq<Frame>, f: Frame)
    ensures FinHeard(frames + [f]) <==> f.cmd == FIN
    ensures NoCmd(FIN, frames) && f.cmd != FIN ==> NoCmd(FIN, frames + [f])
  {
  }

  lemma OnePacket(packet: seq<byte>, rest: seq<Answer>)
    requires packet != []
    ensures WritesLeft([packet], 0, [Ready(|packet|)] + rest) == Some(rest)
  {
    var answers := [Ready(|packet|)] + rest;
    assert answers[1..] == rest && [packet][1..] == [];
  }

  // ---------------------------------------------------------------- what a message is packed into

  /** The packets of a message in a padding group, unless the random source fails. */
  ghost function PacketsFor(padding: P.Scheme, group: nat, tape: P.Tape, m: Msg): Option<P.Packed> {
    if P.SmallSteps(P.StepsOf(padding, group)) then P.PacketsOf(P.StepsOf(padding, group), tape, Encode(FrameOf(m))) else None
  }

  lemma PlainPackets(padding: P.Scheme, group: nat, tape: P.Tape, m: Msg)
    requires P.StepsOf(padding, group) == []
    ensures PacketsFor(padding, group, tape, m) == Some(P.Packed([Encode(FrameOf(m))], tape))
  {
  }

  // ---------------------------------------------------------------- an opening that goes through

  /** The padding of the authentication, unless the random source fails. */
  function AuthDraw(scheme: P.Scheme, tape: P.Tape): Option<P.Drawn>
    requires P.Valid(scheme)
  {
    if 0 !in scheme.groups then Some(P.Drawn(0, tape)) else P.Draw(scheme.groups[0][0].min, scheme.groups[0][0].max, tape)
  }

  /** The transport takes the authentication whole, flushes it, and then takes and flushes the opening packets. */
  ghost predicate OpensOn(scheme: P.Scheme, digest: seq<byte>, opening: seq<Frame>, tape: P.Tape, answers: seq<Answer>)
    requires P.Valid(scheme)
  {
    var d := AuthDraw(scheme, tape);
    && d.Some? && Upcoming(answers).Ready? && Upcoming(answers).n >= |digest| + 2 + d.value.size
    && Upcoming(Remaining(answers)).Ready? && StartsOn(scheme, opening, d.value.tape, Remaining(Remaining(answers)))
  }

  ghost predicate StartsOn(scheme: P.Scheme, opening: seq<Frame>, tape: P.Tape, answers: seq<Answer>) {
    && P.SmallSteps(P.StepsOf(scheme, 1))
    && var packed := P.PacketsOf(P.StepsOf(scheme, 1), tape, EncodeAll(opening));
    packed.Some? && Drains(Send(2, packed.value.packets, 0, [], false, false), answers)
  }

  // ---------------------------------------------------------------- a close that goes through

  /** The writing half once FIN is queued. */
  ghost function WithFin(padding: P.Scheme, send: Send, tape: P.Tape): Option<Send> {
    if send.finQueued then Some(send.(outgoing := [], written := 0))
    else
      var packed :- PacketsFor(padding, send.group, tape, Fin);
      Some(send.(outgoing := packed.packets, written := 0))
  }

  /** The answers left once queue and FIN are written and the transport is shut, if the answers are enough for that. */
  ghost function ClosesWrite(padding: P.Scheme, send: Send, tape: P.Tape, answers: seq<Answer>): Option<seq<Answer>> {
    if !Drains(send, answers) then None
    else
      var queued :- WithFin(padding, send, tape);
      var after := Remaining(Taken(send, answers).value);
      if !Drains(queued, after) then None
      else
        var last := Remaining(Taken(queued, after).value);
        if Upcoming(last).Ready? then Some(Remaining(last)) else None
  }

  /** The deadline has not passed, the write side closes, and then the peer's end is read. */
  ghost predicate ClosesOn(padding: P.Scheme, send: Send, close: Close, tape: P.Tape, inbound: seq<byte>, answers: seq<Answer>) {
    && !Upcoming(answers).Ready?
    && var rest := if send.writeClosed then Some(Remaining(answers)) else ClosesWrite(padding, send, tape, Remaining(answers));
    && rest.Some? && (close.peerClosed || (inbound == [] && Upcoming(rest.value).Ready?))
  }
}
