/** The AnyTLS session object and its poll methods. `Valid` is the whole-session invariant:
    it holds after `Open` and is kept by every poll, whatever the transport answers. */
module Session {
  import opened Base
  import opened Frames
  import opened SessionFlow
  import opened SessionSpec
  import P = Padding

  class AnyTls {
    ghost const link: Transport
    ghost const setup: Setup
    const padding: P.Scheme
    var inner: Transport?
    var shared: P.Scheme
    var send: Send
    var recv: Recv
    var close: Close
    var failure: Option<Kind>
    var wholeClosed: bool
    ghost var said: Said
    /** The writing half when the transport was given up: by the peer's FIN, a completed close or a failure. */
    ghost var left: Send
    ghost var heard: Heard
    /** Whether a local close was ever begun; from then on input is thrown away. */
    ghost var closing: bool

    /** What holds even at the moment an error is found. */
    ghost predicate Core()
      reads this, link
    {
      && (inner == null || inner == link) && padding == setup.padding
      && FlowOk(setup, inner != null, link.wire, link.shut, send, said.all)
      && SaidOk(setup, send.group, said.all, said.log)
      && HeartOk(inner != null, send.hearts, said, heard.frames)
      && FinOk(inner != null, close.armed, send.finQueued, send.hearts, said.log)
      && RecvCore(recv, heard)
      && LossOk(setup, inner != null, link.wire, left, said.all) && (P.Quiet(padding, HEADER) ==> said.dropped == 0)
      && close.drained <= MAX_CLOSE_DRAIN + 1 && heard.received <= link.taken
      && (close.armed ==> closing) && (!closing ==> heard.received == link.taken)
    }

    /** `Valid`, also at the moment a frame is complete but not acted on. */
    ghost predicate Steady()
      reads this, link
    {
      && Core()
      && (failure.None? ==> RecvLive(recv, heard))
      && (failure.Some? ==> inner == null)
      && (if inner == null
          then !close.armed && (failure.None? ==> FinHeard(heard.frames) || (send.writeClosed && close.peerClosed))
          else && close.drained <= MAX_CLOSE_DRAIN
               && (closing ==> close.armed) && NoCmd(FIN, heard.frames))
    }

    ghost predicate Valid()
      reads this, link
    {
      Steady() && (failure.None? ==> Parked(recv))
    }

    /** The state `Open` builds once the authentication bytes are on the wire. */
    constructor (link: Transport, padding: P.Scheme, packets: seq<seq<byte>>, ghost setup: Setup, ghost pads: seq<Frame>)
      requires P.Valid(padding) && P.NonEmpty(packets) && setup.padding == padding
      requires link.wire == setup.auth && link.taken == []
      requires P.Join(packets) == EncodeAll(setup.opening + pads) && Strip(setup.opening + pads) == setup.opening
      requires PadBytes(setup.opening + pads) + setup.authPad <= Reserved(padding, 2)
      ensures Valid() && inner == link && this.link == link && this.setup == setup
      ensures said == Said(setup.opening + pads, [], [], 0) && heard == Heard([], [], [])
      ensures send == Send(2, packets, 0, [], false, false) && failure.None? && !close.armed
      ensures recv == Recv(P.Zeros(HEADER), 0, [], 0, 0, false, false, false, false)
    {
      this.link, this.inner, this.padding, this.shared, this.setup := link, link, padding, padding, setup;
      send := Send(2, packets, 0, [], false, false);
      recv := Recv(P.Zeros(HEADER), 0, [], 0, 0, false, false, false, false);
      close := Close(false, 0, false);
      failure, wholeClosed := None, false;
      said := Said(setup.opening + pads, [], [], 0);
      heard, left, closing := Heard([], [], []), Send(2, [], 0, [], false, false), false;
    }

    // ---------------------------------------------------------------- ending

    method Finish()
      requires Core() && inner != null
      requires failure.None? ==>
                 RecvLive(recv, heard) && Parked(recv) &&
                 (FinHeard(heard.frames) || (send.writeClosed && close.peerClosed))
      modifies this`inner, this`left, this`close, this`send, this`wholeClosed
      ensures Valid() && inner == null && send == old(send).(outgoing := [], hearts := [])
      ensures close == old(close).(armed := false)
      ensures wholeClosed == (old(wholeClosed) || failure.None?)
      ensures left == old(send)
    {
      hide SaidOk, RecvCore, RecvLive, FinHeard, EncodeAll, Ids, Answered, P.Join, Cursor, NoFin, P.Quiet;
      left := send;
      inner := null;
      close := close.(armed := false);
      send := send.(outgoing := [], hearts := []);
      if failure.None? {
        wholeClosed := true;
      }
    }

    method Fail(kind: Kind)
      requires Core() && inner != null
      modifies this`failure, this`inner, this`left, this`close, this`send, this`wholeClosed
      ensures Valid() && inner == null && failure == Some(kind) && wholeClosed == old(wholeClosed)
      ensures send == old(send).(outgoing := [], hearts := []) && close == old(close).(armed := false)
    {
      hide FlowOk, SaidOk, HeartOk, FinOk, RecvCore, RecvLive, P.Quiet, LossOk;
      failure := Some(kind);
      Finish();
    }

    // ---------------------------------------------------------------- writing

    method Queue(m: Msg) returns (ok: bool)
      requires Core() && inner != null && send.outgoing == [] && !send.writeClosed
      modifies this`send, this`said, link`entropy
      ensures FlowOk(setup, true, link.wire, link.shut, send, said.all) && SaidOk(setup, send.group, said.all, said.log)
      ensures P.SmallSteps(P.StepsOf(padding, old(send.group)))
      ensures ok <==> P.PacketsOf(P.StepsOf(padding, old(send.group)), old(link.entropy), Encode(FrameOf(m))).Some?
      ensures ok ==> said == old(said).(log := old(said.log) + [m], all := said.all)
      ensures !ok ==> said == old(said)
      ensures send == old(send).(outgoing := send.outgoing, group := send.group) && (ok ==> send.outgoing != [])
      ensures var packed := PacketsFor(padding, old(send.group), old(link.entropy), m);
              (ok <==> packed.Some?) && (ok ==> send.outgoing == packed.value.packets)
    {
      hide EncodeAll, Encode, Strip, PadBytes, P.Total, P.Valid, P.Cost, P.PacketsOf, P.PadsOf,
           HeartOk, FinOk, RecvCore, P.Quiet;
      var frame := FrameOf(m);
      assert P.Valid(padding);
      var packed := P.Packets(padding, send.group, Encode(frame), inner.entropy);
      if packed.None? {
        return false;
      }
      ghost var steps, tape := P.StepsOf(padding, send.group), inner.entropy;
      ghost var pads := P.PadsOf(steps, tape, |Encode(frame)|);
      P.PacketsJoin(steps, tape, Encode(frame));
      P.PadsBounded(steps, tape, |Encode(frame)|);
      Enqueue(said.all, frame, pads);
      LogAppend(said.log, m);
      ReserveNext(padding, send.group);
      Assoc(setup.auth, EncodeAll(said.all), P.Join(packed.value.packets));
      Assoc(setup.opening, FramesOf(said.log), [frame]);
      inner.entropy := packed.value.tape;
      send := send.(outgoing := packed.value.packets, group := Min(send.group + 1, P.MAX_STOP));
      said := said.(all := said.all + ([frame] + pads), log := said.log + [m]);
      ok := true;
    }

    /** Offers the unwritten part of the front packet to the transport once. */
    method WriteFront() returns (r: Poll<()>)
      requires Valid() && inner != null && send.outgoing != []
      modifies this`send, this`inner, this`left, this`close, this`failure, this`wholeClosed, link`answers, link`wire
      ensures Valid()
      ensures r.Err? <==> inner == null
      ensures send.finQueued == old(send.finQueued) && send.writeClosed == old(send.writeClosed)
      ensures r.Err? ==> failure.Some? && send.hearts == []
      ensures !r.Err? ==> failure == old(failure) && close == old(close)
      ensures !r.Err? ==> send == old(send).(outgoing := send.outgoing, written := send.written)
      ensures r.Ok? ==> |Unsent(send.outgoing, send.written)| < |old(Unsent(send.outgoing, send.written))|
      ensures Taken(old(send), old(link.answers)).Some? ==> r.Ok? && Taken(send, link.answers) == Taken(old(send), old(link.answers))
    {
      hide FlowOk, SaidOk, RecvCore, RecvLive, HeartOk, FinOk, FinHeard, NoCmd, P.Quiet, LossOk, Upcoming, Remaining, WritesLeft;
      FlowFront(setup, link.wire, link.shut, send, said.all);
      if Taken(send, link.answers).Some? {
        WriteNext(send.outgoing, send.written, link.answers);
      }
      var packet := send.outgoing[0];
      ghost var before := link.wire;
      var result := inner.Write(packet[send.written..]);
      if result.Pending? {
        return Pending;
      }
      if result.Err? || result.value == 0 {
        var kind := if result.Err? then result.kind else WriteZero;
        assert link.wire == before;
        Fail(kind);
        return Err(kind);
      }
      FlowWrites(setup, before, link.shut, send, said.all, result.value);
      OpenLoss(setup, before, link.wire, left, said.all);
      send := Wrote(send, result.value);
      return Ok(());
    }

    /** Writes the active group. */
    method DrainPackets() returns (r: Poll<()>)
      requires Valid() && inner != null
      modifies this`send, this`inner, this`left, this`close, this`failure, this`wholeClosed, link`answers, link`wire
      ensures Valid()
      ensures (r.Err? <==> inner == null) && (!r.Err? ==> inner == old(inner))
      ensures send.finQueued == old(send.finQueued) && send.writeClosed == old(send.writeClosed)
      ensures r.Err? ==> failure.Some? && send.hearts == []
      ensures !r.Err? ==> failure == old(failure) && close == old(close)
      ensures !r.Err? ==> send == old(send).(outgoing := send.outgoing, written := send.written)
      ensures r.Ok? ==> send.outgoing == [] && send.written == 0
      ensures Taken(old(send), old(link.answers)).Some? ==> r.Ok? && link.answers == Taken(old(send), old(link.answers)).value
    {
      hide EncodeAll, SaidOk, RecvCore, RecvLive, HeartOk, FinOk, FinHeard, NoCmd, P.Quiet, Upcoming, Remaining;
      while send.outgoing != []
        invariant Valid() && inner != null && failure == old(failure) && close == old(close)
        invariant send == old(send).(outgoing := send.outgoing, written := send.written)
        invariant Taken(old(send), old(link.answers)).Some? ==> Taken(send, link.answers) == Taken(old(send), old(link.answers))
        decreases |Unsent(send.outgoing, send.written)|
      {
        r := WriteFront();
        if !r.Ok? {
          return;
        }
      }
      return Ok(());
    }

    /** Whether the random source decides over a reply: its seven bytes either draw in the group in force or not. */
    lemma ReplyFate(id: u32)
      requires Core()
      ensures P.SmallSteps(P.StepsOf(padding, send.group))
      ensures var steps, frame := P.StepsOf(padding, send.group), Encode(FrameOf(Reply(id)));
              && (!P.Draws(steps, HEADER) ==> P.PacketsOf(steps, link.entropy, frame).Some?)
              && (P.Draws(steps, HEADER) && link.entropy == [] ==> P.PacketsOf(steps, link.entropy, frame).None?)
              && (P.Quiet(padding, HEADER) ==> !P.Draws(steps, HEADER))
    {
      hide FlowOk, HeartOk, FinOk, RecvCore, LossOk, P.PacketsOf, P.Draws, P.Valid, EncodeAll, Strip, PadBytes;
      assert P.Valid(padding);
      P.StepsOfSmall(padding, send.group);
      var steps, frame := P.StepsOf(padding, send.group), Encode(FrameOf(Reply(id)));
      assert |frame| == HEADER;
      if !P.Draws(steps, HEADER) {
        P.NoDrawNoFailure(steps, link.entropy, frame);
      } else {
        P.DrawFails(steps, frame);
      }
    }

    /** Takes up the oldest pending heartbeat. Its answer can be lost only if the group in force draws for seven bytes,
        and then is lost when the random source fails at once. */
    method AnswerHeart() returns (ok: bool)
      requires Valid() && inner != null && send.outgoing == [] && send.hearts != []
      modifies this`send, this`said, link`entropy
      ensures Valid() && !send.finQueued
      ensures send == old(send).(outgoing := send.outgoing, group := send.group, hearts := old(send.hearts)[1..])
      ensures !P.Draws(P.StepsOf(padding, old(send.group)), HEADER) ==> ok
      ensures P.Draws(P.StepsOf(padding, old(send.group)), HEADER) && old(link.entropy) == [] ==> !ok
      ensures if ok then said.log == old(said.log) + [Reply(old(send.hearts)[0])] && said.dropped == old(said.dropped)
              else said.log == old(said.log) && said.dropped == old(said.dropped) + 1
    {
      hide SaidOk, RecvCore, RecvLive, FinHeard, EncodeAll, Ids, Answered, P.Join, NoCmd, P.PacketsOf, P.Draws, P.Quiet,
           P.SmallSteps, Encode, P.StepsOf;
      var id := send.hearts[0];
      ReplyFate(id);
      LogAppend(said.log, Reply(id));
      Assoc(said.popped, [id], send.hearts[1..]);
      ok := Queue(Reply(id));
      send := send.(hearts := send.hearts[1..]);
      said := said.(popped := said.popped + [id], dropped := said.dropped + if ok then 0 else 1);
    }

    method FlushInner() returns (r: Poll<()>)
      requires Valid() && inner != null
      modifies this`failure, this`inner, this`left, this`close, this`send, this`wholeClosed, link`answers
      ensures Valid()
      ensures (r.Err? <==> inner == null) && (!r.Err? ==> inner == old(inner))
      ensures send.finQueued == old(send.finQueued) && send.writeClosed == old(send.writeClosed)
      ensures if r.Err? then failure.Some? && send.hearts == []
              else send == old(send) && failure == old(failure) && close == old(close)
      ensures (Upcoming(old(link.answers)).Ready? ==> r.Ok?) && link.answers == Remaining(old(link.answers))
    {
      hide FlowOk, SaidOk, HeartOk, FinOk, FinHeard, RecvCore, RecvLive, NoCmd, P.Quiet, LossOk, Upcoming, Remaining;
      r := inner.Flush();
      if r.Err? {
        Fail(r.kind);
      }
    }

    /** One active group, then the pending replies. An `Ok` means everything queued is on the
        wire and flushed; an error with the transport still held is a lost heartbeat reply. */
    method Drain() returns (r: Poll<()>)
      requires Valid()
      modifies this`inner, this`left, this`send, this`close, this`failure, this`wholeClosed, this`said,
               link`answers, link`wire, link`entropy
      ensures Valid()
      ensures inner != null ==> inner == old(inner) && failure == old(failure) && close == old(close)
      ensures r.Ok? ==> inner != null && send.outgoing == [] && send.hearts == [] &&
                        said.log == old(said.log + Replies(send.hearts))
      ensures r.Pending? ==> inner != null
      ensures r.Err? ==> (if inner != null then said.dropped == old(said.dropped) + 1
                          else old(inner) == null || failure.Some?)
      ensures !(r.Err? && inner != null) ==> said.dropped == old(said.dropped)
      ensures old(said.log) <= said.log && Accepted(said.log) == old(Accepted(said.log))
      ensures old(send.finQueued) ==> said.log == old(said.log)
      ensures send.finQueued == old(send.finQueued) && send.writeClosed == old(send.writeClosed)
      ensures old(send.hearts) == [] ==> said.log == old(said.log) && send.hearts == []
      ensures old(inner) != null && Drains(old(send), old(link.answers)) ==>
                r.Ok? && send == old(send).(outgoing := [], written := 0) && link.entropy == old(link.entropy) && link.answers == Remaining(Taken(old(send), old(link.answers)).value)
    {
      hide Valid, Accepted, Answered, P.Draws, P.StepsOf, Taken, Upcoming, Remaining;
      if inner == null {
        return Err(BrokenPipe);
      }
      ghost var log, taken: seq<u32> := said.log, [];
      assert log + Replies([]) == log;
      while true
        invariant Valid() && inner == old(inner) && said.dropped == old(said.dropped)
        invariant failure == old(failure) && close == old(close)
        invariant send.finQueued == old(send.finQueued) && send.writeClosed == old(send.writeClosed)
        invariant taken + send.hearts == old(send.hearts) && said.log == log + Replies(taken)
        invariant send.finQueued ==> taken == []
        invariant old(send.hearts) == [] ==> send == old(send) && link.answers == old(link.answers) && link.entropy == old(link.entropy)
        decreases |send.hearts|
      {
        LogReplies(log, taken);
        r := DrainPackets();
        if !r.Ok? {
          return;
        }
        if send.hearts == [] {
          break;
        }
        ghost var id := send.hearts[0];
        var ok := AnswerHeart();
        if !ok {
          return Err(Other);
        }
        assert said.log == log + Replies(taken + [id]);
        taken := taken + [id];
      }
      r := FlushInner();
    }

    // ---------------------------------------------------------------- reading

    ghost predicate Arrives(f: Frame)
      reads this`recv, link`inbound, link`answers
    {
      Arriving(f, recv, link.inbound, link.answers)
    }

    /** One read into the header; the header is judged as soon as it is complete. */
    method HeaderStep(ghost f: Frame) returns (r: Poll<()>)
      requires Valid() && inner != null && !close.armed && !recv.dataReady && recv.headerRead < HEADER
      modifies this`recv, this`heard, this`inner, this`left, this`send, this`close, this`failure, this`wholeClosed,
               link`answers, link`inbound, link`taken
      ensures Steady() && heard == old(heard).(received := heard.received)
      ensures r.Err? <==> inner == null
      ensures if r.Err? then failure.Some? else failure == old(failure) && close == old(close) && send == old(send)
      ensures r.Ok? ==> recv.headerRead > old(recv.headerRead)
      ensures old(Arrives(f)) ==> r.Ok? && Arrives(f)
      ensures !recv.dataReady && send.finQueued == old(send.finQueued)
      ensures !r.Ok? || recv.headerRead < HEADER ==> Valid()
    {
      hide FlowOk, SaidOk, HeartOk, FinOk, FinHeard, NoCmd, RecvLive, LossOk, EncodeAll, Payload, PeerAfter, Partial,
           TakeHeader, P.Quiet, Arriving, Upcoming, Remaining;
      if Arrives(f) {
        HeaderArrives(f, recv, link.inbound, link.answers);
      }
      var b := inner.Read(HEADER - recv.headerRead);
      if b.Pending? {
        return Pending;
      }
      var bad := if b.Err? then Some(b.kind) else if b.value == [] then Some(UnexpectedEof) else None;
      if bad.None? {
        HeaderFills(recv, heard, b.value);
        heard := heard.(received := heard.received + b.value);
        var next := TakeHeader(recv, b.value);
        recv := if next.Some? then next.value else FillIn(recv, b.value);
        bad := if next.None? then Some(InvalidData) else None;
      }
      if bad.Some? {
        Fail(bad.value);
        return Err(bad.value);
      }
      return Ok(());
    }

    method ReadHeader(ghost f: Frame) returns (r: Poll<()>)
      requires Valid() && inner != null && failure.None? && !close.armed && !recv.dataReady
      modifies this`recv, this`heard, this`inner, this`left, this`send, this`close, this`failure, this`wholeClosed,
               link`answers, link`inbound, link`taken
      ensures Steady() && heard == old(heard).(received := heard.received)
      ensures r.Err? <==> inner == null
      ensures if r.Err? then failure.Some? else failure == old(failure) && close == old(close) && send == old(send)
      ensures r.Ok? ==> recv.headerRead == HEADER
      ensures !recv.dataReady && send.finQueued == old(send.finQueued)
      ensures !r.Ok? ==> Valid()
      ensures old(Arrives(f)) ==> r.Ok? && Arrives(f)
    {
      hide FlowOk, SaidOk, HeartOk, FinOk, FinHeard, NoCmd, RecvLive, EncodeAll, Payload, P.Quiet, LossOk, Arriving;
      while recv.headerRead < HEADER
        invariant Steady() && inner != null && failure.None? && close == old(close) && send == old(send)
        invariant heard == old(heard).(received := heard.received) && !recv.dataReady
        invariant recv.headerRead < HEADER ==> Valid()
        invariant old(Arrives(f)) ==> Arrives(f)
        decreases HEADER - recv.headerRead
      {
        r := HeaderStep(f);
        if !r.Ok? {
          return;
        }
      }
      return Ok(());
    }

    /** One read into the body. */
    method BodyStep(ghost f: Frame) returns (r: Poll<()>)
      requires Steady() && inner != null && failure.None? && !close.armed && !recv.dataReady && recv.headerRead == HEADER
      requires recv.bodyRead < |recv.body|
      modifies this`recv, this`heard, this`inner, this`left, this`send, this`close, this`failure, this`wholeClosed,
               link`answers, link`inbound, link`taken
      ensures Steady() && heard == old(heard).(received := heard.received)
      ensures r.Err? <==> inner == null
      ensures if r.Err? then failure.Some? else failure == old(failure) && close == old(close) && send == old(send)
      ensures recv == old(recv).(body := recv.body, bodyRead := recv.bodyRead) && send.finQueued == old(send.finQueued)
      ensures r.Ok? ==> old(recv.bodyRead) < recv.bodyRead <= |recv.body| == |old(recv.body)|
      ensures !r.Ok? ==> Valid()
      ensures old(Arrives(f)) ==> r.Ok? && Arrives(f)
    {
      hide FlowOk, SaidOk, HeartOk, FinOk, FinHeard, NoCmd, RecvCore, RecvLive, P.Quiet, LossOk, Upcoming, Remaining, Arriving, Fill;
      if Arrives(f) {
        BodyArrives(f, recv, link.inbound, link.answers);
      }
      var b := inner.Read(|recv.body| - recv.bodyRead);
      if b.Pending? {
        return Pending;
      }
      if b.Err? || b.value == [] {
        var kind := if b.Err? then b.kind else UnexpectedEof;
        Fail(kind);
        return Err(kind);
      }
      BodyFilled(recv, heard, b.value);
      heard := heard.(received := heard.received + b.value);
      recv := recv.(body := Fill(recv.body, recv.bodyRead, b.value), bodyRead := recv.bodyRead + |b.value|);
      return Ok(());
    }

    method ReadBody(ghost f: Frame) returns (r: Poll<()>)
      requires Steady() && inner != null && failure.None? && !close.armed && !recv.dataReady && recv.headerRead == HEADER
      modifies this`recv, this`heard, this`inner, this`left, this`send, this`close, this`failure, this`wholeClosed,
               link`answers, link`inbound, link`taken
      ensures Steady() && heard == old(heard).(received := heard.received)
      ensures r.Err? <==> inner == null
      ensures if r.Err? then failure.Some? else failure == old(failure) && close == old(close) && send == old(send)
      ensures recv == old(recv).(body := recv.body, bodyRead := recv.bodyRead) && send.finQueued == old(send.finQueued)
      ensures r.Ok? ==> recv.bodyRead == |recv.body|
      ensures !r.Ok? ==> Valid()
      ensures old(Arrives(f)) ==> r.Ok? && Arrives(f)
    {
      hide FlowOk, SaidOk, HeartOk, FinOk, FinHeard, EncodeAll, NoCmd, RecvCore, P.Quiet, LossOk, Upcoming, Remaining, Arriving;
      while recv.bodyRead < |recv.body|
        invariant Steady() && inner != null && failure.None? && close == old(close) && send == old(send)
        invariant recv == old(recv).(body := recv.body, bodyRead := recv.bodyRead) && recv.bodyRead <= |recv.body|
        invariant heard == old(heard).(received := heard.received)
        invariant old(Arrives(f)) ==> Arrives(f)
        decreases |recv.body| - recv.bodyRead
      {
        r := BodyStep(f);
        if !r.Ok? {
          return;
        }
      }
      return Ok(());
    }

    /** The protocol effect of a complete frame. */
    method Apply() returns (e: Option<Kind>)
      requires |recv.header| == HEADER && |send.hearts| <= MAX_HEARTS && |recv.body| <= MAX_FRAME
      requires HeaderOk(recv.Speaker(), recv.header[0], FromBe32(recv.header[1..5]), |recv.body|)
      modifies this`shared, this`recv, this`send
      ensures recv == old(recv).(v2 := recv.v2, acknowledged := recv.acknowledged, replyPending := recv.replyPending)
      ensures e.Some? <==> Step(old(recv.Speaker()), FrameIn(recv)).None? ||
                           (recv.header[0] == HEART_REQUEST && |old(send.hearts)| == MAX_HEARTS)
      ensures e.None? ==> Step(old(recv.Speaker()), FrameIn(recv)) == Some(recv.Speaker()) && |send.hearts| <= MAX_HEARTS
      ensures shared == if e.None? then Teach(old(shared), FrameIn(recv)) else old(shared)
      ensures send == old(send).(hearts := old(send.hearts) +
                if e.None? && recv.header[0] == HEART_REQUEST then [FromBe32(recv.header[1..5])] else [])
    {
      hide P.Parse, FromBe32, P.Fields, P.Lookup, P.Number, P.Quiet;
      var cmd := recv.header[0];
      assert send == send.(hearts := send.hearts + []);
      if cmd == 5 {
        return Some(PermissionDenied);
      } else if cmd == UPDATE_PADDING {
        var candidate := P.Parse(recv.body);
        if candidate.None? {
          return Some(InvalidData);
        }
        shared := candidate.value;
      } else if cmd == 7 {
        recv := recv.(acknowledged := true);
        if recv.body != [] {
          return Some(ConnectionRefused);
        }
      } else if cmd == HEART_REQUEST {
        if |send.hearts| == MAX_HEARTS {
          return Some(InvalidData);
        }
        send := send.(hearts := send.hearts + [FromBe32(recv.header[1..5])]);
        recv := recv.(replyPending := true);
      } else if cmd == 10 {
        if !SettingsOk(recv.body) {
          return Some(InvalidData);
        }
        recv := recv.(v2 := true);
      }
      return None;
    }

    /** Takes up a complete frame; what a FIN ends is left to the caller. */
    method Act() returns (e: Option<Kind>)
      requires Steady() && inner != null && failure.None? && !close.armed && !recv.dataReady
      requires recv.headerRead == HEADER && recv.bodyRead == |recv.body|
      modifies this`recv, this`send, this`shared, this`heard
      ensures e.Some? <==> Step(old(recv.Speaker()), old(FrameIn(recv))).None? ||
                           (old(recv.header)[0] == HEART_REQUEST && |old(send.hearts)| == MAX_HEARTS)
      ensures Core() && heard == if e.None? then old(heard).(frames := old(heard.frames) + [old(FrameIn(recv))]) else old(heard)
      ensures |recv.header| == HEADER
      ensures e.None? ==> RecvLive(recv, heard) && Parked(recv) && recv.header == old(recv.header) && recv.body == old(recv.body)
      ensures e.None? ==> (recv.dataReady <==> recv.header[0] == PSH && recv.body != []) && recv.delivered == 0
      ensures e.None? ==> (recv.header[0] == FIN <==> FinHeard(heard.frames)) && (recv.header[0] != FIN ==> NoCmd(FIN, heard.frames))
      ensures shared == if e.None? then Teach(old(shared), old(FrameIn(recv))) else old(shared)
      ensures send == old(send).(hearts := send.hearts) && (old(recv.header)[0] == FIN ==> send == old(send))
    {
      hide FlowOk, SaidOk, HeartOk, FinOk, RecvCore, RecvLive, FinHeard, NoCmd, P.Quiet, LossOk, Teach, Step, HeaderOk, FromBe32;
      RecvSizes(recv, heard);
      ghost var before, sent, f := recv, send, FrameIn(recv);
      HeartsHeard(send.hearts, said, heard.frames, f);
      FinLastHeard(heard.frames, f);
      e := Apply();
      FlowHearts(setup, link.wire, link.shut, sent, said.all, send.hearts);
      FinHearts(send.finQueued, sent.hearts, send.hearts, said.log);
      RecvFlags(before, heard, recv.v2, recv.acknowledged, recv.replyPending);
      if e.Some? {
        assert send == sent && recv == before.(v2 := recv.v2, acknowledged := recv.acknowledged, replyPending := recv.replyPending);
        return;
      }
      Hear(before, heard, recv.Speaker(), recv.replyPending);
      heard := heard.(frames := heard.frames + [f]);
      recv := recv.(headerRead := 0, dataReady := recv.header[0] == PSH && recv.body != []);
      assert recv == Next(before, recv.Speaker(), recv.replyPending);
    }

    /** Acts on a complete frame. It is refused exactly when the protocol forbids it here,
        or when a heartbeat request finds the reply queue full. */
    method Control() returns (e: Option<Kind>)
      requires Steady() && inner != null && failure.None? && !close.armed && !recv.dataReady
      requires recv.headerRead == HEADER && recv.bodyRead == |recv.body|
      modifies this`recv, this`send, this`shared, this`inner, this`left, this`close, this`wholeClosed, this`heard
      ensures e.Some? <==> Step(old(recv.Speaker()), old(FrameIn(recv))).None? ||
                           (old(recv.header)[0] == HEART_REQUEST && |old(send.hearts)| == MAX_HEARTS)
      ensures e.None? ==> Valid() && heard == old(heard).(frames := old(heard.frames) + [old(FrameIn(recv))])
      ensures e.None? ==> (inner == null <==> recv.header[0] == FIN) && !close.armed && recv.header == old(recv.header)
      ensures inner == null ==> left == old(send)
      ensures shared == if e.None? then Teach(old(shared), old(FrameIn(recv))) else old(shared)
      ensures e.Some? ==> Core() && inner != null && heard == old(heard)
      ensures send.finQueued == old(send.finQueued)
      ensures e.None? ==> (recv.dataReady <==> recv.header[0] == PSH && recv.body != []) && recv.body == old(recv.body) && recv.delivered == 0
    {
      hide FlowOk, SaidOk, HeartOk, FinOk, RecvCore, RecvLive, FinHeard, NoCmd, P.Quiet, LossOk, Teach, Step, HeaderOk, FromBe32, Parked;
      e := Act();
      if e.None? && recv.header[0] == FIN {
        Finish();
      }
    }

    /** Pending replies go out first, but a transport that is not ready does not hold up reading. */
    method AnswerFirst() returns (r: Poll<()>)
      requires Valid() && inner != null && failure.None? && !close.armed && !recv.dataReady
      modifies this`inner, this`left, this`send, this`close, this`failure, this`wholeClosed, this`said, this`recv,
               link`answers, link`wire, link`entropy
      ensures Valid() && Accepted(said.log) == old(Accepted(said.log)) && old(said.log) <= said.log
      ensures if r.Err? then failure.Some? || said.dropped == old(said.dropped) + 1
              else inner != null && failure.None? && said.dropped == old(said.dropped) && close == old(close) && !recv.dataReady
      ensures send.finQueued == old(send.finQueued)
      ensures !old(recv.replyPending) ==> !r.Err? && send == old(send) && recv == old(recv) && link.answers == old(link.answers)
    {
      hide FlowOk, SaidOk, HeartOk, FinOk, FinHeard, NoCmd, RecvLive, RecvCore, Accepted, P.Quiet, LossOk;
      if recv.replyPending {
        r := Drain();
        if r.Ok? {
          Replied();
        }
        return;
      }
      return Pending;
    }

    /** The frame that comes next. */
    ghost function NextFrame(): Frame
      requires |recv.header| == HEADER && recv.headerRead <= HEADER && (recv.headerRead == HEADER ==> recv.bodyRead <= |recv.body|)
      reads this`recv, link`inbound
    {
      Coming(recv, link.inbound)
    }

    /** A legal frame comes next, the transport's answers are enough to read it, and nothing has to happen before. */
    ghost predicate FrameNext()
      reads this, link
    {
      && inner != null && failure.None? && !close.armed && !recv.dataReady && !recv.replyPending
      && |recv.header| == HEADER && recv.headerRead <= HEADER && (recv.headerRead == HEADER ==> recv.bodyRead <= |recv.body|)
      && Arrives(NextFrame()) && (NextFrame().cmd == HEART_REQUEST ==> |send.hearts| < MAX_HEARTS)
    }

    /** Reads and acts on one frame, answering heartbeats first when the transport lets it. */
    method ReceiveFrame() returns (r: Poll<()>)
      requires Valid() && inner != null && failure.None? && !close.armed && !recv.dataReady
      modifies this, link`answers, link`inbound, link`taken, link`wire, link`entropy
      ensures Valid() && heard.out == old(heard.out) && Accepted(said.log) == old(Accepted(said.log))
      ensures r.Ok? ==> failure.None? && !close.armed
      ensures r.Pending? ==> inner != null
      ensures if r.Err? then failure.Some? || said.dropped == old(said.dropped) + 1 else said.dropped == old(said.dropped)
      ensures old(FrameNext()) ==>
                && r.Ok? && heard.frames == old(heard.frames) + [old(NextFrame())] && Acted(old(NextFrame()), inner == null, recv)
                && (inner == null ==> left == old(send))
      ensures heard.frames != old(heard.frames) ==> |heard.frames| == |old(heard.frames)| + 1
      ensures shared == if heard.frames == old(heard.frames) then old(shared) else Teach(old(shared), heard.frames[|old(heard.frames)|])
      ensures old(heard.frames) <= heard.frames && old(said.log) <= said.log && send.finQueued == old(send.finQueued)
    {
      hide Valid, Steady, Core, Accepted, Step, HeaderOk, Encode, FromBe32, HeaderLen, Arriving, Coming, Payload, Teach;
      ghost var f := Frame(PADDING, 0, []);
      if FrameNext() {
        f := NextFrame();
      }
      r := AnswerFirst();
      if r.Err? {
        return;
      }
      r := ReadHeader(f);
      if !r.Ok? {
        return;
      }
      r := ReadBody(f);
      if !r.Ok? {
        return;
      }
      if Arrives(f) {
        ArrivedHere(f);
      }
      var e := Control();
      if e.Some? {
        Fail(e.value);
        return Err(e.value);
      }
      return Ok(());
    }

    lemma ArrivedHere(f: Frame)
      requires Arrives(f) && recv.headerRead == HEADER && recv.bodyRead == |recv.body|
      ensures recv.body == f.body && recv.header[0] == f.cmd && FrameIn(recv) == f && Step(recv.Speaker(), f).Some?
    {
      Arrived(f, recv, link.inbound, link.answers);
    }

    method Replied()
      requires Valid()
      modifies this`recv
      ensures Valid() && recv == old(recv).(replyPending := false)
    {
      hide FlowOk, SaidOk, HeartOk, FinOk, FinHeard, NoCmd, EncodeAll, Payload, PeerAfter, HeaderOk, P.Quiet, LossOk;
      recv := recv.(replyPending := false);
    }

    /** Hands over as much of the assembled frame as fits. */
    method Deliver(capacity: nat) returns (r: Poll<seq<byte>>)
      requires Valid() && recv.dataReady && capacity > 0
      modifies this`recv, this`heard
      ensures Valid() && r.Ok? && 0 < |r.value| <= capacity
      ensures heard == old(heard).(out := old(heard.out) + r.value) && r == Ok(old(NextBytes(recv, capacity)))
    {
      hide FlowOk, SaidOk, HeartOk, FinOk, FinHeard, EncodeAll, Payload, PeerAfter, HeaderOk, NoCmd, Partial, P.Quiet, LossOk;
      var n := Min(capacity, |recv.body| - recv.delivered);
      var bytes := recv.body[recv.delivered..recv.delivered + n];
      assert recv.body[recv.delivered..] == bytes + recv.body[recv.delivered + n..];
      Assoc(heard.out, bytes, recv.body[recv.delivered + n..]);
      heard := heard.(out := heard.out + bytes);
      recv := recv.(delivered := recv.delivered + n, dataReady := recv.delivered + n < |recv.body|);
      return Ok(bytes);
    }

    /** An empty `Ok` is a clean end: the peer said FIN or the local close completed, and
        every assembled byte has been delivered. */
    method PollRead(capacity: nat) returns (r: Poll<seq<byte>>)
      requires Valid()
      modifies this, link`answers, link`inbound, link`taken, link`wire, link`entropy
      ensures Valid() && Accepted(said.log) == old(Accepted(said.log))
      ensures r.Ok? ==> |r.value| <= capacity && heard.out == old(heard.out) + r.value
      ensures !r.Ok? ==> heard.out == old(heard.out)
      ensures r.Ok? && r.value == [] && capacity > 0 ==>
                && inner == null && failure.None? && heard.out == Payload(heard.frames)
                && (FinHeard(heard.frames) || (send.writeClosed && close.peerClosed))
      ensures r.Err? ==> failure.Some? || said.dropped == old(said.dropped) + 1
      ensures capacity > 0 && old(failure).None? && old(recv.dataReady) ==> r == Ok(old(NextBytes(recv, capacity)))
      ensures capacity > 0 && old(FrameNext()) && old(NextFrame()).cmd == PSH && old(NextFrame()).body != [] ==>
                r == Ok(old(NextFrame()).body[..Min(capacity, |old(NextFrame()).body|)])
      ensures capacity > 0 && old(FrameNext()) && old(NextFrame()).cmd == FIN ==>
                r == Ok([]) && inner == null && failure.None? && left == old(send)
      ensures |old(heard.frames)| <= |heard.frames| && shared == Learned(old(shared), heard.frames[|old(heard.frames)|..])
      ensures old(heard.frames) <= heard.frames && old(said.log) <= said.log && send.finQueued == old(send.finQueued)
    {
      hide FlowOk, SaidOk, HeartOk, FinOk, RecvLive, NoCmd, Accepted, EncodeAll, Payload, P.Quiet, LossOk, Upcoming, Remaining, Arriving, Coming, Encode, Teach, Learned;
      LearnedNone(shared, heard.frames);
      if capacity == 0 {
        assert heard.out + [] == heard.out;
        return Ok([]);
      }
      if failure.Some? {
        return Err(failure.value);
      }
      var turns := 0;
      while turns < 32
        invariant Valid() && failure.None? && heard.out == old(heard.out) && Accepted(said.log) == old(Accepted(said.log))
        invariant old(heard.frames) <= heard.frames && old(said.log) <= said.log
        invariant shared == Learned(old(shared), heard.frames[|old(heard.frames)|..])
        invariant send.finQueued == old(send.finQueued) && said.dropped == old(said.dropped)
        invariant turns == 0 ==> recv == old(recv) && send == old(send) && inner == old(inner) && (old(FrameNext()) ==> FrameNext() && NextFrame() == old(NextFrame()))
        invariant turns > 0 ==> !old(recv.dataReady) && (old(FrameNext()) && Ends(old(NextFrame())) ==>
                    turns == 1 && Acted(old(NextFrame()), inner == null, recv) && (inner == null ==> left == old(send)))
      {
        if recv.dataReady {
          r := Deliver(capacity);
          return;
        }
        if inner == null {
          assert heard.out + [] == heard.out;
          return Ok([]);
        }
        if close.armed {
          return Pending;
        }
        ghost var frames := heard.frames;
        var one := ReceiveFrame();
        if heard.frames != frames {
          LearnedOne(old(shared), frames, |old(heard.frames)|, heard.frames[|frames|]);
          assert heard.frames == frames + [heard.frames[|frames|]];
        }
        if one.Pending? {
          return Pending;
        } else if one.Err? {
          return Err(one.kind);
        }
        turns := turns + 1;
      }
      return Pending;
    }

    // ---------------------------------------------------------------- polls that write

    method Accept(data: seq<byte>) returns (r: Poll<nat>)
      requires Valid() && inner != null && !close.armed && send.outgoing == [] && send.hearts == [] && data != []
      modifies this`inner, this`left, this`send, this`close, this`failure, this`wholeClosed, this`said, link`entropy
      ensures Valid()
      ensures r.Ok? ==> r.value == Min(|data|, MAX_FRAME) && said.log == old(said.log) + [Data(data[..r.value])]
      ensures r.Ok? ==> Accepted(said.log) == old(Accepted(said.log)) + data[..r.value]
      ensures !r.Ok? ==> r.Err? && inner == null && said.log == old(said.log)
      ensures r.Ok? ==> send.outgoing != [] && inner == old(inner) && failure == old(failure) && close == old(close)
      ensures var packed := PacketsFor(padding, old(send.group), old(link.entropy), Data(data[..Min(|data|, MAX_FRAME)]));
              (r.Ok? <==> packed.Some?) && (r.Ok? ==> send.outgoing == packed.value.packets)
    {
      hide SaidOk, RecvLive, RecvCore, FinHeard, NoCmd, Accepted, EncodeAll, Answered, P.Join, P.Quiet;
      var n := Min(|data|, MAX_FRAME);
      LogAppend(said.log, Data(data[..n]));
      var ok := Queue(Data(data[..n]));
      if !ok {
        Fail(Other);
        return Err(Other);
      }
      return Ok(n);
    }

    /** The transport takes what is queued and the random source does not fail. */
    ghost predicate WritesOn(data: seq<byte>)
      reads this, link
    {
      && inner != null && failure.None? && !close.armed && Drains(send, link.answers)
      && PacketsFor(padding, send.group, link.entropy, Data(data[..Min(|data|, MAX_FRAME)])).Some?
    }

    /** Accepts at most one frame of data, after everything queued before it is on the wire. */
    method PollWrite(data: seq<byte>) returns (r: Poll<nat>)
      requires Valid()
      modifies this`inner, this`left, this`send, this`close, this`failure, this`wholeClosed, this`said,
               link`answers, link`wire, link`entropy
      ensures Valid()
      ensures r.Ok? ==>
                r.value == Min(|data|, MAX_FRAME) && Accepted(said.log) == old(Accepted(said.log)) + data[..r.value]
      ensures r.Ok? && data != [] ==>
                && said.log == old(said.log + Replies(send.hearts)) + [Data(data[..r.value])]
                && old(inner) != null && !old(close.armed)
      ensures !r.Ok? ==> Accepted(said.log) == old(Accepted(said.log))
      ensures old(WritesOn(data)) && data != [] ==>
                && r.Ok? && inner == old(inner) && failure.None? && close == old(close) && send.outgoing != []
                && link.answers == Remaining(Taken(old(send), old(link.answers)).value)
      ensures r.Err? ==> inner == null || old(close.armed) || said.dropped == old(said.dropped) + 1
    {
      hide FlowOk, SaidOk, HeartOk, FinOk, FinHeard, NoCmd, RecvLive, RecvCore, Accepted, P.Quiet;
      if failure.Some? {
        return Err(failure.value);
      }
      if close.armed || inner == null {
        return Err(BrokenPipe);
      }
      if data == [] {
        return Ok(0);
      }
      var drained := Drain();
      if drained.Pending? {
        return Pending;
      } else if drained.Err? {
        return Err(drained.kind);
      }
      r := Accept(data);
    }

    /** `Ok` on a held transport means that everything accepted is on the wire. After the peer's FIN it means nothing: what
        was unsent then stays lost, and that is exactly what is missing. */
    method PollFlush() returns (r: Poll<()>)
      requires Valid()
      modifies this`inner, this`left, this`send, this`close, this`failure, this`wholeClosed, this`said,
               link`answers, link`wire, link`entropy
      ensures Valid()
      ensures Accepted(said.log) == old(Accepted(said.log)) && old(said.log) <= said.log
      ensures old(send.hearts) == [] ==> said.log == old(said.log) && send.hearts == []
      ensures r.Ok? && inner != null ==> send.outgoing == [] && link.wire == setup.auth + EncodeAll(said.all)
      ensures r.Ok? ==> link.wire + Lost(left) == setup.auth + EncodeAll(said.all) && (left.outgoing != [] ==> FinHeard(heard.frames))
      ensures old(inner) == null ==> link.wire == old(link.wire) && left == old(left) && said == old(said)
      ensures old(inner) == null && old(failure).None? ==> r.Ok? && failure.None?
      ensures r.Err? ==> failure.Some? || said.dropped == old(said.dropped) + 1
      ensures !r.Err? ==> inner == old(inner)
      ensures old(failure).None? && (old(send.writeClosed) || Drains(old(send), old(link.answers))) ==> r.Ok?
    {
      hide SaidOk, HeartOk, FinOk, FinHeard, NoCmd, RecvLive, RecvCore, Accepted, EncodeAll, P.Quiet;
      if failure.Some? {
        return Err(failure.value);
      }
      if inner == null || send.writeClosed {
        return Ok(());
      }
      r := Drain();
    }

    // ---------------------------------------------------------------- closing

    method QueueFin() returns (ok: bool)
      requires Valid() && inner != null && close.armed && send.outgoing == [] && send.hearts == [] && !send.finQueued
      modifies this`inner, this`left, this`send, this`close, this`failure, this`wholeClosed, this`said, link`entropy
      ensures Valid() && Accepted(said.log) == old(Accepted(said.log)) && said.dropped == old(said.dropped)
      ensures ok ==> && send.finQueued && said.log == old(said.log) + [Fin] && inner != null
                     && close == old(close) && failure == old(failure) && !send.writeClosed
      ensures !ok ==> failure.Some?
      ensures ok <==> WithFin(padding, old(send), old(link.entropy)).Some?
      ensures ok ==> send == WithFin(padding, old(send), old(link.entropy)).value.(finQueued := true, group := send.group)
    {
      hide SaidOk, RecvLive, RecvCore, FinHeard, NoCmd, Accepted, EncodeAll, Answered, P.Join, P.Quiet;
      LogAppend(said.log, Fin);
      ok := Queue(Fin);
      if ok {
        send := send.(finQueued := true);
      } else {
        Fail(Other);
      }
    }

    /** Empty queues alone do not prove completion; the transport must shut down too. */
    method CloseWrite() returns (r: Poll<()>)
      requires Valid() && inner != null && close.armed && send.outgoing == [] && send.finQueued
      modifies this`inner, this`left, this`send, this`close, this`failure, this`wholeClosed, link`answers, link`shut
      ensures Valid()
      ensures r.Ok? ==> send.writeClosed
      ensures (Upcoming(old(link.answers)).Ready? ==> r.Ok?) && link.answers == Remaining(old(link.answers))
      ensures if r.Err? then failure.Some? else inner != null && close == old(close) && failure == old(failure)
    {
      hide SaidOk, HeartOk, FinOk, FinHeard, NoCmd, RecvLive, RecvCore, EncodeAll, P.Quiet;
      r := inner.Shutdown();
      if r.Ok? {
        send := send.(writeClosed := true);
      } else if r.Err? {
        Fail(r.kind);
      }
    }

    method ShutdownWrite() returns (r: Poll<()>)
      requires Valid() && inner != null && failure.None? && close.armed && !send.writeClosed
      modifies this`inner, this`left, this`send, this`close, this`failure, this`wholeClosed, this`said,
               link`answers, link`wire, link`entropy, link`shut
      ensures Valid() && Accepted(said.log) == old(Accepted(said.log))
      ensures r.Ok? ==> send.writeClosed
      ensures !r.Err? ==> inner != null && close == old(close) && failure.None?
      ensures var rest := ClosesWrite(padding, old(send), old(link.entropy), old(link.answers));
              rest.Some? ==> r.Ok? && link.answers == rest.value
      ensures r.Err? ==> failure.Some? || said.dropped == old(said.dropped) + 1
    {
      hide FlowOk, SaidOk, HeartOk, FinOk, FinHeard, NoCmd, RecvLive, RecvCore, Accepted, EncodeAll, P.Quiet;
      r := Drain();
      if !r.Ok? {
        return;
      }
      if !send.finQueued {
        var ok := QueueFin();
        if !ok {
          return Err(Other);
        }
      }
      r := Drain();
      if r.Ok? {
        r := CloseWrite();
      }
    }

    /** One read of the bounded cleanup; bytes are counted and thrown away. */
    method DiscardOnce() returns (r: Poll<()>)
      requires Valid() && inner != null && failure.None? && close.armed && !close.peerClosed
      modifies this`close, this`failure, this`inner, this`left, this`send, this`wholeClosed, link`answers, link`inbound, link`taken
      ensures Valid()
      ensures old(link.inbound) == [] && Upcoming(old(link.answers)).Ready? ==> r.Ok? && close.peerClosed
      ensures if r.Err? then failure.Some? else inner != null && failure.None? && close.armed && send == old(send)
    {
      hide FlowOk, SaidOk, HeartOk, FinOk, FinHeard, NoCmd, RecvLive, RecvCore, P.Quiet, LossOk, Upcoming, Remaining;
      var remaining: nat := Min(MAX_CLOSE_DRAIN - close.drained + 1, DISCARD);
      var b := inner.Read(remaining);
      if b.Pending? {
        return Pending;
      }
      var bad: Option<Kind> := None;
      if b.Ok? && b.value != [] {
        close := close.(drained := close.drained + |b.value|);
        bad := if close.drained > MAX_CLOSE_DRAIN then Some(InvalidData) else None;
      } else if b.Ok? || b.kind == UnexpectedEof {
        close := close.(peerClosed := true);
      } else {
        bad := Some(b.kind);
      }
      if bad.Some? {
        Fail(bad.value);
        return Err(bad.value);
      }
      return Ok(());
    }

    /** Arms the close deadline on the first call and polls it. */
    method BeginClose() returns (r: Poll<()>)
      requires Valid() && inner != null
      modifies this`close, this`closing, this`failure, this`inner, this`left, this`send, this`wholeClosed, link`answers
      ensures Valid()
      ensures (r.Err? <==> Upcoming(old(link.answers)).Ready?) && link.answers == Remaining(old(link.answers))
      ensures if r.Err? then failure.Some?
              else inner != null && close == old(close).(armed := true) && failure.None? && send == old(send)
    {
      hide FlowOk, SaidOk, HeartOk, FinHeard, NoCmd, NoFin, RecvLive, RecvCore, P.Quiet, LossOk, Upcoming, Remaining;
      close, closing := close.(armed := true), true;
      var expired := inner.Expired();
      if expired {
        Fail(TimedOut);
        return Err(TimedOut);
      }
      return Ok(());
    }

    /** Reads up to the peer's end, a bounded number of times. */
    method AwaitEnd() returns (r: Poll<()>)
      requires Valid() && inner != null && failure.None? && close.armed
      modifies this`close, this`failure, this`inner, this`left, this`send, this`wholeClosed, link`answers, link`inbound, link`taken
      ensures Valid()
      ensures if r.Err? then failure.Some? else inner != null && failure.None? && close.armed && send == old(send)
      ensures old(close.peerClosed) || (old(link.inbound) == [] && Upcoming(old(link.answers)).Ready?) ==> r.Ok? && close.peerClosed
    {
      hide Valid, Upcoming, Remaining;
      var turns := 0;
      while turns < 16 && !close.peerClosed
        invariant Valid() && inner != null && close.armed && failure.None? && send == old(send)
        invariant turns == 0 ==> close == old(close) && link.inbound == old(link.inbound) && link.answers == old(link.answers)
        invariant old(close.peerClosed) || (old(link.inbound) == [] && Upcoming(old(link.answers)).Ready?) ==> turns == 0 || close.peerClosed
      {
        r := DiscardOnce();
        if !r.Ok? {
          return;
        }
        turns := turns + 1;
      }
      return Ok(());
    }

    /** Both directions have ended. */
    method Complete()
      requires Valid() && inner != null && failure.None? && close.armed && close.peerClosed && send.writeClosed
      modifies this`inner, this`left, this`close, this`send, this`wholeClosed
      ensures Valid() && inner == null && wholeClosed && send.writeClosed && close.peerClosed && link.shut
      ensures said.log != [] && said.log[|said.log| - 1].Fin? && NoFin(said.log[..|said.log| - 1])
      ensures link.wire == setup.auth + EncodeAll(said.all) && link.wire + Lost(left) == setup.auth + EncodeAll(said.all) && left.outgoing == []
    {
      hide SaidOk, HeartOk, RecvLive, RecvCore, FinHeard, NoCmd, EncodeAll, P.Join, Cursor, NoFin, P.Quiet, LossOk, Lost;
      Finish();
      LossExact();
    }

    /** `Ok` for a close this call completed means: FIN was the last word, every accepted byte
        and FIN are on the wire, and the transport's write side is shut. */
    method PollShutdown() returns (r: Poll<()>)
      requires Valid()
      modifies this`inner, this`left, this`send, this`close, this`closing, this`failure, this`wholeClosed, this`said,
               link`answers, link`inbound, link`taken, link`wire, link`entropy, link`shut
      ensures Valid() && Accepted(said.log) == old(Accepted(said.log))
      ensures r.Ok? && old(inner) != null ==>
                && inner == null && failure.None? && wholeClosed && send.writeClosed && close.peerClosed && link.shut
                && said.log != [] && said.log[|said.log| - 1].Fin? && NoFin(said.log[..|said.log| - 1])
                && link.wire == setup.auth + EncodeAll(said.all)
      ensures r.Ok? ==> link.wire + Lost(left) == setup.auth + EncodeAll(said.all) && (left.outgoing != [] ==> FinHeard(heard.frames))
      ensures old(inner) == null ==> link.wire == old(link.wire) && left == old(left) && said == old(said)
      ensures old(inner) == null && old(failure).None? ==> r.Ok? && failure.None?
      ensures old(inner) != null && old(failure).None? && ClosesOn(padding, old(send), old(close), old(link.entropy), old(link.inbound), old(link.answers)) ==> r.Ok?
      ensures r.Err? ==> failure.Some? || said.dropped == old(said.dropped) + 1
    {
      hide Valid, FinHeard, Accepted, EncodeAll, NoFin, Upcoming, Remaining, Lost, ClosesWrite;
      if failure.Some? {
        return Err(failure.value);
      }
      if inner == null {
        LossExact();
        return Ok(());
      }
      r := BeginClose();
      if r.Err? {
        return;
      }
      if !send.writeClosed {
        r := ShutdownWrite();
        if r.Err? {
          return;
        }
      }
      r := AwaitEnd();
      if !r.Ok? {
        return;
      }
      if close.peerClosed && send.writeClosed {
        Complete();
        return Ok(());
      }
      return Pending;
    }

    // ---------------------------------------------------------------- opening

    /** The frames that open the only stream of a session. */
    static function Opening(settings: Body, address: Body): (fs: seq<Frame>)
      ensures Strip(fs) == fs
    {
      var fs := [Frame(SETTINGS, 0, settings), Frame(SYN, 1, []), Frame(PSH, 1, address)];
      StripMeaningful(fs);
      fs
    }

    /** Authenticates with one unsplit write, then queues and flushes the opening frames in
        padding group 1. `patience` is how often the runtime polls a pending step. */
    static method Open(link: Transport, digest: seq<byte>, settings: Body, address: Body, scheme: P.Scheme,
                       patience: nat) returns (s: AnyTls?)
      requires P.Valid(scheme) && link.wire == [] && link.taken == []
      modifies link
      ensures s != null ==>
                && fresh(s) && s.Valid() && s.link == s.inner == link && s.failure.None?
                && s.setup.opening == Opening(settings, address) && s.setup.padding == scheme
                && s.setup.auth == digest + Be16(s.setup.authPad) + P.Zeros(s.setup.authPad)
                && s.said.log == [] && s.heard == Heard([], [], []) && s.send.outgoing == []
                && link.wire == s.setup.auth + EncodeAll(s.said.all)
                && AuthDraw(scheme, old(link.entropy)).Some? && s.setup.authPad == AuthDraw(scheme, old(link.entropy)).value.size
      ensures patience >= 2 && OpensOn(scheme, digest, Opening(settings, address), old(link.entropy), old(link.answers)) ==> s != null
    {
      hide StartsOn, Opening, EncodeAll, Upcoming, Remaining, P.Draw;
      ghost var answers, opens := link.answers, OpensOn(scheme, digest, Opening(settings, address), link.entropy, link.answers);
      var size := 0;
      if 0 in scheme.groups {
        var step := scheme.groups[0][0];
        var d := P.RandomSize(step.min, step.max, link.entropy);
        if d.None? {
          return null;
        }
        size := d.value.size;
        link.entropy := d.value.tape;
        P.CostOne(step);
        assert scheme.groups[0] == [step];
      }
      var auth := digest + Be16(size) + P.Zeros(size);
      assert |auth| == |digest| + 2 + size;
      var sent := false;
      ghost var tape := link.entropy;
      for i := 0 to patience
        invariant link.wire == if sent then auth else []
        invariant link.taken == [] && link.entropy == tape
        invariant opens ==> i <= 1 && sent == (i == 1) && link.answers == if sent then Remaining(answers) else answers
      {
        if !sent {
          var w := link.Write(auth);
          if w.Err? || (w.Ok? && w.value != |auth|) {
            return null;
          }
          sent := w.Ok?;
        } else {
          var f := link.Flush();
          if f.Err? {
            return null;
          }
          if f.Ok? {
            s := Start(link, Setup(scheme, auth, size, Opening(settings, address)), patience);
            return;
          }
        }
      }
      return null;
    }

    static method Start(link: Transport, setup: Setup, patience: nat) returns (s: AnyTls?)
      requires P.Valid(setup.padding) && link.wire == setup.auth && link.taken == []
      requires Strip(setup.opening) == setup.opening && setup.authPad <= P.Cost(P.StepsOf(setup.padding, 0))
      modifies link
      ensures s != null ==>
                && fresh(s) && s.Valid() && s.link == s.inner == link && s.failure.None? && s.setup == setup
                && s.said.log == [] && s.heard == Heard([], [], []) && s.send.outgoing == []
                && link.wire == s.setup.auth + EncodeAll(s.said.all)
      ensures patience > 0 && StartsOn(setup.padding, setup.opening, old(link.entropy), old(link.answers)) ==> s != null
    {
      hide Drains, EncodeAll, P.PacketsOf, P.PadsOf, P.Cost, P.Total, Strip, PadBytes, P.Valid,
           FlowOk, SaidOk, HeartOk, FinOk, RecvCore, RecvLive, P.Quiet;
      var first := EncodeAll(setup.opening);
      var packed := P.Packets(setup.padding, 1, first, link.entropy);
      if packed.None? {
        return null;
      }
      ghost var steps, tape := P.StepsOf(setup.padding, 1), link.entropy;
      ghost var pads := P.PadsOf(steps, tape, |first|);
      P.PacketsJoin(steps, tape, first);
      P.PadsBounded(steps, tape, |first|);
      OpeningBudget(setup.padding, setup.opening, pads);
      link.entropy := packed.value.tape;
      s := new AnyTls(link, setup.padding, packed.value.packets, setup, pads);
      var done := s.FlushOpening(patience);
      if !done {
        return null;
      }
    }

    method FlushOpening(patience: nat) returns (done: bool)
      requires Valid() && inner != null && send.hearts == []
      modifies this`inner, this`left, this`send, this`close, this`failure, this`wholeClosed, this`said,
               link`answers, link`wire, link`entropy
      ensures Valid() && said.log == old(said.log)
      ensures done ==> inner == old(inner) && failure.None? && send.outgoing == []
                       && link.wire == setup.auth + EncodeAll(said.all)
      ensures patience > 0 && old(failure).None? && Drains(old(send), old(link.answers)) ==> done
    {
      hide Drains, FlowOk, SaidOk, HeartOk, FinOk, FinHeard, NoCmd, RecvCore, RecvLive, EncodeAll, P.Quiet;
      for i := 0 to patience
        invariant Valid() && inner == old(inner) && send.hearts == [] && said.log == old(said.log)
        invariant i == 0 ==> send == old(send) && link.answers == old(link.answers) && failure == old(failure)
        invariant i > 0 ==> !(old(failure).None? && Drains(old(send), old(link.answers)))
      {
        var f := PollFlush();
        if f.Err? {
          return false;
        }
        if f.Ok? {
          return true;
        }
      }
      return false;
    }

    // ---------------------------------------------------------------- what every reachable state says

    /** Send refinement: while the session is open, the bytes written and still queued decode as
        whole frames, and without padding they are the opening and then every accepted write,
        heartbeat reply and FIN, once each and in order. */
    lemma SendRefines()
      requires Valid() && inner != null
      ensures var bytes := (link.wire + Unsent(send.outgoing, send.written))[|setup.auth|..];
              && Decode(bytes) == said.all && Rest(bytes) == []
              && Strip(Decode(bytes)) == setup.opening + FramesOf(said.log)
    {
      hide EncodeAll, HeartOk, FinOk, RecvCore, RecvLive, FramesOf, PadBytes, P.Valid, P.Quiet;
      var bytes := (link.wire + Unsent(send.outgoing, send.written))[|setup.auth|..];
      assert bytes == EncodeAll(said.all) + [];
      DecodeEncodeAll(said.all, []);
    }

    /** However the session ends, the peer has seen whole frames from the front of the queue. */
    lemma WirePrefix()
      requires Valid()
      ensures var seen := Decode(link.wire[|setup.auth|..]);
              seen <= said.all && Strip(seen) <= setup.opening + FramesOf(said.log)
    {
      hide EncodeAll, HeartOk, FinOk, RecvCore, RecvLive, FramesOf, PadBytes, P.Valid, P.Quiet;
      var sent, total := link.wire[|setup.auth|..], EncodeAll(said.all);
      assert link.wire <= setup.auth + total;
      assert total == (setup.auth + total)[|setup.auth|..];
      DecodePrefix(sent, said.all);
      var seen := Decode(sent);
      assert said.all == seen + said.all[|seen|..];
      StripConcat(seen, said.all[|seen|..]);
    }

    /** However a session ended, everything said is on the wire exactly when nothing was queued at that moment, and what
        is missing is exactly what was unsent then. Without an error only the peer's FIN can end a session with something
        queued; a close it completed itself loses nothing. */
    lemma LossExact()
      requires Valid() && inner == null
      ensures link.wire + Lost(left) == setup.auth + EncodeAll(said.all)
      ensures link.wire == setup.auth + EncodeAll(said.all) <==> left.outgoing == []
      ensures failure.None? && left.outgoing != [] ==> FinHeard(heard.frames) && !send.writeClosed
    {
      hide SaidOk, HeartOk, FinOk, RecvCore, RecvLive, NoCmd, EncodeAll, P.Quiet, Cursor;
      UnsentNothing(left.outgoing, left.written);
      assert |link.wire + Lost(left)| == |link.wire| + |Lost(left)|;
      if Lost(left) == [] {
        assert link.wire + Lost(left) == link.wire;
      }
    }

    /** Receiving is chunking-independent, also in a session that failed: what was decoded and what the application got
        are prefixes that depend on the bytes read only. Until a local close begins nothing read is passed over, and
        without a failure they are all of it. */
    lemma ReceiveDetermined()
      requires Valid()
      ensures heard.received <= link.taken && (!closing ==> heard.received == link.taken)
      ensures heard.frames <= Decode(link.taken) && heard.out <= Payload(heard.frames) && heard.out <= Payload(Decode(link.taken))
      ensures failure.None? ==>
                && heard.frames == Decode(heard.received) && PeerAfter(heard.frames) == Some(recv.Speaker())
                && (!recv.dataReady ==> heard.out == Payload(heard.frames)) && (!closing ==> heard.frames == Decode(link.taken))
    {
      hide FlowOk, SaidOk, HeartOk, FinOk, EncodeAll, Payload, PeerAfter, LossOk, P.Quiet;
      FramesRead(heard.frames, heard.received, link.taken);
      if failure.None? {
        PartialIncomplete(recv.header, recv.headerRead, recv.body, recv.bodyRead);
        DecodeEncodeAll(heard.frames, Partial(recv.header, recv.headerRead, recv.body, recv.bodyRead));
      }
    }

    /** Over the whole session, authentication included, padding stays within its limit. */
    lemma PaddingBounded()
      requires Valid()
      ensures |EncodeAll(said.all)| - |EncodeAll(Strip(said.all))| + setup.authPad <= P.MAX_PADDING
    {
      hide FlowOk, HeartOk, FinOk, RecvCore, EncodeAll, FramesOf, P.Quiet;
      PadBytesMeaning(said.all);
      P.TotalGrows(padding.groups, if send.group < padding.stop then send.group else padding.stop, padding.stop);
    }

    /** At most 32 answers are pending, a reply is missing exactly when the random source failed on its padding, and none
        is under a scheme that does not draw for seven bytes. */
    lemma HeartbeatsAnswered()
      requires Valid() && inner != null
      ensures |send.hearts| <= MAX_HEARTS
      ensures P.Quiet(padding, HEADER) ==> Ids(HEART_REQUEST, heard.frames) == Answered(said.log) + send.hearts
      ensures Ids(HEART_REQUEST, heard.frames) == Answered(said.log) + send.hearts <==> said.dropped == 0
    {
      hide FlowOk, SaidOk, FinOk, RecvCore, Ids, Answered, P.Quiet;
      if said.dropped > 0 {
        assert |said.popped + send.hearts| > |Answered(said.log) + send.hearts|;
      }
    }

    // ---------------------------------------------------------------- whole runs

    /** Any sequence of polls by the application, with what each read returned. Data comes out
        in the order the peer framed it and goes in in the order it was accepted; nothing is
        said after FIN. */
    method Run(calls: seq<Call>) returns (input: seq<byte>, output: seq<byte>)
      requires Valid() && heard.out == [] && Accepted(said.log) == []
      modifies this, link
      ensures Valid()
      ensures input == heard.out && input <= Payload(heard.frames) && input <= Payload(Decode(link.taken))
      ensures output == Accepted(said.log)
      ensures forall i :: 0 <= i < |said.log| - 1 ==> !said.log[i].Fin?
      ensures inner == null ==> (link.wire == setup.auth + EncodeAll(said.all) <==> left.outgoing == [])
    {
      hide FlowOk, SaidOk, HeartOk, FinOk, FinHeard, NoCmd, RecvLive, RecvCore, Accepted, EncodeAll, Payload, P.Quiet, LossOk, Decode;
      input, output := [], [];
      for i := 0 to |calls|
        invariant Valid() && input == heard.out && output == Accepted(said.log)
      {
        match calls[i]
        case Read(capacity) =>
          var r := PollRead(capacity);
          input := input + if r.Ok? then r.value else [];
        case Write(data) =>
          var r := PollWrite(data);
          output := output + if r.Ok? then data[..r.value] else [];
        case Flush =>
          var _ := PollFlush();
        case Shutdown =>
          var _ := PollShutdown();
      }
      ReceiveDetermined();
      FinLast();
      if inner == null {
        LossExact();
      }
    }

    lemma FinLast()
      requires Valid()
      ensures forall i :: 0 <= i < |said.log| - 1 ==> !said.log[i].Fin?
    {
      hide FlowOk, SaidOk, HeartOk, FinHeard, NoCmd, RecvLive, RecvCore, EncodeAll, P.Quiet, LossOk;
    }

    /** A session whose opening is queued, over a transport that takes it, flushes, and then has a FIN to read. */
    static method FinComing(fin: Frame) returns (s: AnyTls)
      requires fin == Frame(FIN, 1, [])
      ensures fresh(s) && fresh(s.link) && s.Valid() && s.WritesOn([7]) && s.said.log == []
      ensures s.recv == Recv(P.Zeros(HEADER), 0, [], 0, 0, false, false, false, false)
      ensures Remaining(Taken(s.send, s.link.answers).value) == [Ready(HEADER)] && s.link.inbound == Encode(fin)
    {
      hide FlowOk, SaidOk, HeartOk, FinOk, RecvCore, RecvLive, NoCmd, LossOk, EncodeAll, Encode, P.Quiet, P.Valid, PadBytes, Strip, P.Join, Reserved;
      var scheme, opening := P.Scheme(1, map[]), Opening([], []);
      var first := EncodeAll(opening);
      var link := new Transport([Ready(|first|)] + [Ready(0), Ready(HEADER)], Encode(fin), []);
      PlainOpening(scheme, opening);
      assert [first][0] == first;
      OnePacket(first, [Ready(0), Ready(HEADER)]);
      s := new AnyTls(link, scheme, [first], Setup(scheme, [], 0, opening), []);
      PlainPackets(scheme, 2, [], Data([7][..1]));
    }

    /** It accepts one byte that it has not sent yet. */
    static method WriteAccepted(fin: Frame) returns (s: AnyTls, written: Poll<nat>)
      requires fin == Frame(FIN, 1, [])
      ensures fresh(s) && fresh(s.link) && s.Valid() && s.FrameNext() && s.NextFrame() == fin && written == Ok(1)
      ensures s.send.outgoing != [] && Accepted(s.said.log) == [7]
    {
      hide FlowOk, SaidOk, HeartOk, FinOk, RecvCore, RecvLive, NoCmd, LossOk, EncodeAll, Encode, P.Quiet, AnyTls.WritesOn, FromBe32, HeaderLen;
      s := FinComing(fin);
      written := s.PollWrite([7]);
      assert [] + [7][..1] == [7];
      FinArrives(fin, s.recv);
    }

    /** A run that loses accepted data: a write is accepted, the peer's FIN is read before it is sent, and the flush that
        follows reports success. */
    static method FinDiscardsData() returns (s: AnyTls, written: Poll<nat>, read: Poll<seq<byte>>, flushed: Poll<()>)
      ensures s.Valid() && s.failure.None? && written == Ok(1) && read == Ok([]) && flushed.Ok?
      ensures Accepted(s.said.log) == [7] && s.left.outgoing != [] && |s.link.wire| < |s.setup.auth + EncodeAll(s.said.all)|
    {
      hide AnyTls.Valid, AnyTls.FrameNext, Accepted, EncodeAll, Encode;
      s, written := WriteAccepted(Frame(FIN, 1, []));
      read := s.PollRead(1);
      flushed := s.PollFlush();
      s.LossExact();
    }
  }

  /** FIN is a bare header that any peer may send. */
  lemma FinArrives(fin: Frame, recv: Recv)
    requires fin == Frame(FIN, 1, []) && |recv.header| == HEADER && recv.headerRead == 0
    ensures Arriving(fin, recv, Encode(fin), [Ready(HEADER)]) && Coming(recv, Encode(fin)) == fin
  {
    EncodedHeader(fin);
    ComingFresh(fin, recv, Encode(fin));
    assert recv.header[..0] + Encode(fin) == Encode(fin);
    assert ReadsLeft([Ready(HEADER)], HEADER) == Some([]) by { assert [Ready(HEADER)][1..] == []; }
  }

  /** Without padding groups an opening is one packet. */
  lemma PlainOpening(scheme: P.Scheme, opening: seq<Frame>)
    requires scheme == P.Scheme(1, map[]) && Strip(opening) == opening && opening != []
    ensures P.Valid(scheme) && P.NonEmpty([EncodeAll(opening)]) && P.Join([EncodeAll(opening)]) == EncodeAll(opening + [])
    ensures Strip(opening + []) == opening && PadBytes(opening + []) <= Reserved(scheme, 2)
  {
    assert opening + [] == opening && [EncodeAll(opening)][1..] == [];
    PadBytesMeaning(opening);
  }

  lemma LearnedNone(known: P.Scheme, fs: seq<Frame>)
    ensures Learned(known, fs[|fs|..]) == known
  {
  }

  lemma OpenLoss(su: Setup, wire: seq<byte>, next: seq<byte>, left: Send, all: seq<Frame>)
    requires LossOk(su, true, wire, left, all)
    ensures LossOk(su, true, next, left, all)
  {
  }

  /** What the parser hands over next. */
  function NextBytes(recv: Recv, capacity: nat): seq<byte> {
    if recv.delivered <= |recv.body| then recv.body[recv.delivered..][..Min(capacity, |recv.body| - recv.delivered)] else []
  }

  /** A frame after which a read has an answer. */
  predicate Ends(f: Frame) { (f.cmd == PSH && f.body != []) || f.cmd == FIN }

  /** A frame was acted on: its data waits to be delivered, or it ended the stream. */
  ghost predicate Acted(f: Frame, closed: bool, recv: Recv) {
    (closed <==> f.cmd == FIN) && (recv.dataReady <==> f.cmd == PSH && f.body != []) && recv.body == f.body && recv.delivered == 0
  }

  datatype Call = Read(capacity: nat) | Write(data: seq<byte>) | Flush | Shutdown

  lemma {:induction false} StripMeaningful(fs: seq<Frame>)
    requires NoCmd(PADDING, fs)
    ensures Strip(fs) == fs
  {
    if fs != [] {
      StripMeaningful(fs[1..]);
    }
  }

  /** Frames whose encoding was read are the first frames of everything read. */
  lemma FramesRead(frames: seq<Frame>, received: seq<byte>, taken: seq<byte>)
    requires EncodeAll(frames) <= received <= taken
    ensures frames <= Decode(taken) && Payload(frames) <= Payload(Decode(taken))
  {
    var rest := taken[|EncodeAll(frames)|..];
    assert taken == EncodeAll(frames) + rest;
    DecodeAfter(frames, rest);
    PayloadConcat(frames, Decode(rest));
  }

  /** Part of an encoding decodes to part of its frames. */
  lemma DecodePrefix(sent: seq<byte>, all: seq<Frame>)
    requires sent <= EncodeAll(all)
    ensures Decode(sent) <= all
  {
    var later := EncodeAll(all)[|sent|..];
    assert sent + later == EncodeAll(all) + [];
    DecodeMonotone(sent, later);
    DecodeEncodeAll(all, []);
  }

  /** The opening with the padding of group 1 fits what groups 0 and 1 reserve. */
  lemma OpeningBudget(scheme: P.Scheme, opening: seq<Frame>, pads: seq<Frame>)
    requires P.Valid(scheme) && Strip(opening) == opening && OnlyPadding(pads)
    requires |EncodeAll(pads)| <= P.Cost(P.StepsOf(scheme, 1))
    ensures EncodeAll(opening + pads) == EncodeAll(opening) + EncodeAll(pads)
    ensures Strip(opening + pads) == opening
    ensures PadBytes(opening + pads) + P.Cost(P.StepsOf(scheme, 0)) <= Reserved(scheme, 2)
  {
    EncodeAllConcat(opening, pads);
    StripConcat(opening, pads);
    StripOnlyPadding(pads);
    PadBytesConcat(opening, pads);
    PadBytesMeaning(opening);
    PadBytesMeaning(pads);
    ReserveNext(scheme, 0);
    ReserveNext(scheme, 1);
  }
}
