/** The HTTP-obfuscated transport: one HTTP envelope around the first write and before the first read, raw bytes after. */
module Obfs {
  import opened Base
  import opened SessionSpec
  import opened SessionFlow
  import opened ObfsEnvelope
  import P = Padding

  const HEADER_LIMIT := 8192
  const FIRST_WRITE_LIMIT := 65536
  const STATUS: seq<byte> := [72, 84, 84, 80, 47, 49, 46, 49, 32, 49, 48, 49]  // HTTP/1.1 101

  // ---------------------------------------------------------------- the response header

  /** The first position of a pattern. */
  function Position(s: seq<byte>, pattern: seq<byte>): (r: Option<nat>)
    ensures r.Some? ==> At(s, pattern, r.value)
    decreases |s|
  {
    if At(s, pattern, 0) then Some(0)
    else if s == [] then None
    else
      var rest := Position(s[1..], pattern);
      assert rest.Some? && At(s[1..], pattern, rest.value) ==> At(s, pattern, rest.value + 1) by { Shifted(s, pattern); }
      if rest.None? then None else Some(rest.value + 1)
  }

  lemma Shifted(s: seq<byte>, pattern: seq<byte>)
    requires s != []
    ensures forall i: nat :: At(s[1..], pattern, i) <==> At(s, pattern, i + 1)
  {
    forall i: nat | true
      ensures At(s[1..], pattern, i) <==> At(s, pattern, i + 1)
    {
      if i + 1 + |pattern| <= |s| {
        assert s[1..][i..i + |pattern|] == s[i + 1..i + 1 + |pattern|];
      }
    }
  }

  /** No occurrence comes before the position found. */
  lemma {:induction false} PositionFirst(s: seq<byte>, pattern: seq<byte>, i: nat)
    requires At(s, pattern, i)
    ensures Position(s, pattern).Some? && Position(s, pattern).value <= i
    decreases |s|
  {
    if !At(s, pattern, 0) {
      assert s != [];
      Shifted(s, pattern);
      assert At(s[1..], pattern, i - 1);
      PositionFirst(s[1..], pattern, i - 1);
    }
  }

  /** More input does not move the first occurrence. */
  lemma {:induction false} PositionStable(s: seq<byte>, more: seq<byte>, pattern: seq<byte>)
    requires Position(s, pattern).Some?
    ensures Position(s + more, pattern) == Position(s, pattern)
    decreases |s|
  {
    var at := Position(s, pattern).value;
    assert |pattern| <= |s|;
    assert (s + more)[..|pattern|] == s[..|pattern|];
    if !At(s, pattern, 0) {
      assert (s + more)[1..] == s[1..] + more;
      PositionStable(s[1..], more, pattern);
    }
  }

  /** Where the header ends in a stream, if within the limit. */
  function HeaderEnd(s: seq<byte>): (r: Option<nat>)
    ensures r.Some? ==> 4 <= r.value <= |s| && r.value <= HEADER_LIMIT
  {
    var at :- Position(s[..Min(|s|, HEADER_LIMIT)], BLANK);
    Some(at + 4)
  }

  predicate StatusLine(line: seq<byte>) { STATUS <= line && (|line| > 12 ==> line[12] == 32 || line[12] == 9) }

  predicate StatusOk(s: seq<byte>) {
    var line := Position(s, CRLF);
    line.Some? && StatusLine(s[..line.value])
  }

  /** The stream upgrades: a header within the limit, with status 101. */
  predicate Upgrades(s: seq<byte>) { HeaderEnd(s).Some? && StatusOk(s[..HeaderEnd(s).value]) }

  /** What follows the header. */
  function Behind(s: seq<byte>): seq<byte>
    requires HeaderEnd(s).Some?
  {
    s[HeaderEnd(s).value..]
  }

  lemma HeaderStable(s: seq<byte>, more: seq<byte>)
    requires HeaderEnd(s).Some?
    ensures HeaderEnd(s + more) == HeaderEnd(s)
    ensures s[..HeaderEnd(s).value] == (s + more)[..HeaderEnd(s).value]
  {
    var a, b := s[..Min(|s|, HEADER_LIMIT)], (s + more)[..Min(|s + more|, HEADER_LIMIT)];
    assert a == b[..|a|];
    assert b == a + b[|a|..];
    PositionStable(a, b[|a|..], BLANK);
  }

  /** A complete header is judged alike however much of the stream has arrived. */
  lemma UpgradeStable(s: seq<byte>, more: seq<byte>)
    requires HeaderEnd(s).Some?
    ensures Upgrades(s + more) == Upgrades(s) && HeaderEnd(s + more) == HeaderEnd(s)
    ensures Behind(s + more) == Behind(s) + more
  {
    HeaderStable(s, more);
  }

  /** Within the limit the blank line is looked for in everything received. */
  lemma HeaderInBuffer(s: seq<byte>)
    requires |s| <= HEADER_LIMIT
    ensures HeaderEnd(s).Some? <==> Position(s, BLANK).Some?
    ensures HeaderEnd(s).Some? ==> HeaderEnd(s).value == Position(s, BLANK).value + 4
  {
    assert s[..|s|] == s;
  }

  /** A full buffer without a blank line settles that the stream has no header within the limit. */
  lemma HeaderTooLong(s: seq<byte>, more: seq<byte>)
    requires |s| == HEADER_LIMIT && Position(s, BLANK).None?
    ensures HeaderEnd(s + more).None?
  {
    assert (s + more)[..HEADER_LIMIT] == s;
  }

  lemma BlankIsLine(s: seq<byte>, at: nat)
    requires At(s, BLANK, at)
    ensures At(s, CRLF, at) && At(s[..at + 4], CRLF, at)
  {
    assert s[at..at + 2] == s[at..at + 4][..2];
    assert s[..at + 4][at..at + 2] == s[at..at + 2];
    assert BLANK[..2] == CRLF;
  }

  /** The first line is the same in a text and in any prefix that contains it. */
  lemma FirstLine(s: seq<byte>, end: nat)
    requires end <= |s| && Position(s[..end], CRLF).Some?
    ensures Position(s, CRLF).Some? && StatusOk(s[..end]) == StatusOk(s)
  {
    hide Position, At, StatusLine;
    var head := s[..end];
    PositionStable(head, s[end..], CRLF);
    assert head + s[end..] == s;
    PositionInside(head, CRLF);
    assert head[..Position(head, CRLF).value] == s[..Position(head, CRLF).value];
  }

  lemma PositionInside(s: seq<byte>, pattern: seq<byte>)
    requires Position(s, pattern).Some?
    ensures Position(s, pattern).value <= |s|
  {
  }

  /** The status line lies before the blank line, so the buffer's first line is the header's. */
  lemma StatusInHeader(s: seq<byte>)
    requires HeaderEnd(s).Some? && |s| <= HEADER_LIMIT
    ensures Position(s, CRLF).Some? && StatusOk(s[..HeaderEnd(s).value]) == StatusOk(s)
  {
    hide Position, StatusOk;
    HeaderInBuffer(s);
    var end := HeaderEnd(s).value;
    BlankIsLine(s, end - 4);
    PositionFirst(s[..end], CRLF, end - 4);
    FirstLine(s, end);
  }

  // ---------------------------------------------------------------- the stream

  datatype Outgoing = Outgoing(started: bool, pending: seq<byte>, written: nat)
  datatype Incoming = Incoming(response: seq<byte>, tail: nat, upgraded: bool, timed: bool)

  /** What has been accepted for writing, and the envelope written before it. */
  datatype Sent = Sent(envelope: seq<byte>, accepted: seq<byte>)

  /** The envelope is the request for what the first write accepted. */
  ghost predicate Wrapped(host: seq<byte>, port: nat, started: bool, sent: Sent, random: seq<byte>, first: nat) {
    && HostOk(host) && |random| == 18
    && (started ==> first <= |sent.accepted| && first <= FIRST_WRITE_LIMIT && sent.envelope == Request(host, port, random, first))
  }

  /** On the wire or still pending: nothing, or the envelope followed by every accepted byte. */
  ghost predicate SendOk(out: Outgoing, sent: Sent, wire: seq<byte>) {
    && out.written <= |out.pending| && (!out.started ==> out.pending == [] && sent == Sent([], []))
    && wire + out.pending[out.written..] == sent.envelope + sent.accepted
  }

  /** Before the upgrade everything taken is in the buffer and holds no complete header; after it the bytes behind the
      header are delivered or waiting, in order. */
  ghost predicate ReceiveOk(inc: Incoming, taken: seq<byte>, delivered: seq<byte>) {
    && inc.tail <= |inc.response|
    && (!inc.upgraded ==> inc.response == taken && |taken| <= HEADER_LIMIT && delivered == [])
    && (inc.upgraded ==> Upgrades(taken) && delivered + inc.response[inc.tail..] == Behind(taken))
  }

  /** Still looking for the end of the header. */
  ghost predicate Searching(inc: Incoming, taken: seq<byte>) {
    !inc.upgraded ==> |taken| < HEADER_LIMIT && HeaderEnd(taken).None?
  }

  // ---------------------------------------------------------------- what the transport's answers are enough for

  /** The answers left once everything pending is written, if the answers are enough for that. */
  function DrainLeft(out: Outgoing, answers: seq<Answer>): Option<seq<Answer>>
    requires out.written <= |out.pending|
  {
    ReadsLeft(answers, |out.pending| - out.written)
  }

  lemma DrainNext(answers: seq<Answer>, k: nat)
    requires k > 0 && ReadsLeft(answers, k).Some?
    ensures Upcoming(answers).Ready?
    ensures var n := Min(Upcoming(answers).n, k); n > 0 && ReadsLeft(answers, k) == ReadsLeft(Remaining(answers), k - n)
  {
  }

  lemma AllRead(answers: seq<Answer>)
    ensures ReadsLeft(answers, 0) == Some(answers)
  {
  }

  /** The header deadline starts with the request: once it is written and no upgrade has come. */
  predicate Timed(out: Outgoing, inc: Incoming) { inc.timed || (out.pending != [] && !inc.upgraded) }

  /** A stream some way on: what was taken from it, what is still inbound, and the answers to come. */
  datatype Onward = Onward(taken: seq<byte>, inbound: seq<byte>, answers: seq<Answer>)

  /** Where reading stops once the header is complete, if the answers are enough for that and no deadline passes. */
  function HeaderRead(timed: bool, at: Onward): Option<Onward>
    decreases |at.inbound|
  {
    if HeaderEnd(at.taken).Some? then Some(at)
    else if |at.taken| >= HEADER_LIMIT || (timed && Upcoming(at.answers).Ready?) then None
    else
      var answers := if timed then Remaining(at.answers) else at.answers;
      if !Upcoming(answers).Ready? || Upcoming(answers).n == 0 || at.inbound == [] then None
      else
        var k := Min(Upcoming(answers).n, Min(HEADER_LIMIT - |at.taken|, |at.inbound|));
        HeaderRead(timed, Onward(at.taken + at.inbound[..k], at.inbound[k..], Remaining(answers)))
  }

  /** One read towards it. */
  lemma HeaderReadOn(timed: bool, at: Onward)
    requires HeaderRead(timed, at).Some? && HeaderEnd(at.taken).None?
    ensures |at.taken| < HEADER_LIMIT && (timed ==> !Upcoming(at.answers).Ready?)
    ensures var answers := if timed then Remaining(at.answers) else at.answers;
            && Upcoming(answers).Ready?
            && var k := Min(Upcoming(answers).n, Min(HEADER_LIMIT - |at.taken|, |at.inbound|));
               k > 0 && HeaderRead(timed, at) == HeaderRead(timed, Onward(at.taken + at.inbound[..k], at.inbound[k..], Remaining(answers)))
  {
  }

  lemma HeaderReadEnd(timed: bool, at: Onward)
    ensures HeaderEnd(at.taken).Some? ==> HeaderRead(timed, at) == Some(at)
    ensures HeaderEnd(at.taken).None? && |at.taken| >= HEADER_LIMIT ==> HeaderRead(timed, at).None?
  {
  }

  /** Without a deadline it is enough that the answers reach the end of the header. */
  lemma {:induction false} HeaderComes(at: Onward)
    requires HeaderEnd(at.taken + at.inbound).Some?
    requires var end := HeaderEnd(at.taken + at.inbound).value;
             |at.taken| < end ==> ReadsLeft(at.answers, end - |at.taken|).Some?
    ensures var end := HeaderRead(false, at);
            && end.Some? && end.value.taken + end.value.inbound == at.taken + at.inbound
            && (Upgrades(end.value.taken) <==> Upgrades(at.taken + at.inbound))
    decreases |at.inbound|
  {
    hide Position, StatusOk, ReadsLeft;
    var end := HeaderEnd(at.taken + at.inbound).value;
    if HeaderEnd(at.taken).Some? {
      UpgradeStable(at.taken, at.inbound);
    } else {
      if |at.taken| >= end {
        HeaderWithin(at.taken, at.inbound);
      }
      DrainNext(at.answers, end - |at.taken|);
      var k := Min(Upcoming(at.answers).n, Min(HEADER_LIMIT - |at.taken|, |at.inbound|));
      var next := Onward(at.taken + at.inbound[..k], at.inbound[k..], Remaining(at.answers));
      assert next.taken + next.inbound == at.taken + at.inbound;
      HeaderComes(next);
    }
  }

  /** A prefix that reaches the end of the header shows it. */
  lemma HeaderWithin(s: seq<byte>, more: seq<byte>)
    requires HeaderEnd(s + more).Some? && HeaderEnd(s + more).value <= |s|
    ensures HeaderEnd(s).Some?
  {
    hide Position;
    var whole := (s + more)[..Min(|s + more|, HEADER_LIMIT)];
    var part := s[..Min(|s|, HEADER_LIMIT)];
    var at := Position(whole, BLANK).value;
    assert At(whole, BLANK, at);
    assert part == whole[..|part|];
    assert whole[at..at + 4] == part[at..at + 4];
    PositionFirst(part, BLANK, at);
  }

  /** What a read hands over once the header is behind: buffered bytes first, then what the transport gives. */
  ghost predicate HandsOver(waiting: seq<byte>, inbound: seq<byte>, answers: seq<Answer>, max: nat, r: Poll<seq<byte>>) {
    if waiting != [] then r == Ok(waiting[..Min(max, |waiting|)])
    else Upcoming(answers).Ready? ==> r == Ok(inbound[..Min(Upcoming(answers).n, Min(max, |inbound|))])
  }

  class HttpObfs {
    const inner: Transport
    const host: seq<byte>
    const port: nat
    var out: Outgoing
    var inc: Incoming
    var failed: bool
    ghost var sent: Sent
    ghost var delivered: seq<byte>
    ghost var random: seq<byte>
    ghost var first: nat

    ghost predicate Valid()
      reads this, inner
    {
      SendOk(out, sent, inner.wire) && Wrapped(host, port, out.started, sent, random, first) && ReceiveOk(inc, inner.taken, delivered) && (!failed ==> Searching(inc, inner.taken))
    }

    constructor (inner: Transport, host: seq<byte>, port: nat)
      requires inner.wire == [] && inner.taken == [] && HostOk(host) && 0 < port < 0x1_0000
      ensures Valid() && this.inner == inner && this.host == host && this.port == port && !failed && sent == Sent([], []) && delivered == []
    {
      this.inner, this.host, this.port := inner, host, port;
      out, inc, failed := Outgoing(false, [], 0), Incoming([], 0, false, false), false;
      sent, delivered := Sent([], []), [];
      random, first := seq(18, i => 0), 0;
      new;
      NoHeaderYet();
    }

    /** A host is taken exactly when it is one to 255 bytes long and cannot break a line, and a port when it is not zero. */
    static method New(inner: Transport, host: seq<byte>, port: nat) returns (s: HttpObfs?)
      requires inner.wire == [] && inner.taken == [] && port < 0x1_0000
      ensures s != null <==> HostOk(host) && port != 0
      ensures s != null ==> fresh(s) && s.Valid() && s.inner == inner && s.host == host && s.port == port
    {
      if !HostOk(host) || port == 0 {
        return null;
      }
      s := new HttpObfs(inner, host, port);
    }

    /** Writes what was accepted earlier; only its completion lets anything else happen. */
    method Drain() returns (r: Poll<()>)
      requires Valid()
      modifies this`out, this`inc, this`failed, inner
      ensures Valid() && inner.taken == old(inner.taken) && inner.inbound == old(inner.inbound)
      ensures out.started == old(out.started) && inc == old(inc).(timed := inc.timed)
      ensures r.Ok? ==> !failed && !old(failed) && out.pending == [] && inner.wire == sent.envelope + sent.accepted
      ensures failed ==> old(failed) || r.Err?
      ensures r.Ok? ==> inc.timed == Timed(old(out), old(inc))
      ensures old(out.written <= |out.pending|)
      ensures var left := old(DrainLeft(out, inner.answers)); !old(failed) && left.Some? ==> r.Ok? && inner.answers == left.value
    {
      hide ReceiveOk, Searching, Wrapped, SendOk, Upcoming, Remaining, ReadsLeft;
      SendInside(out, sent, inner.wire);
      if failed {
        return Err(InvalidData);
      }
      ghost var left := DrainLeft(out, inner.answers);
      while out.written < |out.pending|
        invariant SendOk(out, sent, inner.wire) && out == old(out).(written := out.written) && out.written <= |out.pending|
        invariant inner.taken == old(inner.taken) && inner.inbound == old(inner.inbound) && inc == old(inc) && !failed
        invariant left.Some? ==> DrainLeft(out, inner.answers) == left
        decreases |out.pending| - out.written
      {
        ghost var wire := inner.wire;
        if left.Some? {
          DrainNext(inner.answers, |out.pending| - out.written);
        }
        var w := inner.Write(out.pending[out.written..]);
        if w.Pending? {
          return Pending;
        }
        if w.Err? || w.value == 0 {
          failed := true;
          if w.Ok? {
            SendAdvance(out, sent, wire, 0);
            assert out.(written := out.written + 0) == out;
          }
          return Err(if w.Err? then w.kind else WriteZero);
        }
        SendAdvance(out, sent, wire, w.value);
        out := out.(written := out.written + w.value);
      }
      SendDone(out, sent, inner.wire);
      AllRead(inner.answers);
      if out.pending != [] {
        out := out.(pending := [], written := 0);
        inc := inc.(timed := inc.timed || !inc.upgraded);
      }
      TimedKeeps(old(inc), inc, inner.taken, delivered);
      return Ok(());
    }

    /** The first write is wrapped in a request for exactly what it accepts; later writes go through as they are. */
    method PollWrite(data: seq<byte>, drawn: Option<seq<byte>>) returns (r: Poll<nat>)
      requires Valid() && (drawn.Some? ==> |drawn.value| == 18)
      modifies this, inner
      ensures Valid() && inner.taken == old(inner.taken) && inner.inbound == old(inner.inbound) && delivered == old(delivered)
      ensures r.Ok? ==> r.value <= |data| && sent.accepted == old(sent.accepted) + data[..r.value]
      ensures !r.Ok? ==> sent == old(sent)
      ensures old(out.started) ==> out.started && sent.envelope == old(sent.envelope)
      ensures r.Ok? && data != [] && !old(out.started) ==>
                out.started && drawn.Some? && sent.envelope == Request(host, port, drawn.value, r.value) && sent.accepted == data[..r.value]
      ensures old(out.written <= |out.pending|)
      ensures var left := old(DrainLeft(out, inner.answers));
              !old(failed) && left.Some? ==>
                && (data == [] ==> r == Ok(0))
                && (data != [] && !old(out.started) && drawn.Some? ==> r == Ok(Min(|data|, FIRST_WRITE_LIMIT)))
                && (data != [] && old(out.started) && Upcoming(left.value).Ready? ==> r == Ok(Min(Upcoming(left.value).n, |data|)))
    {
      hide ReceiveOk, Searching, Request, HostOk, DrainLeft, Upcoming, Remaining;
      var d := Drain();
      if !d.Ok? {
        return if d.Pending? then Pending else Err(d.kind);
      }
      if data == [] {
        assert sent.accepted + data[..0] == sent.accepted;
        return Ok(0);
      }
      if out.started {
        ghost var wire := inner.wire;
        r := inner.Write(data);
        if r.Ok? {
          Assoc(sent.envelope, sent.accepted, data[..r.value]);
          sent := sent.(accepted := sent.accepted + data[..r.value]);
        }
        assert inner.wire + [] == inner.wire;
        return;
      }
      if drawn.None? {
        return Err(Other);
      }
      var n := Min(|data|, FIRST_WRITE_LIMIT);
      var envelope := Request(host, port, drawn.value, n);
      out := Outgoing(true, envelope + data[..n], 0);
      sent, random, first := Sent(envelope, data[..n]), drawn.value, n;
      assert out.pending[0..] == out.pending && [] + out.pending == out.pending && [] + data[..n] == data[..n];
      return Ok(n);
    }

    /** Once all is written, a server reads one request for the host, whose Content-Length is what the first write
        accepted and whose body is every accepted byte, in order. */
    lemma WireRead()
      requires Valid() && out.started && out.pending == []
      ensures var head := Unwrap(inner.wire);
              && head == Some(Head(RequestLines(host, port, random, first), sent.accepted))
              && P.Number(head.value.lines[6][|LENGTH|..]) == Some(first) && first <= |sent.accepted|
    {
      hide ReceiveOk, Searching, Unwrap, RequestLines, P.Number;
      assert out.pending[out.written..] == [] && inner.wire + [] == inner.wire;
      RequestRead(host, port, random, first, sent.accepted);
    }

    method PollFlush() returns (r: Poll<()>)
      requires Valid()
      modifies this`out, this`inc, this`failed, inner
      ensures Valid() && inner.taken == old(inner.taken) && sent == old(sent)
      ensures r.Ok? ==> inner.wire == sent.envelope + sent.accepted
      ensures old(out.written <= |out.pending|)
      ensures var left := old(DrainLeft(out, inner.answers)); !old(failed) && left.Some? && Upcoming(left.value).Ready? ==> r.Ok?
    {
      hide ReceiveOk, Searching, SendOk, Wrapped, DrainLeft, Upcoming, Remaining;
      r := Drain();
      if r.Ok? {
        r := inner.Flush();
      }
    }

    method PollShutdown() returns (r: Poll<()>)
      requires Valid()
      modifies this`out, this`inc, this`failed, inner
      ensures Valid() && inner.taken == old(inner.taken) && sent == old(sent)
      ensures r.Ok? ==> inner.shut && inner.wire == sent.envelope + sent.accepted
      ensures old(out.written <= |out.pending|)
      ensures var left := old(DrainLeft(out, inner.answers)); !old(failed) && left.Some? && Upcoming(left.value).Ready? ==> r.Ok?
    {
      hide ReceiveOk, Searching, SendOk, Wrapped, DrainLeft, Upcoming, Remaining;
      r := Drain();
      if r.Ok? {
        r := inner.Shutdown();
      }
    }

    /** Receives more of the header; the outcome depends on the stream alone, not on how it is split. */
    method Upgrade() returns (r: Poll<()>)
      requires Valid() && !failed && !inc.upgraded
      modifies this`inc, this`failed, inner
      ensures Valid() && inner.wire == old(inner.wire) && inner.taken + inner.inbound == old(inner.taken + inner.inbound)
      ensures r.Ok? ==> !failed
      ensures failed ==> r.Err?
      ensures inc.upgraded ==> Upgrades(inner.taken + inner.inbound)
      ensures r == Err(InvalidData) && |inner.taken| > |old(inner.taken)| ==> !Upgrades(inner.taken + inner.inbound)
      ensures r.Ok? && !inc.upgraded ==> |inner.inbound| < |old(inner.inbound)|
      ensures var end := old(HeaderRead(inc.timed, Onward(inner.taken, inner.inbound, inner.answers)));
              end.Some? && Upgrades(end.value.taken) ==>
                r.Ok? && HeaderRead(inc.timed, Onward(inner.taken, inner.inbound, inner.answers)) == end
    {
      hide SendOk, Wrapped, StatusOk, HeaderEnd, Position, Upcoming, Remaining, HeaderRead, Behind;
      ghost var start := Onward(inner.taken, inner.inbound, inner.answers);
      ghost var goal := HeaderRead(inc.timed, start);
      if goal.Some? {
        HeaderReadOn(inc.timed, start);
      }
      if inc.timed {
        var late := inner.Expired();
        if late {
          failed := true;
          return Err(TimedOut);
        }
      }
      var read := inner.Read(HEADER_LIMIT - |inc.response|);
      match read {
        case Pending =>
          return Pending;
        case Err(kind) =>
          failed := true;
          return Err(kind);
        case Ok(bytes) =>
          if bytes == [] {
            failed := true;
            return Err(UnexpectedEof);
          }
          inc := inc.(response := inc.response + bytes);
      }
      HeaderReadEnd(inc.timed, Onward(inner.taken, inner.inbound, inner.answers));
      HeaderReadEnd(false, Onward(inner.taken, inner.inbound, inner.answers));
      r := Judge();
    }

    /** Looks for the end of the header in what was received, and judges a complete one by its status line. */
    method Judge() returns (r: Poll<()>)
      requires SendOk(out, sent, inner.wire) && Wrapped(host, port, out.started, sent, random, first)
      requires ReceiveOk(inc, inner.taken, delivered) && !failed && !inc.upgraded
      modifies this`inc, this`failed
      ensures Valid() && !r.Pending? && (failed <==> r.Err?) && (r.Err? ==> r.kind == InvalidData)
      ensures r.Err? ==> !Upgrades(inner.taken + inner.inbound)
      ensures inc.upgraded ==> Upgrades(inner.taken + inner.inbound) && !inc.timed
      ensures !inc.upgraded ==> inc == old(inc)
      ensures inc.upgraded <==> Upgrades(inner.taken)
      ensures r.Ok? <==> Upgrades(inner.taken) || (HeaderEnd(inner.taken).None? && |inner.taken| < HEADER_LIMIT)
    {
      hide SendOk, Wrapped, StatusOk, HeaderEnd, Position;
      ghost var taken := inner.taken;
      HeaderInBuffer(taken);
      var end := Position(inc.response, BLANK);
      if end.Some? {
        StatusInHeader(taken);
        UpgradeStable(taken, inner.inbound);
        if !StatusOk(inc.response) {
          failed := true;
          return Err(InvalidData);
        }
        inc := inc.(upgraded := true, timed := false, tail := end.value + 4);
        assert [] + inc.response[inc.tail..] == inc.response[inc.tail..];
      } else if |inc.response| == HEADER_LIMIT {
        HeaderTooLong(taken, inner.inbound);
        failed := true;
        return Err(InvalidData);
      }
      return Ok(());
    }

    method PollRead(max: nat) returns (r: Poll<seq<byte>>)
      requires Valid()
      modifies this`out, this`inc, this`failed, this`delivered, inner
      ensures Valid() && sent == old(sent) && inner.taken + inner.inbound == old(inner.taken + inner.inbound)
      ensures r.Ok? ==> |r.value| <= max && delivered == old(delivered) + r.value
      ensures !r.Ok? ==> delivered == old(delivered)
      ensures r.Ok? && max > 0 ==> inc.upgraded && (r.value == [] ==> delivered == Behind(inner.taken))
      ensures old(out.written <= |out.pending| && inc.tail <= |inc.response|)
      ensures var left := old(DrainLeft(out, inner.answers));
              !old(failed) && left.Some? && max > 0 ==>
                if old(inc.upgraded) then HandsOver(old(inc.response[inc.tail..]), old(inner.inbound), left.value, max, r)
                else
                  var end := HeaderRead(Timed(old(out), old(inc)), Onward(old(inner.taken), old(inner.inbound), left.value));
                  end.Some? && Upgrades(end.value.taken) ==> HandsOver(Behind(end.value.taken), end.value.inbound, end.value.answers, max, r)
    {
      hide SendOk, Wrapped, HeaderEnd, StatusOk, HandsOver, DrainLeft, HeaderRead, Upcoming, Remaining;
      SendInside(out, sent, inner.wire);
      if max == 0 {
        return Ok([]);
      }
      var d := Drain();
      if !d.Ok? {
        return if d.Pending? then Pending else Err(d.kind);
      }
      ghost var after := inner.answers;
      ghost var end := HeaderRead(inc.timed, Onward(inner.taken, inner.inbound, inner.answers));
      while !inc.upgraded
        invariant Valid() && !failed && delivered == old(delivered) && sent == old(sent)
        invariant inner.taken + inner.inbound == old(inner.taken + inner.inbound)
        invariant old(inc.upgraded) ==> inc == old(inc).(timed := inc.timed) && inner.inbound == old(inner.inbound) && inner.answers == after
        invariant !old(inc.upgraded) && end.Some? && Upgrades(end.value.taken) ==> HeaderRead(inc.timed, Onward(inner.taken, inner.inbound, inner.answers)) == end
        decreases !inc.upgraded, |inner.inbound|
      {
        var u := Upgrade();
        if !u.Ok? {
          return if u.Pending? then Pending else Err(u.kind);
        }
      }
      if !old(inc.upgraded) {
        JustUpgraded(inc, inner.taken, inner.inbound, inner.answers, delivered);
      }
      r := Deliver(max);
    }

    /** Hands out the bytes behind the header, buffered ones first. */
    method Deliver(max: nat) returns (r: Poll<seq<byte>>)
      requires Valid() && !failed && inc.upgraded && max > 0
      modifies this`inc, this`delivered, inner
      ensures Valid() && inc.upgraded && inner.wire == old(inner.wire)
      ensures inner.taken + inner.inbound == old(inner.taken + inner.inbound)
      ensures r.Ok? ==> |r.value| <= max && delivered == old(delivered) + r.value && (r.value == [] ==> delivered == Behind(inner.taken))
      ensures !r.Ok? ==> delivered == old(delivered)
      ensures old(inc.tail <= |inc.response|) && HandsOver(old(inc.response[inc.tail..]), old(inner.inbound), old(inner.answers), max, r)
    {
      BufferOk(inc, inner.taken, delivered);
      hide SendOk, Wrapped, ReceiveOk, Searching, Upgrades, HeaderEnd, Behind, Upcoming, Remaining, Advanced;
      var waiting := inc.response[inc.tail..];
      if waiting != [] {
        var n := Min(max, |waiting|);
        DeliverBuffered(inc, inner.taken, delivered, n);
        delivered := delivered + waiting[..n];
        inc := Advanced(inc, n);
        return Ok(waiting[..n]);
      }
      ghost var taken := inner.taken;
      r := inner.Read(max);
      if r.Ok? {
        DeliverFresh(inc, taken, delivered, r.value);
        delivered := delivered + r.value;
      }
    }

    /** What has been delivered is a prefix of what follows the header in the whole stream, however it arrives. */
    lemma DeliveredDetermined()
      requires Valid()
      ensures var stream := inner.taken + inner.inbound;
              inc.upgraded ==> Upgrades(stream) && delivered <= Behind(stream)
      ensures !inc.upgraded ==> delivered == []
    {
      hide SendOk, Wrapped, StatusOk, HeaderEnd;
      if inc.upgraded {
        UpgradeStable(inner.taken, inner.inbound);
      }
    }
  }

  /** Right after the upgrade nothing is delivered yet, and all that follows the header waits. */
  lemma JustUpgraded(inc: Incoming, taken: seq<byte>, inbound: seq<byte>, answers: seq<Answer>, delivered: seq<byte>)
    requires ReceiveOk(inc, taken, delivered) && inc.upgraded && delivered == []
    ensures inc.response[inc.tail..] == Behind(taken)
    ensures HeaderRead(inc.timed, Onward(taken, inbound, answers)) == Some(Onward(taken, inbound, answers))
  {
    assert [] + inc.response[inc.tail..] == inc.response[inc.tail..];
  }

  /** The buffer after handing out `n` bytes; cleared once it is used up. */
  function Advanced(inc: Incoming, n: nat): Incoming
    requires inc.tail + n <= |inc.response|
  {
    if inc.tail + n == |inc.response| then inc.(response := [], tail := 0) else inc.(tail := inc.tail + n)
  }

  lemma BufferOk(inc: Incoming, taken: seq<byte>, delivered: seq<byte>)
    requires ReceiveOk(inc, taken, delivered)
    ensures inc.tail <= |inc.response| && (inc.upgraded ==> HeaderEnd(taken).Some?)
    ensures inc.upgraded && inc.response[inc.tail..] == [] ==> delivered == Behind(taken)
  {
    assert delivered + [] == delivered;
  }

  lemma DeliverBuffered(inc: Incoming, taken: seq<byte>, delivered: seq<byte>, n: nat)
    requires ReceiveOk(inc, taken, delivered) && inc.upgraded && n <= |inc.response| - inc.tail
    ensures ReceiveOk(Advanced(inc, n), taken, delivered + inc.response[inc.tail..][..n])
  {
    hide Upgrades, Behind, HeaderEnd;
    var waiting := inc.response[inc.tail..];
    Assoc(delivered, waiting[..n], waiting[n..]);
    assert waiting == waiting[..n] + waiting[n..] && inc.response[inc.tail + n..] == waiting[n..];
  }

  lemma DeliverFresh(inc: Incoming, taken: seq<byte>, delivered: seq<byte>, bytes: seq<byte>)
    requires ReceiveOk(inc, taken, delivered) && inc.upgraded && inc.response[inc.tail..] == []
    ensures ReceiveOk(inc, taken + bytes, delivered + bytes) && HeaderEnd(taken + bytes).Some?
    ensures bytes == [] ==> delivered + bytes == Behind(taken + bytes)
  {
    hide StatusOk, HeaderEnd;
    UpgradeStable(taken, bytes);
    assert delivered + [] == delivered && delivered + bytes + [] == delivered + bytes;
  }

  lemma SendInside(out: Outgoing, sent: Sent, wire: seq<byte>)
    requires SendOk(out, sent, wire)
    ensures out.written <= |out.pending|
  {
  }

  lemma SendAdvance(out: Outgoing, sent: Sent, wire: seq<byte>, n: nat)
    requires SendOk(out, sent, wire) && out.written + n <= |out.pending|
    ensures SendOk(out.(written := out.written + n), sent, wire + out.pending[out.written..][..n])
  {
    var left := out.pending[out.written..];
    Assoc(wire, left[..n], left[n..]);
    assert left == left[..n] + left[n..] && out.pending[out.written + n..] == left[n..];
  }

  lemma SendDone(out: Outgoing, sent: Sent, wire: seq<byte>)
    requires SendOk(out, sent, wire) && out.written == |out.pending|
    ensures wire == sent.envelope + sent.accepted && SendOk(out.(pending := [], written := 0), sent, wire)
  {
    assert out.pending[out.written..] == [] && wire + [] == wire;
  }

  lemma NoHeaderYet()
    ensures HeaderEnd([]).None?
  {
  }

  lemma TimedKeeps(a: Incoming, b: Incoming, taken: seq<byte>, delivered: seq<byte>)
    requires b == a.(timed := b.timed)
    ensures ReceiveOk(a, taken, delivered) ==> ReceiveOk(b, taken, delivered)
    ensures Searching(a, taken) ==> Searching(b, taken)
  {
  }
}
