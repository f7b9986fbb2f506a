/** The HTTP request that wraps the first write of an obfuscated transport. */
module ObfsEnvelope {
  import opened Base
  import P = Padding
  import S = SchemeText

  const CRLF: seq<byte> := [13, 10]
  const BLANK: seq<byte> := [13, 10, 13, 10]

  predicate At(s: seq<byte>, pattern: seq<byte>, i: nat) { i + |pattern| <= |s| && s[i..i + |pattern|] == pattern }

  // ---------------------------------------------------------------- header lines

  /** Nothing in a text ends a line. */
  predicate Unbroken(s: seq<byte>) { forall i :: 0 <= i < |s| ==> s[i] != 13 && s[i] != 10 }

  predicate LineOk(line: seq<byte>) { line != [] && Unbroken(line) }

  /** Lines, each ended, and an empty one. */
  function Wrap(lines: seq<seq<byte>>): seq<byte> {
    if lines == [] then CRLF else lines[0] + (CRLF + Wrap(lines[1..]))
  }

  datatype Head = Head(lines: seq<seq<byte>>, body: seq<byte>)

  function LineEnd(s: seq<byte>): (r: Option<nat>)
    ensures r.Some? ==> r.value + 2 <= |s|
  {
    if |s| < 2 then None
    else if s[0] == 13 && s[1] == 10 then Some(0)
    else
      var rest := LineEnd(s[1..]);
      if rest.None? then None else Some(rest.value + 1)
  }

  /** How a server reads a request: lines up to the first empty one, then the body. */
  function Unwrap(s: seq<byte>): Option<Head>
    decreases |s|
  {
    var end :- LineEnd(s);
    if end == 0 then Some(Head([], s[2..]))
    else
      var rest :- Unwrap(s[end + 2..]);
      Some(Head([s[..end]] + rest.lines, rest.body))
  }

  lemma {:induction false} LineEndAfter(line: seq<byte>, rest: seq<byte>)
    requires Unbroken(line)
    ensures LineEnd(line + (CRLF + rest)) == Some(|line|)
    decreases |line|
  {
    var s := line + (CRLF + rest);
    if line == [] {
      assert s == CRLF + rest;
    } else {
      LineEndAfter(line[1..], rest);
      assert s[1..] == line[1..] + (CRLF + rest);
    }
  }

  /** Wrapped lines are read back as themselves, and what follows them as the body, whatever it is. */
  lemma {:induction false} WrapRead(lines: seq<seq<byte>>, body: seq<byte>)
    requires forall i :: 0 <= i < |lines| ==> LineOk(lines[i])
    ensures Unwrap(Wrap(lines) + body) == Some(Head(lines, body))
    decreases |lines|
  {
    hide LineEnd;
    var s := Wrap(lines) + body;
    if lines == [] {
      LineEndAfter([], body);
      assert [] + (CRLF + body) == s && s[2..] == body;
    } else {
      var line, rest := lines[0], Wrap(lines[1..]) + body;
      WrapRead(lines[1..], body);
      Assoc(CRLF, Wrap(lines[1..]), body);
      Assoc(line, CRLF + Wrap(lines[1..]), body);
      LineEndAfter(line, rest);
      assert s == line + (CRLF + rest);
      assert s[..|line|] == line && s[|line| + 2..] == rest;
      assert [line] + lines[1..] == lines;
    }
  }

  lemma BlankAt(s: seq<byte>, i: nat)
    requires At(s, BLANK, i)
    ensures s[i] == 13 && s[i + 1] == 10 && s[i + 2] == 13 && s[i + 3] == 10
  {
    assert s[i..i + 4][0] == 13 && s[i..i + 4][1] == 10 && s[i..i + 4][2] == 13 && s[i..i + 4][3] == 10;
  }

  /** Where a byte of a line and what follows it comes from. */
  lemma Places(line: seq<byte>, rest: seq<byte>, i: nat)
    requires rest != []
    ensures var s := line + (CRLF + rest);
            && (i < |line| ==> s[i] == line[i]) && (i == |line| ==> s[i + 2] == rest[0]) && (i == |line| + 1 ==> s[i] == 10)
            && (|line| + 2 <= i && i + 4 <= |s| ==> s[i..i + 4] == rest[i - |line| - 2..i - |line| + 2])
  {
  }

  lemma WrapStarts(lines: seq<seq<byte>>)
    ensures Wrap(lines) != [] && (lines != [] && lines[0] != [] ==> Wrap(lines)[0] == lines[0][0])
  {
  }

  /** The only blank line of wrapped lines is their end. */
  lemma {:induction false} OnlyBlank(lines: seq<seq<byte>>, i: nat)
    requires (forall k :: 0 <= k < |lines| ==> LineOk(lines[k])) && At(Wrap(lines), BLANK, i)
    ensures i + 4 == |Wrap(lines)|
    decreases |lines|
  {
    var s := Wrap(lines);
    BlankAt(s, i);
    if lines != [] {
      var line, rest := lines[0], Wrap(lines[1..]);
      WrapStarts(lines[1..]);
      Places(line, rest, i);
      if i >= |line| + 2 {
        OnlyBlank(lines[1..], i - |line| - 2);
      }
    }
  }

  /** And it is there. */
  lemma {:induction false} EndsBlank(lines: seq<seq<byte>>)
    requires lines != []
    ensures |Wrap(lines)| >= 4 && At(Wrap(lines), BLANK, |Wrap(lines)| - 4)
    decreases |lines|
  {
    var rest := Wrap(lines[1..]);
    if |lines| == 1 {
      assert Wrap(lines) == lines[0] + BLANK;
    } else {
      EndsBlank(lines[1..]);
      var s := Wrap(lines);
      assert s[|s| - 4..|s|] == rest[|rest| - 4..|rest|];
    }
  }

  // ---------------------------------------------------------------- the request

  predicate HostOk(host: seq<byte>) { 1 <= |host| <= 255 && forall i :: 0 <= i < |host| ==> host[i] != 0 && host[i] != 13 && host[i] != 10 }

  function Sextet(n: nat): byte
    requires n < 64
  {
    if n < 26 then 65 + n else if n < 52 then 71 + n else if n < 62 then n - 4 else if n == 62 then 43 else 47
  }

  /** Standard base 64 with padding. */
  function Base64(s: seq<byte>): seq<byte> {
    if s == [] then []
    else if |s| == 1 then [Sextet(s[0] / 4), Sextet(s[0] % 4 * 16), 61, 61]
    else if |s| == 2 then [Sextet(s[0] / 4), Sextet(s[0] % 4 * 16 + s[1] / 16), Sextet(s[1] % 16 * 4), 61]
    else [Sextet(s[0] / 4), Sextet(s[0] % 4 * 16 + s[1] / 16), Sextet(s[1] % 16 * 4 + s[2] / 64), Sextet(s[2] % 64)] + Base64(s[3..])
  }

  lemma {:induction false} Base64Unbroken(s: seq<byte>)
    ensures Unbroken(Base64(s)) && (s != [] ==> Base64(s) != [])
    decreases |s|
  {
    if |s| >= 3 {
      Base64Unbroken(s[3..]);
    }
  }

  function HostText(host: seq<byte>, port: nat): seq<byte> {
    if port == 80 then host else host + (Text(":") + P.Decimal(port))
  }

  const GET := Text("GET / HTTP/1.1")
  const UPGRADE := Text("Upgrade: websocket")
  const CONNECTION := Text("Connection: Upgrade")
  const LENGTH := Text("Content-Length: ")

  /** The lines of the request; `random` is eighteen drawn bytes. */
  function RequestLines(host: seq<byte>, port: nat, random: seq<byte>, count: nat): seq<seq<byte>>
    requires |random| == 18
  {
    [GET, Text("Host: ") + HostText(host, port),
     Text("User-Agent: curl/7.") + (P.Decimal(random[0] % 51) + (Text(".") + P.Decimal(random[1] % 2))),
     UPGRADE, CONNECTION, Text("Sec-WebSocket-Key: ") + Base64(random[2..]), LENGTH + P.Decimal(count)]
  }

  function Request(host: seq<byte>, port: nat, random: seq<byte>, count: nat): seq<byte>
    requires |random| == 18
  {
    Wrap(RequestLines(host, port, random, count))
  }

  lemma Joined(a: seq<byte>, b: seq<byte>)
    requires LineOk(a) && Unbroken(b)
    ensures LineOk(a + b)
  {
  }

  lemma JoinedBehind(a: seq<byte>, b: seq<byte>)
    requires Unbroken(a) && Unbroken(b)
    ensures Unbroken(a + b)
  {
  }

  lemma DecimalUnbroken(n: nat)
    ensures Unbroken(P.Decimal(n))
  {
    S.DecimalValue(n);
    forall i | 0 <= i < |P.Decimal(n)|
      ensures P.Decimal(n)[i] != 13 && P.Decimal(n)[i] != 10
    {
      assert P.IsDigit(P.Decimal(n)[i]);
    }
  }

  lemma RequestLine()
    ensures LineOk(GET)
  {
  }

  lemma UpgradeLine()
    ensures LineOk(UPGRADE)
  {
  }

  lemma ConnectionLine()
    ensures LineOk(CONNECTION)
  {
  }

  lemma AgentText()
    ensures LineOk(Text("User-Agent: curl/7."))
  {
  }

  lemma DotText()
    ensures Unbroken(Text("."))
  {
  }

  lemma HostTexts()
    ensures LineOk(Text("Host: ")) && Unbroken(Text(":"))
  {
  }

  lemma KeyText()
    ensures LineOk(Text("Sec-WebSocket-Key: "))
  {
  }

  lemma LengthText()
    ensures LineOk(LENGTH)
  {
  }

  lemma HostLine(host: seq<byte>, port: nat)
    requires HostOk(host)
    ensures LineOk(Text("Host: ") + HostText(host, port))
  {
    hide P.Decimal, Text;
    HostTexts();
    DecimalUnbroken(port);
    JoinedBehind(Text(":"), P.Decimal(port));
    JoinedBehind(host, Text(":") + P.Decimal(port));
    Joined(Text("Host: "), HostText(host, port));
  }

  lemma LinesOk(host: seq<byte>, port: nat, random: seq<byte>, count: nat)
    requires HostOk(host) && |random| == 18
    ensures forall i :: 0 <= i < |RequestLines(host, port, random, count)| ==> LineOk(RequestLines(host, port, random, count)[i])
  {
    hide P.Decimal, Text, Base64, LineOk, HostText, HostOk;
    RequestLine();
    UpgradeLine();
    ConnectionLine();
    AgentText();
    DotText();
    KeyText();
    LengthText();
    HostLine(host, port);
    var a, b := P.Decimal(random[0] % 51), P.Decimal(random[1] % 2);
    DecimalUnbroken(random[0] % 51);
    DecimalUnbroken(random[1] % 2);
    DecimalUnbroken(count);
    Base64Unbroken(random[2..]);
    JoinedBehind(Text("."), b);
    JoinedBehind(a, Text(".") + b);
    Joined(Text("User-Agent: curl/7."), a + (Text(".") + b));
    Joined(Text("Sec-WebSocket-Key: "), Base64(random[2..]));
    Joined(LENGTH, P.Decimal(count));
  }

  /** With an accepted host the request is read as exactly its seven lines with the data as its body, its only blank line
      is its end, and its Content-Length says the count. */
  lemma RequestRead(host: seq<byte>, port: nat, random: seq<byte>, count: nat, data: seq<byte>)
    requires HostOk(host) && |random| == 18 && count <= P.USIZE_MAX
    ensures var request, lines := Request(host, port, random, count), RequestLines(host, port, random, count);
            && Unwrap(request + data) == Some(Head(lines, data)) && |request| >= 4
            && (forall i: nat :: At(request, BLANK, i) <==> i == |request| - 4)
            && LENGTH <= lines[6] && P.Number(lines[6][|LENGTH|..]) == Some(count)
  {
    hide LineOk, Wrap, Unwrap, P.Decimal, P.Number, Text, Base64, HostText;
    var lines := RequestLines(host, port, random, count);
    LinesOk(host, port, random, count);
    WrapRead(lines, data);
    EndsBlank(lines);
    forall i: nat | At(Wrap(lines), BLANK, i)
      ensures i == |Wrap(lines)| - 4
    {
      OnlyBlank(lines, i);
    }
    S.DecimalNumber(count);
    assert lines[6][|LENGTH|..] == P.Decimal(count);
  }
}
