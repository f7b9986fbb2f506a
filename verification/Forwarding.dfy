/** Forwarding one HTTP exchange: the request body goes up, the response comes down, and the client connection is
    kept only when both sides agree on where the exchange ends. */
module Forwarding {
  import opened Base
  import opened Chunked

  const UPLOAD_LIMIT := 16 * 1024 * 1024
  const MAX_INTERIM := 16

  // ---------------------------------------------------------------- texts and fields

  function Lower(b: byte): byte { if 65 <= b <= 90 then b + 32 else b }

  function LowerAll(s: Bytes): Bytes { seq(|s|, i requires 0 <= i < |s| => Lower(s[i])) }

  const LENGTH := Text("content-length")
  const CODING := Text("transfer-encoding")
  const CHUNKED := Text("chunked")
  const CONNECTION := Text("connection")
  const KEEP_ALIVE := Text("keep-alive")
  const PROXY_CONNECTION := Text("proxy-connection")

  datatype Field = Field(name: Bytes, value: Bytes)
  datatype Response = Response(status: nat, fields: seq<Field>)

  /** Library syntax: a response header block, the trimmed lower-case tokens of a Connection value, and what trailers
      are let through. */
  datatype Syntax = Syntax(parse: Bytes -> Option<Response>, tokens: Bytes -> Option<seq<Bytes>>, trailers: Bytes -> bool)

  predicate Named(f: Field, name: Bytes) { LowerAll(f.name) == name }

  predicate Blank(b: byte) { b == 32 || b == 9 }

  function Trim(s: Bytes): Bytes {
    if s != [] && Blank(s[0]) then Trim(s[1..])
    else if s != [] && Blank(s[|s| - 1]) then Trim(s[..|s| - 1])
    else s
  }

  predicate Digits(s: Bytes) { s != [] && forall i :: 0 <= i < |s| ==> 48 <= s[i] <= 57 }

  function Decimal(s: Bytes): nat
    requires forall i :: 0 <= i < |s| ==> 48 <= s[i] <= 57
  {
    if s == [] then 0 else Decimal(s[..|s| - 1]) * 10 + (s[|s| - 1] - 48)
  }

  function LengthOf(value: Bytes): Option<nat> {
    var text := Trim(value);
    if !Digits(text) || Decimal(text) > U64_MAX then None else Some(Decimal(text))
  }

  // ---------------------------------------------------------------- how a response is framed

  datatype Heads = Heads(length: Option<nat>, chunked: bool, connection: seq<Bytes>)

  predicate Framing(name: Bytes) { name == LENGTH || name == CODING }

  /** One more field. */
  function Absorb(x: Syntax, h: Heads, f: Field): Option<Heads> {
    if Named(f, LENGTH) then
      if h.length.Some? || LengthOf(f.value).None? then None else Some(h.(length := LengthOf(f.value)))
    else if Named(f, CODING) then
      if h.chunked || LowerAll(f.value) != CHUNKED then None else Some(h.(chunked := true))
    else if Named(f, CONNECTION) then
      var tokens :- x.tokens(f.value);
      if exists t :: t in tokens && Framing(t) then None else Some(h.(connection := h.connection + tokens))
    else Some(h)
  }

  function HeadsOf(x: Syntax, fields: seq<Field>): Option<Heads> {
    if fields == [] then Some(Heads(None, false, []))
    else
      var h :- HeadsOf(x, fields[..|fields| - 1]);
      Absorb(x, h, fields[|fields| - 1])
  }

  method ReadHeads(x: Syntax, fields: seq<Field>) returns (r: Option<Heads>)
    ensures r == HeadsOf(x, fields)
  {
    hide Absorb;
    var h := Heads(None, false, []);
    assert fields[..0] == [];
    for n := 0 to |fields|
      invariant HeadsOf(x, fields[..n]) == Some(h)
    {
      HeadsStep(x, fields, n);
      var next := Absorb(x, h, fields[n]);
      if next.None? {
        HeadsStop(x, fields, n + 1);
        return None;
      }
      h := next.value;
    }
    assert fields[..|fields|] == fields;
    return Some(h);
  }

  lemma HeadsStep(x: Syntax, fields: seq<Field>, n: nat)
    requires n < |fields| && HeadsOf(x, fields[..n]).Some?
    ensures HeadsOf(x, fields[..n + 1]) == Absorb(x, HeadsOf(x, fields[..n]).value, fields[n])
  {
    hide Absorb;
    assert fields[..n + 1][..n] == fields[..n];
  }

  lemma {:induction false} HeadsStop(x: Syntax, fields: seq<Field>, n: nat)
    requires n <= |fields| && HeadsOf(x, fields[..n]).None?
    ensures HeadsOf(x, fields).None?
    decreases |fields|
  {
    hide Absorb;
    if n < |fields| {
      var front := fields[..|fields| - 1];
      assert front[..n] == fields[..n];
      HeadsStop(x, front, n);
    } else {
      assert fields[..n] == fields;
    }
  }

  /** What a field must be on its own. */
  ghost predicate FieldOk(x: Syntax, f: Field) {
    && (Named(f, LENGTH) ==> LengthOf(f.value).Some?)
    && (Named(f, CODING) ==> LowerAll(f.value) == CHUNKED)
    && (Named(f, CONNECTION) ==> x.tokens(f.value).Some? && forall t :: t in x.tokens(f.value).value ==> !Framing(t))
  }

  ghost predicate Once(fields: seq<Field>, name: Bytes) {
    forall i, j :: 0 <= i < j < |fields| ==> !(Named(fields[i], name) && Named(fields[j], name))
  }

  ghost predicate Present(fields: seq<Field>, name: Bytes) { exists i :: 0 <= i < |fields| && Named(fields[i], name) }

  ghost predicate EachOk(x: Syntax, fields: seq<Field>) { forall i :: 0 <= i < |fields| ==> FieldOk(x, fields[i]) }

  ghost predicate FieldsOk(x: Syntax, fields: seq<Field>) {
    EachOk(x, fields) && Once(fields, LENGTH) && Once(fields, CODING)
  }

  /** The framing found is the framing declared. */
  ghost predicate Declared(x: Syntax, fields: seq<Field>, h: Heads) {
    && (h.length.Some? <==> Present(fields, LENGTH)) && (h.chunked <==> Present(fields, CODING))
    && (forall i :: 0 <= i < |fields| && Named(fields[i], LENGTH) ==> h.length == LengthOf(fields[i].value))
    && (forall t :: t in h.connection ==> !Framing(t))
    && forall i :: 0 <= i < |fields| && Named(fields[i], CONNECTION) && x.tokens(fields[i].value).Some? ==>
         forall t :: t in x.tokens(fields[i].value).value ==> t in h.connection
  }

  lemma NamesDiffer()
    ensures LENGTH != CODING && LENGTH != CONNECTION && CODING != CONNECTION
    ensures !Framing(CONNECTION) && !Framing(KEEP_ALIVE) && !Framing(PROXY_CONNECTION)
  {
    assert |LENGTH| == 14 && |CODING| == 17 && |CONNECTION| == 10 && |KEEP_ALIVE| == 10 && |PROXY_CONNECTION| == 16;
  }

  lemma OnceMore(fields: seq<Field>, name: Bytes)
    requires fields != []
    ensures var front, f := fields[..|fields| - 1], fields[|fields| - 1];
            && (Once(fields, name) <==> Once(front, name) && !(Named(f, name) && Present(front, name)))
            && (Present(fields, name) <==> Present(front, name) || Named(f, name))
  {
    hide Named;
    var front := fields[..|fields| - 1];
    if Present(front, name) {
      var i :| 0 <= i < |front| && Named(front[i], name);
      assert Named(fields[i], name);
    }
    if Once(fields, name) {
      forall i, j | 0 <= i < j < |front|
        ensures !(Named(front[i], name) && Named(front[j], name))
      {
        assert front[i] == fields[i] && front[j] == fields[j];
      }
    }
  }

  /** A header is accepted exactly when each framing field appears at most once and is well formed, and no Connection
      token names one; the framing found is then the one declared. */
  lemma {:induction false} HeadsMeaning(x: Syntax, fields: seq<Field>)
    ensures HeadsOf(x, fields).Some? <==> FieldsOk(x, fields)
    ensures HeadsOf(x, fields).Some? ==> Declared(x, fields, HeadsOf(x, fields).value)
  {
    hide Absorb, Declared, FieldsOk;
    if fields == [] {
      NoFields(x);
    } else {
      var front := fields[..|fields| - 1];
      HeadsMeaning(x, front);
      FieldsMore(x, fields);
      if HeadsOf(x, front).Some? {
        AbsorbMeaning(x, fields, HeadsOf(x, front).value);
        DeclaredMore(x, fields, HeadsOf(x, front).value);
      }
    }
  }

  lemma NoFields(x: Syntax)
    ensures FieldsOk(x, []) && Declared(x, [], Heads(None, false, []))
  {
  }

  /** One more field is accepted exactly when the longer list is still well formed. */
  lemma AbsorbMeaning(x: Syntax, fields: seq<Field>, h: Heads)
    requires fields != [] && FieldsOk(x, fields[..|fields| - 1]) && Declared(x, fields[..|fields| - 1], h)
    ensures Absorb(x, h, fields[|fields| - 1]).Some? <==> FieldsOk(x, fields)
  {
    hide LengthOf, LowerAll, Once, Present, EachOk;
    NamesDiffer();
    OnceMore(fields, LENGTH);
    OnceMore(fields, CODING);
    FieldsMore(x, fields);
  }

  lemma FieldsMore(x: Syntax, fields: seq<Field>)
    requires fields != []
    ensures EachOk(x, fields) <==> EachOk(x, fields[..|fields| - 1]) && FieldOk(x, fields[|fields| - 1])
    ensures FieldsOk(x, fields) ==> FieldsOk(x, fields[..|fields| - 1])
  {
    hide FieldOk, Once, Present, Named;
    OnceMore(fields, LENGTH);
    OnceMore(fields, CODING);
    var front := fields[..|fields| - 1];
    if EachOk(x, fields) {
      forall i | 0 <= i < |front|
        ensures FieldOk(x, front[i])
      {
        assert front[i] == fields[i];
      }
    }
    if EachOk(x, front) {
      forall i | 0 <= i < |front|
        ensures FieldOk(x, fields[i])
      {
        assert front[i] == fields[i];
      }
    }
  }

  lemma DeclaredMore(x: Syntax, fields: seq<Field>, h: Heads)
    requires fields != [] && Declared(x, fields[..|fields| - 1], h)
    ensures var next := Absorb(x, h, fields[|fields| - 1]); next.Some? ==> Declared(x, fields, next.value)
  {
    hide LengthOf, LowerAll;
    var front, f := fields[..|fields| - 1], fields[|fields| - 1];
    var next := Absorb(x, h, f);
    NamesDiffer();
    OnceMore(fields, LENGTH);
    OnceMore(fields, CODING);
    if next.Some? {
      forall i | 0 <= i < |fields| && Named(fields[i], LENGTH)
        ensures next.value.length == LengthOf(fields[i].value)
      {
        if i < |front| {
          assert front[i] == fields[i];
        }
      }
      forall i | 0 <= i < |fields| && Named(fields[i], CONNECTION) && x.tokens(fields[i].value).Some?
        ensures forall t :: t in x.tokens(fields[i].value).value ==> t in next.value.connection
      {
        if i < |front| {
          assert front[i] == fields[i];
        }
      }
    }
  }

  // ---------------------------------------------------------------- the header a kept connection is sent

  /** Fields that concern one hop only. */
  predicate Dropped(f: Field, tokens: seq<Bytes>) {
    var name := LowerAll(f.name);
    name == CONNECTION || name == KEEP_ALIVE || name == PROXY_CONNECTION || name in tokens
  }

  function Kept(fields: seq<Field>, tokens: seq<Bytes>): seq<Field> {
    if fields == [] then []
    else
      var f := fields[|fields| - 1];
      Kept(fields[..|fields| - 1], tokens) + if Dropped(f, tokens) then [] else [f]
  }

  function Line(f: Field): Bytes { f.name + (Text(": ") + (f.value + CRLF)) }

  function Render(fields: seq<Field>): Bytes {
    if fields == [] then [] else Render(fields[..|fields| - 1]) + Line(fields[|fields| - 1])
  }

  const KEEP_FIELD := Field(Text("Connection"), KEEP_ALIVE)

  /** A parsed header with its framing. */
  datatype Opening = Opening(response: Response, heads: Heads)

  function OpeningOf(x: Syntax, block: Bytes): Option<Opening> {
    var response :- x.parse(block);
    var heads :- HeadsOf(x, response.fields);
    if (heads.length.Some? && heads.chunked) || response.status == 101 then None else Some(Opening(response, heads))
  }

  function SentFields(o: Opening): seq<Field> { Kept(o.response.fields, o.heads.connection) + [KEEP_FIELD] }

  /** Up to the first CRLF. */
  function StatusLine(block: Bytes): Bytes
    requires IsTrailers(block, 0)
  {
    LineOf(block, MAX_HEADER).value
  }

  function Rewritten(block: Bytes, o: Opening): Bytes
    requires IsTrailers(block, 0)
  {
    StatusLine(block) + Render(SentFields(o)) + CRLF
  }

  lemma RenderMore(fields: seq<Field>, f: Field)
    ensures Render(fields + [f]) == Render(fields) + Line(f)
  {
    assert (fields + [f])[..|fields|] == fields;
  }

  lemma KeptStep(fields: seq<Field>, tokens: seq<Bytes>, n: nat)
    requires n < |fields|
    ensures Render(Kept(fields[..n + 1], tokens)) ==
            Render(Kept(fields[..n], tokens)) + if Dropped(fields[n], tokens) then [] else Line(fields[n])
  {
    hide Dropped, Line;
    assert fields[..n + 1][..n] == fields[..n];
    RenderMore(Kept(fields[..n], tokens), fields[n]);
    assert Kept(fields[..n], tokens) + [] == Kept(fields[..n], tokens);
  }

  method Rewrite(block: Bytes, o: Opening) returns (header: Bytes)
    requires IsTrailers(block, 0)
    ensures header == Rewritten(block, o)
  {
    hide Dropped, Line, IsTrailers, LineOf, Kept;
    var fields, tokens := o.response.fields, o.heads.connection;
    var line := StatusLine(block);
    header := line;
    assert fields[..0] == [];
    KeptNone(tokens);
    for n := 0 to |fields|
      invariant header == line + Render(Kept(fields[..n], tokens))
    {
      KeptStep(fields, tokens, n);
      if !Dropped(fields[n], tokens) {
        Assoc(line, Render(Kept(fields[..n], tokens)), Line(fields[n]));
        header := header + Line(fields[n]);
      }
    }
    assert fields[..|fields|] == fields;
    RenderMore(Kept(fields, tokens), KEEP_FIELD);
    Assoc(line, Render(Kept(fields, tokens)), Line(KEEP_FIELD));
    header := header + Line(KEEP_FIELD) + CRLF;
  }

  lemma KeptNone(tokens: seq<Bytes>)
    ensures Kept([], tokens) == []
  {
  }

  /** What the header rewriting keeps, and only that. */
  lemma {:induction false} KeptMeaning(fields: seq<Field>, tokens: seq<Bytes>, f: Field)
    ensures f in Kept(fields, tokens) <==> f in fields && !Dropped(f, tokens)
  {
    hide Dropped;
    if fields != [] {
      var front := fields[..|fields| - 1];
      KeptMeaning(front, tokens, f);
      assert fields == front + [fields[|fields| - 1]];
    }
  }

  lemma {:induction false} KeptHeads(x: Syntax, fields: seq<Field>, tokens: seq<Bytes>)
    requires HeadsOf(x, fields).Some? && forall t :: t in tokens ==> !Framing(t)
    ensures HeadsOf(x, Kept(fields, tokens)) == Some(HeadsOf(x, fields).value.(connection := []))
  {
    hide Absorb, Dropped, Framing;
    if fields != [] {
      var front, f := fields[..|fields| - 1], fields[|fields| - 1];
      KeptHeads(x, front, tokens);
      KeptAbsorb(x, HeadsOf(x, front).value, f, tokens);
      if !Dropped(f, tokens) {
        assert Kept(fields, tokens)[..|Kept(front, tokens)|] == Kept(front, tokens);
      } else {
        assert Kept(fields, tokens) == Kept(front, tokens);
      }
    }
  }

  lemma KeptAbsorb(x: Syntax, h: Heads, f: Field, tokens: seq<Bytes>)
    requires Absorb(x, h, f).Some? && forall t :: t in tokens ==> !Framing(t)
    ensures var bare := h.(connection := []);
            var next := Absorb(x, h, f).value.(connection := []);
            if Dropped(f, tokens) then next == bare else Absorb(x, bare, f) == Some(next)
  {
    hide LowerAll, LengthOf;
    NamesDiffer();
  }

  ghost predicate SyntaxOk(x: Syntax) { x.tokens(KEEP_ALIVE) == Some([KEEP_ALIVE]) }

  lemma KeepNamed()
    ensures Named(KEEP_FIELD, CONNECTION)
  {
    assert |Text("Connection")| == |CONNECTION| == 10;
    forall i | 0 <= i < 10
      ensures LowerAll(Text("Connection"))[i] == CONNECTION[i]
    {
    }
  }

  /** The rewritten header declares the same framing as the one received, and nothing else about the connection. */
  lemma SentHeads(x: Syntax, o: Opening)
    requires SyntaxOk(x) && HeadsOf(x, o.response.fields) == Some(o.heads)
    ensures HeadsOf(x, SentFields(o)) == Some(Heads(o.heads.length, o.heads.chunked, [KEEP_ALIVE]))
  {
    hide LowerAll, LengthOf, Text;
    HeadsMeaning(x, o.response.fields);
    KeptHeads(x, o.response.fields, o.heads.connection);
    KeepNamed();
    NamesDiffer();
    assert SentFields(o)[..|SentFields(o)| - 1] == Kept(o.response.fields, o.heads.connection);
    assert [] + [KEEP_ALIVE] == [KEEP_ALIVE];
  }

  // ---------------------------------------------------------------- bodies

  predicate Empty(head: bool, status: nat) { head || status == 204 || status == 304 }

  /** The body ends somewhere the header tells. */
  predicate Framed(h: Heads, empty: bool) { empty || h.length.Some? || h.chunked }

  /** The body at the front of what follows the header. */
  function BodyOf(x: Syntax, h: Heads, empty: bool, s: Bytes): Option<Bytes> {
    if empty then Some([])
    else if h.chunked then
      if Wanted(s, U64_MAX, x.trailers) then Some(Encode(ParseBody(s, U64_MAX, MAX_CHUNKS).value)) else None
    else if h.length.Some? then if h.length.value <= |s| then Some(s[..h.length.value]) else None
    else Some(s)
  }

  /** A framed body ends at the same place whatever comes after it. */
  lemma BodyDelimited(x: Syntax, h: Heads, empty: bool, s: Bytes, q: Bytes)
    requires Framed(h, empty) && BodyOf(x, h, empty, s).Some?
    ensures BodyOf(x, h, empty, s).value <= s
    ensures BodyOf(x, h, empty, BodyOf(x, h, empty, s).value + q) == BodyOf(x, h, empty, s)
  {
    hide ParseBody, Encode, BodyOk;
    if !empty && h.chunked {
      ParseSound(s, U64_MAX, MAX_CHUNKS);
      ParseComplete(ParseBody(s, U64_MAX, MAX_CHUNKS).value, q, U64_MAX, MAX_CHUNKS);
    } else if !empty {
      var b := s[..h.length.value];
      assert (b + q)[..|b|] == b;
    }
  }

  /** Copies up to the end of the stream. */
  method CopyRest(reader: Reader, writer: Writer, ghost before: Bytes, ghost input: Bytes) returns (ok: bool)
    requires Even(before, writer.out, input, reader.rest)
    modifies reader, writer
    ensures Suffix(old(reader.rest), reader.rest)
    ensures ok ==> reader.rest == [] && Even(before, writer.out, input, [])
    ensures old(reader.Reliable()) && old(writer.script) == [] ==> ok
  {
    hide Even;
    ghost var start := reader.rest;
    while true
      invariant Even(before, writer.out, input, reader.rest) && Suffix(start, reader.rest)
      invariant old(reader.Reliable()) && old(writer.script) == [] ==> reader.Reliable() && writer.script == []
      decreases |reader.rest|
    {
      var available := reader.Fill();
      if available.None? {
        return false;
      }
      if available.value == [] {
        return true;
      }
      ghost var rest := reader.rest;
      reader.Consume(|available.value|);
      ok := Pass(writer, available.value, before, input, rest);
      if !ok {
        return;
      }
    }
  }

  method CopyBody(reader: Reader, writer: Writer, x: Syntax, h: Heads, empty: bool) returns (ok: bool)
    modifies reader, writer
    ensures ok ==>
              && BodyOf(x, h, empty, old(reader.rest)).Some?
              && old(reader.rest) == BodyOf(x, h, empty, old(reader.rest)).value + reader.rest
              && writer.out == old(writer.out) + BodyOf(x, h, empty, old(reader.rest)).value
    ensures old(reader.Reliable()) && old(writer.script) == [] ==> (ok <==> BodyOf(x, h, empty, old(reader.rest)).Some?)
  {
    hide ParseBody, BodyOk, Encode, Relayed, Suffix;
    ghost var input, before := reader.rest, writer.out;
    EvenStart(before, input);
    if empty {
      return true;
    } else if h.chunked {
      ghost var body;
      ok, body := CopyChunked(reader, writer, U64_MAX, x.trailers);
    } else if h.length.Some? {
      ok := CopyExact(reader, writer, h.length.value, before, input);
      if ok {
        EvenOut(before, writer.out, input, reader.rest, h.length.value);
      }
    } else {
      ok := CopyRest(reader, writer, before, input);
      if ok {
        EvenOut(before, writer.out, input, reader.rest, |input|);
        assert input[..|input|] == input;
      }
    }
  }

  lemma EvenOut(before: Bytes, out: Bytes, input: Bytes, rest: Bytes, length: nat)
    requires Even(before, out, input, rest) && length <= |input| && rest == input[length..]
    ensures out == before + input[..length] && input == input[..length] + rest
  {
  }

  // ---------------------------------------------------------------- the response

  /** A request to forward: its rewritten header and what decides the exchange's end. */
  datatype Forward = Forward(header: Bytes, length: nat, chunked: bool, keepAlive: bool, head: bool)

  /** A whole response: interim blocks, the final header and its body. */
  datatype Reply = Reply(interim: seq<Bytes>, block: Bytes, opening: Opening, body: Bytes)

  function Blocks(bs: seq<Bytes>): Bytes {
    if bs == [] then [] else Blocks(bs[..|bs| - 1]) + bs[|bs| - 1]
  }

  predicate Interim(x: Syntax, block: Bytes) {
    IsTrailers(block, 0) && OpeningOf(x, block).Some? && OpeningOf(x, block).value.response.status < 200
  }

  ghost predicate ReplyOk(x: Syntax, head: bool, r: Reply) {
    && |r.interim| < MAX_INTERIM && (forall i :: 0 <= i < |r.interim| ==> Interim(x, r.interim[i]))
    && IsTrailers(r.block, 0) && OpeningOf(x, r.block) == Some(r.opening) && r.opening.response.status >= 200
    && BodyOf(x, r.opening.heads, Empty(head, r.opening.response.status), r.body) == Some(r.body)
  }

  /** Which body a response has: none after a HEAD request or with status 204 or 304; otherwise a chunked one if the
      header says so, or else one of the stated length. */
  lemma ReplyBody(x: Syntax, head: bool, r: Reply)
    requires ReplyOk(x, head, r)
    ensures var bare := head || r.opening.response.status in {204, 304};
            && (bare ==> r.body == [])
            && (!bare && r.opening.heads.chunked ==>
                  exists body :: BodyOk(body, U64_MAX, MAX_CHUNKS) && r.body == Encode(body))
            && (!bare && !r.opening.heads.chunked && r.opening.heads.length.Some? ==> |r.body| == r.opening.heads.length.value)
  {
    hide ParseBody, Encode, BodyOk, IsTrailers, OpeningOf, Interim;
    var h := r.opening.heads;
    if !Empty(head, r.opening.response.status) && h.chunked {
      ParseSound(r.body, U64_MAX, MAX_CHUNKS);
    }
  }

  /** The input holds a response within `rounds` header blocks. */
  predicate Answered(x: Syntax, head: bool, s: Bytes, rounds: nat)
    decreases rounds
  {
    && rounds > 0
    && var block := ParseTrailers(s, 0);
    && block.Some? && |block.value| <= |s| && OpeningOf(x, block.value).Some?
    && var o, rest := OpeningOf(x, block.value).value, s[|block.value|..];
    && if o.response.status < 200 then Answered(x, head, rest, rounds - 1)
       else BodyOf(x, o.heads, Empty(head, o.response.status), rest).Some?
  }

  predicate Persists(forward: Forward, o: Opening) {
    forward.keepAlive && Framed(o.heads, Empty(forward.head, o.response.status))
  }

  /** The header sent on and the body. */
  method ForwardFinal(reader: Reader, writer: Writer, x: Syntax, forward: Forward, block: Bytes, o: Opening)
    returns (r: Option<bool>, ghost body: Bytes)
    requires IsTrailers(block, 0)
    modifies reader, writer
    ensures r.Some? ==>
              && r.value == Persists(forward, o)
              && BodyOf(x, o.heads, Empty(forward.head, o.response.status), old(reader.rest)) == Some(body)
              && old(reader.rest) == body + reader.rest
              && writer.out == old(writer.out) + (if r.value then Rewritten(block, o) else block) + body
    ensures old(reader.Reliable()) && old(writer.script) == [] ==>
              (r.Some? <==> BodyOf(x, o.heads, Empty(forward.head, o.response.status), old(reader.rest)).Some?)
  {
    hide IsTrailers, BodyOf, Rewritten;
    var empty, header := Empty(forward.head, o.response.status), block;
    if Persists(forward, o) {
      header := Rewrite(block, o);
    }
    body := [];
    var ok := writer.WriteAll(header);
    if !ok {
      return None, body;
    }
    ghost var input := reader.rest;
    ok := CopyBody(reader, writer, x, o.heads, empty);
    if !ok {
      return None, body;
    }
    body := BodyOf(x, o.heads, empty, input).value;
    return Some(Persists(forward, o)), body;
  }

  lemma BlockRead(s: Bytes, block: Bytes)
    requires ParseTrailers(s, 0) == Some(block)
    ensures IsTrailers(block, 0) && |block| <= |s| && s == block + s[|block|..]
  {
    hide ParseTrailers, IsTrailers;
    TrailersSound(s, 0);
  }

  lemma BlocksMore(bs: seq<Bytes>, b: Bytes)
    ensures Blocks(bs + [b]) == Blocks(bs) + b
  {
    assert (bs + [b])[..|bs|] == bs;
  }

  /** What one header block decides about the whole answer. */
  lemma AnsweredStep(x: Syntax, head: bool, s: Bytes, rounds: nat)
    requires rounds > 0
    ensures ParseTrailers(s, 0).None? ==> !Answered(x, head, s, rounds)
    ensures ParseTrailers(s, 0).Some? ==>
              && var block := ParseTrailers(s, 0).value;
              && |block| <= |s| && IsTrailers(block, 0) && s == block + s[|block|..]
              && var o, rest := OpeningOf(x, block), s[|block|..];
              && (o.None? ==> !Answered(x, head, s, rounds))
              && (o.Some? && o.value.response.status < 200 ==> (Answered(x, head, s, rounds) <==> Answered(x, head, rest, rounds - 1)))
              && (o.Some? && o.value.response.status >= 200 ==>
                    (Answered(x, head, s, rounds) <==> BodyOf(x, o.value.heads, Empty(head, o.value.response.status), rest).Some?))
  {
    hide ParseTrailers, IsTrailers, OpeningOf, BodyOf, Empty;
    if ParseTrailers(s, 0).Some? {
      BlockRead(s, ParseTrailers(s, 0).value);
    }
  }

  /** The body of a complete reply stands for itself. */
  lemma BodyAlone(x: Syntax, h: Heads, empty: bool, s: Bytes)
    requires BodyOf(x, h, empty, s).Some?
    ensures BodyOf(x, h, empty, BodyOf(x, h, empty, s).value) == BodyOf(x, h, empty, s)
  {
    hide BodyOf;
    if Framed(h, empty) {
      BodyDelimited(x, h, empty, s, []);
      assert BodyOf(x, h, empty, s).value + [] == BodyOf(x, h, empty, s).value;
    } else {
      Unframed(x, h, empty, s);
    }
  }

  lemma Unframed(x: Syntax, h: Heads, empty: bool, s: Bytes)
    requires !Framed(h, empty)
    ensures BodyOf(x, h, empty, s) == Some(s)
  {
  }

  /** Where the streams stand after the interim responses. */
  ghost predicate Passed(x: Syntax, interim: seq<Bytes>, before: Bytes, out: Bytes, input: Bytes, rest: Bytes) {
    && input == Blocks(interim) + rest && out == before + Blocks(interim)
    && forall i :: 0 <= i < |interim| ==> Interim(x, interim[i])
  }

  lemma PassedMore(x: Syntax, interim: seq<Bytes>, before: Bytes, out: Bytes, input: Bytes, block: Bytes, rest: Bytes)
    requires Passed(x, interim, before, out, input, block + rest) && Interim(x, block)
    ensures Passed(x, interim + [block], before, out + block, input, rest)
  {
    hide Interim, Blocks;
    BlocksMore(interim, block);
    Assoc(Blocks(interim), block, rest);
    Assoc(before, Blocks(interim), block);
  }

  /** What was read is one whole response, and what was written is that response, its header rewritten if kept. */
  ghost predicate Delivered(x: Syntax, forward: Forward, reply: Reply, kept: bool, before: Bytes, out: Bytes, input: Bytes, rest: Bytes) {
    && ReplyOk(x, forward.head, reply) && kept == Persists(forward, reply.opening)
    && input == Blocks(reply.interim) + (reply.block + (reply.body + rest))
    && out == before + Blocks(reply.interim) + (if kept then Rewritten(reply.block, reply.opening) else reply.block) + reply.body
    && (!Framed(reply.opening.heads, Empty(forward.head, reply.opening.response.status)) ==> rest == [])
  }

  lemma ReplyDone(x: Syntax, forward: Forward, reply: Reply, kept: bool, before: Bytes, mid: Bytes, input: Bytes, rest: Bytes)
    requires Passed(x, reply.interim, before, mid, input, reply.block + (reply.body + rest)) && |reply.interim| < MAX_INTERIM
    requires IsTrailers(reply.block, 0) && OpeningOf(x, reply.block) == Some(reply.opening) && reply.opening.response.status >= 200
    requires var o := reply.opening; BodyOf(x, o.heads, Empty(forward.head, o.response.status), reply.body + rest) == Some(reply.body)
    requires kept == Persists(forward, reply.opening)
    ensures Delivered(x, forward, reply, kept, before,
                      mid + (if kept then Rewritten(reply.block, reply.opening) else reply.block) + reply.body, input, rest)
  {
    hide IsTrailers, OpeningOf, BodyOf, Rewritten, Blocks, Interim, Empty, Framed;
    var o := reply.opening;
    var empty := Empty(forward.head, o.response.status);
    BodyAlone(x, o.heads, empty, reply.body + rest);
    if !Framed(o.heads, empty) {
      Unframed(x, o.heads, empty, reply.body + rest);
      assert |reply.body + rest| == |reply.body| + |rest|;
    }
  }

  /** Success means one whole response was passed on; `true` means its end is where the client will look for it. On
      streams that do not fail, success comes exactly when the upstream sends such a response. */
  method ForwardResponse(reader: Reader, writer: Writer, x: Syntax, forward: Forward) returns (r: Option<bool>, ghost reply: Reply)
    modifies reader, writer
    ensures r.Some? ==> Delivered(x, forward, reply, r.value, old(writer.out), writer.out, old(reader.rest), reader.rest)
    ensures r.Some? ==> r.value == Persists(forward, reply.opening)
    ensures old(reader.Reliable()) && old(writer.script) == [] ==>
              (r.Some? <==> Answered(x, forward.head, old(reader.rest), MAX_INTERIM))
  {
    hide ParseTrailers, IsTrailers, BodyOf, Rewritten, Passed, Delivered, Answered, HeadsOf, Persists, Empty;
    ghost var input, before := reader.rest, writer.out;
    ghost var interim: seq<Bytes> := [];
    reply := Reply([], [], Opening(Response(0, []), Heads(None, false, [])), []);
    PassedNone(x, before, input);
    for n := 0 to MAX_INTERIM
      invariant |interim| == n && Passed(x, interim, before, writer.out, input, reader.rest)
      invariant old(reader.Reliable()) && old(writer.script) == [] ==>
                  && reader.Reliable() && writer.script == []
                  && (Answered(x, forward.head, input, MAX_INTERIM) <==> Answered(x, forward.head, reader.rest, MAX_INTERIM - n))
    {
      ghost var rest := reader.rest;
      AnsweredStep(x, forward.head, rest, MAX_INTERIM - n);
      var block := ReadTrailers(reader);
      if block.None? {
        return None, reply;
      }
      assert rest[|block.value|..] == reader.rest;
      var o := Parse(x, block.value);
      if o.None? {
        return None, reply;
      }
      if o.value.response.status < 200 {
        ghost var out := writer.out;
        var ok := writer.WriteAll(block.value);
        if !ok {
          return None, reply;
        }
        PassedMore(x, interim, before, out, input, block.value, reader.rest);
        interim := interim + [block.value];
      } else {
        ghost var body, mid := [], writer.out;
        r, body := ForwardFinal(reader, writer, x, forward, block.value, o.value);
        if r.Some? {
          reply := Reply(interim, block.value, o.value, body);
          ReplyDone(x, forward, reply, r.value, before, mid, input, reader.rest);
        }
        return;
      }
    }
    NotAnswered(x, forward.head, reader.rest);
    return None, reply;
  }

  lemma PassedNone(x: Syntax, before: Bytes, input: Bytes)
    ensures Passed(x, [], before, before, input, input)
  {
    assert [] + input == input && before + [] == before;
  }

  lemma NotAnswered(x: Syntax, head: bool, s: Bytes)
    ensures !Answered(x, head, s, 0)
  {
  }

  method Parse(x: Syntax, block: Bytes) returns (r: Option<Opening>)
    ensures r == OpeningOf(x, block)
  {
    hide HeadsOf;
    var response := x.parse(block);
    if response.None? {
      return None;
    }
    var heads := ReadHeads(x, response.value.fields);
    if heads.None? || (heads.value.length.Some? && heads.value.chunked) || response.value.status == 101 {
      return None;
    }
    return Some(Opening(response.value, heads.value));
  }

  /** A client that reads the rewritten header finds exactly the body that was sent, whatever follows on the kept
      connection. */
  lemma ClientDelimits(x: Syntax, forward: Forward, reply: Reply, q: Bytes)
    requires SyntaxOk(x) && ReplyOk(x, forward.head, reply) && Persists(forward, reply.opening)
    ensures var heads := HeadsOf(x, SentFields(reply.opening));
            && heads.Some? && heads.value.connection == [KEEP_ALIVE]
            && BodyOf(x, heads.value, Empty(forward.head, reply.opening.response.status), reply.body + q) == Some(reply.body)
  {
    hide HeadsOf, IsTrailers, Interim, SyntaxOk, SentFields, Wanted, Empty;
    var o := reply.opening;
    SentHeads(x, o);
    BodyDelimited(x, o.heads, Empty(forward.head, o.response.status), reply.body, q);
  }

  lemma {:induction false} BlocksFront(bs: seq<Bytes>)
    requires bs != []
    ensures Blocks(bs) == bs[0] + Blocks(bs[1..])
    decreases |bs|
  {
    var front, last := bs[..|bs| - 1], bs[|bs| - 1];
    if |bs| > 1 {
      BlocksFront(front);
      assert bs[1..] == front[1..] + [last];
      BlocksMore(front[1..], last);
      Assoc(bs[0], Blocks(front[1..]), last);
    } else {
      assert front == [] && bs[1..] == [];
    }
  }

  /** Every whole response, followed by anything if its end is told, is one that is passed on. */
  lemma {:induction false} AnswerComplete(x: Syntax, head: bool, interim: seq<Bytes>, reply: Reply, q: Bytes, rounds: nat)
    requires ReplyOk(x, head, reply) && |interim| < rounds && (forall i :: 0 <= i < |interim| ==> Interim(x, interim[i]))
    requires Framed(reply.opening.heads, Empty(head, reply.opening.response.status)) || q == []
    ensures Answered(x, head, Blocks(interim) + (reply.block + (reply.body + q)), rounds)
    decreases rounds
  {
    hide ParseTrailers, IsTrailers, BodyOf, Blocks, Answered, HeadsOf, Empty, Framed;
    var tail := reply.block + (reply.body + q);
    var s := Blocks(interim) + tail;
    AnsweredStep(x, head, s, rounds);
    if interim == [] {
      assert s == tail by { NoBlocks(); }
      TrailersComplete(reply.block, reply.body + q, 0);
      BodyFound(x, head, reply, q);
    } else {
      BlocksFront(interim);
      Assoc(interim[0], Blocks(interim[1..]), tail);
      TrailersComplete(interim[0], Blocks(interim[1..]) + tail, 0);
      AnswerComplete(x, head, interim[1..], reply, q, rounds - 1);
      assert s[|interim[0]|..] == Blocks(interim[1..]) + tail;
    }
  }

  lemma NoBlocks()
    ensures Blocks([]) == []
  {
  }

  lemma BodyFound(x: Syntax, head: bool, reply: Reply, q: Bytes)
    requires ReplyOk(x, head, reply)
    requires Framed(reply.opening.heads, Empty(head, reply.opening.response.status)) || q == []
    ensures BodyOf(x, reply.opening.heads, Empty(head, reply.opening.response.status), reply.body + q) == Some(reply.body)
  {
    hide BodyOf, IsTrailers, OpeningOf, Empty, Framed, Interim;
    var o := reply.opening;
    if Framed(o.heads, Empty(head, o.response.status)) {
      BodyDelimited(x, o.heads, Empty(head, o.response.status), reply.body, q);
    } else {
      assert reply.body + q == reply.body;
    }
  }

  // ---------------------------------------------------------------- the exchange

  /** The request body at the front of the client's input. */
  function RequestBody(x: Syntax, forward: Forward, input: Bytes): Option<Bytes> {
    if forward.chunked then
      if Wanted(input, UPLOAD_LIMIT, x.trailers) then Some(Encode(ParseBody(input, UPLOAD_LIMIT, MAX_CHUNKS).value)) else None
    else if forward.length <= |input| then Some(input[..forward.length])
    else None
  }

  /** The request went up whole and the client's reader stands right after its body. */
  ghost predicate Uploaded(x: Syntax, forward: Forward, before: Bytes, out: Bytes, input: Bytes, rest: Bytes) {
    var body := RequestBody(x, forward, input);
    body.Some? && input == body.value + rest && out == before + forward.header + body.value
  }

  method Upload(reader: Reader, writer: Writer, x: Syntax, forward: Forward) returns (ok: bool)
    modifies reader, writer
    ensures ok ==> Uploaded(x, forward, old(writer.out), writer.out, old(reader.rest), reader.rest)
    ensures old(reader.Reliable()) && old(writer.script) == [] ==> (ok <==> RequestBody(x, forward, old(reader.rest)).Some?)
  {
    hide Relayed, ParseBody, BodyOk, Encode;
    ok := writer.WriteAll(forward.header);
    if !ok {
      return;
    }
    ghost var input, before := reader.rest, writer.out;
    if forward.chunked {
      ghost var body;
      ok, body := CopyChunked(reader, writer, UPLOAD_LIMIT, x.trailers);
    } else {
      EvenStart(before, input);
      ok := CopyExact(reader, writer, forward.length, before, input);
      if ok {
        EvenOut(before, writer.out, input, reader.rest, forward.length);
      }
    }
  }

  /** What ends first: the upload, the download, the upstream as a whole, or the idle timer. */
  datatype Race = UploadFirst | DownloadFirst | ClosedFirst | IdleFirst

  /** The client connection is kept only if its reader stands exactly after the request body and it has received one
      whole response whose end the header tells; an early response or a closed upstream never lets unread body bytes
      pass for the next request. */
  method ForwardHttp(client: Reader, toClient: Writer, upstream: Reader, toUpstream: Writer, x: Syntax, forward: Forward,
                     race: Race, sent: nat) returns (r: Option<bool>, ghost reply: Reply)
    requires client != upstream && toClient != toUpstream
    modifies client, toClient, upstream, toUpstream
    ensures r.Some? ==> exists kept :: Delivered(x, forward, reply, kept, old(toClient.out), toClient.out, old(upstream.rest), upstream.rest)
    ensures r == Some(true) ==>
              && Uploaded(x, forward, old(toUpstream.out), toUpstream.out, old(client.rest), client.rest)
              && Delivered(x, forward, reply, true, old(toClient.out), toClient.out, old(upstream.rest), upstream.rest)
    ensures r.Some? && race.UploadFirst? ==> r.value == Persists(forward, reply.opening)
    ensures r.Some? && !race.UploadFirst? ==> !race.IdleFirst? && !r.value
    ensures race.UploadFirst? && old(client.Reliable() && upstream.Reliable() && toClient.script == [] && toUpstream.script == []) ==>
              (r.Some? <==> RequestBody(x, forward, old(client.rest)).Some? && Answered(x, forward.head, old(upstream.rest), MAX_INTERIM))
    ensures (race.DownloadFirst? || race.ClosedFirst?) && old(upstream.Reliable() && toClient.script == []) ==>
              (r.Some? <==> Answered(x, forward.head, old(upstream.rest), MAX_INTERIM))
  {
    hide Uploaded, Delivered, Persists, Answered, RequestBody;
    reply := Reply([], [], Opening(Response(0, []), Heads(None, false, [])), []);
    match race {
      case UploadFirst =>
        var ok := Upload(client, toUpstream, x, forward);
        if !ok {
          return None, reply;
        }
        r, reply := ForwardResponse(upstream, toClient, x, forward);
      case IdleFirst =>
        return None, reply;
      case _ =>
        client.Consume(Min(sent, |client.rest|));
        r, reply := ForwardResponse(upstream, toClient, x, forward);
        r := if r.Some? then Some(false) else None;
    }
  }
}
