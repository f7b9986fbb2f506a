/** Relaying HTTP bodies: bounded CRLF lines, exact lengths and the chunked coding of section 7.1 of RFC 9112. */
module Chunked {
  import opened Base

  type Bytes = seq<byte>

  const CR: byte := 13
  const LF: byte := 10
  const CRLF: Bytes := [13, 10]
  const MAX_HEADER := 16 * 1024
  const MAX_LINE := 4096
  const MAX_CHUNKS := 262144

  // ---------------------------------------------------------------- lines

  /** A complete line: CRLF at the end and no CR or LF before it. */
  predicate IsLine(line: Bytes) {
    && |line| >= 2 && line[|line| - 2..] == CRLF
    && forall i :: 0 <= i < |line| - 2 ==> line[i] != CR && line[i] != LF
  }

  function FindLF(s: Bytes): (r: Option<nat>)
    ensures r.Some? ==> r.value < |s| && s[r.value] == LF && forall i :: 0 <= i < r.value ==> s[i] != LF
    ensures r.None? ==> forall i :: 0 <= i < |s| ==> s[i] != LF
  {
    if s == [] then None
    else if s[0] == LF then Some(0)
    else
      var rest := FindLF(s[1..]);
      if rest.None? then None else Some(rest.value + 1)
  }

  /** The line at the front of the input, if there is a proper one within the limit. */
  function LineOf(s: Bytes, limit: nat): Option<Bytes> {
    var at :- FindLF(s);
    if at + 1 <= limit && IsLine(s[..at + 1]) then Some(s[..at + 1]) else None
  }

  /** A line in front of any input is what is read there. */
  lemma LineFirst(line: Bytes, rest: Bytes, limit: nat)
    requires IsLine(line) && |line| <= limit
    ensures LineOf(line + rest, limit) == Some(line)
  {
    var s := line + rest;
    var n := |line|;
    assert line[n - 2..][1] == LF && line[n - 2..][0] == CR;
    forall i | 0 <= i < n - 1
      ensures s[i] != LF
    {
      assert s[i] == line[i];
    }
    FirstLF(s, n - 1);
    assert s[..n] == line;
  }

  // ---------------------------------------------------------------- streams

  /** An input and how it will arrive: each entry of the script is a buffer size, or 0 for a read error. */
  class Reader {
    var rest: Bytes
    var script: seq<nat>

    constructor (rest: Bytes, script: seq<nat>)
      ensures this.rest == rest && this.script == script
    {
      this.rest, this.script := rest, script;
    }

    ghost predicate Reliable()
      reads this
    {
      forall i :: 0 <= i < |script| ==> script[i] > 0
    }

    /** Whatever is buffered: a nonempty prefix of the input, nothing at its end, or an error. */
    method Fill() returns (r: Option<Bytes>)
      modifies this`script
      ensures r.Some? ==> r.value <= rest && (r.value == [] <==> rest == [])
      ensures old(Reliable()) ==> Reliable() && r.Some?
    {
      var n := |rest|;
      if script != [] {
        n := Min(script[0], |rest|);
        script := script[1..];
        if n == 0 && rest != [] {
          return None;
        }
      }
      r := Some(rest[..n]);
    }

    method Consume(n: nat)
      requires n <= |rest|
      modifies this`rest
      ensures rest == old(rest)[n..]
    {
      rest := rest[n..];
    }
  }

  /** An output that may fail after taking part of a write. */
  class Writer {
    var out: Bytes
    var script: seq<nat>

    constructor (script: seq<nat>)
      ensures out == [] && this.script == script
    {
      out, this.script := [], script;
    }

    method WriteAll(data: Bytes) returns (ok: bool)
      modifies this
      ensures ok ==> out == old(out) + data
      ensures !ok ==> exists n :: 0 <= n <= |data| && out == old(out) + data[..n]
      ensures old(script) == [] ==> ok && script == []
    {
      if script != [] && script[0] < |data| {
        out := out + data[..script[0]];
        return false;
      }
      script := if script == [] then [] else script[1..];
      out := out + data;
      return true;
    }
  }

  /** What is left of an input after some of it was read. */
  predicate Suffix(s: Bytes, t: Bytes) { |t| <= |s| && t == s[|s| - |t|..] }

  lemma SuffixTransitive(a: Bytes, b: Bytes, c: Bytes)
    requires Suffix(a, b) && Suffix(b, c)
    ensures Suffix(a, c)
  {
    assert c == a[|a| - |b|..][|b| - |c|..];
  }

  lemma SuffixAfter(a: Bytes, b: Bytes)
    ensures Suffix(a + b, b) && Suffix(b, b)
  {
  }

  /** The input so far: a line without its end, and what is still to come. */
  ghost predicate Reading(input: Bytes, line: Bytes, rest: Bytes) {
    input == line + rest && forall i :: 0 <= i < |line| ==> line[i] != LF
  }

  /** Taking the next buffer up to its line feed, if it has one. */
  lemma ReadOn(input: Bytes, line: Bytes, rest: Bytes, buffer: Bytes, count: nat)
    requires Reading(input, line, rest) && buffer <= rest && buffer != []
    requires count == (if FindLF(buffer).Some? then FindLF(buffer).value + 1 else |buffer|)
    ensures var next := line + buffer[..count];
            && count <= |rest| && input == next + rest[count..] && 0 < |next| <= |input| && next == input[..|next|]
            && (forall i :: 0 <= i < |next| - 1 ==> input[i] != LF)
            && (if FindLF(buffer).Some? then FindLF(input) == Some(|next| - 1) else Reading(input, next, rest[count..]))
  {
    hide FindLF;
    var next := line + buffer[..count];
    assert buffer == rest[..|buffer|];
    assert rest == buffer[..count] + rest[count..];
    Assoc(line, buffer[..count], rest[count..]);
    forall i | 0 <= i < |next| - 1
      ensures input[i] != LF
    {
      assert input[i] == if i < |line| then line[i] else buffer[i - |line|];
    }
    assert input[|next| - 1] == buffer[count - 1];
    if FindLF(buffer).Some? {
      FirstLF(input, |next| - 1);
    }
  }

  /** What a buffer settles: the line ends in it, or it is too long already, or reading goes on. */
  lemma ReadSettles(input: Bytes, line: Bytes, rest: Bytes, buffer: Bytes, count: nat, limit: nat)
    requires Reading(input, line, rest) && buffer <= rest && buffer != []
    requires count == (if FindLF(buffer).Some? then FindLF(buffer).value + 1 else |buffer|)
    ensures var next := line + buffer[..count];
            && count <= |rest| && input == next + rest[count..] && Suffix(input, rest) && Suffix(input, rest[count..])
            && (|next| > limit ==> LineOf(input, limit).None?)
            && (FindLF(buffer).Some? && |next| <= limit ==> LineOf(input, limit) == if IsLine(next) then Some(next) else None)
            && (FindLF(buffer).None? ==> Reading(input, next, rest[count..]))
  {
    hide IsLine, FindLF;
    ReadOn(input, line, rest, buffer, count);
    SuffixAfter(line, rest);
    SuffixAfter(line + buffer[..count], rest[count..]);
    if |line + buffer[..count]| > limit {
      TooLong(input, |line + buffer[..count]| - 1, limit);
    }
  }

  lemma ReadEnds(input: Bytes, line: Bytes, limit: nat)
    requires Reading(input, line, [])
    ensures LineOf(input, limit).None? && Suffix(input, [])
  {
    assert input == line;
  }

  lemma ReadingSuffix(input: Bytes, line: Bytes, rest: Bytes)
    requires Reading(input, line, rest)
    ensures Suffix(input, rest)
  {
  }

  lemma ReadStart(input: Bytes)
    ensures Reading(input, [], input)
  {
  }

  /** Reading a line does not depend on how the input is split into buffers. */
  method HttpLine(reader: Reader, limit: nat) returns (r: Option<Bytes>)
    modifies reader
    ensures r.Some? ==> r == LineOf(old(reader.rest), limit) && old(reader.rest) == r.value + reader.rest
    ensures old(reader.Reliable()) ==> reader.Reliable() && r == LineOf(old(reader.rest), limit)
    ensures Suffix(old(reader.rest), reader.rest)
  {
    hide IsLine, FindLF, Suffix, Reading, LineOf;
    ghost var input := reader.rest;
    var line: Bytes := [];
    ReadStart(input);
    while true
      invariant Reading(input, line, reader.rest)
      invariant old(reader.Reliable()) ==> reader.Reliable()
      decreases |reader.rest|
    {
      var available := reader.Fill();
      if available.None? {
        ReadingSuffix(input, line, reader.rest);
        return None;
      }
      if available.value == [] {
        ReadEnds(input, line, limit);
        return None;
      }
      var at := FindLF(available.value);
      var count := if at.Some? then at.value + 1 else |available.value|;
      ReadSettles(input, line, reader.rest, available.value, count, limit);
      line := line + available.value[..count];
      if |line| > limit {
        return None;
      }
      reader.Consume(count);
      if at.Some? {
        if !IsLine(line) {
          return None;
        }
        return Some(line);
      }
    }
  }

  lemma FirstLF(s: Bytes, n: nat)
    requires n < |s| && s[n] == LF && forall i :: 0 <= i < n ==> s[i] != LF
    ensures FindLF(s) == Some(n)
  {
  }

  /** Without a line feed among the first `n` bytes no line fits into `n`. */
  lemma TooLong(s: Bytes, n: nat, limit: nat)
    requires n < |s| && n >= limit && forall i :: 0 <= i < n ==> s[i] != LF
    ensures LineOf(s, limit).None?
  {
  }

  // ---------------------------------------------------------------- the chunked coding

  function HexValue(b: byte): Option<nat> {
    if 48 <= b <= 57 then Some(b - 48) else if 97 <= b <= 102 then Some(b - 87) else if 65 <= b <= 70 then Some(b - 55) else None
  }

  /** How many hexadecimal digits a text starts with. */
  function HexRun(s: Bytes): (n: nat)
    ensures n <= |s| && forall i :: 0 <= i < n ==> HexValue(s[i]).Some?
  {
    if s == [] || HexValue(s[0]).None? then 0 else 1 + HexRun(s[1..])
  }

  function HexNumber(s: Bytes): nat
    requires forall i :: 0 <= i < |s| ==> HexValue(s[i]).Some?
  {
    if s == [] then 0 else HexNumber(s[..|s| - 1]) * 16 + HexValue(s[|s| - 1]).value
  }

  /** Hexadecimal digits in lower case, without leading zeros. */
  function HexText(n: nat): Bytes {
    if n < 16 then [HexDigit(n)] else HexText(n / 16) + [HexDigit(n % 16)]
  }

  function HexDigit(n: nat): byte
    requires n < 16
  {
    if n < 10 then 48 + n else 87 + n
  }

  predicate SameDigit(a: byte, b: byte) { a == b || (65 <= a <= 70 && b == a + 32) || (65 <= b <= 70 && a == b + 32) }

  /** The same text up to the case of the digits above nine. */
  predicate SameDigits(a: Bytes, b: Bytes) { |a| == |b| && forall i :: 0 <= i < |a| ==> SameDigit(a[i], b[i]) }

  function Zeros(k: nat): Bytes { seq(k, _ => 48) }

  /** Digits stand for a number exactly when they are some zeros and its hexadecimal form, in either case. */
  lemma HexMeaning(s: Bytes, n: nat)
    requires s != [] && forall i :: 0 <= i < |s| ==> HexValue(s[i]).Some?
    ensures HexNumber(s) == n <==> exists k: nat :: SameDigits(s, Zeros(k) + HexText(n))
  {
    if HexNumber(s) == n {
      var k := HexForm(s);
    }
    if k: nat :| SameDigits(s, Zeros(k) + HexText(n)) {
      HexTextValue(n);
      HexZeros(k, HexText(n));
      HexCase(s, Zeros(k) + HexText(n));
    }
  }

  lemma HexDigitValue(n: nat)
    requires n < 16
    ensures HexValue(HexDigit(n)) == Some(n)
  {
  }

  lemma {:induction false} HexTextValue(n: nat)
    ensures HexText(n) != [] && (forall i :: 0 <= i < |HexText(n)| ==> HexValue(HexText(n)[i]).Some?)
    ensures HexNumber(HexText(n)) == n
  {
    hide HexDigit, HexValue;
    HexDigitValue(n % 16);
    if n < 16 {
      assert [HexDigit(n)][..0] == [];
    } else {
      HexTextValue(n / 16);
      assert HexText(n)[..|HexText(n)| - 1] == HexText(n / 16);
    }
  }

  lemma {:induction false} HexZeros(k: nat, s: Bytes)
    requires forall i :: 0 <= i < |s| ==> HexValue(s[i]).Some?
    ensures forall i :: 0 <= i < |Zeros(k) + s| ==> HexValue((Zeros(k) + s)[i]).Some?
    ensures HexNumber(Zeros(k) + s) == HexNumber(s)
    decreases k + |s|
  {
    var all := Zeros(k) + s;
    if s != [] {
      var front := s[..|s| - 1];
      assert all[..|all| - 1] == Zeros(k) + front && all[|all| - 1] == s[|s| - 1];
      HexZeros(k, front);
    } else if k > 0 {
      assert all[..|all| - 1] == Zeros(k - 1) + [];
      HexZeros(k - 1, []);
    } else {
      assert all == [];
    }
  }

  lemma {:induction false} HexCase(a: Bytes, b: Bytes)
    requires SameDigits(a, b)
    requires forall i :: 0 <= i < |a| ==> HexValue(a[i]).Some?
    requires forall i :: 0 <= i < |b| ==> HexValue(b[i]).Some?
    ensures HexNumber(a) == HexNumber(b)
    decreases |a|
  {
    if a != [] {
      assert SameDigit(a[|a| - 1], b[|b| - 1]);
      HexCase(a[..|a| - 1], b[..|b| - 1]);
    }
  }

  lemma SameLast(a: Bytes, b: Bytes, c: byte, d: byte)
    requires SameDigits(a, b) && SameDigit(c, d)
    ensures SameDigits(a + [c], b + [d])
  {
  }

  lemma DigitForm(b: byte)
    requires HexValue(b).Some?
    ensures HexValue(b).value < 16 && SameDigit(b, HexDigit(HexValue(b).value))
    ensures SameDigits([b], Zeros(0) + HexText(HexValue(b).value))
  {
  }

  lemma {:induction false} HexForm(s: Bytes) returns (k: nat)
    requires s != [] && forall i :: 0 <= i < |s| ==> HexValue(s[i]).Some?
    ensures SameDigits(s, Zeros(k) + HexText(HexNumber(s)))
    decreases |s|
  {
    hide HexText, HexDigit, SameDigit, SameDigits, HexValue, Zeros;
    var front, last := s[..|s| - 1], s[|s| - 1];
    var d := HexValue(last).value;
    assert s == front + [last];
    DigitForm(last);
    if front == [] {
      k := 0;
      assert s == [last];
    } else {
      k := HexForm(front);
      var m := HexNumber(front);
      SameLast(front, Zeros(k) + HexText(m), last, HexDigit(d));
      HexNext(k, m, d);
      k := if m == 0 then k + 1 else k;
    }
  }

  lemma HexNext(k: nat, m: nat, d: nat)
    requires d < 16
    ensures Zeros(k) + HexText(m) + [HexDigit(d)] == Zeros(if m == 0 then k + 1 else k) + HexText(m * 16 + d)
  {
    var n := m * 16 + d;
    assert n / 16 == m && n % 16 == d;
    if m == 0 {
      assert Zeros(k) + [48] == Zeros(k + 1);
    } else {
      Assoc(Zeros(k), HexText(m), [HexDigit(d)]);
    }
  }

  /** After the size: blanks, then nothing or an extension. */
  predicate Extension(s: Bytes) { s == [] || s[0] == 59 || (s[0] == 32 && Extension(s[1..])) }

  predicate Printable(s: Bytes) { forall i :: 0 <= i < |s| ==> 0x20 <= s[i] <= 0x7e }

  /** The size a chunk-size line announces. */
  function SizeOf(line: Bytes): Option<nat> {
    if |line| < 2 || !Printable(line[..|line| - 2]) then None
    else
      var text := line[..|line| - 2];
      var n := HexRun(text);
      if 1 <= n <= 16 && Extension(text[n..]) then Some(HexNumber(text[..n])) else None
  }

  datatype Chunk = Chunk(line: Bytes, data: Bytes)
  datatype Body = Body(chunks: seq<Chunk>, last: Bytes, trailers: Bytes)

  predicate SizeLine(line: Bytes, size: nat) { IsLine(line) && |line| <= MAX_LINE && SizeOf(line) == Some(size) }

  predicate ChunkOk(c: Chunk) { c.data != [] && SizeLine(c.line, |c.data|) }

  /** Lines up to and including the empty one, within the header limit. */
  predicate IsTrailers(t: Bytes, used: nat)
    decreases |t|
  {
    && used <= MAX_HEADER
    && var line := LineOf(t, MAX_HEADER - used);
    && line.Some? && |line.value| > 0
    && if line.value == CRLF then t == CRLF else IsTrailers(t[|line.value|..], used + |line.value|)
  }

  function Total(chunks: seq<Chunk>): nat { if chunks == [] then 0 else |chunks[0].data| + Total(chunks[1..]) }

  /** A chunked body of fewer than `room` chunks whose sizes sum to at most `budget`. */
  ghost predicate BodyOk(b: Body, budget: nat, room: nat) {
    && |b.chunks| < room && (forall i :: 0 <= i < |b.chunks| ==> ChunkOk(b.chunks[i]))
    && SizeLine(b.last, 0) && IsTrailers(b.trailers, 0) && Total(b.chunks) <= budget
  }

  function EncodeChunk(c: Chunk): Bytes { c.line + (c.data + CRLF) }

  function Encode(b: Body): Bytes
    decreases |b.chunks|
  {
    if b.chunks == [] then b.last + b.trailers else EncodeChunk(b.chunks[0]) + Encode(Tail(b))
  }

  function Tail(b: Body): Body
    requires b.chunks != []
  {
    b.(chunks := b.chunks[1..])
  }

  function Prepend(c: Chunk, b: Body): Body { b.(chunks := [c] + b.chunks) }

  /** A parsed body with more chunks in front. */
  function After(cs: seq<Chunk>, o: Option<Body>): Option<Body> {
    if o.Some? then Some(o.value.(chunks := cs + o.value.chunks)) else None
  }

  /** The body a trailer section completes. */
  function Ended(cs: seq<Chunk>, last: Bytes, trailers: Option<Bytes>): Option<Body> {
    if trailers.Some? then Some(Body(cs, last, trailers.value)) else None
  }

  // ---------------------------------------------------------------- parsing

  function ParseTrailers(s: Bytes, used: nat): Option<Bytes>
    decreases |s|
  {
    if used > MAX_HEADER then None
    else
      var line :- LineOf(s, MAX_HEADER - used);
      if line == [] then None
      else if line == CRLF then Some(CRLF)
      else
        var rest :- ParseTrailers(s[|line|..], used + |line|);
        Some(line + rest)
  }

  /** The body at the front of the input, if there is one within the limits. */
  function ParseBody(s: Bytes, budget: nat, room: nat): Option<Body>
    decreases room
  {
    if room == 0 then None
    else
      var line :- LineOf(s, MAX_LINE);
      var size :- SizeOf(line);
      var rest := s[|line|..];
      if size > budget then None
      else if size == 0 then
        var trailers :- ParseTrailers(rest, 0);
        Some(Body([], line, trailers))
      else if |rest| < size + 2 || rest[size..size + 2] != CRLF then None
      else
        var b :- ParseBody(rest[size + 2..], budget - size, room - 1);
        Some(Prepend(Chunk(line, rest[..size]), b))
  }

  lemma LineAt(s: Bytes, limit: nat)
    requires LineOf(s, limit).Some?
    ensures var line := LineOf(s, limit).value;
            IsLine(line) && 2 <= |line| <= limit && |line| <= |s| && s == line + s[|line|..]
  {
  }

  lemma TrailersEnd(used: nat)
    requires used + 2 <= MAX_HEADER
    ensures IsTrailers(CRLF, used)
  {
    LineFirst(CRLF, [], MAX_HEADER - used);
    assert CRLF + [] == CRLF;
  }

  lemma TrailersCons(line: Bytes, rest: Bytes, used: nat)
    requires IsLine(line) && line != CRLF && used + |line| <= MAX_HEADER && IsTrailers(rest, used + |line|)
    ensures IsTrailers(line + rest, used)
  {
    hide IsLine, LineOf;
    LineFirst(line, rest, MAX_HEADER - used);
    LineSize(line);
    assert (line + rest)[|line|..] == rest;
  }

  lemma LineSize(line: Bytes)
    requires IsLine(line)
    ensures |line| >= 2
  {
  }

  lemma {:induction false} TrailersSound(s: Bytes, used: nat)
    requires ParseTrailers(s, used).Some?
    ensures var t := ParseTrailers(s, used).value; IsTrailers(t, used) && |t| <= |s| && s == t + s[|t|..]
    decreases |s|
  {
    hide IsLine, LineOf, IsTrailers;
    LineAt(s, MAX_HEADER - used);
    var line := LineOf(s, MAX_HEADER - used).value;
    if line == CRLF {
      TrailersEnd(used);
    } else {
      var tail := s[|line|..];
      TrailersSound(tail, used + |line|);
      var rest := ParseTrailers(tail, used + |line|).value;
      TrailersCons(line, rest, used);
      Assoc(line, rest, tail[|rest|..]);
      assert s[|line + rest|..] == tail[|rest|..];
    }
  }

  /** A trailer section is its first line and the rest of the section, if any. */
  lemma TrailersUncons(t: Bytes, used: nat) returns (line: Bytes, rest: Bytes)
    requires IsTrailers(t, used)
    ensures t == line + rest && IsLine(line) && |rest| < |t| && used + |line| <= MAX_HEADER
    ensures if line == CRLF then rest == [] else IsTrailers(rest, used + |line|)
  {
    hide IsLine, LineOf;
    LineAt(t, MAX_HEADER - used);
    line := LineOf(t, MAX_HEADER - used).value;
    rest := t[|line|..];
  }

  lemma ParseTrailersLine(line: Bytes, s: Bytes, used: nat)
    requires IsLine(line) && used + |line| <= MAX_HEADER
    ensures ParseTrailers(line + s, used) == if line == CRLF then Some(CRLF) else Joined(line, ParseTrailers(s, used + |line|))
  {
    hide IsLine, LineOf;
    LineFirst(line, s, MAX_HEADER - used);
    LineSize(line);
    assert (line + s)[|line|..] == s;
  }

  lemma {:induction false} TrailersComplete(t: Bytes, q: Bytes, used: nat)
    requires IsTrailers(t, used)
    ensures ParseTrailers(t + q, used) == Some(t)
    decreases |t|
  {
    hide IsLine, IsTrailers, ParseTrailers;
    var line, rest := TrailersUncons(t, used);
    Assoc(line, rest, q);
    ParseTrailersLine(line, rest + q, used);
    if line == CRLF {
      assert t == CRLF;
    } else {
      TrailersComplete(rest, q, used + |line|);
    }
  }

  lemma BodyCons(c: Chunk, b: Body, budget: nat, room: nat)
    requires room > 0 && ChunkOk(c) && |c.data| <= budget && BodyOk(b, budget - |c.data|, room - 1)
    ensures BodyOk(Prepend(c, b), budget, room)
  {
    hide ChunkOk, SizeLine, IsTrailers;
    assert Prepend(c, b).chunks[1..] == b.chunks;
  }

  lemma EncodeCons(c: Chunk, b: Body)
    ensures Encode(Prepend(c, b)) == EncodeChunk(c) + Encode(b)
  {
    hide EncodeChunk;
    assert Prepend(c, b).chunks[1..] == b.chunks && Tail(Prepend(c, b)) == b;
  }

  lemma BodyUncons(b: Body, budget: nat, room: nat)
    requires BodyOk(b, budget, room) && b.chunks != []
    ensures var c := b.chunks[0];
            && ChunkOk(c) && |c.data| <= budget && room > 0 && BodyOk(Tail(b), budget - |c.data|, room - 1)
            && Prepend(c, Tail(b)) == b && Encode(b) == EncodeChunk(c) + Encode(Tail(b))
  {
    hide ChunkOk, SizeLine, IsTrailers, EncodeChunk;
    assert [b.chunks[0]] + b.chunks[1..] == b.chunks;
  }

  /** What is parsed is a body, and the input starts with exactly its encoding. */
  lemma {:induction false} ParseSound(s: Bytes, budget: nat, room: nat)
    requires ParseBody(s, budget, room).Some?
    ensures var b := ParseBody(s, budget, room).value;
            BodyOk(b, budget, room) && |Encode(b)| <= |s| && s == Encode(b) + s[|Encode(b)|..]
    decreases room
  {
    hide IsLine, LineOf, SizeOf, IsTrailers, ParseTrailers, Encode, BodyOk;
    LineAt(s, MAX_LINE);
    var line := LineOf(s, MAX_LINE).value;
    var size, rest := SizeOf(line).value, s[|line|..];
    if size == 0 {
      TrailersSound(rest, 0);
      var t := ParseTrailers(rest, 0).value;
      LastBody(line, t, budget, room);
      Assoc(line, t, rest[|t|..]);
      assert s[|line + t|..] == rest[|t|..];
    } else {
      var c, tail := Chunk(line, rest[..size]), rest[size + 2..];
      ParseSound(tail, budget - size, room - 1);
      var b := ParseBody(tail, budget - size, room - 1).value;
      BodyCons(c, b, budget, room);
      EncodeCons(c, b);
      ChunkSplit(s, c, tail);
      Assoc(EncodeChunk(c), Encode(b), tail[|Encode(b)|..]);
      assert s[|EncodeChunk(c) + Encode(b)|..] == tail[|Encode(b)|..];
    }
  }

  lemma LastBody(line: Bytes, trailers: Bytes, budget: nat, room: nat)
    requires SizeLine(line, 0) && IsTrailers(trailers, 0) && room > 0
    ensures BodyOk(Body([], line, trailers), budget, room) && Encode(Body([], line, trailers)) == line + trailers
  {
  }

  lemma ChunkSplit(s: Bytes, c: Chunk, tail: Bytes)
    requires |s| >= |c.line| + |c.data| + 2 && s == c.line + s[|c.line|..]
    requires var rest := s[|c.line|..];
             c.data == rest[..|c.data|] && rest[|c.data|..|c.data| + 2] == CRLF && tail == rest[|c.data| + 2..]
    ensures s == EncodeChunk(c) + tail
  {
    var rest := s[|c.line|..];
    assert rest == (c.data + CRLF) + tail;
    Assoc(c.line, c.data + CRLF, tail);
  }

  /** Parsing a chunk leaves the rest to be parsed. */
  lemma ParseChunk(c: Chunk, tail: Bytes, budget: nat, room: nat)
    requires ChunkOk(c) && |c.data| <= budget && room > 0
    ensures ParseBody(EncodeChunk(c) + tail, budget, room) == After([c], ParseBody(tail, budget - |c.data|, room - 1))
  {
    hide IsLine, LineOf, SizeOf, ParseTrailers;
    var s, rest := EncodeChunk(c) + tail, (c.data + CRLF) + tail;
    Assoc(c.line, c.data + CRLF, tail);
    LineFirst(c.line, rest, MAX_LINE);
    assert s[|c.line|..] == rest;
    ChunkFront(c.data, tail);
  }

  /** Every body followed by anything is parsed back as itself: the coding is prefix-free. */
  lemma {:induction false} ParseComplete(b: Body, q: Bytes, budget: nat, room: nat)
    requires BodyOk(b, budget, room)
    ensures ParseBody(Encode(b) + q, budget, room) == Some(b)
    decreases |b.chunks|
  {
    hide IsLine, LineOf, SizeOf, IsTrailers, ParseTrailers;
    if b.chunks == [] {
      Assoc(b.last, b.trailers, q);
      LineFirst(b.last, b.trailers + q, MAX_LINE);
      assert (Encode(b) + q)[|b.last|..] == b.trailers + q;
      TrailersComplete(b.trailers, q, 0);
    } else {
      BodyUncons(b, budget, room);
      hide Encode, BodyOk, ParseBody, EncodeChunk, ChunkOk;
      var c := b.chunks[0];
      ParseComplete(Tail(b), q, budget - |c.data|, room - 1);
      Assoc(EncodeChunk(c), Encode(Tail(b)), q);
      ParseChunk(c, Encode(Tail(b)) + q, budget, room);
    }
  }

  lemma ChunkFront(data: Bytes, tail: Bytes)
    ensures var rest := (data + CRLF) + tail;
            rest[..|data|] == data && rest[|data|..|data| + 2] == CRLF && rest[|data| + 2..] == tail
  {
  }

  /** An input starts with at most one body, so where the body ends is not open to choice. */
  lemma BodyUnique(a: Body, r: Bytes, b: Body, q: Bytes, budget: nat, room: nat)
    requires BodyOk(a, budget, room) && BodyOk(b, budget, room) && Encode(a) + r == Encode(b) + q
    ensures a == b && r == q
  {
    ParseComplete(a, r, budget, room);
    ParseComplete(b, q, budget, room);
    assert (Encode(a) + r)[|Encode(a)|..] == r && (Encode(b) + q)[|Encode(b)|..] == q;
  }

  // ---------------------------------------------------------------- relaying

  /** What was written is a prefix of what was read: nothing is invented, dropped or reordered. */
  ghost predicate Relayed(before: Bytes, out: Bytes, input: Bytes, rest: Bytes) {
    && Suffix(input, rest)
    && |before| <= |out| <= |before| + |input| - |rest| && out == before + input[..|out| - |before|]
  }

  /** Everything read has been written. */
  ghost predicate Even(before: Bytes, out: Bytes, input: Bytes, rest: Bytes) {
    Relayed(before, out, input, rest) && |out| - |before| == |input| - |rest|
  }

  lemma RelayRead(before: Bytes, out: Bytes, input: Bytes, rest: Bytes, n: nat)
    requires Relayed(before, out, input, rest) && n <= |rest|
    ensures Relayed(before, out, input, rest[n..])
  {
    assert rest[n..] == input[|input| - |rest| + n..];
  }

  /** Writing the next bytes of the input, all of them or the first `n`. */
  lemma RelayWrite(before: Bytes, out: Bytes, input: Bytes, rest: Bytes, data: Bytes, n: nat)
    requires Even(before, out, input, rest) && data <= rest && n <= |data|
    ensures Relayed(before, out + data[..n], input, rest[|data|..])
    ensures n == |data| ==> Even(before, out + data, input, rest[|data|..])
  {
    var at := |input| - |rest|;
    RelayRead(before, out, input, rest, |data|);
    assert data[..n] == input[at..at + n];
    assert input[..at] + input[at..at + n] == input[..at + n];
    Assoc(before, input[..at], input[at..at + n]);
    assert data[..|data|] == data;
  }

  /** Writes the next bytes, which have just been read. */
  method Pass(writer: Writer, data: Bytes, ghost before: Bytes, ghost input: Bytes, ghost rest: Bytes) returns (ok: bool)
    requires Even(before, writer.out, input, rest) && data <= rest
    modifies writer
    ensures Relayed(before, writer.out, input, rest[|data|..])
    ensures ok ==> Even(before, writer.out, input, rest[|data|..])
    ensures old(writer.script) == [] ==> ok && writer.script == []
  {
    ghost var out := writer.out;
    ok := writer.WriteAll(data);
    if ok {
      RelayWrite(before, out, input, rest, data, |data|);
    } else {
      ghost var n :| 0 <= n <= |data| && writer.out == out + data[..n];
      RelayWrite(before, out, input, rest, data, n);
    }
  }

  /** Copies exactly `length` bytes, however they arrive. */
  method CopyExact(reader: Reader, writer: Writer, length: nat, ghost before: Bytes, ghost input: Bytes) returns (ok: bool)
    requires Even(before, writer.out, input, reader.rest)
    modifies reader, writer
    ensures Relayed(before, writer.out, input, reader.rest)
    ensures ok ==> length <= |old(reader.rest)| && reader.rest == old(reader.rest)[length..] && Even(before, writer.out, input, reader.rest)
    ensures old(reader.Reliable()) && old(writer.script) == [] ==>
              reader.Reliable() && writer.script == [] && (ok <==> length <= |old(reader.rest)|)
  {
    hide Relayed;
    ghost var start := reader.rest;
    var done := 0;
    while done < length
      invariant done <= length && done <= |start| && reader.rest == start[done..] && Even(before, writer.out, input, reader.rest)
      invariant old(reader.Reliable()) ==> reader.Reliable()
      invariant old(writer.script) == [] ==> writer.script == []
    {
      var available := reader.Fill();
      if available.None? || available.value == [] {
        return false;
      }
      var part := available.value[..Min(|available.value|, length - done)];
      ghost var rest := reader.rest;
      PrefixOf(part, available.value, rest);
      reader.Consume(|part|);
      var wrote := Pass(writer, part, before, input, rest);
      if !wrote {
        return false;
      }
      done := done + |part|;
    }
    return true;
  }

  lemma PrefixOf(part: Bytes, buffer: Bytes, rest: Bytes)
    requires part <= buffer <= rest
    ensures part <= rest
  {
  }

  // ---------------------------------------------------------------- relaying a chunked body

  function Joined(t: Bytes, o: Option<Bytes>): Option<Bytes> { if o.Some? then Some(t + o.value) else None }

  lemma NoTrailers(s: Bytes, used: nat)
    requires used <= MAX_HEADER && LineOf(s, MAX_HEADER - used).None?
    ensures ParseTrailers(s, used).None?
  {
  }

  lemma TrailerStep(t: Bytes, s: Bytes, used: nat)
    requires used <= MAX_HEADER
    ensures LineOf(s, MAX_HEADER - used).None? ==> ParseTrailers(s, used).None?
    ensures LineOf(s, MAX_HEADER - used).Some? ==>
              var line := LineOf(s, MAX_HEADER - used).value;
              |line| <= |s| &&
              Joined(t, ParseTrailers(s, used)) ==
              if line == CRLF then Some(t + CRLF) else Joined(t + line, ParseTrailers(s[|line|..], used + |line|))
  {
    hide IsLine, ParseTrailers, LineOf;
    if LineOf(s, MAX_HEADER - used).None? {
      NoTrailers(s, used);
    } else {
      LineAt(s, MAX_HEADER - used);
      var line := LineOf(s, MAX_HEADER - used).value;
      ParseTrailersLine(line, s[|line|..], used);
      var rest := ParseTrailers(s[|line|..], used + |line|);
      if line != CRLF && rest.Some? {
        Assoc(t, line, rest.value);
      }
    }
  }

  /** The trailer section so far, and what is still to come. */
  ghost predicate Gathering(input: Bytes, trailers: Bytes, rest: Bytes) {
    && |trailers| <= MAX_HEADER && input == trailers + rest
    && ParseTrailers(input, 0) == Joined(trailers, ParseTrailers(rest, |trailers|))
  }

  lemma GatherStart(input: Bytes)
    ensures Gathering(input, [], input)
  {
    hide ParseTrailers;
    var o := ParseTrailers(input, 0);
    if o.Some? {
      assert [] + o.value == o.value;
    }
    assert [] + input == input;
  }

  lemma GatherLine(input: Bytes, trailers: Bytes, rest: Bytes)
    requires Gathering(input, trailers, rest)
    ensures var line := LineOf(rest, MAX_HEADER - |trailers|);
            && (line.None? ==> ParseTrailers(input, 0).None?)
            && (line.Some? ==>
                  && 2 <= |line.value| <= |rest| && input == (trailers + line.value) + rest[|line.value|..]
                  && (line.value == CRLF ==> ParseTrailers(input, 0) == Some(trailers + line.value))
                  && (line.value != CRLF ==> Gathering(input, trailers + line.value, rest[|line.value|..])))
  {
    hide ParseTrailers, LineOf, IsLine;
    TrailerStep(trailers, rest, |trailers|);
    if LineOf(rest, MAX_HEADER - |trailers|).Some? {
      LineAt(rest, MAX_HEADER - |trailers|);
      var line := LineOf(rest, MAX_HEADER - |trailers|).value;
      Assoc(trailers, line, rest[|line|..]);
    }
  }

  /** Reads the trailer section whole before anything of it is forwarded. */
  method ReadTrailers(reader: Reader) returns (r: Option<Bytes>)
    modifies reader
    ensures Suffix(old(reader.rest), reader.rest)
    ensures r.Some? ==> r == ParseTrailers(old(reader.rest), 0) && old(reader.rest) == r.value + reader.rest
    ensures old(reader.Reliable()) ==> reader.Reliable() && r == ParseTrailers(old(reader.rest), 0)
  {
    hide ParseTrailers, LineOf, Gathering, Suffix;
    ghost var input := reader.rest;
    var trailers: Bytes := [];
    GatherStart(input);
    SuffixAfter([], input);
    while true
      invariant |trailers| <= MAX_HEADER && Gathering(input, trailers, reader.rest) && Suffix(input, reader.rest)
      invariant old(reader.Reliable()) ==> reader.Reliable()
      decreases |reader.rest|
    {
      ghost var rest := reader.rest;
      GatherLine(input, trailers, rest);
      var line := HttpLine(reader, MAX_HEADER - |trailers|);
      SuffixTransitive(input, rest, reader.rest);
      if line.None? {
        return None;
      }
      assert rest[|line.value|..] == reader.rest;
      trailers := trailers + line.value;
      if line.value == CRLF {
        return Some(trailers);
      }
      GatherSize(input, trailers, reader.rest);
    }
  }

  lemma GatherSize(input: Bytes, trailers: Bytes, rest: Bytes)
    requires Gathering(input, trailers, rest)
    ensures |trailers| <= MAX_HEADER
  {
  }

  method ReadExact(reader: Reader, n: nat) returns (r: Option<Bytes>)
    modifies reader
    ensures Suffix(old(reader.rest), reader.rest)
    ensures r.Some? ==> n <= |old(reader.rest)| && r.value == old(reader.rest)[..n] && reader.rest == old(reader.rest)[n..]
    ensures old(reader.Reliable()) ==> reader.Reliable() && (r.Some? <==> n <= |old(reader.rest)|)
  {
    ghost var input := reader.rest;
    var data: Bytes := [];
    while |data| < n
      invariant |data| <= n && |data| <= |input| && data == input[..|data|] && reader.rest == input[|data|..]
      invariant old(reader.Reliable()) ==> reader.Reliable()
      decreases n - |data|
    {
      var available := reader.Fill();
      if available.None? || available.value == [] {
        return None;
      }
      var part := available.value[..Min(|available.value|, n - |data|)];
      assert input[..|data|] + part == input[..|data| + |part|];
      reader.Consume(|part|);
      data := data + part;
    }
    return Some(data);
  }

  lemma AfterLast(cs: seq<Chunk>, line: Bytes, trailers: Bytes)
    ensures After(cs, Some(Body([], line, trailers))) == Some(Body(cs, line, trailers))
  {
    assert cs + [] == cs;
  }

  lemma AfterChunk(cs: seq<Chunk>, c: Chunk, tail: Bytes, budget: nat, room: nat)
    requires ChunkOk(c) && |c.data| <= budget && room > 0
    ensures After(cs, ParseBody(EncodeChunk(c) + tail, budget, room)) == After(cs + [c], ParseBody(tail, budget - |c.data|, room - 1))
  {
    hide ParseBody, EncodeChunk, ChunkOk;
    ParseChunk(c, tail, budget, room);
    var b := ParseBody(tail, budget - |c.data|, room - 1);
    if b.Some? {
      Assoc(cs, [c], b.value.chunks);
    }
  }

  /** One chunk: its size line, its data and its delimiter pass through. */
  method CopyChunk(reader: Reader, writer: Writer, line: Bytes, size: nat, ghost before: Bytes, ghost input: Bytes, ghost rest: Bytes)
    returns (ok: bool)
    requires rest == line + reader.rest && Even(before, writer.out, input, rest)
    modifies reader, writer
    ensures Relayed(before, writer.out, input, reader.rest)
    ensures ok ==>
              && size + 2 <= |old(reader.rest)| && old(reader.rest)[size..size + 2] == CRLF
              && reader.rest == old(reader.rest)[size + 2..] && Even(before, writer.out, input, reader.rest)
    ensures old(reader.Reliable()) && old(writer.script) == [] ==>
              && reader.Reliable() && writer.script == []
              && (ok <==> size + 2 <= |old(reader.rest)| && old(reader.rest)[size..size + 2] == CRLF)
  {
    hide Relayed;
    ghost var start := reader.rest;
    assert rest[|line|..] == reader.rest;
    ok := Pass(writer, line, before, input, rest);
    if !ok {
      return;
    }
    ok := CopyExact(reader, writer, size, before, input);
    if !ok {
      return;
    }
    ghost var at := reader.rest;
    var end := ReadExact(reader, 2);
    assert at[|at| - |reader.rest|..] == reader.rest;
    RelayRead(before, writer.out, input, at, |at| - |reader.rest|);
    if end.None? || end.value != CRLF {
      return false;
    }
    assert start[size..size + 2] == at[..2] && start[size + 2..] == at[2..];
    ok := Pass(writer, CRLF, before, input, at);
  }

  /** The terminal chunk: trailers are read and checked before its size line is forwarded. */
  method CopyLast(reader: Reader, writer: Writer, line: Bytes, fields: Bytes -> bool, ghost before: Bytes, ghost input: Bytes, ghost rest: Bytes)
    returns (ok: bool, ghost trailers: Bytes)
    requires rest == line + reader.rest && Even(before, writer.out, input, rest)
    modifies reader, writer
    ensures Relayed(before, writer.out, input, reader.rest)
    ensures ok ==>
              && ParseTrailers(old(reader.rest), 0) == Some(trailers) && fields(trailers)
              && old(reader.rest) == trailers + reader.rest && Even(before, writer.out, input, reader.rest)
    ensures old(reader.Reliable()) && old(writer.script) == [] ==>
              (ok <==> ParseTrailers(old(reader.rest), 0).Some? && fields(ParseTrailers(old(reader.rest), 0).value))
  {
    hide Relayed, ParseTrailers;
    ghost var start := reader.rest;
    assert rest[|line|..] == start;
    var read := ReadTrailers(reader);
    trailers := [];
    SuffixAfter(line, start);
    SuffixTransitive(rest, start, reader.rest);
    assert rest[|rest| - |reader.rest|..] == reader.rest;
    RelayRead(before, writer.out, input, rest, |rest| - |reader.rest|);
    if read.None? || !fields(read.value) {
      return false, trailers;
    }
    trailers := read.value;
    assert start[|trailers|..] == reader.rest;
    ok := Pass(writer, line, before, input, rest);
    if !ok {
      RelayRead(before, writer.out, input, start, |trailers|);
      return;
    }
    ok := Pass(writer, read.value, before, input, start);
  }

  lemma EvenRead(before: Bytes, out: Bytes, input: Bytes, rest: Bytes, n: nat)
    requires Even(before, out, input, rest) && n <= |rest|
    ensures Relayed(before, out, input, rest[n..]) && Relayed(before, out, input, rest)
  {
    hide Relayed;
    RelayRead(before, out, input, rest, n);
  }

  lemma EvenStart(before: Bytes, input: Bytes)
    ensures Even(before, before, input, input) && Relayed(before, before, input, input)
  {
  }

  lemma AfterNone(o: Option<Body>)
    ensures After([], o) == o
  {
    if o.Some? {
      assert [] + o.value.chunks == o.value.chunks;
    }
  }

  /** What the first line of the input decides. */
  lemma ParseHead(s: Bytes, budget: nat, room: nat)
    ensures room == 0 || LineOf(s, MAX_LINE).None? ==> ParseBody(s, budget, room).None?
    ensures room > 0 && LineOf(s, MAX_LINE).Some? ==>
              && var line := LineOf(s, MAX_LINE).value;
              && |line| <= |s|
              && var size, rest := SizeOf(line), s[|line|..];
              && (size.None? || size.value > budget ==> ParseBody(s, budget, room).None?)
              && (size.Some? && 0 < size.value <= budget && (|rest| < size.value + 2 || rest[size.value..size.value + 2] != CRLF) ==>
                    ParseBody(s, budget, room).None?)
              && (size == Some(0) ==> ParseBody(s, budget, room) == Ended([], line, ParseTrailers(rest, 0)))
  {
    hide IsLine, SizeOf, ParseTrailers, FindLF;
  }

  lemma ChunkRead(rest: Bytes, c: Chunk, start: Bytes, end: Bytes)
    requires rest == c.line + start && |c.data| + 2 <= |start| && c.data == start[..|c.data|] && c.data != []
    requires start[|c.data|..|c.data| + 2] == CRLF && end == start[|c.data| + 2..] && SizeLine(c.line, |c.data|)
    ensures rest == EncodeChunk(c) + end && ChunkOk(c)
  {
    hide SizeLine;
    assert rest[|c.line|..] == start;
    ChunkSplit(rest, c, end);
  }

  function SizeAll(cs: seq<Chunk>): nat { if cs == [] then 0 else SizeAll(cs[..|cs| - 1]) + |EncodeChunk(cs[|cs| - 1])| }

  lemma SizeAppend(cs: seq<Chunk>, c: Chunk)
    ensures SizeAll(cs + [c]) == SizeAll(cs) + |EncodeChunk(c)|
  {
    assert (cs + [c])[..|cs|] == cs;
  }

  lemma {:induction false} SizeFront(cs: seq<Chunk>)
    requires cs != []
    ensures SizeAll(cs) == |EncodeChunk(cs[0])| + SizeAll(cs[1..])
    decreases |cs|
  {
    hide EncodeChunk;
    var front, last := cs[..|cs| - 1], cs[|cs| - 1];
    if |cs| > 1 {
      SizeFront(front);
      assert cs[1..] == front[1..] + [last];
      SizeAppend(front[1..], last);
    } else {
      assert front == [] && cs[1..] == [];
    }
  }

  lemma {:induction false} EncodeSize(b: Body)
    ensures |Encode(b)| == SizeAll(b.chunks) + |b.last| + |b.trailers|
    decreases |b.chunks|
  {
    hide EncodeChunk;
    if b.chunks != [] {
      SizeFront(b.chunks);
      EncodeSize(Tail(b));
    }
  }

  /** What was parsed is what was read and written. */
  lemma Finished(before: Bytes, out: Bytes, input: Bytes, rest: Bytes, b: Body, limit: nat)
    requires Even(before, out, input, rest) && ParseBody(input, limit, MAX_CHUNKS) == Some(b)
    requires |input| == SizeAll(b.chunks) + |b.last| + |b.trailers| + |rest|
    ensures BodyOk(b, limit, MAX_CHUNKS) && input == Encode(b) + rest && out == before + Encode(b)
  {
    hide ParseBody, BodyOk, Encode, SizeAll;
    ParseSound(input, limit, MAX_CHUNKS);
    EncodeSize(b);
    assert input[..|Encode(b)|] == Encode(b);
  }

  /** The chunks so far account for what was read, and the rest of the input decides the body. */
  ghost predicate Parsing(input: Bytes, limit: nat, chunks: seq<Chunk>, rest: Bytes, total: nat, count: nat) {
    && total <= limit && count <= MAX_CHUNKS && |input| == SizeAll(chunks) + |rest|
    && ParseBody(input, limit, MAX_CHUNKS) == After(chunks, ParseBody(rest, limit - total, MAX_CHUNKS - count))
  }

  lemma ParsingStart(input: Bytes, limit: nat)
    ensures Parsing(input, limit, [], input, 0, 0)
  {
    hide ParseBody;
    AfterNone(ParseBody(input, limit, MAX_CHUNKS));
  }

  /** Where the rest of the input holds no body the whole of it holds none. */
  lemma ParsingFails(input: Bytes, limit: nat, chunks: seq<Chunk>, rest: Bytes, total: nat, count: nat)
    requires Parsing(input, limit, chunks, rest, total, count)
    requires ParseBody(rest, limit - total, MAX_CHUNKS - count).None?
    ensures ParseBody(input, limit, MAX_CHUNKS).None?
  {
    hide ParseBody;
  }

  /** What one size line decides about the whole. */
  lemma ParsingLine(input: Bytes, limit: nat, chunks: seq<Chunk>, rest: Bytes, total: nat, count: nat)
    requires Parsing(input, limit, chunks, rest, total, count)
    ensures count == MAX_CHUNKS || LineOf(rest, MAX_LINE).None? ==> ParseBody(input, limit, MAX_CHUNKS).None?
    ensures count < MAX_CHUNKS && LineOf(rest, MAX_LINE).Some? ==>
              && var line := LineOf(rest, MAX_LINE).value;
              && |line| <= |rest|
              && var size, tail := SizeOf(line), rest[|line|..];
              && (size.None? || total + size.value > limit ==> ParseBody(input, limit, MAX_CHUNKS).None?)
              && (size.Some? && 0 < size.value && (|tail| < size.value + 2 || tail[size.value..size.value + 2] != CRLF) ==>
                    ParseBody(input, limit, MAX_CHUNKS).None?)
              && (size == Some(0) ==> ParseBody(input, limit, MAX_CHUNKS) == Ended(chunks, line, ParseTrailers(tail, 0)))
  {
    hide ParseBody, SizeAll, LineOf, SizeOf, ParseTrailers;
    ParseHead(rest, limit - total, MAX_CHUNKS - count);
    if ParseBody(rest, limit - total, MAX_CHUNKS - count).None? {
      ParsingFails(input, limit, chunks, rest, total, count);
    } else if LineOf(rest, MAX_LINE).Some? && count < MAX_CHUNKS {
      var line := LineOf(rest, MAX_LINE).value;
      var tail := rest[|line|..];
      if SizeOf(line) == Some(0) && ParseTrailers(tail, 0).Some? {
        AfterLast(chunks, line, ParseTrailers(tail, 0).value);
      }
    }
  }

  /** One chunk further. */
  lemma ParsingChunk(input: Bytes, limit: nat, chunks: seq<Chunk>, c: Chunk, rest: Bytes, total: nat, count: nat)
    requires Parsing(input, limit, chunks, EncodeChunk(c) + rest, total, count)
    requires count < MAX_CHUNKS && total + |c.data| <= limit && ChunkOk(c)
    ensures Parsing(input, limit, chunks + [c], rest, total + |c.data|, count + 1)
  {
    hide ParseBody, EncodeChunk, ChunkOk, SizeAll, After;
    AfterChunk(chunks, c, rest, limit - total, MAX_CHUNKS - count);
    SizeAppend(chunks, c);
  }

  lemma ParsingSize(input: Bytes, limit: nat, chunks: seq<Chunk>, rest: Bytes, total: nat, count: nat)
    requires Parsing(input, limit, chunks, rest, total, count)
    ensures |input| == SizeAll(chunks) + |rest|
  {
  }

  /** What one size line leads to: a chunk was relayed, the body is complete, or relaying stops. */
  datatype Turn = More(size: nat) | Complete | Broken

  /** Exactly one chunked body was read and written unchanged. */
  ghost predicate Whole(before: Bytes, out: Bytes, input: Bytes, rest: Bytes, limit: nat, fields: Bytes -> bool, b: Body) {
    && ParseBody(input, limit, MAX_CHUNKS) == Some(b) && BodyOk(b, limit, MAX_CHUNKS) && fields(b.trailers)
    && input == Encode(b) + rest && out == before + Encode(b)
  }

  predicate Wanted(input: Bytes, limit: nat, fields: Bytes -> bool) {
    var b := ParseBody(input, limit, MAX_CHUNKS);
    b.Some? && fields(b.value.trailers)
  }

  /** A chunk, already relayed, moves the parse on. */
  lemma ChunkDone(input: Bytes, limit: nat, chunks: seq<Chunk>, c: Chunk, rest: Bytes, start: Bytes, end: Bytes, total: nat, count: nat)
    requires Parsing(input, limit, chunks, rest, total, count) && count < MAX_CHUNKS && total + |c.data| <= limit
    requires rest == c.line + start && |c.data| + 2 <= |start| && c.data == start[..|c.data|] && c.data != []
    requires start[|c.data|..|c.data| + 2] == CRLF && end == start[|c.data| + 2..] && SizeLine(c.line, |c.data|)
    ensures Parsing(input, limit, chunks + [c], end, total + |c.data|, count + 1)
  {
    hide Parsing, EncodeChunk, ChunkOk, SizeLine;
    ChunkRead(rest, c, start, end);
    ParsingChunk(input, limit, chunks, c, end, total, count);
  }

  /** The terminal chunk, already relayed, makes the body whole. */
  lemma LastDone(before: Bytes, out: Bytes, input: Bytes, limit: nat, fields: Bytes -> bool, chunks: seq<Chunk>, line: Bytes,
                 trailers: Bytes, start: Bytes, rest: Bytes, total: nat, count: nat)
    requires Parsing(input, limit, chunks, line + start, total, count) && Even(before, out, input, rest)
    requires ParseBody(input, limit, MAX_CHUNKS) == Some(Body(chunks, line, trailers))
    requires fields(trailers) && start == trailers + rest
    ensures Whole(before, out, input, rest, limit, fields, Body(chunks, line, trailers))
  {
    hide Even, ParseBody, Encode, BodyOk, SizeAll, Parsing;
    ParsingSize(input, limit, chunks, line + start, total, count);
    Finished(before, out, input, rest, Body(chunks, line, trailers), limit);
  }

  /** One size line and what it announces. */
  method CopyNext(reader: Reader, writer: Writer, limit: nat, fields: Bytes -> bool, total: nat, count: nat,
                  ghost before: Bytes, ghost input: Bytes, ghost chunks: seq<Chunk>)
    returns (r: Turn, ghost c: Chunk, ghost body: Body)
    requires count < MAX_CHUNKS && Even(before, writer.out, input, reader.rest)
    requires Parsing(input, limit, chunks, reader.rest, total, count)
    modifies reader, writer
    ensures Relayed(before, writer.out, input, reader.rest)
    ensures r.More? ==> Even(before, writer.out, input, reader.rest) &&
                        Parsing(input, limit, chunks + [c], reader.rest, total + r.size, count + 1)
    ensures r.Complete? ==> Whole(before, writer.out, input, reader.rest, limit, fields, body)
    ensures old(reader.Reliable()) && old(writer.script) == [] ==>
              && (r.More? ==> reader.Reliable() && writer.script == [])
              && (r.Broken? ==> !Wanted(input, limit, fields))
  {
    hide Relayed, Even, Parsing, ParseBody, ParseTrailers, LineOf, SizeOf, EncodeChunk, ChunkOk, SizeAll, IsLine, Whole;
    ghost var rest := reader.rest;
    c, body := Chunk([], []), Body([], [], []);
    ParsingLine(input, limit, chunks, rest, total, count);
    var line := HttpLine(reader, MAX_LINE);
    assert rest[|rest| - |reader.rest|..] == reader.rest;
    EvenRead(before, writer.out, input, rest, |rest| - |reader.rest|);
    if line.None? {
      return Broken, c, body;
    }
    LineAt(rest, MAX_LINE);
    assert rest[|line.value|..] == reader.rest;
    var size := SizeOf(line.value);
    if size.None? || total + size.value > limit {
      return Broken, c, body;
    }
    ghost var start := reader.rest;
    if size.value == 0 {
      ghost var trailers;
      var ok;
      ok, trailers := CopyLast(reader, writer, line.value, fields, before, input, rest);
      if !ok {
        return Broken, c, body;
      }
      body := Body(chunks, line.value, trailers);
      LastDone(before, writer.out, input, limit, fields, chunks, line.value, trailers, start, reader.rest, total, count);
      return Complete, c, body;
    }
    var ok := CopyChunk(reader, writer, line.value, size.value, before, input, rest);
    if !ok {
      return Broken, c, body;
    }
    c := Chunk(line.value, start[..size.value]);
    ChunkDone(input, limit, chunks, c, rest, start, reader.rest, total, count);
    return More(size.value), c, body;
  }

  /** Success means that exactly one chunked body, within the limit, was read and written unchanged; on a stream that
      does not fail, success comes exactly when the input starts with such a body. */
  method CopyChunked(reader: Reader, writer: Writer, limit: nat, fields: Bytes -> bool) returns (ok: bool, ghost body: Body)
    modifies reader, writer
    ensures Relayed(old(writer.out), writer.out, old(reader.rest), reader.rest)
    ensures ok ==> Whole(old(writer.out), writer.out, old(reader.rest), reader.rest, limit, fields, body)
    ensures old(reader.Reliable()) && old(writer.script) == [] ==> (ok <==> Wanted(old(reader.rest), limit, fields))
  {
    hide Relayed, Even, Parsing, ParseBody, BodyOk, Encode, LineOf, SizeOf, ParseTrailers;
    ghost var input, before := reader.rest, writer.out;
    ghost var chunks: seq<Chunk> := [];
    EvenStart(before, input);
    ParsingStart(input, limit);
    body := Body([], [], []);
    var total: nat, count: nat := 0, 0;
    while count < MAX_CHUNKS
      invariant count <= MAX_CHUNKS && Even(before, writer.out, input, reader.rest)
      invariant Parsing(input, limit, chunks, reader.rest, total, count)
      invariant old(reader.Reliable()) && old(writer.script) == [] ==> reader.Reliable() && writer.script == []
    {
      var turn;
      ghost var c;
      turn, c, body := CopyNext(reader, writer, limit, fields, total, count, before, input, chunks);
      if !turn.More? {
        return turn.Complete?, body;
      }
      chunks := chunks + [c];
      total, count := total + turn.size, count + 1;
    }
    ParsingLine(input, limit, chunks, reader.rest, total, count);
    EvenRead(before, writer.out, input, reader.rest, 0);
    return false, body;
  }
}
