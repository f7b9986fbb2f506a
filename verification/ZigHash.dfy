/** The string hash behind the table: overlapping little-endian reads mixed in 128-bit products. */
module ZigHash {

  const SECRET: seq<bv64> := [0xa0761d6478bd642f, 0xe7037ed1a0b428db, 0x8ebc6af09c88c6e3, 0x589965cc75374cc3]

  function Low(p: bv128): bv64 { (p & 0xFFFF_FFFF_FFFF_FFFF) as bv64 }

  function High(p: bv128): bv64 { (p >> 64) as bv64 }

  function Mix(a: bv64, b: bv64): bv64 {
    Low(Product(a, b)) ^ High(Product(a, b))
  }

  /** The little-endian value of `n` bytes from `at`. */
  function Word(bytes: seq<bv8>, at: nat, n: nat): bv64
    requires at + n <= |bytes| && n <= 8
  {
    if n == 0 then 0 else Word(bytes, at, n - 1) | ((bytes[at + n - 1] as bv64) << (8 * (n - 1)))
  }

  /** The indices a read of `n` bytes from `at` touches. */
  function Span(at: nat, n: nat): (s: set<nat>)
    ensures forall i :: i in s <==> at <= i < at + n
  {
    if n == 0 then {} else Span(at, n - 1) + {at + n - 1}
  }

  /** Short inputs: two reads of overlapping halves, or three bytes. */
  method HashShort(bytes: seq<bv8>) returns (a: bv64, b: bv64, ghost touched: set<nat>)
    requires |bytes| <= 16
    ensures touched == Span(0, |bytes|)
  {
    hide Word;
    var len := |bytes|;
    a, b, touched := 0, 0, {};
    if len >= 4 {
      var end := len - 4;
      var quarter := len / 8 * 4;
      a := (Word(bytes, 0, 4) << 32) | Word(bytes, quarter, 4);
      b := (Word(bytes, end, 4) << 32) | Word(bytes, end - quarter, 4);
      touched := Span(0, 4) + Span(quarter, 4) + Span(end - quarter, 4) + Span(end, 4);
    } else if len > 0 {
      a := ((bytes[0] as bv64) << 16) | ((bytes[len / 2] as bv64) << 8) | (bytes[len - 1] as bv64);
      touched := {0, len / 2, len - 1};
    }
  }

  /** One 48-byte block, 16 bytes into each lane. */
  method MixBlock(bytes: seq<bv8>, i: nat, state: seq<bv64>) returns (next: seq<bv64>, ghost touched: set<nat>)
    requires i + 48 < |bytes| && |state| == 3
    ensures |next| == 3 && touched == Span(i, 48)
  {
    hide Mix, Word;
    next, touched := state, {};
    var lane := 0;
    while lane < 3
      invariant lane <= 3 && |next| == 3 && touched == Span(i, 16 * lane)
    {
      var at := i + lane * 16;
      next := next[lane := Mix(Word(bytes, at, 8) ^ SECRET[lane + 1], Word(bytes, at + 8, 8) ^ next[lane])];
      touched := touched + Span(at, 16);
      lane := lane + 1;
    }
  }

  /** Blocks of 48 bytes while more follow, folded into the first lane. */
  method MixBlocks(bytes: seq<bv8>, seed: bv64) returns (state: bv64, i: nat, ghost touched: set<nat>)
    requires |bytes| > 16
    ensures i < |bytes| && touched == Span(0, i)
  {
    hide Mix, Word;
    var lanes := [seed, seed, seed];
    i, touched := 0, {};
    if |bytes| < 48 {
      return seed, i, touched;
    }
    while i + 48 < |bytes|
      invariant i < |bytes| && |lanes| == 3 && touched == Span(0, i)
    {
      ghost var block;
      lanes, block := MixBlock(bytes, i, lanes);
      touched := touched + block;
      i := i + 48;
    }
    state := lanes[0] ^ lanes[1] ^ lanes[2];
  }

  /** The rest in steps of 16 bytes; the last 16 bytes are always read again. */
  method HashLong(bytes: seq<bv8>, seed: bv64) returns (a: bv64, b: bv64, state: bv64, ghost touched: set<nat>)
    requires |bytes| > 16
    ensures touched == Span(0, |bytes|)
  {
    hide Mix, Word;
    var i;
    state, i, touched := MixBlocks(bytes, seed);
    while i + 16 < |bytes|
      invariant i < |bytes| && touched == Span(0, i)
    {
      state := Mix(Word(bytes, i, 8) ^ SECRET[1], Word(bytes, i + 8, 8) ^ state);
      touched := touched + Span(i, 16);
      i := i + 16;
    }
    a, b := Word(bytes, |bytes| - 16, 8), Word(bytes, |bytes| - 8, 8);
    touched := touched + Span(|bytes| - 16, 16);
  }

  /** Every read stays within the input, and together they touch every byte of it. */
  method Hash(bytes: seq<bv8>) returns (h: bv64, ghost touched: set<nat>)
    ensures touched == Span(0, |bytes|)
  {
    hide Mix, Low, High, Length, Product;
    var state := Mix(SECRET[0], SECRET[1]);
    var a, b;
    if |bytes| <= 16 {
      a, b, touched := HashShort(bytes);
    } else {
      a, b, state, touched := HashLong(bytes, state);
    }
    var product := Product(a ^ SECRET[1], b ^ state);
    h := Mix(Low(product) ^ SECRET[0] ^ Length(|bytes|), High(product) ^ SECRET[1]);
  }

  function Product(a: bv64, b: bv64): bv128 { a as bv128 * b as bv128 }

  /** A length as a 64-bit word. */
  function Length(n: nat): bv64 { (n % 0x1_0000_0000_0000_0000) as bv64 }
}
