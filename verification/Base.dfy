/** Small definitions shared by every component model. */
module Base {

  datatype Option<+T> = None | Some(value: T) {
    predicate IsFailure() { None? }
    function PropagateFailure<U>(): Option<U>
      requires None?
    {
      None
    }
    function Extract(): T
      requires Some?
    {
      value
    }
  }

  type byte = n: int | 0 <= n < 0x100

  const U64_MAX: nat := 0xFFFF_FFFF_FFFF_FFFF

  /** Concatenation is associative; stated once because the verifier does not see it unaided. */
  lemma Assoc<T>(a: seq<T>, b: seq<T>, c: seq<T>)
    ensures (a + b) + c == a + (b + c)
  {}

  function Min(a: int, b: int): int { if a < b then a else b }

  lemma ModuloOfSum(q: nat, span: nat, r: nat)
    requires r < span
    ensures (q * span + r) % span == r
  {
    var n := q * span + r;
    assert n == span * (n / span) + n % span;
    SmallMultiple(n / span - q, span);
  }

  lemma SmallMultiple(d: int, span: nat)
    ensures 0 - span < d * span < span ==> d == 0
  {
    if d >= 1 {
      assert (d - 1) * span >= 0;
    } else if d <= -1 {
      assert (-1 - d) * span >= 0;
    }
  }

  function Pow2(n: nat): (p: nat)
    ensures p > 0
  {
    if n == 0 then 1 else 2 * Pow2(n - 1)
  }

  lemma SubsetSize(a: set<nat>, b: set<nat>)
    requires a <= b
    ensures |a| <= |b|
  {
    assert b == a + (b - a);
  }

  /** The length of a text in UTF-8. */
  function Utf8Length(s: string): nat {
    if s == [] then 0
    else
      var c := s[0] as int;
      (if c < 0x80 then 1 else if c < 0x800 then 2 else if c < 0x10000 then 3 else 4) + Utf8Length(s[1..])
  }

  /** The bytes of an ASCII text. */
  function Text(s: string): seq<byte> { seq(|s|, i requires 0 <= i < |s| => (s[i] as int) % 256) }
}
