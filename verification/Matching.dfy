/** What a matcher accepts, in terms of labels, letters and bits. */
module Matching {
  import opened Base
  import opened Pieces
  import opened Routing

  // ---------------------------------------------------------------- suffixes

  function Labels(name: string): seq<string> { Cut(name, '.') }

  /** The second list of labels ends the first. */
  predicate LastLabels(all: seq<string>, last: seq<string>) { |last| <= |all| && all[|all| - |last|..] == last }

  /** A name is under a suffix exactly when the suffix's labels are its last labels. */
  lemma UnderMeaning(domain: string, suffix: string)
    ensures Under(domain, suffix) <==> LastLabels(Labels(domain), Labels(suffix))
  {
    hide Cut;
    if Under(domain, suffix) {
      UnderLabels(domain, suffix);
    }
    if LastLabels(Labels(domain), Labels(suffix)) {
      LabelsUnder(domain, suffix);
    }
  }

  lemma UnderLabels(domain: string, suffix: string)
    requires Under(domain, suffix)
    ensures LastLabels(Labels(domain), Labels(suffix))
  {
    hide Cut;
    var labels := Labels(suffix);
    if domain == suffix {
      assert labels[0..] == labels;
    } else {
      var prefix := domain[..|domain| - |suffix| - 1];
      assert "." + suffix == ['.'] + suffix;
      assert domain == prefix + (['.'] + suffix) by {
        assert domain == prefix + domain[|domain| - |suffix| - 1..];
      }
      CutBetween(prefix, suffix, '.');
      assert (Labels(prefix) + labels)[|Labels(prefix)|..] == labels;
    }
  }

  lemma LabelsUnder(domain: string, suffix: string)
    requires LastLabels(Labels(domain), Labels(suffix))
    ensures Under(domain, suffix)
  {
    hide Cut, Glue;
    var all, last := Labels(domain), Labels(suffix);
    GlueCut(domain, '.');
    GlueCut(suffix, '.');
    var first := all[..|all| - |last|];
    assert all == first + last;
    if first == [] {
      assert all == last;
    } else {
      GlueConcat(first, last, '.');
      var dotted := "." + suffix;
      assert domain == Glue(first, '.') + dotted;
      assert domain[|domain| - |dotted|..] == dotted;
    }
  }

  // ---------------------------------------------------------------- letters and the trailing dot

  /** The same letter, or the same in the other case. */
  predicate SameLetter(c: char, d: char) {
    || c == d
    || ('A' <= c <= 'Z' && d as int == c as int + 32)
    || ('A' <= d <= 'Z' && c as int == d as int + 32)
  }

  lemma LowerMeaning(c: char, d: char)
    ensures Lower(c) == Lower(d) <==> SameLetter(c, d)
  {
  }

  /** A name without one trailing dot. */
  function Bare(name: string): string { if name != [] && name[|name| - 1] == '.' then name[..|name| - 1] else name }

  /** Two names are the same to every rule exactly when, without one trailing dot each, they agree up to ASCII case. */
  lemma CanonicalMeaning(a: string, b: string)
    ensures Canonical(a) == Canonical(b) <==>
            |Bare(a)| == |Bare(b)| && forall i :: 0 <= i < |Bare(a)| ==> SameLetter(Bare(a)[i], Bare(b)[i])
  {
    var x, y := Bare(a), Bare(b);
    assert |Canonical(a)| == |x| && |Canonical(b)| == |y|;
    if |x| == |y| {
      forall i | 0 <= i < |x|
        ensures Canonical(a)[i] == Canonical(b)[i] <==> SameLetter(x[i], y[i])
      {
        LowerMeaning(x[i], y[i]);
      }
    }
  }

  lemma LowerTwice(c: char)
    ensures Lower(Lower(c)) == Lower(c) && (Lower(c) == '.' <==> c == '.')
  {
  }

  predicate TwoDots(name: string) { |name| >= 2 && name[|name| - 1] == '.' && name[|name| - 2] == '.' }

  /** Canonical form is a fixed point exactly for names that do not end in two dots, of which one is dropped each time. */
  lemma CanonicalTwice(name: string)
    ensures Canonical(Canonical(name)) == Canonical(name) <==> !TwoDots(name)
  {
    var once := Canonical(name);
    var bare := Bare(name);
    assert |once| == |bare| && forall i :: 0 <= i < |once| ==> once[i] == Lower(bare[i]);
    if bare != [] {
      LowerTwice(bare[|bare| - 1]);
    }
    assert TwoDots(name) <==> bare != [] && bare[|bare| - 1] == '.' && |bare| == |name| - 1;
    if !TwoDots(name) {
      forall i | 0 <= i < |once|
        ensures Canonical(once)[i] == once[i]
      {
        LowerTwice(bare[i]);
      }
    } else {
      assert |Canonical(once)| == |once| - 1;
    }
  }

  /** One such name. */
  lemma DotDropped()
    ensures Canonical("A..") == "a." && Canonical("a.") == "a"
  {
    var x, y := "A..", "a.";
    assert |x| == 3 && x[2] == '.' && x[..2][0] == 'A' && x[..2][1] == '.' && Lower('A') == 'a' && Lower('.') == '.';
    assert Canonical(x) == ['a', '.'];
    assert |y| == 2 && y[1] == '.' && y[..1][0] == 'a' && Lower('a') == 'a';
    assert Canonical(y) == ['a'];
  }

  // ---------------------------------------------------------------- keywords

  /** A keyword occurs in a name exactly when the name is something, the keyword, and something. */
  lemma OccursMeaning(domain: string, keyword: string)
    ensures Occurs(domain, keyword) <==> exists a, b :: domain == a + (keyword + b)
  {
    if Occurs(domain, keyword) {
      var i :| 0 <= i <= |domain| && keyword <= domain[i..];
      var a, b := domain[..i], domain[i..][|keyword|..];
      assert domain[i..] == keyword + b;
      assert domain == a + (keyword + b);
    }
    if a, b :| domain == a + (keyword + b) {
      assert domain[|a|..] == keyword + b;
    }
  }

  // ---------------------------------------------------------------- networks

  /** Bit `i` of an address, counted from the most significant. */
  predicate Bit(ip: Address, i: nat)
    requires i < ip.Width()
  {
    ip.bits / Pow2(ip.Width() - 1 - i) % 2 == 1
  }

  predicate Proper(ip: Address) { ip.bits < Pow2(ip.Width()) }

  function Top(bits: nat, width: nat, n: nat): int
    requires n <= width
  {
    bits / Pow2(width - n)
  }

  lemma HalfDivision(a: nat, k: nat)
    requires k > 0
    ensures a / (2 * k) == a / k / 2
  {
    var q, r := a / k, a % k;
    Division(a, k);
    var h, odd := q / 2, q % 2 == 1;
    var rest := if odd then k + r else r;
    Halves(h, if odd then 1 else 0, k);
    DivisionOf(h, 2 * k, rest);
  }

  lemma Division(a: nat, k: nat)
    requires k > 0
    ensures a == (a / k) * k + a % k && 0 <= a / k && 0 <= a % k < k
  {
  }

  lemma Halves(h: nat, e: nat, k: nat)
    ensures (2 * h + e) * k == h * (2 * k) + e * k
  {
  }

  lemma DivisionOf(q: nat, span: nat, r: nat)
    requires r < span
    ensures (q * span + r) / span == q
  {
    ModuloOfSum(q, span, r);
    var n := q * span + r;
    assert n == span * (n / span) + n % span;
    assert span * (n / span) == span * q;
    SmallMultiple(n / span - q, span);
  }

  /** One more leading bit. */
  lemma TopNext(bits: nat, width: nat, n: nat)
    requires n < width
    ensures Top(bits, width, n + 1) == 2 * Top(bits, width, n) + bits / Pow2(width - 1 - n) % 2
  {
    var k := Pow2(width - 1 - n);
    assert Pow2(width - n) == 2 * k;
    HalfDivision(bits, k);
  }

  lemma {:induction false} TopMeaning(a: Address, b: Address, n: nat)
    requires Proper(a) && Proper(b) && a.V4? == b.V4? && n <= a.Width()
    ensures Top(a.bits, a.Width(), n) == Top(b.bits, b.Width(), n) <==> forall i :: 0 <= i < n ==> Bit(a, i) == Bit(b, i)
    decreases n
  {
    hide Pow2;
    if n == 0 {
      SmallDivision(a.bits, Pow2(a.Width()));
      SmallDivision(b.bits, Pow2(b.Width()));
    } else {
      TopMeaning(a, b, n - 1);
      TopNext(a.bits, a.Width(), n - 1);
      TopNext(b.bits, b.Width(), n - 1);
      BitDigit(a, n - 1);
      BitDigit(b, n - 1);
      DigitsEqual(Top(a.bits, a.Width(), n - 1), Top(b.bits, b.Width(), n - 1),
                  a.bits / Pow2(a.Width() - n) % 2, b.bits / Pow2(b.Width() - n) % 2);
      assert (forall i :: 0 <= i < n ==> Bit(a, i) == Bit(b, i)) <==>
             (forall i :: 0 <= i < n - 1 ==> Bit(a, i) == Bit(b, i)) && Bit(a, n - 1) == Bit(b, n - 1);
    }
  }

  lemma SmallDivision(a: nat, k: nat)
    requires a < k
    ensures a / k == 0
  {
    DivisionOf(0, k, a);
  }

  lemma BitDigit(ip: Address, i: nat)
    requires i < ip.Width()
    ensures ip.bits / Pow2(ip.Width() - (i + 1)) % 2 == if Bit(ip, i) then 1 else 0
  {
    assert ip.Width() - (i + 1) == ip.Width() - 1 - i;
  }

  lemma DigitsEqual(a: int, b: int, x: nat, y: nat)
    requires x < 2 && y < 2
    ensures 2 * a + x == 2 * b + y <==> a == b && x == y
  {
  }

  /** A network contains an address exactly when the family is the same and they agree on each of the prefix's bits. */
  lemma ContainsMeaning(net: Network, ip: Address)
    requires Proper(net.base) && Proper(ip)
    ensures net.Contains(ip) <==>
            net.base.V4? == ip.V4? && net.prefix <= ip.Width() && forall i :: 0 <= i < net.prefix ==> Bit(net.base, i) == Bit(ip, i)
  {
    hide Pow2, Bit;
    if net.base.V4? == ip.V4? && net.prefix <= ip.Width() {
      TopMeaning(net.base, ip, net.prefix);
    }
  }

  // ---------------------------------------------------------------- rules

  /** What a rule on names accepts. */
  lemma NameRules(q: Query, text: string, payload: string)
    requires q.target.host == Name(text)
    ensures Accepts(DomainSuffix(payload), q) <==> LastLabels(Labels(Canonical(text)), Labels(payload))
    ensures Accepts(DomainKeyword(payload), q) <==> exists a, b :: Canonical(text) == a + (payload + b)
    ensures Accepts(Domain(Canonical(payload)), q) <==> Canonical(text) == Canonical(payload)
  {
    hide Canonical, Under, Occurs;
    UnderMeaning(Canonical(text), payload);
    OccursMeaning(Canonical(text), payload);
  }

  /** Rules do not tell apart names that differ in ASCII case or one trailing dot, and rules on names never accept an
      address. */
  lemma NamesAlike(m: Matcher, q: Query, a: string, b: string)
    requires Canonical(a) == Canonical(b)
    ensures Accepts(m, q.(target := Target(Name(a), q.target.port))) == Accepts(m, q.(target := Target(Name(b), q.target.port)))
    ensures q.target.host.Literal? && (m.Domain? || m.DomainSuffix? || m.DomainKeyword?) ==> !Accepts(m, q)
  {
  }

  /** What a rule on addresses accepts without a lookup. */
  lemma AddressRules(q: Query, ip: Address, net: Network, quiet: bool)
    requires q.target.host == Literal(ip) && Proper(ip) && Proper(net.base)
    ensures Accepts(Ip(net, quiet), q) <==>
            net.base.V4? == ip.V4? && net.prefix <= ip.Width() && forall i :: 0 <= i < net.prefix ==> Bit(net.base, i) == Bit(ip, i)
  {
    hide Pow2, Bit, Network.Contains;
    ContainsMeaning(net, ip);
  }
}
