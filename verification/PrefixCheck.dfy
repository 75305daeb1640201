/** Testing protected prefixes against candidate RSA moduli. */
module PrefixCheck {
  import opened Bytes
  import Raster

  const PREFIX_SIZE: nat := 256
  const HEADER_SIZE: nat := 4

  // ---------------------------------------------------------------- type 1 padding

  function Repeat(b: byte, n: nat): (r: seq<byte>)
    ensures |r| == n && forall i :: 0 <= i < n ==> r[i] == b
  {
    seq(n, i => b)
  }

  /** The encoded message form of section 9.2 of RFC 8017. */
  function Encoded(n: nat, tail: seq<byte>): seq<byte> {
    [0x00, 0x01] + Repeat(0xff, n) + [0x00] + tail
  }

  /** The first position of a zero byte from `start` on. */
  function FindZero(s: seq<byte>, start: nat): (r: int)
    requires start <= |s|
    ensures r == -1 ==> forall i :: start <= i < |s| ==> s[i] != 0
    ensures r != -1 ==> start <= r < |s| && s[r] == 0 && forall i :: start <= i < r ==> s[i] != 0
    decreases |s| - start
  {
    if start == |s| then -1 else if s[start] == 0 then start else FindZero(s, start + 1)
  }

  /** `has_pkcs1_v1_5_type_1_padding`. */
  predicate HasType1Padding(encoded: seq<byte>) {
    if |encoded| < 12 || encoded[..2] != [0x00, 0x01] then false
    else
      var separator := FindZero(encoded, 2);
      separator >= 10 && encoded[2..separator] == Repeat(0xff, separator - 2) && separator + 1 < |encoded|
  }

  /** Accepted exactly: 00 01, at least eight FF, 00 and a non-empty tail; the split is unique. */
  lemma PaddingExactly(encoded: seq<byte>)
    ensures HasType1Padding(encoded) <==> exists n: nat, tail :: n >= 8 && tail != [] && encoded == Encoded(n, tail)
  {
    if HasType1Padding(encoded) {
      var separator := FindZero(encoded, 2);
      assert encoded == Encoded(separator - 2, encoded[separator + 1..]);
    }
    if n: nat, tail :| n >= 8 && tail != [] && encoded == Encoded(n, tail) {
      ZeroOfEncoded(n, tail);
      assert encoded[2..2 + n] == Repeat(0xff, n);
      assert encoded[..2] == [0x00, 0x01];
    }
  }

  lemma ZeroOfEncoded(n: nat, tail: seq<byte>)
    ensures FindZero(Encoded(n, tail), 2) == 2 + n
  {
    var e := Encoded(n, tail);
    forall i | 2 <= i < 2 + n
      ensures e[i] == 0xff
    {
      assert e[i] == Repeat(0xff, n)[i - 2];
    }
    assert e[2 + n] == 0;
  }

  lemma SplitIsUnique(n: nat, tail: seq<byte>, m: nat, rest: seq<byte>)
    requires Encoded(n, tail) == Encoded(m, rest)
    ensures n == m && tail == rest
  {
    ZeroOfEncoded(n, tail);
    ZeroOfEncoded(m, rest);
    assert Encoded(n, tail)[n + 3..] == tail && Encoded(m, rest)[m + 3..] == rest;
  }

  // ---------------------------------------------------------------- big-endian integers

  function Power(b: nat, n: nat): (r: nat)
    ensures b >= 1 ==> r >= 1
  {
    if n == 0 then 1 else b * Power(b, n - 1)
  }

  function FromBig(s: seq<byte>): nat {
    if s == [] then 0 else 0x100 * FromBig(s[..|s| - 1]) + s[|s| - 1] as int
  }

  lemma {:induction false} FromBigBound(s: seq<byte>)
    ensures FromBig(s) < Power(0x100, |s|)
  {
    if s == [] {
    } else {
      FromBigBound(s[..|s| - 1]);
    }
  }

  lemma {:induction false} FromLittleBound(s: seq<byte>)
    ensures FromBytesLittle(s) < Power(0x100, |s|)
  {
    if s == [] {
    } else {
      FromLittleBound(s[1..]);
    }
  }

  /** `to_bytes(size, "big")`, which overflows unless the value fits. */
  function ToBig(v: nat, size: nat): (r: seq<byte>)
    requires v < Power(0x100, size)
    ensures |r| == size && FromBig(r) == v
  {
    if size == 0 then []
    else
      assert v / 0x100 < Power(0x100, size - 1);
      var front := ToBig(v / 0x100, size - 1);
      var r := front + [v % 0x100];
      assert r[..|r| - 1] == front;
      r
  }

  // ---------------------------------------------------------------- the check

  datatype Order = Big | Little

  datatype Candidate = Candidate(descriptor: nat, keyIndex: nat, modulusOrder: Order, signatureOrder: Order,
                                 exponent: nat)

  const ORDERS: seq<Order> := [Big, Little]
  const EXPONENTS: seq<nat> := [3, 17, 65537]

  function Value(s: seq<byte>, order: Order): nat {
    if order == Big then FromBig(s) else FromBytesLittle(s)
  }

  lemma ValueBound(s: seq<byte>, order: Order)
    ensures Value(s, order) < Power(0x100, |s|)
  {
    FromBigBound(s);
    FromLittleBound(s);
  }

  /** The result of `pow(s, e, n)`. */
  function PowMod(s: nat, e: nat, n: nat): (r: nat)
    requires n > 0
    ensures r < n
  {
    if e == 0 then 1 % n else s * PowMod(s, e - 1, n) % n
  }

  /** One interpretation recovers a padded block. The encoding never overflows: the power is below the
      modulus, and the modulus has 256 bytes. */
  predicate Recovers(prefix: seq<byte>, key: seq<byte>, c: Candidate)
    requires |key| == PREFIX_SIZE
  {
    var modulus, signature := Value(key, c.modulusOrder), Value(prefix, c.signatureOrder);
    ValueBound(key, c.modulusOrder);
    modulus > 1 && signature < modulus
    && HasType1Padding(ToBig(PowMod(signature, c.exponent, modulus), PREFIX_SIZE))
  }

  /** How many of the two readings of a key are usable moduli. */
  function Usable(key: seq<byte>): nat {
    (if FromBig(key) > 1 then 1 else 0) + (if FromBytesLittle(key) > 1 then 1 else 0)
  }

  function UsableSum(keys: seq<seq<byte>>): nat {
    if keys == [] then 0 else UsableSum(keys[..|keys| - 1]) + Usable(keys[|keys| - 1])
  }

  datatype Summary = Summary(checks: nat, belowModulus: nat, matches: seq<Candidate>)

  /** a comes before b in the order of the loops. */
  predicate Before(a: Candidate, b: Candidate) {
    if a.descriptor != b.descriptor then a.descriptor < b.descriptor
    else if a.keyIndex != b.keyIndex then a.keyIndex < b.keyIndex
    else if a.modulusOrder != b.modulusOrder then a.modulusOrder == Big
    else if a.signatureOrder != b.signatureOrder then a.signatureOrder == Big
    else a.exponent < b.exponent
  }

  /** In loop order, so none twice. */
  predicate InLoopOrder(cs: seq<Candidate>) {
    forall i, j :: 0 <= i < j < |cs| ==> Before(cs[i], cs[j])
  }

  /** Everything in cs comes before c. */
  predicate AllBefore(cs: seq<Candidate>, c: Candidate) {
    forall x :: x in cs ==> Before(x, c)
  }

  lemma AppendInOrder(cs: seq<Candidate>, c: Candidate)
    requires InLoopOrder(cs) && AllBefore(cs, c)
    ensures InLoopOrder(cs + [c])
  {
    forall i | 0 <= i < |cs|
      ensures Before(cs[i], c)
    {
      assert cs[i] in cs;
    }
    hide Before;
  }

  /** The candidate differs from `at` at most in what the inner loops choose. */
  predicate Chosen(at: Candidate, c: Candidate) {
    c == at.(signatureOrder := c.signatureOrder, exponent := c.exponent)
  }

  /** How many interpretations of one prefix under one reading of a key have a signature below the modulus. */
  function Below(prefix: seq<byte>, key: seq<byte>, order: Order): nat {
    var modulus := Value(key, order);
    if modulus <= 1 then 0
    else (if Value(prefix, Big) < modulus then 3 else 0) + (if Value(prefix, Little) < modulus then 3 else 0)
  }

  function BelowKeys(prefix: seq<byte>, keys: seq<seq<byte>>): nat {
    if keys == [] then 0
    else
      var n := |keys| - 1;
      BelowKeys(prefix, keys[..n]) + Below(prefix, keys[n], Big) + Below(prefix, keys[n], Little)
  }

  function BelowAll(payloads: seq<seq<byte>>, keys: seq<seq<byte>>): nat
    requires WellSized(payloads, keys)
  {
    if payloads == [] then 0
    else BelowAll(payloads[..|payloads| - 1], keys) + BelowKeys(PrefixOf(payloads[|payloads| - 1]), keys)
  }

  lemma UnusableRecoversNothing(prefix: seq<byte>, key: seq<byte>, c: Candidate)
    requires |key| == PREFIX_SIZE && Value(key, c.modulusOrder) <= 1
    ensures !Recovers(prefix, key, c)
  {
  }

  /** c belongs to a reading of a key that is tried before that of `at`. */
  predicate Earlier(c: Candidate, at: Candidate) {
    Before(c.(signatureOrder := Big, exponent := 0), at.(signatureOrder := Big, exponent := 0))
  }

  /** The six interpretations of one prefix under one reading of a key. */
  method CheckModulus(prefix: seq<byte>, key: seq<byte>, at: Candidate, start: Summary) returns (s: Summary)
    requires |key| == PREFIX_SIZE
    requires InLoopOrder(start.matches) && forall c :: c in start.matches ==> Earlier(c, at)
    ensures InLoopOrder(s.matches)
    ensures s.checks == start.checks + (if Value(key, at.modulusOrder) > 1 then 6 else 0)
    ensures s.belowModulus == start.belowModulus + Below(prefix, key, at.modulusOrder)
    ensures forall c :: c in s.matches <==>
              c in start.matches || (Chosen(at, c) && c.exponent in EXPONENTS && Recovers(prefix, key, c))
  {
    hide Recovers, HasType1Padding, InLoopOrder;
    s := start;
    var modulus := Value(key, at.modulusOrder);
    if modulus <= 1 {
      forall c | Chosen(at, c)
        ensures !Recovers(prefix, key, c)
      {
        UnusableRecoversNothing(prefix, key, c);
      }
      return;
    }
    for i := 0 to |ORDERS|
      invariant s.checks == start.checks + 3 * i && InLoopOrder(s.matches)
      invariant s.belowModulus == start.belowModulus
                + (if i > 0 && Value(prefix, Big) < modulus then 3 else 0)
                + (if i > 1 && Value(prefix, Little) < modulus then 3 else 0)
      invariant forall c :: c in s.matches <==>
                  c in start.matches
                  || (Chosen(at, c) && c.signatureOrder in ORDERS[..i] && c.exponent in EXPONENTS
                      && Recovers(prefix, key, c))
    {
      assert i == 1 ==> ORDERS[..i] == [Big];
      s := CheckSignature(prefix, key, at.(signatureOrder := ORDERS[i]), modulus, s);
      assert ORDERS[..i + 1] == ORDERS[..i] + [ORDERS[i]];
    }
    forall c: Candidate
      ensures c.signatureOrder in ORDERS[..|ORDERS|]
    {
      assert ORDERS[..|ORDERS|][if c.signatureOrder == Big then 0 else 1] == c.signatureOrder;
    }
  }

  lemma FoundBefore(start: seq<Candidate>, cs: seq<Candidate>, at: Candidate, j: nat)
    requires j < |EXPONENTS| && AllBefore(start, at.(exponent := 0))
    requires forall c :: c in cs ==> c in start || (c == at.(exponent := c.exponent) && c.exponent in EXPONENTS[..j])
    ensures AllBefore(cs, at.(exponent := EXPONENTS[j]))
  {
  }

  lemma RecoversIs(prefix: seq<byte>, key: seq<byte>, c: Candidate, modulus: nat, signature: nat)
    requires |key| == PREFIX_SIZE
    requires modulus == Value(key, c.modulusOrder) > 1 && signature == Value(prefix, c.signatureOrder)
    ensures PowMod(signature, c.exponent, modulus) < Power(0x100, PREFIX_SIZE)
    ensures Recovers(prefix, key, c) <==>
              signature < modulus && HasType1Padding(ToBig(PowMod(signature, c.exponent, modulus), PREFIX_SIZE))
  {
    ValueBound(key, c.modulusOrder);
    hide HasType1Padding, Value, Power, ToBig;
  }

  /** The three exponents for one reading of the signature. */
  method CheckSignature(prefix: seq<byte>, key: seq<byte>, at: Candidate, modulus: nat, start: Summary)
    returns (s: Summary)
    requires |key| == PREFIX_SIZE && modulus == Value(key, at.modulusOrder) > 1
    requires InLoopOrder(start.matches) && AllBefore(start.matches, at.(exponent := 0))
    ensures InLoopOrder(s.matches)
    ensures s.checks == start.checks + 3
    ensures s.belowModulus == start.belowModulus + (if Value(prefix, at.signatureOrder) < modulus then 3 else 0)
    ensures forall c :: c in s.matches <==>
              c in start.matches
              || (c == at.(exponent := c.exponent) && c.exponent in EXPONENTS && Recovers(prefix, key, c))
  {
    hide HasType1Padding, InLoopOrder, AllBefore, Recovers, Value, Power, PowMod, ToBig;
    s := start;
    var signature := Value(prefix, at.signatureOrder);
    for j := 0 to |EXPONENTS|
      invariant s.checks == start.checks + j && InLoopOrder(s.matches)
      invariant s.belowModulus == start.belowModulus + (if signature < modulus then j else 0)
      invariant forall c :: c in s.matches <==>
                  c in start.matches
                  || (c == at.(exponent := c.exponent) && c.exponent in EXPONENTS[..j] && Recovers(prefix, key, c))
    {
      var candidate := at.(exponent := EXPONENTS[j]);
      RecoversIs(prefix, key, candidate, modulus, signature);
      s := s.(checks := s.checks + 1);
      assert EXPONENTS[..j + 1] == EXPONENTS[..j] + [EXPONENTS[j]];
      if signature < modulus {
        s := s.(belowModulus := s.belowModulus + 1);
        var encoded := ToBig(PowMod(signature, EXPONENTS[j], modulus), PREFIX_SIZE);
        if HasType1Padding(encoded) {
          FoundBefore(start.matches, s.matches, at, j);
          AppendInOrder(s.matches, candidate);
          s := s.(matches := s.matches + [candidate]);
        }
      }
    }
  }

  predicate WellSized(payloads: seq<seq<byte>>, keys: seq<seq<byte>>) {
    && (forall i :: 0 <= i < |payloads| ==> |payloads[i]| >= HEADER_SIZE + PREFIX_SIZE)
    && (forall i :: 0 <= i < |keys| ==> |keys[i]| == PREFIX_SIZE)
  }

  function PrefixOf(payload: seq<byte>): seq<byte>
    requires |payload| >= HEADER_SIZE + PREFIX_SIZE
  {
    payload[HEADER_SIZE..HEADER_SIZE + PREFIX_SIZE]
  }

  predicate Match(payloads: seq<seq<byte>>, keys: seq<seq<byte>>, c: Candidate)
    requires WellSized(payloads, keys)
  {
    && c.descriptor < |payloads| && c.keyIndex < |keys| && c.exponent in EXPONENTS
    && Recovers(PrefixOf(payloads[c.descriptor]), keys[c.keyIndex], c)
  }

  method CheckKeys(payloads: seq<seq<byte>>, keys: seq<seq<byte>>, d: nat, start: Summary) returns (s: Summary)
    requires WellSized(payloads, keys) && d < |payloads|
    requires InLoopOrder(start.matches) && forall c :: c in start.matches ==> c.descriptor < d
    ensures InLoopOrder(s.matches)
    ensures s.checks == start.checks + 6 * UsableSum(keys)
    ensures s.belowModulus == start.belowModulus + BelowKeys(PrefixOf(payloads[d]), keys)
    ensures forall c :: c in s.matches <==> c in start.matches || (c.descriptor == d && Match(payloads, keys, c))
  {
    hide InLoopOrder, Recovers;
    s := start;
    for k := 0 to |keys|
      invariant s.checks == start.checks + 6 * UsableSum(keys[..k]) && InLoopOrder(s.matches)
      invariant s.belowModulus == start.belowModulus + BelowKeys(PrefixOf(payloads[d]), keys[..k])
      invariant forall c :: c in s.matches <==>
                  c in start.matches || (c.descriptor == d && c.keyIndex < k && Match(payloads, keys, c))
    {
      assert keys[..k + 1][..k] == keys[..k];
      s := CheckModulus(PrefixOf(payloads[d]), keys[k], Candidate(d, k, Big, Big, 0), s);
      s := CheckModulus(PrefixOf(payloads[d]), keys[k], Candidate(d, k, Little, Big, 0), s);
    }
    assert keys[..|keys|] == keys;
  }

  /** No key is 0 or 1 in either byte order. */
  predicate AllUsable(keys: seq<seq<byte>>) {
    forall i :: 0 <= i < |keys| ==> FromBig(keys[i]) > 1 && FromBytesLittle(keys[i]) > 1
  }

  lemma {:induction false} TwoPerKey(keys: seq<seq<byte>>)
    ensures UsableSum(keys) <= 2 * |keys|
    ensures UsableSum(keys) == 2 * |keys| <==> AllUsable(keys)
  {
    if keys == [] {
    } else {
      var front := keys[..|keys| - 1];
      TwoPerKey(front);
      assert AllUsable(keys) <==> AllUsable(front) && Usable(keys[|keys| - 1]) == 2;
    }
  }

  /** Six checks per prefix and usable reading are twelve per prefix and key if and only if no key is 0 or 1 in
      either byte order. */
  lemma TwelvePerPair(n: nat, keys: seq<seq<byte>>)
    requires n > 0
    ensures 6 * (n * UsableSum(keys)) == 12 * n * |keys| <==> AllUsable(keys)
  {
    TwoPerKey(keys);
    Scaled(n, UsableSum(keys), |keys|);
  }

  lemma Scaled(n: nat, a: int, b: int)
    requires n > 0
    ensures 6 * (n * a) == 12 * n * b <==> a == 2 * b
  {
    assert 12 * n * b == 6 * (n * (2 * b));
    if a < 2 * b {
      assert n * (2 * b - a) > 0;
    } else if a > 2 * b {
      assert n * (a - 2 * b) > 0;
    }
  }

  /** `rsa_prefix_check`: the reported matches are exactly the interpretations that recover a padded block, each
      once and in loop order; the number of interpretations is six per prefix and usable reading of a key, and
      twelve per prefix and key if and only if no key is 0 or 1 in either byte order. */
  method RsaPrefixCheck(payloads: seq<seq<byte>>, keys: seq<seq<byte>>) returns (r: Option<Summary>)
    ensures r.Some? <==> WellSized(payloads, keys)
    ensures r.Some? ==> r.value.checks == 6 * (|payloads| * UsableSum(keys))
    ensures r.Some? && payloads != [] ==> (r.value.checks == 12 * |payloads| * |keys| <==> AllUsable(keys))
    ensures r.Some? ==> r.value.belowModulus == BelowAll(payloads, keys)
    ensures r.Some? ==> InLoopOrder(r.value.matches)
    ensures r.Some? ==> forall c :: c in r.value.matches <==> Match(payloads, keys, c)
  {
    if !WellSized(payloads, keys) {
      return None;
    }
    hide InLoopOrder, Match, AllUsable;
    var s := Summary(0, 0, []);
    assert InLoopOrder([]) by { NothingInOrder(); }
    ghost var per := UsableSum(keys);
    for d := 0 to |payloads|
      invariant s.checks == 6 * (d * per) && s.belowModulus == BelowAll(payloads[..d], keys)
      invariant InLoopOrder(s.matches)
      invariant forall c :: c in s.matches <==> c.descriptor < d && Match(payloads, keys, c)
    {
      s := CheckKeys(payloads, keys, d, s);
      assert (d + 1) * per == d * per + per;
      assert payloads[..d + 1][..d] == payloads[..d];
    }
    assert payloads[..|payloads|] == payloads;
    MatchesAreCandidates(payloads, keys);
    if payloads != [] {
      TwelvePerPair(|payloads|, keys);
    }
    return Some(s);
  }

  lemma NothingInOrder()
    ensures InLoopOrder([])
  {
  }

  lemma MatchesAreCandidates(payloads: seq<seq<byte>>, keys: seq<seq<byte>>)
    requires WellSized(payloads, keys)
    ensures forall c :: Match(payloads, keys, c) ==> c.descriptor < |payloads|
  {
  }

  // ---------------------------------------------------------------- what a match is, in bytes and powers

  function Reversed(s: seq<byte>): (r: seq<byte>)
    ensures |r| == |s|
  {
    seq(|s|, i requires 0 <= i < |s| => s[|s| - 1 - i])
  }

  /** The two byte orders read the same bytes from opposite ends. */
  lemma {:induction false} BigIsReversedLittle(s: seq<byte>)
    ensures FromBig(s) == FromBytesLittle(Reversed(s))
  {
    if s == [] {
    } else {
      var front := s[..|s| - 1];
      BigIsReversedLittle(front);
      assert Reversed(s)[1..] == Reversed(front);
    }
  }

  /** Equally long strings with the same value are the same. */
  lemma {:induction false} FromBigInjective(a: seq<byte>, b: seq<byte>)
    requires |a| == |b| && FromBig(a) == FromBig(b)
    ensures a == b
  {
    if a == [] {
    } else {
      var m := |a| - 1;
      LastDigit(FromBig(a[..m]), a[m], FromBig(b[..m]), b[m]);
      FromBigInjective(a[..m], b[..m]);
      assert a == a[..m] + [a[m]] && b == b[..m] + [b[m]];
    }
  }

  lemma LastDigit(x: nat, c: byte, y: nat, d: byte)
    requires 0x100 * x + c as int == 0x100 * y + d as int
    ensures x == y && c == d
  {
  }

  lemma ModTimes(s: nat, p: nat, n: nat)
    requires n > 0
    ensures s * (p % n) % n == s * p % n
  {
    var q := p / n;
    assert p == q * n + p % n;
    assert s * p == s * (p % n) + (s * q) * n;
    ModPlus(s * (p % n), s * q, n);
  }

  lemma ModPlus(a: nat, k: nat, n: nat)
    requires n > 0
    ensures (a + k * n) % n == a % n
  {
    var r, q := a % n, a / n;
    assert a + k * n == (q + k) * n + r;
    Raster.SplitIndex(q + k, r, n);
  }

  /** The modular power is the remainder of the power. */
  lemma {:induction false} PowerModulo(s: nat, e: nat, n: nat)
    requires n > 0
    ensures PowMod(s, e, n) == Power(s, e) % n
  {
    if e == 0 {
    } else {
      PowerModulo(s, e - 1, n);
      ModTimes(s, Power(s, e - 1), n);
    }
  }

  /** 256 bytes: 00 01, at least eight FF, 00, and something behind it. */
  predicate Padded(block: seq<byte>) {
    |block| == 256 && block[0] == 0 && block[1] == 1
    && exists z :: 10 <= z < 255 && block[z] == 0 && forall i :: 2 <= i < z ==> block[i] == 0xff
  }

  lemma PaddedExactly(block: seq<byte>)
    requires |block| == 256
    ensures HasType1Padding(block) <==> Padded(block)
  {
    if HasType1Padding(block) {
      var z := FindZero(block, 2);
      assert forall i :: 2 <= i < z ==> block[i] == block[2..z][i - 2];
    }
    if Padded(block) {
      var z :| 10 <= z < 255 && block[z] == 0 && forall i :: 2 <= i < z ==> block[i] == 0xff;
      assert FindZero(block, 2) == z;
      assert block[2..z] == Repeat(0xff, z - 2);
      assert block[..2] == [0x00, 0x01];
    }
  }

  lemma SizesExactly(payloads: seq<seq<byte>>, keys: seq<seq<byte>>)
    ensures WellSized(payloads, keys) <==>
              (forall i :: 0 <= i < |payloads| ==> |payloads[i]| >= 260)
              && (forall i :: 0 <= i < |keys| ==> |keys[i]| == 256)
  {
  }

  /** One interpretation, spelled out: both numbers are read in the byte orders given; the signature is below the
      modulus and the modulus above 1; and the power leaves, as 256 big-endian bytes, a padded block. */
  lemma RecoversExactly(prefix: seq<byte>, key: seq<byte>, c: Candidate)
    requires |key| == 256
    ensures Recovers(prefix, key, c) <==>
              var modulus := if c.modulusOrder == Big then FromBig(key) else FromBytesLittle(key);
              var signature := if c.signatureOrder == Big then FromBig(prefix) else FromBytesLittle(prefix);
              && modulus > 1 && signature < modulus
              && exists block :: Padded(block) && FromBig(block) == Power(signature, c.exponent) % modulus
  {
    var modulus, signature := Value(key, c.modulusOrder), Value(prefix, c.signatureOrder);
    hide FromBig, Bytes.FromBytesLittle;
    if modulus > 1 {
      RecoversIs(prefix, key, c, modulus, signature);
      PowerModulo(signature, c.exponent, modulus);
      BlockOf(PowMod(signature, c.exponent, modulus));
      hide Recovers;
    } else {
      UnusableRecoversNothing(prefix, key, c);
    }
    hide HasType1Padding, ToBig, PowMod, Power, Padded;
  }

  /** A reported match, spelled out: it is such an interpretation of the 256 bytes behind the four-byte header of its
      payload under its key, with the exponent 3, 17 or 65537. */
  lemma MatchExactly(payloads: seq<seq<byte>>, keys: seq<seq<byte>>, c: Candidate)
    requires WellSized(payloads, keys)
    ensures Match(payloads, keys, c) <==>
              && c.descriptor < |payloads| && c.keyIndex < |keys| && c.exponent in {3, 17, 65537}
              && Recovers(payloads[c.descriptor][4..260], keys[c.keyIndex], c)
  {
    hide Recovers;
  }

  lemma BlockOf(v: nat)
    requires v < Power(0x100, PREFIX_SIZE)
    ensures HasType1Padding(ToBig(v, PREFIX_SIZE)) <==> exists block :: Padded(block) && FromBig(block) == v
  {
    var own := ToBig(v, PREFIX_SIZE);
    PaddedExactly(own);
    hide HasType1Padding, ToBig, Power, FromBig;
    if block :| Padded(block) && FromBig(block) == v {
      FromBigInjective(block, own);
    }
  }

  // ---------------------------------------------------------------- what the two counters count

  /** The readings of one prefix and one key that are below the modulus, three exponents each. */
  lemma BelowExactly(prefix: seq<byte>, key: seq<byte>)
    ensures BelowKeys(prefix, [key]) ==
              3 * ((if FromBig(key) > 1 && FromBig(prefix) < FromBig(key) then 1 else 0)
                   + (if FromBig(key) > 1 && FromBytesLittle(prefix) < FromBig(key) then 1 else 0)
                   + (if FromBytesLittle(key) > 1 && FromBig(prefix) < FromBytesLittle(key) then 1 else 0)
                   + (if FromBytesLittle(key) > 1 && FromBytesLittle(prefix) < FromBytesLittle(key) then 1 else 0))
    ensures UsableSum([key]) == (if FromBig(key) > 1 then 1 else 0) + (if FromBytesLittle(key) > 1 then 1 else 0)
  {
    assert [key][..0] == [];
    assert BelowKeys(prefix, []) == 0 && UsableSum([]) == 0;
    hide FromBig, Bytes.FromBytesLittle;
  }

  /** Both counters add up over the keys and over the payloads. */
  lemma {:induction false} CountersAddUp(prefix: seq<byte>, a: seq<seq<byte>>, b: seq<seq<byte>>)
    ensures BelowKeys(prefix, a + b) == BelowKeys(prefix, a) + BelowKeys(prefix, b)
    ensures UsableSum(a + b) == UsableSum(a) + UsableSum(b)
  {
    if b == [] {
      assert a + b == a;
    } else {
      var front := b[..|b| - 1];
      CountersAddUp(prefix, a, front);
      assert (a + b)[..|a + b| - 1] == a + front;
    }
  }

  lemma BelowOneMore(payloads: seq<seq<byte>>, payload: seq<byte>, keys: seq<seq<byte>>)
    requires WellSized(payloads + [payload], keys)
    ensures WellSized(payloads, keys) && |payload| >= 260 && BelowAll([], keys) == 0
    ensures BelowAll(payloads + [payload], keys) == BelowAll(payloads, keys) + BelowKeys(payload[4..260], keys)
  {
    var all := payloads + [payload];
    assert all[..|payloads|] == payloads && all[|payloads|] == payload;
    assert forall i :: 0 <= i < |payloads| ==> all[i] == payloads[i];
  }
}
