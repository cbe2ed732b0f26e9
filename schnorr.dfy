/** Parameter construction and the interactive Schnorr identification round
    of schnorr/schnorr.py. Random draws are inputs; primality is a
    specified predicate standing for the library primality test. */
module Schnorr {
  import opened ModArith
  import opened Wrappers

  /** d divides n. */
  predicate Divides(d: int, n: int)
    requires d != 0
  {
    n % d == 0
  }

  /** The meaning of the primality test the source calls: n >= 2 and no
      divisor strictly between 1 and n. */
  predicate IsPrime(n: int) {
    n >= 2 && forall d :: 2 <= d < n ==> !Divides(d, n)
  }

  /** `q |= 1` on a non-negative integer: the low bit is set and every
      other bit is kept. */
  function OrOne(q: nat): (r: nat)
    ensures r % 2 == 1 && r / 2 == q / 2
  {
    if q % 2 == 0 then q + 1 else q
  }

  /** The smallest cofactor tried and the bound the search stays below. */
  const MinCofactor: nat := 2
  const CofactorBound: nat := 20

  /** q * r + 1 is prime. */
  predicate CofactorWorks(q: int, r: int) {
    IsPrime(q * r + 1)
  }

  /** r is the first cofactor in [2, 20) that makes q * r + 1 prime. */
  ghost predicate IsLeastCofactor(q: int, r: int) {
    && MinCofactor <= r < CofactorBound
    && CofactorWorks(q, r)
    && forall r' :: MinCofactor <= r' < r ==> !CofactorWorks(q, r')
  }

  /** A candidate q that the search accepts: prime, with some cofactor in
      [2, 20) giving a prime p. */
  ghost predicate Accepts(q: int) {
    IsPrime(q) && exists r :: MinCofactor <= r < CofactorBound && CofactorWorks(q, r)
  }

  datatype SafePrime = SafePrime(p: nat, q: nat)

  /** The inner cofactor loop of the safe-prime search: the first
      r in [2, 20) with q * r + 1 prime, giving p = q * r + 1. */
  method TryCofactors(q: nat) returns (p: Option<nat>)
    ensures p.None? <==> forall r :: MinCofactor <= r < CofactorBound ==> !CofactorWorks(q, r)
    ensures p.Some? ==> exists r :: IsLeastCofactor(q, r) && p.value == q * r + 1
  {
    for r := MinCofactor to CofactorBound
      invariant forall r' :: MinCofactor <= r' < r ==> !CofactorWorks(q, r')
    {
      var candidate := q * r + 1;
      if IsPrime(candidate) {
        assert IsLeastCofactor(q, r);
        return Some(candidate);
      }
    }
    return None;
  }

  /** Draw i is the first one whose candidate the search accepts. */
  ghost predicate FirstAccepted(draws: seq<nat>, i: int) {
    && 0 <= i < |draws|
    && Accepts(OrOne(draws[i]))
    && forall j :: 0 <= j < i ==> !Accepts(OrOne(draws[j]))
  }

  /** sp is the pair the search returns for `draws`: q from the first
      accepted draw and p from its least working cofactor. */
  ghost predicate SearchResult(draws: seq<nat>, sp: SafePrime) {
    exists i :: FirstAccepted(draws, i) && sp.q == OrOne(draws[i])
      && exists r :: IsLeastCofactor(sp.q, r) && sp.p == sp.q * r + 1
  }

  /** The draws determine the search's pair: there is at most one. */
  lemma SearchResultUnique(draws: seq<nat>, a: SafePrime, b: SafePrime)
    requires SearchResult(draws, a) && SearchResult(draws, b)
    ensures a == b
  {
    var i :| FirstAccepted(draws, i) && a.q == OrOne(draws[i])
      && exists r :: IsLeastCofactor(a.q, r) && a.p == a.q * r + 1;
    var j :| FirstAccepted(draws, j) && b.q == OrOne(draws[j])
      && exists r :: IsLeastCofactor(b.q, r) && b.p == b.q * r + 1;
    assert i == j;
    var ra :| IsLeastCofactor(a.q, ra) && a.p == a.q * ra + 1;
    var rb :| IsLeastCofactor(b.q, rb) && b.p == b.q * rb + 1;
    assert ra == rb;
  }

  /** The safe-prime search. `draws` are the successive values of the
      random `bits`-bit source; the search stops at the first accepted
      candidate, and None means the draws ran out before one was found
      (the source would keep drawing). */
  method GenerateSafePrime(bits: nat, draws: seq<nat>) returns (res: Option<SafePrime>)
    requires forall i :: 0 <= i < |draws| ==> draws[i] < Pow(2, bits)
    ensures res.None? <==> forall i :: 0 <= i < |draws| ==> !Accepts(OrOne(draws[i]))
    ensures res.Some? ==>
      exists i :: 0 <= i < |draws| && res.value.q == OrOne(draws[i])
        && Accepts(OrOne(draws[i]))
        && forall j :: 0 <= j < i ==> !Accepts(OrOne(draws[j]))
    ensures res.Some? ==>
      var SafePrime(p, q) := res.value;
      && q % 2 == 1 && IsPrime(q) && IsPrime(p) && q < Pow(2, bits)
      && exists r :: IsLeastCofactor(q, r) && p == q * r + 1
    ensures res.Some? ==> SearchResult(draws, res.value)
  {
    var i := 0;
    while i < |draws|
      invariant 0 <= i <= |draws|
      invariant forall j :: 0 <= j < i ==> !Accepts(OrOne(draws[j]))
    {
      var q := OrOne(draws[i]);
      if IsPrime(q) {
        var p := TryCofactors(q);
        if p.Some? {
          OrOneBelowPowerOfTwo(draws[i], bits);
          assert FirstAccepted(draws, i);
          return Some(SafePrime(p.value, q));
        }
      }
      i := i + 1;
    }
    return None;
  }

  /** Setting the low bit of a `bits`-bit value keeps it below 2^bits
      whenever the result is at least 2. */
  lemma OrOneBelowPowerOfTwo(v: nat, bits: nat)
    requires v < Pow(2, bits) && OrOne(v) >= 2
    ensures OrOne(v) < Pow(2, bits)
  {
    if bits >= 1 {
      PowTwoEven(bits);
    }
  }

  /** g^q == 1 (mod p): the acceptance test of the generator search. */
  predicate SatisfiesOrder(g: int, q: nat, p: int) {
    p > 0 && ModPow(g, q, p) == 1
  }

  /** g is the least candidate in [2, p) with g^q == 1 (mod p). */
  ghost predicate IsLeastGenerator(g: int, q: nat, p: int) {
    && 2 <= g < p
    && SatisfiesOrder(g, q, p)
    && forall h :: 2 <= h < g ==> !SatisfiesOrder(h, q, p)
  }

  datatype GroupError = NoGenerator

  /** Linear scan for the first g in [2, p) with g^q == 1 (mod p); fails
      with NoGenerator when none exists. */
  method FindGenerator(p: int, q: nat) returns (res: Result<int, GroupError>)
    ensures res.Ok? ==> IsLeastGenerator(res.value, q, p)
    ensures res.Err? <==> forall h :: 2 <= h < p ==> !SatisfiesOrder(h, q, p)
  {
    var g := 2;
    while g < p
      invariant 2 <= g && (p >= 2 ==> g <= p)
      invariant forall h :: 2 <= h < g ==> !SatisfiesOrder(h, q, p)
    {
      if ModPow(g, q, p) == 1 {
        return Ok(g);
      }
      g := g + 1;
    }
    return Err(NoGenerator);
  }

  /** Public group parameters: modulus p, subgroup order q, generator g. */
  datatype Group = Group(p: nat, q: nat, g: int)

  datatype KeyPair = KeyPair(secret: nat, public: int)

  /** The parameters the honest protocol assumes: p and q prime, p = q*r + 1
      for a cofactor in [2, 20), and g^q == 1 (mod p). */
  ghost predicate ValidGroup(grp: Group) {
    && IsPrime(grp.p) && IsPrime(grp.q)
    && (exists r :: MinCofactor <= r < CofactorBound && grp.p == grp.q * r + 1)
    && SatisfiesOrder(grp.g, grp.q, grp.p)
  }

  /** Key derivation from a secret x drawn from [1, q-1]: y = g^x mod p.
      The public key lies in [0, p) and, when g^q == 1, y^q == 1 as well. */
  function DeriveKey(grp: Group, x: nat): (kp: KeyPair)
    requires grp.p > 0 && 1 <= x <= grp.q - 1
    ensures kp.secret == x && 1 <= kp.secret < grp.q
    ensures 0 <= kp.public < grp.p
    ensures SatisfiesOrder(grp.g, grp.q, grp.p) ==> SatisfiesOrder(kp.public, grp.q, grp.p)
  {
    var y := ModPow(grp.g, x, grp.p);
    PublicKeyOrder(grp.g, grp.q, x, grp.p);
    KeyPair(x, y)
  }

  /** y = g^x satisfies y^q == 1 (mod p) when g does. */
  lemma PublicKeyOrder(g: int, q: nat, x: nat, p: int)
    requires p > 0
    ensures SatisfiesOrder(g, q, p) ==> SatisfiesOrder(ModPow(g, x, p), q, p)
  {
    if SatisfiesOrder(g, q, p) {
      var gx, gq := Pow(g, x), Pow(g, q);
      assert gq % p == 1;
      PowModBase(gx, q, p);
      assert ModPow(ModPow(g, x, p), q, p) == Pow(gx, q) % p;
      PowMul(g, x, q);
      PowMul(g, q, x);
      assert x * q == q * x;
      assert Pow(gx, q) == Pow(gq, x);
      PowModBase(gq, x, p);
      PowOne(x);
      assert Pow(gq % p, x) == 1;
    }
  }

  /** The honest key relation y == g^x mod p. */
  predicate HonestKey(grp: Group, kp: KeyPair)
    requires grp.p > 0
  {
    kp.public == ModPow(grp.g, kp.secret, grp.p)
  }

  datatype SetupError = DrawsExhausted | GeneratorNotFound

  /** The module-level set-up: the safe prime pair the search returns for
      `draws`, the least generator, and the key pair for the secret
      `1 + secretDraw mod (q-1)`, the value of the draw from [1, q-1]. */
  method Setup(bits: nat, draws: seq<nat>, secretDraw: nat)
    returns (res: Result<(Group, KeyPair), SetupError>)
    requires forall i :: 0 <= i < |draws| ==> draws[i] < Pow(2, bits)
    ensures res == Err(DrawsExhausted) <==>
      forall i :: 0 <= i < |draws| ==> !Accepts(OrOne(draws[i]))
    ensures res == Err(GeneratorNotFound) <==>
      exists sp :: SearchResult(draws, sp)
        && forall h :: 2 <= h < sp.p ==> !SatisfiesOrder(h, sp.q, sp.p)
    ensures res.Ok? ==>
      var (grp, kp) := res.value;
      && SearchResult(draws, SafePrime(grp.p, grp.q))
      && grp.q % 2 == 1 && grp.q < Pow(2, bits)
      && ValidGroup(grp)
      && IsLeastGenerator(grp.g, grp.q, grp.p)
      && kp.secret == 1 + secretDraw % (grp.q - 1)
      && 1 <= kp.secret <= grp.q - 1
      && HonestKey(grp, kp)
  {
    var sp := GenerateSafePrime(bits, draws);
    if sp.None? {
      return Err(DrawsExhausted);
    }
    var SafePrime(p, q) := sp.value;
    var gen := FindGenerator(p, q);
    forall other | SearchResult(draws, other) ensures other == sp.value {
      SearchResultUnique(draws, other, sp.value);
    }
    if gen.Err? {
      return Err(GeneratorNotFound);
    }
    var grp := Group(p, q, gen.value);
    var x := 1 + secretDraw % (q - 1);
    var kp := DeriveKey(grp, x);
    return Ok((grp, kp));
  }

  /** One round of the protocol as recorded: nonce s, commitment f,
      challenge c, response r, the two sides of the check and its verdict. */
  datatype Round = Round(s: nat, f: int, c: nat, r: nat, left: int, right: int, passed: bool)

  /** The round the prover and verifier compute from nonce s and challenge c. */
  function RunRound(grp: Group, kp: KeyPair, s: nat, c: nat): (rd: Round)
    requires grp.p > 0 && grp.q > 0
    ensures rd.s == s && rd.c == c
    ensures 0 <= rd.r < grp.q
    ensures 0 <= rd.f < grp.p && 0 <= rd.left < grp.p && 0 <= rd.right < grp.p
    ensures rd.passed <==> rd.left == rd.right
    ensures SatisfiesOrder(grp.g, grp.q, grp.p) && HonestKey(grp, kp) ==> rd.passed
  {
    var f := ModPow(grp.g, s, grp.p);
    var r := (s + c * kp.secret) % grp.q;
    var left := ModPow(grp.g, r, grp.p);
    var right := (f * ModPow(kp.public, c, grp.p)) % grp.p;
    HonestRoundPasses(grp, kp, s, c);
    Round(s, f, c, r, left, right, left == right)
  }

  /** Completeness over the model's parameters: an honest prover with a
      generator of order dividing q always satisfies g^r == f * y^c. */
  lemma HonestRoundPasses(grp: Group, kp: KeyPair, s: nat, c: nat)
    requires grp.p > 0 && grp.q > 0
    ensures SatisfiesOrder(grp.g, grp.q, grp.p) && HonestKey(grp, kp) ==>
      ModPow(grp.g, (s + c * kp.secret) % grp.q, grp.p)
        == (ModPow(grp.g, s, grp.p) * ModPow(kp.public, c, grp.p)) % grp.p
  {
    if SatisfiesOrder(grp.g, grp.q, grp.p) && HonestKey(grp, kp) {
      Completeness(grp.p, grp.q, grp.g, kp.secret, s, c);
    }
  }

  /** The protocol log: one entry per round, then the success total. */
  datatype LogEntry = RoundEntry(index: nat, round: Round) | Total(successes: nat, rounds: nat)

  /** Number of passing rounds among the entries. */
  function Successes(entries: seq<LogEntry>): nat {
    if entries == [] then 0
    else
      var last := entries[|entries| - 1];
      Successes(entries[..|entries| - 1]) + (if last.RoundEntry? && last.round.passed then 1 else 0)
  }

  lemma {:induction false} SuccessesAtMostLength(entries: seq<LogEntry>)
    ensures Successes(entries) <= |entries|
  {
    if entries != [] { SuccessesAtMostLength(entries[..|entries| - 1]); }
  }

  lemma {:induction false} AllPassedSuccesses(entries: seq<LogEntry>)
    requires forall i :: 0 <= i < |entries| ==> entries[i].RoundEntry? && entries[i].round.passed
    ensures Successes(entries) == |entries|
  {
    if entries != [] { AllPassedSuccesses(entries[..|entries| - 1]); }
  }

  /** `rounds` protocol rounds; nonces[i] and challenges[i] are the values
      drawn from [1, q-1] in round i + 1. The log holds one entry per round
      and the total; the total never exceeds `rounds` and equals it for an
      honest key over a generator with g^q == 1. */
  method SchnorrProof(grp: Group, kp: KeyPair, rounds: nat, nonces: seq<nat>, challenges: seq<nat>)
    returns (logs: seq<LogEntry>)
    requires grp.p > 0 && grp.q >= 2
    requires |nonces| == rounds && |challenges| == rounds
    requires forall i :: 0 <= i < rounds ==> 1 <= nonces[i] <= grp.q - 1 && 1 <= challenges[i] <= grp.q - 1
    ensures |logs| == rounds + 1
    ensures forall i :: 0 <= i < rounds ==>
      logs[i] == RoundEntry(i + 1, RunRound(grp, kp, nonces[i], challenges[i]))
    ensures logs[rounds] == Total(Successes(logs[..rounds]), rounds)
    ensures logs[rounds].successes <= rounds
    ensures SatisfiesOrder(grp.g, grp.q, grp.p) && HonestKey(grp, kp) ==> logs[rounds].successes == rounds
  {
    logs := [];
    var successCount := 0;
    for i := 1 to rounds + 1
      invariant |logs| == i - 1
      invariant forall k :: 0 <= k < i - 1 ==>
        logs[k] == RoundEntry(k + 1, RunRound(grp, kp, nonces[k], challenges[k]))
      invariant successCount == Successes(logs)
    {
      var s := nonces[i - 1];
      var f := ModPow(grp.g, s, grp.p);
      var c := challenges[i - 1];
      var r := (s + c * kp.secret) % grp.q;
      var left := ModPow(grp.g, r, grp.p);
      var right := (f * ModPow(kp.public, c, grp.p)) % grp.p;
      var passed := left == right;
      if passed {
        successCount := successCount + 1;
      }
      assert (logs + [RoundEntry(i, Round(s, f, c, r, left, right, passed))])[..i - 1] == logs;
      logs := logs + [RoundEntry(i, Round(s, f, c, r, left, right, passed))];
    }
    SuccessesAtMostLength(logs);
    if SatisfiesOrder(grp.g, grp.q, grp.p) && HonestKey(grp, kp) {
      AllPassedSuccesses(logs);
    }
    assert (logs + [Total(successCount, rounds)])[..rounds] == logs;
    logs := logs + [Total(successCount, rounds)];
  }

  /** The illustrative parameters q = 11, p = 23 = 2*11 + 1, g = 2: both
      primes, 2 is the least candidate with 2^11 == 1 (mod 23), and the key
      x = 3 gives y = 8. */
  lemma SmallExample()
    ensures ValidGroup(Group(23, 11, 2)) && IsLeastGenerator(2, 11, 23)
    ensures DeriveKey(Group(23, 11, 2), 3) == KeyPair(3, 8)
  {
    assert Pow(2, 11) == 2048;
    assert Pow(2, 3) == 8;
    assert 23 == 11 * 2 + 1;
  }
}
