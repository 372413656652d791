/**
 The rolling hash of an address, in the fixed-width arithmetic of the source: `char` is signed,
 the running value is an unsigned 64-bit integer.
 */
module RollingHash {
  import opened Bytes

  const ROLLING_PRIME := 31
  const ROLLING_MODULO := 1000000007
  const WORD := 0x1_0000_0000_0000_0000

  function SignedChar(b: Byte): int {
    if b < 128 then b else b - 256
  }

  /** `address[i] - 'a'`, an `int`. */
  function Offset(b: Byte): int {
    SignedChar(b) - LOWER_A
  }

  /** Conversion of an `int` to `unsigned long long`. */
  function Unsigned(x: int): nat {
    x % WORD
  }

  /** `hash * ROLLING_PRIME + (c - 'a')` reduced to 64 bits at each operator, then the modulus. */
  function HashStep(hash: nat, b: Byte): nat {
    ((hash * ROLLING_PRIME) % WORD + Unsigned(Offset(b))) % WORD % ROLLING_MODULO
  }

  function Hash(address: Path): nat {
    if address == [] then 0 else HashStep(Hash(address[..|address| - 1]), address[|address| - 1])
  }

  method ComputeHash(address: Path) returns (hash: nat)
    ensures hash == Hash(address)
  {
    hash := 0;
    for i := 0 to |address|
      invariant hash == Hash(address[..i])
    {
      assert address[..i + 1][..i] == address[..i];
      hash := HashStep(hash, address[i]);
    }
    assert address[..|address|] == address;
  }

  /** The subtraction borrows exactly when the scaled hash cannot absorb a character below 'a'. */
  predicate Borrows(hash: nat, b: Byte) {
    ROLLING_PRIME * hash + Offset(b) < 0
  }

  /** The base-31 polynomial the hash is meant to be, over the unbounded integers. */
  function Polynomial(address: Path): int {
    if address == [] then 0
    else Polynomial(address[..|address| - 1]) * ROLLING_PRIME + Offset(address[|address| - 1])
  }

  /** The same polynomial over the positions that borrow: the multiples of 2^64 they leave in. */
  function Borrowed(address: Path): nat {
    if address == [] then 0
    else
      var before := address[..|address| - 1];
      Borrowed(before) * ROLLING_PRIME + if Borrows(Hash(before), address[|address| - 1]) then 1 else 0
  }

  lemma {:induction false} HashStaysSmall(address: Path)
    ensures Hash(address) < ROLLING_MODULO
    ensures Hash(address) * ROLLING_PRIME < WORD
  {
  }

  /** One step: no multiplication or addition overflows, only the subtraction can wrap. */
  lemma {:induction false} HashStepExact(hash: nat, b: Byte)
    requires hash < ROLLING_MODULO
    ensures HashStep(hash, b) ==
            (hash * ROLLING_PRIME + Offset(b) + if Borrows(hash, b) then WORD else 0) % ROLLING_MODULO
    ensures Borrows(hash, b) ==> SignedChar(b) < LOWER_A && hash <= 7
  {
    var x, y := hash * ROLLING_PRIME, Offset(b);
    assert x % WORD == x;
    assert Unsigned(y) == if y < 0 then y + WORD else y;
  }

  /** The hash is the polynomial plus 2^64 for every borrow, reduced by the modulus. */
  lemma {:induction false} HashIsPolynomial(address: Path) returns (k: int)
    ensures Hash(address) == Polynomial(address) + WORD * Borrowed(address) - ROLLING_MODULO * k
    ensures Hash(address) == (Polynomial(address) + WORD * Borrowed(address)) % ROLLING_MODULO
  {
    if address == [] {
      k := 0;
    } else {
      var before, b := address[..|address| - 1], address[|address| - 1];
      var k0 := HashIsPolynomial(before);
      HashStaysSmall(before);
      HashStepExact(Hash(before), b);
      var raw := Hash(before) * ROLLING_PRIME + Offset(b) + if Borrows(Hash(before), b) then WORD else 0;
      k := k0 * ROLLING_PRIME + raw / ROLLING_MODULO;
      assert raw == ROLLING_MODULO * (raw / ROLLING_MODULO) + raw % ROLLING_MODULO;
    }
    HashStaysSmall(address);
    RemainderIsUnique(Polynomial(address) + WORD * Borrowed(address), k, Hash(address));
  }

  lemma {:induction false} RemainderIsUnique(x: int, k: int, r: nat)
    requires r < ROLLING_MODULO && r == x - ROLLING_MODULO * k
    ensures r == x % ROLLING_MODULO
  {
  }

  /** Addresses without a character below 'a' hash to the intended polynomial. */
  lemma {:induction false} PlainHash(address: Path)
    requires forall i :: 0 <= i < |address| ==> Offset(address[i]) >= 0
    ensures Borrowed(address) == 0
    ensures Hash(address) == Polynomial(address) % ROLLING_MODULO
  {
    if address != [] {
      PlainHash(address[..|address| - 1]);
    }
    var k := HashIsPolynomial(address);
  }

  /**
   The hash of one byte, in numbers: bytes of 128 and above are negative as `char`, and below 'a' the
   subtraction wraps around 2^64.
   */
  lemma {:induction false} HashOfByte(b: Byte)
    ensures Hash([b]) == if b < 97 then (18446744073709551519 + b) % 1000000007
                         else if b < 128 then b - 97
                         else (18446744073709551263 + b) % 1000000007
  {
    assert [b][..0] == [];
    assert Hash([b]) == HashStep(0, b);
    HashStepExact(0, b);
  }

  /** One character more, with the quotient of the modulus. */
  lemma {:induction false} HashNext(address: Path, k: nat, hash: nat, next: nat, quotient: int)
    requires k < |address| && Hash(address[..k]) == hash
    requires hash * ROLLING_PRIME + Offset(address[k]) + (if Borrows(hash, address[k]) then WORD else 0)
             == ROLLING_MODULO * quotient + next
    requires next < ROLLING_MODULO
    ensures Hash(address[..k + 1]) == next
  {
    assert address[..k + 1][..k] == address[..k];
    HashStaysSmall(address[..k]);
    HashStepExact(hash, address[k]);
    RemainderIsUnique(ROLLING_MODULO * quotient + next, quotient, next);
  }

  /** "/ejuddkj" */
  const ZERO_HASH_PATH: Path := [47, 101, 106, 117, 100, 100, 107, 106]

  lemma {:induction false} ZeroHashFirstHalf(p: Path)
    requires p == ZERO_HASH_PATH + [LOWER_A]
    ensures Hash(p[..4]) == 608735485
  {
    HashNext(p, 0, 0, 582343958, 18446743944);
    HashNext(p, 1, 582343958, 52662576, 18);
    HashNext(p, 2, 52662576, 632539858, 1);
    HashNext(p, 3, 632539858, 608735485, 19);
  }

  /** A path can hash to zero, and distinct paths can share a hash. */
  lemma {:induction false} HashCollision(p: Path)
    requires p == ZERO_HASH_PATH + [LOWER_A]
    ensures Hash(p[..8]) == 0 == Hash(p)
  {
    ZeroHashFirstHalf(p);
    HashNext(p, 4, 608735485, 870799912, 18);
    HashNext(p, 5, 870799912, 994797093, 26);
    HashNext(p, 6, 994797093, 838709683, 30);
    HashNext(p, 7, 838709683, 0, 26);
    HashNext(p, 8, 0, 0, 0);
    assert p[..9] == p;
  }
}
