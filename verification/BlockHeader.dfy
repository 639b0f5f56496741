/** The block header the genesis search hashes, and its fixed-width arithmetic. */
module BlockHeader {

  const TWO_16: nat := 0x1_0000
  const TWO_32: nat := 0x1_0000_0000
  const TWO_224: nat := 0x1_00000000_00000000_00000000_00000000_00000000_00000000_00000000
  const TWO_240: nat := 0x1_0000_00000000_00000000_00000000_00000000_00000000_00000000_00000000
  const TWO_256: nat := 0x1_00000000_00000000_00000000_00000000_00000000_00000000_00000000_00000000

  type Uint32 = n: nat | n < TWO_32

  type Uint256 = n: nat | n < TWO_256

  datatype Header = Header(nVersion: int, hashPrevBlock: Uint256, hashMerkleRoot: Uint256, hashClaimTrie: Uint256,
                           nTime: Uint32, nBits: Uint32, nNonce: Uint256)

  /** The two headers describe the same block up to the fields the search may change. */
  predicate SameBlock(a: Header, b: Header) {
    a.(nTime := b.nTime, nNonce := b.nNonce) == b
  }

  /** `arith_uint256` addition of one, which wraps. */
  function Increment(x: Uint256): Uint256 {
    if x == TWO_256 - 1 then 0 else x + 1
  }

  /** Storing a 64-bit time into the header's 32-bit field. */
  function ToUint32(t: int): Uint32 {
    t % TWO_32
  }

  /** `arith_uint256::operator<<=`: bits shifted past bit 255 are lost. */
  function ShiftLeft32(x: Uint256): Uint256 {
    (x * TWO_32) % TWO_256
  }

  /** `arith_uint256::operator>>=`. */
  function ShiftRight16(x: Uint256): Uint256 {
    x / TWO_16
  }

  /** The start nonce the spawner derives from one 256-bit random value. */
  function StartNonce(random: Uint256): Uint256 {
    ShiftRight16(ShiftLeft32(random))
  }

  /** The nonce of the `k`-th candidate a worker hashes after starting at `start`. */
  function NonceAt(start: Uint256, k: nat): Uint256 {
    (start + k) % TWO_256
  }

  lemma NonceStep(start: Uint256, k: nat)
    ensures Increment(NonceAt(start, k)) == NonceAt(start, k + 1)
  {
  }

  lemma StartNonceClosedForm(random: Uint256)
    ensures StartNonce(random) == (random % TWO_224) * TWO_16
    ensures StartNonce(random) <= TWO_240 - TWO_16
    ensures StartNonce(random) % TWO_16 == 0
  {
    var q, m := random / TWO_224, random % TWO_224;
    assert random * TWO_32 == q * TWO_256 + m * TWO_32 by {
      assert random == q * TWO_224 + m;
    }
    assert m * TWO_32 < TWO_256;
    assert (random * TWO_32) % TWO_256 == m * TWO_32;
    assert (m * TWO_16) * TWO_16 == m * TWO_32;
  }

  /** Counting up from any start nonce, the 256-bit nonce does not wrap for 2^256 - 2^240 candidates. */
  lemma NonceDoesNotWrap(random: Uint256, k: nat)
    requires k < TWO_256 - TWO_240
    ensures NonceAt(StartNonce(random), k) == StartNonce(random) + k
  {
    StartNonceClosedForm(random);
  }

  /**
   Two workers' first 65536 candidates have no nonce in common exactly when the workers
   started from different nonces.
   */
  lemma FirstNoncesDisjointIff(r1: Uint256, r2: Uint256)
    ensures StartNonce(r1) != StartNonce(r2)
       <==> forall k1: nat, k2: nat :: k1 < TWO_16 && k2 < TWO_16 ==>
              NonceAt(StartNonce(r1), k1) != NonceAt(StartNonce(r2), k2)
  {
    var s1, s2 := StartNonce(r1), StartNonce(r2);
    if s1 != s2 {
      StartNonceClosedForm(r1);
      StartNonceClosedForm(r2);
      forall k1: nat, k2: nat | k1 < TWO_16 && k2 < TWO_16
        ensures NonceAt(s1, k1) != NonceAt(s2, k2)
      {
        NonceDoesNotWrap(r1, k1);
        NonceDoesNotWrap(r2, k2);
        var m1, m2 := r1 % TWO_224, r2 % TWO_224;
        assert s1 + k1 == m1 * TWO_16 + k1 && s2 + k2 == m2 * TWO_16 + k2;
      }
    } else {
      assert NonceAt(s1, 0) == NonceAt(s2, 0);
    }
  }
}
