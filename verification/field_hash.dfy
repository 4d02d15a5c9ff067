/**
 * The client's Field-Hash Reducer and Address Deriver (`hashvToBn254FieldSizeBe`
 * and `deriveAddressSeed` in tests/helpers/compression.ts).
 *
 * Keccak-256 itself is a foreign primitive; it enters the model as a parameter
 * of type `Keccak256`: some total function from a byte stream to 32 bytes.
 * A streaming hasher fed with `update(x1) … update(xn)` computes the digest of
 * the concatenation `x1 + … + xn`, so the hasher's state is the stream it has
 * absorbed so far.
 */
module FieldHash {
  import opened Bytes

  /** Keccak-256 over a complete byte stream. */
  type Keccak256 = seq<Byte> -> Bytes32

  /** Zeroes the most significant (big-endian) byte so the value fits the BN254 field. */
  function ToFieldSize(d: Bytes32): (r: Bytes32)
    ensures r[0] == 0
    ensures forall i :: 1 <= i < 32 ==> r[i] == d[i]
  {
    [0] + d[1..]
  }

  /** What `hashvToBn254FieldSizeBe(inputs)` returns: the digest of the whole stream, reduced to field size. */
  function Hashv(keccak: Keccak256, inputs: seq<seq<Byte>>): (r: Bytes32)
    ensures r[0] == 0
    ensures forall i :: 1 <= i < 32 ==> r[i] == keccak(Concat(inputs))[i]
  {
    ToFieldSize(keccak(Concat(inputs)))
  }

  /** Feeds each input to one hasher in order, digests, then clears byte 0 in place. */
  method HashvToBn254FieldSizeBe(keccak: Keccak256, inputs: seq<seq<Byte>>) returns (hash: Bytes32)
    ensures hash[0] == 0
    ensures forall i :: 1 <= i < 32 ==> hash[i] == keccak(Concat(inputs))[i]
    ensures hash == Hashv(keccak, inputs)
  {
    var absorbed: seq<Byte> := [];
    for k := 0 to |inputs|
      invariant absorbed == Concat(inputs[..k])
    {
      assert inputs[..k + 1] == inputs[..k] + [inputs[k]];
      ConcatAppend(inputs[..k], [inputs[k]]);
      ConcatSingle(inputs[k]);
      absorbed := absorbed + inputs[k];
    }
    assert inputs[..|inputs|] == inputs;
    var digest := keccak(absorbed);
    var buffer := new Byte[32](i requires 0 <= i < 32 => digest[i]);
    buffer[0] := 0;
    hash := buffer[..];
  }

  /** Only the in-order concatenation of the inputs matters: any regrouping into updates gives the same digest. */
  lemma {:induction false} HashvDependsOnlyOnStream(keccak: Keccak256, a: seq<seq<Byte>>, b: seq<seq<Byte>>)
    ensures Hashv(keccak, a + b) == Hashv(keccak, [Concat(a) + Concat(b)])
  {
    ConcatAppend(a, b);
    ConcatSingle(Concat(a) + Concat(b));
  }

  /** Splitting one input into two successive updates does not change the digest. */
  lemma {:induction false} HashvSplitUpdate(keccak: Keccak256, before: seq<seq<Byte>>, x: seq<Byte>, y: seq<Byte>, after: seq<seq<Byte>>)
    ensures Hashv(keccak, before + [x + y] + after) == Hashv(keccak, before + [x, y] + after)
  {
    ConcatAppend(before + [x + y], after);
    ConcatAppend(before, [x + y]);
    ConcatSingle(x + y);
    ConcatAppend(before + [x, y], after);
    ConcatAppend(before, [x, y]);
    assert [x, y] == [x] + [y];
    ConcatAppend([x], [y]);
    ConcatSingle(x);
    ConcatSingle(y);
  }

  /** The stream hashed for an address seed: program id, then address tree, then the caller's seeds. */
  function AddressPreimage(seeds: seq<seq<Byte>>, programId: Pubkey, addressMerkleTree: Pubkey): seq<Byte>
  {
    programId + addressMerkleTree + Concat(seeds)
  }

  /** What `deriveAddressSeed(seeds, programId, addressMerkleTree)` returns. */
  function AddressSeed(keccak: Keccak256, seeds: seq<seq<Byte>>, programId: Pubkey, addressMerkleTree: Pubkey): (r: Bytes32)
    ensures r == ToFieldSize(keccak(AddressPreimage(seeds, programId, addressMerkleTree)))
  {
    ConcatAppend([programId, addressMerkleTree], seeds);
    assert [programId, addressMerkleTree] == [programId] + [addressMerkleTree];
    ConcatAppend([programId], [addressMerkleTree]);
    ConcatSingle(programId);
    ConcatSingle(addressMerkleTree);
    Hashv(keccak, [programId, addressMerkleTree] + seeds)
  }

  method DeriveAddressSeed(keccak: Keccak256, seeds: seq<seq<Byte>>, programId: Pubkey, addressMerkleTree: Pubkey)
    returns (hash: Bytes32)
    ensures hash == ToFieldSize(keccak(AddressPreimage(seeds, programId, addressMerkleTree)))
    ensures hash == AddressSeed(keccak, seeds, programId, addressMerkleTree)
  {
    var inputs := [programId, addressMerkleTree] + seeds;
    hash := HashvToBn254FieldSizeBe(keccak, inputs);
    assert hash == AddressSeed(keccak, seeds, programId, addressMerkleTree);
  }

  /**
   * The prefix binds the seed to its program and tree: two derivations that
   * differ in program id or address tree hash different streams, whatever the
   * seeds, so they can only agree through a Keccak-256 collision.
   */
  lemma AddressPreimageBindsProgramAndTree(
    seeds: seq<seq<Byte>>, programId: Pubkey, addressMerkleTree: Pubkey,
    seeds': seq<seq<Byte>>, programId': Pubkey, addressMerkleTree': Pubkey)
    requires programId != programId' || addressMerkleTree != addressMerkleTree'
    ensures AddressPreimage(seeds, programId, addressMerkleTree) != AddressPreimage(seeds', programId', addressMerkleTree')
  {
    var m := AddressPreimage(seeds, programId, addressMerkleTree);
    var m' := AddressPreimage(seeds', programId', addressMerkleTree');
    assert m[..32] == programId && m[32..64] == addressMerkleTree;
    assert m'[..32] == programId' && m'[32..64] == addressMerkleTree';
  }
}
