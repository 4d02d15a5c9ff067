/** Raw bytes, 32-byte keys and digests, and byte-string concatenation. */
module Bytes {

  /** One unsigned byte, like a `Uint8Array` element or a Rust `u8`. */
  type Byte = b: int | 0 <= b < 256

  /** A 32-byte string: a Keccak-256 digest or a public key. */
  type Bytes32 = s: seq<Byte> | |s| == 32 witness seq(32, _ => 0)

  /** A public key (`PublicKey.toBytes()` / Rust `Pubkey`): 32 raw bytes. */
  type Pubkey = Bytes32

  /** The key whose bytes are all zero, `Pubkey::default()`. */
  const ZERO_KEY: Pubkey := seq(32, _ => 0)

  /** The byte stream obtained by writing `parts` one after another. */
  function Concat(parts: seq<seq<Byte>>): (r: seq<Byte>)
  {
    if parts == [] then [] else parts[0] + Concat(parts[1..])
  }

  lemma {:induction false} ConcatAppend(a: seq<seq<Byte>>, b: seq<seq<Byte>>)
    ensures Concat(a + b) == Concat(a) + Concat(b)
  {
    if a == [] {
      assert a + b == b;
    } else {
      assert (a + b)[1..] == a[1..] + b;
      ConcatAppend(a[1..], b);
    }
  }

  lemma ConcatSingle(x: seq<Byte>)
    ensures Concat([x]) == x
  {
    assert [x][1..] == [];
  }
}
