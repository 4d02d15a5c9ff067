/**
 * `CounterCompressedAccount` (programs/zk-counter/src/lib.rs) and its Borsh
 * layout: the 32 owner bytes, then the counter as an unsigned 64-bit integer
 * in little-endian order (Borsh specification, Integers section). This is the
 * layout the client decodes with the schema `{owner: [u8; 32], counter: u64}`.
 */
module CounterLayout {
  import opened Wrappers
  import opened Bytes

  const U64_MAX: nat := 0xFFFF_FFFF_FFFF_FFFF

  type U64 = n: int | 0 <= n <= U64_MAX

  /** The account data: who may change it, and the count. */
  datatype CounterCompressedAccount = CounterCompressedAccount(owner: Pubkey, counter: U64)

  /** Serialized size: 32 bytes of owner and 8 bytes of counter. */
  const ENCODED_SIZE: nat := 40

  function Pow256(k: nat): (r: nat)
    ensures r > 0
  {
    if k == 0 then 1 else 256 * Pow256(k - 1)
  }

  /** `n` written as `width` bytes, least significant first. */
  function LittleEndian(n: nat, width: nat): (r: seq<Byte>)
    requires n < Pow256(width)
    ensures |r| == width
  {
    if width == 0 then [] else [n % 256] + LittleEndian(n / 256, width - 1)
  }

  /** The number whose little-endian bytes are `b`. */
  function FromLittleEndian(b: seq<Byte>): (n: nat)
    ensures n < Pow256(|b|)
  {
    if b == [] then 0 else b[0] + 256 * FromLittleEndian(b[1..])
  }

  lemma {:induction false} LittleEndianRoundTrip(n: nat, width: nat)
    requires n < Pow256(width)
    ensures FromLittleEndian(LittleEndian(n, width)) == n
  {
    if width > 0 {
      var r := LittleEndian(n, width);
      assert r[0] == n % 256 && r[1..] == LittleEndian(n / 256, width - 1);
      LittleEndianRoundTrip(n / 256, width - 1);
    }
  }

  lemma {:induction false} FromLittleEndianRoundTrip(b: seq<Byte>)
    ensures LittleEndian(FromLittleEndian(b), |b|) == b
  {
    if b != [] {
      var n := FromLittleEndian(b);
      assert n % 256 == b[0] && n / 256 == FromLittleEndian(b[1..]);
      FromLittleEndianRoundTrip(b[1..]);
    }
  }

  function Encode(a: CounterCompressedAccount): (r: seq<Byte>)
    ensures |r| == ENCODED_SIZE
    ensures r[..32] == a.owner
  {
    a.owner + LittleEndian(a.counter, 8)
  }

  datatype DecodeError = UnexpectedEndOfBuffer

  /** Reads the owner and the counter from the front of `b`; bytes after the first 40 are not read. */
  function Decode(b: seq<Byte>): (r: Result<CounterCompressedAccount, DecodeError>)
    ensures r.Ok? <==> |b| >= ENCODED_SIZE
    ensures r.Ok? ==> r.value.owner == b[..32]
  {
    if |b| < ENCODED_SIZE then Err(UnexpectedEndOfBuffer)
    else
      var counter := FromLittleEndian(b[32..40]);
      assert Pow256(8) == U64_MAX + 1;
      Ok(CounterCompressedAccount(b[..32], counter))
  }

  lemma DecodeEncode(a: CounterCompressedAccount)
    ensures Decode(Encode(a)) == Ok(a)
  {
    assert Pow256(8) == U64_MAX + 1;
    var e := Encode(a);
    assert e[32..40] == LittleEndian(a.counter, 8);
    LittleEndianRoundTrip(a.counter, 8);
  }

  /** Re-encoding what was decoded reproduces exactly the bytes that were read. */
  lemma EncodeDecode(b: seq<Byte>)
    requires |b| >= ENCODED_SIZE
    ensures Decode(b).Ok? && Encode(Decode(b).value) == b[..ENCODED_SIZE]
  {
    FromLittleEndianRoundTrip(b[32..40]);
    assert b[..ENCODED_SIZE] == b[..32] + b[32..40];
  }

  /** The two extreme counter values both survive the round trip. */
  lemma CounterExtremesRoundTrip(owner: Pubkey)
    ensures Decode(Encode(CounterCompressedAccount(owner, 0))) == Ok(CounterCompressedAccount(owner, 0))
    ensures Decode(Encode(CounterCompressedAccount(owner, U64_MAX))) == Ok(CounterCompressedAccount(owner, U64_MAX))
  {
    DecodeEncode(CounterCompressedAccount(owner, 0));
    DecodeEncode(CounterCompressedAccount(owner, U64_MAX));
  }
}
