# zk-counter: address derivation, account packing and the counter program

This project models two pieces of a Solana program built on Light Protocol's
compressed accounts, where account state lives as leaves of Merkle trees and
each instruction carries a validity proof.

* **Client-side packing** (`tests/helpers/compression.ts`).
  * `hashvToBn254FieldSizeBe` feeds byte strings into Keccak-256 and clears byte 0.
  * `deriveAddressSeed` puts the program id and the address tree in front of the seeds.
  * `getNewAddressParams` takes the last slot of the proof's three parallel arrays.
  * `packWithInput` and `packNew` turn account references into indices into
    `remainingAccounts`. That list is append-only and duplicate-free, and
    `getIndexOrAdd` grows it in place.
* **The on-chain counter** (`programs/zk-counter/src/lib.rs`).
  * The account `{owner, counter: u64}` and its Borsh layout.
  * The handlers `create`, `increment`, `init_and_increment` and `delete`.
  * The owner constraint that fails with `Unauthorized`.

Modules:

* `Bytes`: bytes, 32-byte keys and byte-string concatenation.
* `FieldHash`: the field-size hash and address seeds. Keccak-256 is a
  parameter of type `seq<Byte> -> Bytes32`.
* `AccountRegistry`: `getIndexOrAdd`.
  * The `Registry` class holds the JavaScript array as a `seq` field, and its
    method grows that field in place.
  * `IndexOrAdd` is the find-or-append specification of that method.
* `Packing`: the packing functions.
  * The library packers `packCompressedAccounts` and `packNewAddressParams`
    are parameters of the subset types `AccountPacker` and `AddressPacker`.
  * The constraint of each type is all that is assumed of that packer: it
    returns a duplicate-free account list, and the address packer returns an
    extension of the list it receives.
* `CounterLayout`: the account value and its 40-byte encoding.
* `ZkCounter`: the handlers and a ledger of counters.
  * The class `CounterAccount` models the light account, whose fields the
    handlers assign in place.
  * `Execute` runs the same transitions over a ledger of counter accounts
    keyed by address seed. Creating and closing accounts happens there.

Things the model shows:

* Every index handed out earlier still names the same account after later
  appends (`EarlierIndexSurvives`).
* `packNew` emits its account metas in registry order.
* `packNew`'s synthetic Merkle context points at the default tree and queue.
* Every instruction resolves the counter at the address the client derived
  for the same signer.
* The counter address is derived from the signer, and `create` makes the
  signer the owner. So `Unauthorized` can only occur when two keys derive
  the same address seed (`UnauthorizedNeedsAddressCollision`). The owner
  constraint is a second line of defence behind the seeds.

Where the model departs from the code, or needs a word of explanation:

* **An empty proof array or packed list.** The model fails with
  `Err(MissingProofData)` in all three cases below.
  * `getNewAddressParams` does not fail in the client. On an empty
    `rootIndices`, `merkleTrees` or `nullifierQueues` it reads `array[-1]`
    (compression.ts:126-128), which is `undefined`, and returns a params
    object holding `undefined`. The model's error here is a deliberate
    departure from the code; it is listed under "## Left out".
  * `packNew` and `packWithInput` throw a `TypeError` when they read element
    0 of an empty packed list (compression.ts:65, 67, 104). The model's error
    stands for that exception.
* **The accounts `packNew` registers.** Besides whatever the two library
  packers registered, `packNew` also registers the default state tree and
  nullifier queue (compression.ts:96-97). So the emitted list holds more than
  the address tree and address queue.

## Model

| member | source | states |
|---|---|---|
| `FieldHash.ToFieldSize` | tests/helpers/compression.ts:24 | byte 0 of the result is 0 and bytes 1..31 are the digest's |
| `FieldHash.HashvToBn254FieldSizeBe` | tests/helpers/compression.ts:18-26 | the loop of updates and the in-place clear give a 32-byte value that is Keccak-256 of the concatenated inputs with byte 0 set to 0 |
| `FieldHash.HashvDependsOnlyOnStream` | tests/helpers/compression.ts:19-23 | the digest of `a + b` equals the digest of the single input `concat(a) + concat(b)`: only the byte stream matters |
| `FieldHash.HashvSplitUpdate` | tests/helpers/compression.ts:20-22 | splitting one input into two successive updates leaves the digest unchanged |
| `FieldHash.Hashv` | tests/helpers/compression.ts:18-26 | the value the hasher returns: byte 0 is 0 and bytes 1..31 are Keccak-256 of the concatenated inputs |
| `FieldHash.AddressSeed` | tests/helpers/compression.ts:33-39 | the address seed is the field-size hash of program id, then address tree, then the seeds in caller order |
| `FieldHash.DeriveAddressSeed` | tests/helpers/compression.ts:28-41 | the returned seed is the field-size Keccak-256 of `programId + addressTree + concat(seeds)` |
| `FieldHash.AddressPreimageBindsProgramAndTree` | tests/helpers/compression.ts:33-37 | derivations that differ in program id or address tree hash different streams, whatever their seeds |
| `AccountRegistry.FindIndex` | tests/helpers/compression.ts:96-97 | returns the first position of the key, or -1 exactly when the key is absent |
| `AccountRegistry.IndexOrAdd` | tests/helpers/compression.ts:96-97 | a present key keeps the registry and returns its existing index; an absent key is appended and gets the old length; the index always names the key |
| `AccountRegistry.Registry.GetIndexOrAdd` | tests/helpers/compression.ts:96-97 | the in-place lookup leaves exactly the registry and index `IndexOrAdd` gives, only extends the array, and keeps it duplicate-free |
| `AccountRegistry.IndexOrAddExtends` | tests/helpers/compression.ts:96-97 | the old registry is a prefix of the new one, at most one entry longer, so every earlier index names the same account |
| `AccountRegistry.IndexOrAddKeepsNoDuplicates` | tests/helpers/compression.ts:96-97 | a duplicate-free registry stays duplicate-free |
| `AccountRegistry.IndexOrAddUnique` | tests/helpers/compression.ts:96-97 | in a duplicate-free registry the returned index is the only position holding the key |
| `AccountRegistry.IndexOrAddIdempotent` | tests/helpers/compression.ts:96-97 | a second lookup of the same key returns the same index and changes nothing |
| `AccountRegistry.RegisterAllExtends` | tests/helpers/compression.ts:96-97 | any sequence of lookups extends the registry, keeps it duplicate-free, and leaves it holding exactly the old entries and the looked-up keys |
| `AccountRegistry.EarlierIndexSurvives` | tests/helpers/compression.ts:90-104 | after any later lookups, an index handed out earlier still names its key and looking that key up again returns it |
| `Packing.GetNewAddressParams` | tests/helpers/compression.ts:120-131 | copies the seed unchanged and takes the root index, tree and queue each from the last element of its own array; the model fails when one of the arrays is empty, where the client returns `undefined` fields |
| `Packing.AddressSlotIsLast` | tests/helpers/compression.ts:124-129 | when the address slot is appended after any account slots, that slot is the one selected |
| `Packing.ToAccountMetas` | tests/helpers/compression.ts:112-116 | one meta per registry entry, in registry order, not a signer and writable |
| `Packing.PackWithInput` | tests/helpers/compression.ts:43-77 | succeeds exactly when both packed lists are non-empty; returns the first input's packed context, the first address entry's indices and root index, and the raw duplicate-free registry; indices into the account packer's list keep their meaning |
| `Packing.NewAddressStage` | tests/helpers/compression.ts:85-93 | the registry handed from the address packer to the later lookups is duplicate-free |
| `Packing.DefaultTreesBookkeeping` | tests/helpers/compression.ts:94-99 | after registering the default tree and queue, both indices name them, at most two entries are appended, and earlier indices keep their accounts |
| `Packing.MetasFollowRegistry` | tests/helpers/compression.ts:112-116 | the emitted metas list exactly the registry in order, none a signer, all writable |
| `Packing.PackNew` | tests/helpers/compression.ts:79-118 | fails exactly when no address entry was packed; the merkle context has leaf 0, no queue index, and points at the default tree and queue in the final registry; address indices and root index come from the first packed entry and still name the same accounts; metas follow the duplicate-free final registry |
| `CounterLayout.LittleEndianRoundTrip` | programs/zk-counter/src/lib.rs:52 | reading back the little-endian bytes of `n` gives `n` |
| `CounterLayout.FromLittleEndianRoundTrip` | programs/zk-counter/src/lib.rs:52 | writing back a value read from bytes reproduces those bytes |
| `CounterLayout.Encode` | programs/zk-counter/src/lib.rs:47-53 | the encoding is 40 bytes and starts with the 32 owner bytes |
| `CounterLayout.Decode` | tests/zkns.ts:143-149 | decoding succeeds exactly when at least 40 bytes are present, and the owner is the first 32 |
| `CounterLayout.DecodeEncode` | programs/zk-counter/src/lib.rs:49-53 | decoding an encoded account gives back the same owner and counter, for every counter in `[0, 2^64)` |
| `CounterLayout.EncodeDecode` | tests/zkns.ts:143-149 | re-encoding a decoded account reproduces the 40 bytes that were read |
| `CounterLayout.CounterExtremesRoundTrip` | tests/zkns.ts:143-150 | counters 0 and `2^64 - 1` both survive the round trip |
| `ZkCounter.OwnerCheck` | programs/zk-counter/src/lib.rs:86-90 | passes exactly when the stored owner is the signer, and otherwise fails with `Unauthorized` |
| `ZkCounter.Created` | programs/zk-counter/src/lib.rs:16-21 | the created account is owned by the signer with counter 0, and only that signer can increment it, to 1 |
| `ZkCounter.Incremented` | programs/zk-counter/src/lib.rs:23-27 | fails with `Unauthorized` for a non-owner and with an overflow at `2^64 - 1`; otherwise the owner is kept and the counter rises by exactly 1 |
| `ZkCounter.DummyAccount.constructor` | programs/zk-counter/src/lib.rs:142-146 | a default dummy account has an empty subscription id |
| `ZkCounter.CounterAccount.constructor` | programs/zk-counter/src/lib.rs:47-53 | a default counter account has the zero key as owner and counter 0 |
| `ZkCounter.CounterAccount.Create` | programs/zk-counter/src/lib.rs:16-21 | owner becomes the signer and counter becomes 0 |
| `ZkCounter.CounterAccount.Increment` | programs/zk-counter/src/lib.rs:23-27 | succeeds exactly for the owner below the maximum; then the counter rises by 1 and the owner is kept; on failure nothing changes |
| `ZkCounter.CounterAccount.InitAndIncrement` | programs/zk-counter/src/lib.rs:29-40 | on success the dummy holds the given subscription id and the counter rises by 1; a non-owner gets `Unauthorized`; on failure nothing changes |
| `ZkCounter.CounterAccount.Delete` | programs/zk-counter/src/lib.rs:42-44 | changes nothing and passes exactly when the signer owns the account |
| `ZkCounter.InstructionCounterSeeds` | programs/zk-counter/src/lib.rs:71-136 | each accounts struct's counter seeds are `["counter", signer]`, the seeds the client uses |
| `ZkCounter.DummySeeds` | programs/zk-counter/src/lib.rs:116-119 | the dummy account's seed stream starts with `"ds"` and never equals a counter's seed stream |
| `ZkCounter.InstructionsShareCounterAddress` | programs/zk-counter/src/lib.rs:71-136 | every instruction's counter seeds give the address seed the client derives for the same signer |
| `ZkCounter.DummyAndCounterPreimagesDiffer` | programs/zk-counter/src/lib.rs:116-119 | a dummy account and a counter are never derived from the same byte stream |
| `ZkCounter.Execute` | programs/zk-counter/src/lib.rs:16-138 | at the signer's counter address: `create` (`init`) fails exactly when the address exists and writes `{signer, 0}`; the others fail with `AccountNotFound` exactly when it is absent and with `Unauthorized` exactly when another key owns it (`mut`/`close` with the owner constraint); an owner's increment fails with `ArithmeticOverflow` exactly at `2^64 - 1`; the instruction succeeds exactly when none of these applies; increments raise the counter by 1; `delete` (`close`) removes exactly that account; no other address changes |
| `ZkCounter.ExecutePreservesOwnersMatchAddresses` | programs/zk-counter/src/lib.rs:61-73 | every instruction keeps each counter at the address derived from its own owner |
| `ZkCounter.UnauthorizedNeedsAddressCollision` | programs/zk-counter/src/lib.rs:86-90 | `Unauthorized` is only raised when another key derives the same counter address |
| `ZkCounter.ExecuteSparesOthersCounters` | programs/zk-counter/src/lib.rs:109-113 | a successful instruction leaves every counter owned by someone else unchanged |
| `ZkCounter.CreateThenIncrementDecodes` | tests/zkns.ts:149-153 | after create the stored bytes decode to `{signer, 0}`, and after increment to `{signer, 1}` |
| `ZkCounter.DeleteClosesSignersCounter` | programs/zk-counter/src/lib.rs:134-139 | a successful delete removes exactly the signer's counter, which the signer owned |

## Left out

- Keccak-256 internals: a foreign primitive. It is a function parameter returning 32 bytes, and nothing else is assumed about it.
- `packCompressedAccounts`, `packNewAddressParams` and `deriveAddress` from the client library are not part of this model. The packers are parameters constrained only to return duplicate-free lists, with the address packer extending its input. Which output trees they register is not modelled.
- Packing.PackWithInput: does not relate the packed merkle context to the input account's tree and queue. That correspondence is made inside `packCompressedAccounts`, which is not part of this model.
- `defaultTestStateTreeAccounts()` is configuration. Its `merkleTree` and `nullifierQueue` are parameters of `PackNew`.
- Network and transaction I/O: `buildSignAndSendTransaction`, `getValidityProof` and `getCompressedAccountsByOwner`.
- Test orchestration in tests/zkns.ts and the type-level mapping in tests/helpers/types.ts, which has no runtime behaviour.
- The `light_program`, `light_accounts` and `light_account` macro expansion and `#[truncate]` hashing, which happen inside `light_sdk`. Proof verification is external as well. In `Execute`, the light system program's refusals appear only as the errors `AddressAlreadyExists` and `AccountNotFound`.
- The ledger is keyed by address seed. The final address is a further library hash of the seed and the tree (`deriveAddress`), which is not modelled.
- ZkCounter.Execute: does not track the dummy accounts that `init_and_increment` creates. Their handler write is modelled by `CounterAccount.InitAndIncrement`.
- `msg!("hello")` in `init_and_increment` is logging only.
- The overflow of `counter += 1` is modelled as the error `ArithmeticOverflow` with no state change. This assumes overflow checks are enabled in the build profile, which is not part of this model.
- `String` values (`subscription_id`) are modelled as their UTF-8 bytes.
- Packing.GetNewAddressParams: on an empty `rootIndices`, `merkleTrees` or `nullifierQueues` the client reads index -1 and returns `undefined` fields without failing; the model fails with `MissingProofData` there instead, since a value of the modelled types cannot hold `undefined`.
- CounterLayout.Decode: bytes after the first 40 are ignored rather than rejected, as the client decoder reads only what the schema names.
