/**
 * Turning account references into integer indices for an instruction:
 * `getNewAddressParams`, `packWithInput` and `packNew` in
 * tests/helpers/compression.ts, with the types they exchange with the Light
 * Protocol client library.
 *
 * The library packers `packCompressedAccounts` and `packNewAddressParams` are
 * not part of this model. They enter as parameters of the types
 * `AccountPacker` and `AddressPacker`, whose constraints are the only
 * behaviour assumed of them: each returns a duplicate-free account list, and
 * the address packer returns an extension of the list it is given.
 */
module Packing {
  import opened Wrappers
  import opened Bytes
  import opened AccountRegistry

  datatype QueueIndex = QueueIndex(queueId: nat, index: nat)

  datatype MerkleContext = MerkleContext(
    merkleTree: Pubkey, nullifierQueue: Pubkey, leafIndex: nat, queueIndex: Option<QueueIndex>)

  datatype CompressedAccount = CompressedAccount(
    owner: Pubkey, lamports: nat, address: Option<Bytes32>, data: seq<Byte>)

  datatype CompressedAccountWithMerkleContext = WithMerkleContext(
    account: CompressedAccount, merkleContext: MerkleContext)

  /** A MerkleContext whose tree and queue are positions in `remainingAccounts`. */
  datatype PackedMerkleContext = PackedMerkleContext(
    merkleTreePubkeyIndex: nat, nullifierQueuePubkeyIndex: nat, leafIndex: nat, queueIndex: Option<QueueIndex>)

  datatype PackedCompressedAccountWithMerkleContext = PackedWithMerkleContext(
    account: CompressedAccount, merkleContext: PackedMerkleContext, rootIndex: nat)

  datatype NewAddressParams = NewAddressParams(
    seed: Bytes32, addressMerkleTreeRootIndex: nat, addressMerkleTreePubkey: Pubkey, addressQueuePubkey: Pubkey)

  datatype NewAddressParamsPacked = NewAddressParamsPacked(
    seed: Bytes32, addressMerkleTreeRootIndex: nat, addressMerkleTreeAccountIndex: nat, addressQueueAccountIndex: nat)

  /** The proof oracle's answer: proof bytes and three position-aligned arrays. */
  datatype CompressedProofWithContext = CompressedProofWithContext(
    compressedProof: seq<Byte>, rootIndices: seq<nat>, merkleTrees: seq<Pubkey>, nullifierQueues: seq<Pubkey>)

  datatype AccountMeta = AccountMeta(pubkey: Pubkey, isSigner: bool, isWritable: bool)

  datatype AddressMerkleContext = AddressMerkleContext(addressMerkleTreePubkeyIndex: nat, addressQueuePubkeyIndex: nat)

  /** Reading element 0 of an empty list: a TypeError in the client. */
  datatype PackError = MissingProofData

  /** What `packCompressedAccounts` returns. */
  datatype PackedAccounts = PackedAccounts(
    packedInputCompressedAccounts: seq<PackedCompressedAccountWithMerkleContext>, remainingAccounts: seq<Pubkey>)

  /** What `packNewAddressParams` returns. */
  datatype PackedAddresses = PackedAddresses(
    newAddressParamsPacked: seq<NewAddressParamsPacked>, remainingAccounts: seq<Pubkey>)

  /** `packCompressedAccounts(inputs, rootIndices, outputs)`: its account list is duplicate-free. */
  type AccountPacker = f: (seq<CompressedAccountWithMerkleContext>, seq<nat>, seq<CompressedAccount>) -> PackedAccounts
    | forall inputs, roots, outputs :: NoDuplicates(f(inputs, roots, outputs).remainingAccounts)
    witness (inputs: seq<CompressedAccountWithMerkleContext>, roots: seq<nat>, outputs: seq<CompressedAccount>) => PackedAccounts([], [])

  /** `packNewAddressParams(params, remainingAccounts)`: extends a duplicate-free list to a duplicate-free list. */
  type AddressPacker = f: (seq<NewAddressParams>, seq<Pubkey>) -> PackedAddresses
    | forall params, accounts :: NoDuplicates(accounts) ==>
        accounts <= f(params, accounts).remainingAccounts && NoDuplicates(f(params, accounts).remainingAccounts)
    witness (params: seq<NewAddressParams>, accounts: seq<Pubkey>) => PackedAddresses([], accounts)

  function Last<T>(s: seq<T>): T
    requires s != []
  {
    s[|s| - 1]
  }

  /**
   * Pairs an address seed with the last slot of the proof's three arrays,
   * which the oracle reserves for the address being proved new.
   */
  function GetNewAddressParams(addressSeed: Bytes32, proof: CompressedProofWithContext): (r: Result<NewAddressParams, PackError>)
    ensures r.Ok? <==> proof.rootIndices != [] && proof.merkleTrees != [] && proof.nullifierQueues != []
    ensures r.Ok? ==> r.value.seed == addressSeed
    ensures r.Ok? ==> r.value.addressMerkleTreeRootIndex == proof.rootIndices[|proof.rootIndices| - 1]
    ensures r.Ok? ==> r.value.addressMerkleTreePubkey == proof.merkleTrees[|proof.merkleTrees| - 1]
    ensures r.Ok? ==> r.value.addressQueuePubkey == proof.nullifierQueues[|proof.nullifierQueues| - 1]
  {
    if proof.rootIndices == [] || proof.merkleTrees == [] || proof.nullifierQueues == [] then
      Err(MissingProofData)
    else
      Ok(NewAddressParams(addressSeed, Last(proof.rootIndices), Last(proof.merkleTrees), Last(proof.nullifierQueues)))
  }

  /** The oracle's answer with the address slot appended after the account slots. */
  function AppendSlot(proof: CompressedProofWithContext, rootIndex: nat, tree: Pubkey, queue: Pubkey): CompressedProofWithContext
  {
    proof.(rootIndices := proof.rootIndices + [rootIndex],
           merkleTrees := proof.merkleTrees + [tree],
           nullifierQueues := proof.nullifierQueues + [queue])
  }

  /**
   * Restates the oracle's slot convention: when the address slot is appended
   * after the account slots, taking the last slot selects it.
   */
  lemma AddressSlotIsLast(addressSeed: Bytes32, accountPart: CompressedProofWithContext, rootIndex: nat, tree: Pubkey, queue: Pubkey)
    ensures GetNewAddressParams(addressSeed, AppendSlot(accountPart, rootIndex, tree, queue))
         == Ok(NewAddressParams(addressSeed, rootIndex, tree, queue))
  {
  }

  /** The account metas attached to the instruction, one per registry entry, in registry order. */
  function ToAccountMetas(accounts: seq<Pubkey>): (metas: seq<AccountMeta>)
    ensures |metas| == |accounts|
    ensures forall i :: 0 <= i < |metas| ==> metas[i] == AccountMeta(accounts[i], false, true)
  {
    if accounts == [] then [] else [AccountMeta(accounts[0], false, true)] + ToAccountMetas(accounts[1..])
  }

  datatype PackedWithInput = PackedWithInput(
    addressMerkleContext: AddressMerkleContext,
    addressMerkleTreeRootIndex: nat,
    merkleContext: PackedMerkleContext,
    remainingAccounts: seq<Pubkey>)

  /**
   * Packs one existing input account and one new address: the first packed
   * input's context, the first packed address entry, and the registry as the
   * address packer left it.
   */
  function PackWithInput(
    packAccounts: AccountPacker, packAddresses: AddressPacker,
    inputCompressedAccounts: seq<CompressedAccountWithMerkleContext>,
    outputCompressedAccounts: seq<CompressedAccount>,
    newAddressesParams: seq<NewAddressParams>,
    proof: CompressedProofWithContext): (r: Result<PackedWithInput, PackError>)
    ensures var accounts := packAccounts(inputCompressedAccounts, proof.rootIndices, outputCompressedAccounts);
            var addresses := packAddresses(newAddressesParams, accounts.remainingAccounts);
            && (r.Ok? <==> accounts.packedInputCompressedAccounts != [] && addresses.newAddressParamsPacked != [])
            && (r.Ok? ==>
                  var first := addresses.newAddressParamsPacked[0];
                  && r.value.merkleContext == accounts.packedInputCompressedAccounts[0].merkleContext
                  && r.value.addressMerkleContext == AddressMerkleContext(first.addressMerkleTreeAccountIndex, first.addressQueueAccountIndex)
                  && r.value.addressMerkleTreeRootIndex == first.addressMerkleTreeRootIndex
                  && r.value.remainingAccounts == addresses.remainingAccounts)
    ensures r.Ok? ==>
            var accounts := packAccounts(inputCompressedAccounts, proof.rootIndices, outputCompressedAccounts).remainingAccounts;
            var tree := r.value.merkleContext.merkleTreePubkeyIndex;
            var queue := r.value.merkleContext.nullifierQueuePubkeyIndex;
            && NoDuplicates(r.value.remainingAccounts)
            && accounts <= r.value.remainingAccounts
            && (tree < |accounts| ==> r.value.remainingAccounts[tree] == accounts[tree])
            && (queue < |accounts| ==> r.value.remainingAccounts[queue] == accounts[queue])
  {
    var accounts := packAccounts(inputCompressedAccounts, proof.rootIndices, outputCompressedAccounts);
    var addresses := packAddresses(newAddressesParams, accounts.remainingAccounts);
    if addresses.newAddressParamsPacked == [] || accounts.packedInputCompressedAccounts == [] then
      Err(MissingProofData)
    else
      var first := addresses.newAddressParamsPacked[0];
      Ok(PackedWithInput(
        AddressMerkleContext(first.addressMerkleTreeAccountIndex, first.addressQueueAccountIndex),
        first.addressMerkleTreeRootIndex,
        accounts.packedInputCompressedAccounts[0].merkleContext,
        addresses.remainingAccounts))
  }

  datatype PackedNew = PackedNew(
    addressMerkleContext: AddressMerkleContext,
    addressMerkleTreeRootIndex: nat,
    merkleContext: PackedMerkleContext,
    remainingAccounts: seq<AccountMeta>)

  /** The registry as `packNewAddressParams` hands it to `packNew`. */
  function NewAddressStage(
    packAccounts: AccountPacker, packAddresses: AddressPacker,
    outputCompressedAccounts: seq<CompressedAccount>,
    newAddressesParams: seq<NewAddressParams>,
    proof: CompressedProofWithContext): (r: PackedAddresses)
    ensures NoDuplicates(r.remainingAccounts)
  {
    var accounts := packAccounts([], proof.rootIndices, outputCompressedAccounts);
    packAddresses(newAddressesParams, accounts.remainingAccounts)
  }

  function Pubkeys(metas: seq<AccountMeta>): (keys: seq<Pubkey>)
    ensures |keys| == |metas|
    ensures forall i :: 0 <= i < |keys| ==> keys[i] == metas[i].pubkey
  {
    if metas == [] then [] else [metas[0].pubkey] + Pubkeys(metas[1..])
  }

  /**
   * Packs a creation with no input account: registers the default state tree
   * and nullifier queue (`merkleTree`, `nullifierQueue`) after the packers'
   * entries, builds a synthetic context at leaf 0, and turns the registry into
   * account metas.
   */
  method PackNew(
    packAccounts: AccountPacker, packAddresses: AddressPacker,
    merkleTree: Pubkey, nullifierQueue: Pubkey,
    outputCompressedAccounts: seq<CompressedAccount>,
    newAddressesParams: seq<NewAddressParams>,
    proof: CompressedProofWithContext) returns (r: Result<PackedNew, PackError>)
    ensures var stage := NewAddressStage(packAccounts, packAddresses, outputCompressedAccounts, newAddressesParams, proof);
            var tree := IndexOrAdd(stage.remainingAccounts, merkleTree);
            var queue := IndexOrAdd(tree.accounts, nullifierQueue);
            && (r.Ok? <==> stage.newAddressParamsPacked != [])
            && (r.Ok? ==>
                  var first := stage.newAddressParamsPacked[0];
                  && r.value.merkleContext == PackedMerkleContext(tree.index, queue.index, 0, None)
                  && r.value.addressMerkleContext == AddressMerkleContext(first.addressMerkleTreeAccountIndex, first.addressQueueAccountIndex)
                  && r.value.addressMerkleTreeRootIndex == first.addressMerkleTreeRootIndex
                  && r.value.remainingAccounts == ToAccountMetas(queue.accounts))
    ensures r.Ok? ==>
            var stage := NewAddressStage(packAccounts, packAddresses, outputCompressedAccounts, newAddressesParams, proof).remainingAccounts;
            var accounts := Pubkeys(r.value.remainingAccounts);
            var context := r.value.merkleContext;
            var address := r.value.addressMerkleContext;
            && NoDuplicates(accounts)
            && stage <= accounts && |accounts| <= |stage| + 2
            && (forall m :: m in r.value.remainingAccounts ==> !m.isSigner && m.isWritable)
            && context.leafIndex == 0 && context.queueIndex == None
            && context.merkleTreePubkeyIndex < |accounts| && accounts[context.merkleTreePubkeyIndex] == merkleTree
            && context.nullifierQueuePubkeyIndex < |accounts| && accounts[context.nullifierQueuePubkeyIndex] == nullifierQueue
            && (address.addressMerkleTreePubkeyIndex < |stage| ==>
                  accounts[address.addressMerkleTreePubkeyIndex] == stage[address.addressMerkleTreePubkeyIndex])
            && (address.addressQueuePubkeyIndex < |stage| ==>
                  accounts[address.addressQueuePubkeyIndex] == stage[address.addressQueuePubkeyIndex])
  {
    var accounts := packAccounts([], proof.rootIndices, outputCompressedAccounts);
    var addresses := packAddresses(newAddressesParams, accounts.remainingAccounts);
    var remainingAccounts := new Registry(addresses.remainingAccounts);
    var treeIndex := remainingAccounts.GetIndexOrAdd(merkleTree);
    var queueIndex := remainingAccounts.GetIndexOrAdd(nullifierQueue);
    assert remainingAccounts.Valid();
    var merkleContext := PackedMerkleContext(treeIndex, queueIndex, 0, None);
    if addresses.newAddressParamsPacked == [] {
      return Err(MissingProofData);
    }
    var first := addresses.newAddressParamsPacked[0];
    var metas := ToAccountMetas(remainingAccounts.accounts);
    r := Ok(PackedNew(
      AddressMerkleContext(first.addressMerkleTreeAccountIndex, first.addressQueueAccountIndex),
      first.addressMerkleTreeRootIndex,
      merkleContext,
      metas));
    DefaultTreesBookkeeping(addresses.remainingAccounts, merkleTree, nullifierQueue);
    MetasFollowRegistry(remainingAccounts.accounts);
  }


  /**
   * Registering the default tree and then the default queue after the packers'
   * entries: both end up named by their indices, at most two entries are
   * appended, and every earlier index keeps naming the same account.
   */
  lemma DefaultTreesBookkeeping(stage: seq<Pubkey>, merkleTree: Pubkey, nullifierQueue: Pubkey)
    requires NoDuplicates(stage)
    ensures var tree := IndexOrAdd(stage, merkleTree);
            var queue := IndexOrAdd(tree.accounts, nullifierQueue);
            && NoDuplicates(queue.accounts)
            && stage <= queue.accounts && |queue.accounts| <= |stage| + 2
            && tree.index < |queue.accounts| && queue.accounts[tree.index] == merkleTree
            && queue.accounts[queue.index] == nullifierQueue
            && (forall i :: 0 <= i < |stage| ==> queue.accounts[i] == stage[i])
  {
    var tree := IndexOrAdd(stage, merkleTree);
    IndexOrAddKeepsNoDuplicates(stage, merkleTree);
    IndexOrAddKeepsNoDuplicates(tree.accounts, nullifierQueue);
    IndexOrAddExtends(stage, merkleTree);
    IndexOrAddExtends(tree.accounts, nullifierQueue);
  }

  /** The emitted metas list the registry in order, none a signer, all writable. */
  lemma MetasFollowRegistry(accounts: seq<Pubkey>)
    ensures Pubkeys(ToAccountMetas(accounts)) == accounts
    ensures forall m :: m in ToAccountMetas(accounts) ==> !m.isSigner && m.isWritable
  {
    var metas := ToAccountMetas(accounts);
    assert forall i :: 0 <= i < |accounts| ==> Pubkeys(metas)[i] == accounts[i];
  }
}
