/**
 * The on-chain program `zk_counter` (programs/zk-counter/src/lib.rs): four
 * instructions over a compressed counter account, guarded by the owner
 * constraint of the accounts structs.
 *
 * `CounterAccount` is the light account a handler receives, whose fields the
 * handler assigns in place; `Created`, `Incremented` and `OwnerCheck` state
 * the same transitions on values, and `Execute` places them in a ledger of
 * counter accounts keyed by address seed, where account creation and closing
 * happen.
 */
module ZkCounter {
  import opened Wrappers
  import opened Bytes
  import opened FieldHash
  import opened CounterLayout

  /** `CustomError::Unauthorized`, and the panic of `counter += 1` on a `u64` at its maximum. */
  datatype CounterError = Unauthorized | ArithmeticOverflow

  /** `b"counter"` */
  const COUNTER_SEED: seq<Byte> := [99, 111, 117, 110, 116, 101, 114]

  /** `PDA_DUMMY_SEED`, `b"ds"` */
  const PDA_DUMMY_SEED: seq<Byte> := [100, 115]

  /** The constraint `counter.owner == signer.key() @ CustomError::Unauthorized`. */
  function OwnerCheck(a: CounterCompressedAccount, signer: Pubkey): (r: Outcome<CounterError>)
    ensures r.Pass? <==> a.owner == signer
    ensures r.Fail? ==> r.error == Unauthorized
  {
    if a.owner == signer then Pass else Fail(Unauthorized)
  }

  /** The account `create` writes: owned by the signer, counting from zero, so only its creator may increment it. */
  function Created(signer: Pubkey): (a: CounterCompressedAccount)
    ensures a.owner == signer && a.counter == 0
    ensures forall other: Pubkey :: Incremented(a, other) == if other == signer then Ok(CounterCompressedAccount(signer, 1)) else Err(Unauthorized)
  {
    CounterCompressedAccount(signer, 0)
  }

  /** The owner check, then `counter += 1`. */
  function Incremented(a: CounterCompressedAccount, signer: Pubkey): (r: Result<CounterCompressedAccount, CounterError>)
    ensures a.owner != signer ==> r == Err(Unauthorized)
    ensures a.owner == signer && a.counter == U64_MAX ==> r == Err(ArithmeticOverflow)
    ensures r.Ok? <==> a.owner == signer && a.counter < U64_MAX
    ensures r.Ok? ==> r.value.owner == a.owner && r.value.counter == a.counter + 1
  {
    match OwnerCheck(a, signer)
    case Fail(e) => Err(e)
    case Pass =>
      if a.counter == U64_MAX then Err(ArithmeticOverflow)
      else Ok(a.(counter := a.counter + 1))
  }

  /** `DummyStruct`, the account `init_and_increment` initialises. */
  class DummyAccount {
    var subscriptionId: seq<Byte>

    /** `#[derive(Default)]` */
    constructor ()
      ensures subscriptionId == []
    {
      subscriptionId := [];
    }
  }

  /** `LightAccount<CounterCompressedAccount>` as a handler sees it. */
  class CounterAccount {
    var owner: Pubkey
    var counter: U64

    function Value(): CounterCompressedAccount
      reads this
    {
      CounterCompressedAccount(owner, counter)
    }

    /** `#[derive(Default)]`: an `init` account before its handler runs. */
    constructor ()
      ensures Value() == CounterCompressedAccount(ZERO_KEY, 0)
    {
      owner, counter := ZERO_KEY, 0;
    }

    /** `create`: the signer becomes the owner and the count starts at zero. */
    method Create(signer: Pubkey)
      modifies this
      ensures Value() == Created(signer)
      ensures owner == signer && counter == 0
    {
      owner := signer;
      counter := 0;
    }

    /** `increment`: only the owner may add one; a failed instruction changes nothing. */
    method Increment(signer: Pubkey) returns (r: Outcome<CounterError>)
      modifies this
      ensures r.Pass? <==> old(owner) == signer && old(counter) < U64_MAX
      ensures old(owner) != signer ==> r == Fail(Unauthorized)
      ensures r.Pass? ==> owner == old(owner) && counter == old(counter) + 1
      ensures r.Fail? ==> Value() == old(Value())
      ensures r.Pass? ==> Incremented(old(Value()), signer) == Ok(Value())
      ensures r.Fail? ==> Incremented(old(Value()), signer) == Err(r.error)
    {
      r := OwnerCheck(Value(), signer);
      if r.Fail? {
        return;
      }
      if counter == U64_MAX {
        return Fail(ArithmeticOverflow);
      }
      counter := counter + 1;
    }

    /**
     * `init_and_increment`: records `subscriptionId` in the new dummy account
     * and adds one to the counter. An overflow panic aborts the transaction,
     * so the dummy write does not persist in that case either.
     */
    method InitAndIncrement(signer: Pubkey, dummy: DummyAccount, subscriptionId: seq<Byte>) returns (r: Outcome<CounterError>)
      modifies this, dummy
      ensures r.Pass? <==> old(owner) == signer && old(counter) < U64_MAX
      ensures old(owner) != signer ==> r == Fail(Unauthorized)
      ensures r.Pass? ==> owner == old(owner) && counter == old(counter) + 1 && dummy.subscriptionId == subscriptionId
      ensures r.Fail? ==> Value() == old(Value()) && dummy.subscriptionId == old(dummy.subscriptionId)
      ensures r.Pass? ==> Incremented(old(Value()), signer) == Ok(Value())
      ensures r.Fail? ==> Incremented(old(Value()), signer) == Err(r.error)
    {
      r := OwnerCheck(Value(), signer);
      if r.Fail? {
        return;
      }
      if counter == U64_MAX {
        return Fail(ArithmeticOverflow);
      }
      dummy.subscriptionId := subscriptionId;
      counter := counter + 1;
    }

    /** `delete`: the handler body does nothing; the owner check decides whether the account is closed. */
    method Delete(signer: Pubkey) returns (r: Outcome<CounterError>)
      ensures r.Pass? <==> owner == signer
      ensures r.Fail? ==> r == Fail(Unauthorized)
    {
      r := OwnerCheck(Value(), signer);
    }
  }

  datatype Instruction = Create | Increment | InitAndIncrement(subscriptionId: seq<Byte>) | Delete

  /** The `seeds` each accounts struct declares for its `counter` light account; all four declare the client's seeds. */
  function InstructionCounterSeeds(ix: Instruction, signer: Pubkey): (seeds: seq<seq<Byte>>)
    ensures seeds == ClientCounterSeeds(signer)
  {
    match ix
    case Create => [COUNTER_SEED, signer]
    case Increment => [COUNTER_SEED, signer]
    case InitAndIncrement(_) => [COUNTER_SEED, signer]
    case Delete => [COUNTER_SEED, signer]
  }

  /** The seeds the client derives the counter address from: `"counter"` and the payer's key. */
  function ClientCounterSeeds(payer: Pubkey): seq<seq<Byte>>
  {
    [COUNTER_SEED, payer]
  }

  /** The seeds of the dummy account `init_and_increment` creates; their byte stream never equals a counter's. */
  function DummySeeds(dummyAccount: Pubkey, subscriptionId: seq<Byte>): (seeds: seq<seq<Byte>>)
    ensures |Concat(seeds)| >= 2 && Concat(seeds)[..2] == PDA_DUMMY_SEED
    ensures forall signer: Pubkey :: Concat(seeds) != Concat(ClientCounterSeeds(signer))
  {
    var seeds := [PDA_DUMMY_SEED, dummyAccount, subscriptionId];
    assert Concat(seeds) == PDA_DUMMY_SEED + Concat(seeds[1..]);
    assert forall signer: Pubkey :: Concat(ClientCounterSeeds(signer))[0] == COUNTER_SEED[0];
    seeds
  }

  /**
   * Restates the seed declarations at the level of addresses: every
   * instruction resolves the counter at the address the client derives for
   * the same signer.
   */
  lemma InstructionsShareCounterAddress(keccak: Keccak256, programId: Pubkey, addressTree: Pubkey, ix: Instruction, signer: Pubkey)
    ensures AddressSeed(keccak, InstructionCounterSeeds(ix, signer), programId, addressTree)
         == AddressSeed(keccak, ClientCounterSeeds(signer), programId, addressTree)
  {
  }

  /** A dummy account and a counter never hash the same stream: their first seeds differ in the first byte. */
  lemma DummyAndCounterPreimagesDiffer(programId: Pubkey, addressTree: Pubkey, dummyAccount: Pubkey, subscriptionId: seq<Byte>, signer: Pubkey)
    ensures AddressPreimage(DummySeeds(dummyAccount, subscriptionId), programId, addressTree)
         != AddressPreimage(ClientCounterSeeds(signer), programId, addressTree)
  {
    var dummy := AddressPreimage(DummySeeds(dummyAccount, subscriptionId), programId, addressTree);
    var counter := AddressPreimage(ClientCounterSeeds(signer), programId, addressTree);
    assert dummy[64] == PDA_DUMMY_SEED[0];
    assert counter[64] == COUNTER_SEED[0];
  }

  /** The Keccak-256 function, program id and address tree an address is derived with. */
  datatype Config = Config(keccak: Keccak256, programId: Pubkey, addressTree: Pubkey)

  function CounterAddress(cfg: Config, signer: Pubkey): Bytes32
  {
    AddressSeed(cfg.keccak, ClientCounterSeeds(signer), cfg.programId, cfg.addressTree)
  }

  /** Counter accounts that currently exist, by address seed. */
  type Ledger = map<Bytes32, CounterCompressedAccount>

  /**
   * Failures of an instruction: the program's own errors, and the two the
   * light system program raises when the address proof does not hold.
   */
  datatype LedgerError = ProgramError(error: CounterError) | AddressAlreadyExists | AccountNotFound

  /**
   * One instruction signed by `signer`, at the counter address derived from
   * the signer: `create` needs a new address (`init`), the other three an
   * existing counter the signer owns (`mut`/`close` with the owner
   * constraint), and `delete` closes it. On failure the ledger is left as it
   * was.
   */
  function Execute(cfg: Config, ledger: Ledger, signer: Pubkey, ix: Instruction): (r: Result<Ledger, LedgerError>)
    ensures var address := CounterAddress(cfg, signer);
            && (r == Err(AddressAlreadyExists) <==> ix.Create? && address in ledger)
            && (r == Err(AccountNotFound) <==> !ix.Create? && address !in ledger)
            && (r == Err(ProgramError(Unauthorized)) <==> !ix.Create? && address in ledger && ledger[address].owner != signer)
            && (r == Err(ProgramError(ArithmeticOverflow)) <==>
                  (ix.Increment? || ix.InitAndIncrement?) && address in ledger
                  && ledger[address].owner == signer && ledger[address].counter == U64_MAX)
            && (r.Ok? <==>
                  if ix.Create? then address !in ledger
                  else address in ledger && ledger[address].owner == signer && (ix.Delete? || ledger[address].counter < U64_MAX))
            && (r.Ok? && !ix.Create? ==> address in ledger && ledger[address].owner == signer)
            && (r.Ok? ==> forall a :: a in ledger && a != address ==> a in r.value && r.value[a] == ledger[a])
            && (r.Ok? ==> forall a :: a in r.value && a != address ==> a in ledger)
            && (r.Ok? && ix.Create? ==> address in r.value && r.value[address] == Created(signer))
            && (r.Ok? && (ix.Increment? || ix.InitAndIncrement?) ==>
                  address in r.value && r.value[address].owner == signer
                  && r.value[address].counter == ledger[address].counter + 1)
            && (r.Ok? && ix.Delete? ==> r.value == ledger - {address})
  {
    var address := AddressSeed(cfg.keccak, InstructionCounterSeeds(ix, signer), cfg.programId, cfg.addressTree);
    match ix
    case Create =>
      if address in ledger then Err(AddressAlreadyExists) else Ok(ledger[address := Created(signer)])
    case Delete =>
      if address !in ledger then Err(AccountNotFound)
      else if OwnerCheck(ledger[address], signer).Fail? then Err(ProgramError(Unauthorized))
      else Ok(ledger - {address})
    case _ =>
      if address !in ledger then Err(AccountNotFound)
      else match Incremented(ledger[address], signer)
        case Err(e) => Err(ProgramError(e))
        case Ok(a) => Ok(ledger[address := a])
  }

  /** Every counter sits at the address derived from its own owner. */
  ghost predicate OwnersMatchAddresses(cfg: Config, ledger: Ledger)
  {
    forall a :: a in ledger ==> CounterAddress(cfg, ledger[a].owner) == a
  }

  lemma ExecutePreservesOwnersMatchAddresses(cfg: Config, ledger: Ledger, signer: Pubkey, ix: Instruction)
    requires OwnersMatchAddresses(cfg, ledger)
    ensures Execute(cfg, ledger, signer, ix).Ok? ==> OwnersMatchAddresses(cfg, Execute(cfg, ledger, signer, ix).value)
  {
    InstructionsShareCounterAddress(cfg.keccak, cfg.programId, cfg.addressTree, ix, signer);
  }

  /**
   * Since the address is derived from the signer, `Unauthorized` can only be
   * raised when another key derives the same counter address.
   */
  lemma UnauthorizedNeedsAddressCollision(cfg: Config, ledger: Ledger, signer: Pubkey, ix: Instruction)
    requires OwnersMatchAddresses(cfg, ledger)
    requires Execute(cfg, ledger, signer, ix) == Err(ProgramError(Unauthorized))
    ensures exists other :: other != signer && CounterAddress(cfg, other) == CounterAddress(cfg, signer)
  {
    InstructionsShareCounterAddress(cfg.keccak, cfg.programId, cfg.addressTree, ix, signer);
    var address := CounterAddress(cfg, signer);
    assert address in ledger;
    var other := ledger[address].owner;
    assert other != signer && CounterAddress(cfg, other) == address;
  }

  /** A successful instruction leaves every counter owned by someone else exactly as it was. */
  lemma ExecuteSparesOthersCounters(cfg: Config, ledger: Ledger, signer: Pubkey, ix: Instruction, a: Bytes32)
    requires a in ledger && ledger[a].owner != signer
    requires Execute(cfg, ledger, signer, ix).Ok?
    ensures a in Execute(cfg, ledger, signer, ix).value
    ensures Execute(cfg, ledger, signer, ix).value[a] == ledger[a]
  {
  }

  /** The client's scenario: create, read back `{signer, 0}`, increment, read back `{signer, 1}`. */
  lemma CreateThenIncrementDecodes(cfg: Config, signer: Pubkey)
    ensures var address := CounterAddress(cfg, signer);
            var created := Execute(cfg, map[], signer, Create);
            && created.Ok? && address in created.value
            && Decode(Encode(created.value[address])) == Ok(CounterCompressedAccount(signer, 0))
            && var incremented := Execute(cfg, created.value, signer, Increment);
               && incremented.Ok? && address in incremented.value
               && Decode(Encode(incremented.value[address])) == Ok(CounterCompressedAccount(signer, 1))
  {
    var address := CounterAddress(cfg, signer);
    InstructionsShareCounterAddress(cfg.keccak, cfg.programId, cfg.addressTree, Create, signer);
    InstructionsShareCounterAddress(cfg.keccak, cfg.programId, cfg.addressTree, Increment, signer);
    DecodeEncode(CounterCompressedAccount(signer, 0));
    DecodeEncode(CounterCompressedAccount(signer, 1));
  }

  /** Closing: a successful `delete` removes exactly the signer's counter. */
  lemma DeleteClosesSignersCounter(cfg: Config, ledger: Ledger, signer: Pubkey)
    requires Execute(cfg, ledger, signer, Delete).Ok?
    ensures var address := CounterAddress(cfg, signer);
            && address in ledger && ledger[address].owner == signer
            && Execute(cfg, ledger, signer, Delete).value == ledger - {address}
  {
    InstructionsShareCounterAddress(cfg.keccak, cfg.programId, cfg.addressTree, Delete, signer);
  }
}
