/**
 * The Index Registry behind `remainingAccounts`: the library's
 * `getIndexOrAdd(accounts, key)`, which returns the position of `key` in a
 * JavaScript array of public keys and pushes it first when it is absent.
 * `tests/helpers/compression.ts` calls it for its side effect on the array.
 */
module AccountRegistry {
  import opened Bytes

  predicate NoDuplicates(s: seq<Pubkey>)
  {
    forall i, j :: 0 <= i < j < |s| ==> s[i] != s[j]
  }

  /** The position of the first occurrence of `key`. */
  function FirstIndex(s: seq<Pubkey>, key: Pubkey): (i: nat)
    requires key in s
    ensures i < |s| && s[i] == key
    ensures forall j :: 0 <= j < i ==> s[j] != key
  {
    if s[0] == key then 0 else 1 + FirstIndex(s[1..], key)
  }

  /** The registry after a lookup, and the index the lookup returned. */
  datatype Registration = Registration(accounts: seq<Pubkey>, index: nat)

  /** Find-or-append: the specification of `getIndexOrAdd`. */
  function IndexOrAdd(s: seq<Pubkey>, key: Pubkey): (r: Registration)
    ensures r.index < |r.accounts| && r.accounts[r.index] == key
    ensures key in s ==> r.accounts == s && r.index == FirstIndex(s, key)
    ensures key !in s ==> r.accounts == s + [key] && r.index == |s|
  {
    if key in s then Registration(s, FirstIndex(s, key)) else Registration(s + [key], |s|)
  }

  /** Array.prototype.findIndex with key equality: -1 when absent. */
  method FindIndex(s: seq<Pubkey>, key: Pubkey) returns (i: int)
    ensures key in s ==> i == FirstIndex(s, key)
    ensures key !in s ==> i == -1
  {
    i := 0;
    while i < |s|
      invariant 0 <= i <= |s|
      invariant forall j :: 0 <= j < i ==> s[j] != key
    {
      if s[i] == key {
        return;
      }
      i := i + 1;
    }
    i := -1;
  }

  /** The JavaScript array `remainingAccounts`, grown in place by lookups. */
  class Registry {
    var accounts: seq<Pubkey>

    ghost predicate Valid()
      reads this
    {
      NoDuplicates(accounts)
    }

    constructor (initial: seq<Pubkey>)
      ensures accounts == initial
      ensures NoDuplicates(initial) ==> Valid()
    {
      accounts := initial;
    }

    method GetIndexOrAdd(key: Pubkey) returns (index: nat)
      modifies this
      ensures Registration(accounts, index) == IndexOrAdd(old(accounts), key)
      ensures old(accounts) <= accounts && index < |accounts| && accounts[index] == key
      ensures old(Valid()) ==> Valid()
    {
      var i := FindIndex(accounts, key);
      if i == -1 {
        accounts := accounts + [key];
        index := |accounts| - 1;
      } else {
        index := i;
      }
      IndexOrAddExtends(old(accounts), key);
      if old(Valid()) {
        IndexOrAddKeepsNoDuplicates(old(accounts), key);
      }
    }
  }

  /** Appends happen only at the end: every earlier index still names the same key. */
  lemma IndexOrAddExtends(s: seq<Pubkey>, key: Pubkey)
    ensures s <= IndexOrAdd(s, key).accounts
    ensures |IndexOrAdd(s, key).accounts| <= |s| + 1
    ensures forall i :: 0 <= i < |s| ==> IndexOrAdd(s, key).accounts[i] == s[i]
  {
  }

  lemma IndexOrAddKeepsNoDuplicates(s: seq<Pubkey>, key: Pubkey)
    requires NoDuplicates(s)
    ensures NoDuplicates(IndexOrAdd(s, key).accounts)
  {
  }

  /** In a duplicate-free registry the returned index is the only position holding the key. */
  lemma IndexOrAddUnique(s: seq<Pubkey>, key: Pubkey, j: nat)
    requires NoDuplicates(s)
    requires j < |IndexOrAdd(s, key).accounts| && IndexOrAdd(s, key).accounts[j] == key
    ensures j == IndexOrAdd(s, key).index
  {
  }

  /** Looking the same key up twice returns the same index and changes nothing more. */
  lemma IndexOrAddIdempotent(s: seq<Pubkey>, key: Pubkey)
    ensures IndexOrAdd(IndexOrAdd(s, key).accounts, key) == IndexOrAdd(s, key)
  {
    var r := IndexOrAdd(s, key);
    if key !in s {
      assert forall j :: 0 <= j < |s| ==> r.accounts[j] != key;
      assert FirstIndex(r.accounts, key) == |s|;
    }
  }

  /** The registry after looking up `keys` in order. */
  function RegisterAll(s: seq<Pubkey>, keys: seq<Pubkey>): seq<Pubkey>
    decreases keys
  {
    if keys == [] then s else RegisterAll(IndexOrAdd(s, keys[0]).accounts, keys[1..])
  }

  /**
   * Indices handed out earlier keep their meaning: after any later lookups the
   * earlier index still names the same key, and looking that key up again
   * returns it.
   */
  lemma {:induction false} EarlierIndexSurvives(s: seq<Pubkey>, key: Pubkey, later: seq<Pubkey>)
    requires NoDuplicates(s)
    ensures var r := IndexOrAdd(s, key);
            var final := RegisterAll(r.accounts, later);
            && r.accounts <= final
            && NoDuplicates(final)
            && final[r.index] == key
            && IndexOrAdd(final, key) == Registration(final, r.index)
  {
    var r := IndexOrAdd(s, key);
    IndexOrAddKeepsNoDuplicates(s, key);
    RegisterAllExtends(r.accounts, later);
    var final := RegisterAll(r.accounts, later);
    assert final[r.index] == key;
    IndexOrAddUnique(final, key, r.index);
  }

  lemma {:induction false} RegisterAllExtends(s: seq<Pubkey>, keys: seq<Pubkey>)
    requires NoDuplicates(s)
    ensures s <= RegisterAll(s, keys)
    ensures NoDuplicates(RegisterAll(s, keys))
    ensures forall k :: k in RegisterAll(s, keys) <==> k in s || k in keys
    decreases keys
  {
    if keys != [] {
      var next := IndexOrAdd(s, keys[0]).accounts;
      IndexOrAddKeepsNoDuplicates(s, keys[0]);
      RegisterAllExtends(next, keys[1..]);
      assert forall k :: k in keys <==> k == keys[0] || k in keys[1..];
    }
  }
}
