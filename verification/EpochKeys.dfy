/**
 The epoch keys of the archive (`archive/epoch_keys.rs`).

 Key derivation and key wrapping (AES-KW, RFC 3394) are functions of which only `Lawful` is
 assumed.
 */
module EpochKeys {
  import opened Common

  datatype KeySuite = KeySuite(
    root: Bytes -> Bytes,
    derive: (Bytes, nat) -> Bytes,
    wrap: (Bytes, Bytes) -> Bytes,
    unwrap: (Bytes, Bytes) -> Option<Bytes>)

  /** Unwrapping undoes wrapping. */
  ghost predicate Lawful(suite: KeySuite) {
    forall r, k :: suite.unwrap(r, suite.wrap(r, k)) == Some(k)
  }

  datatype WrappedKey = WrappedKey(epoch: nat, wrapped: Bytes)

  datatype Keys = Keys(root: Bytes, current: nat, prior: seq<WrappedKey>)

  // ---------------------------------------------------------------------------
  // The clock
  // ---------------------------------------------------------------------------

  const DAY: nat := 24 * 3600

  function CurrentEpochId(now: nat): nat {
    now / (365 * DAY) * 12 + now % (365 * DAY) / (30 * DAY)
  }

  /** The epoch of day `day` of year `year`: months have thirty days, and there are up to thirteen of them. */
  lemma EpochOfDay(year: nat, day: nat, second: nat)
    requires day < 365 && second < DAY
    ensures CurrentEpochId(year * (365 * DAY) + day * DAY + second) == year * 12 + day / 30
  {
    var now := year * (365 * DAY) + day * DAY + second;
    assert now / (365 * DAY) == year;
    assert now % (365 * DAY) == day * DAY + second;
  }

  /**
   So the last five days of a year share their epoch with the first thirty of the next, and no
   other two months do.
   */
  lemma EpochsShared(year: nat, day: nat, second: nat, year': nat, day': nat, second': nat)
    requires day < 365 && second < DAY && day' < 365 && second' < DAY
    ensures CurrentEpochId(year * (365 * DAY) + day * DAY + second) ==
            CurrentEpochId(year' * (365 * DAY) + day' * DAY + second') <==>
              || (year == year' && day / 30 == day' / 30)
              || (year' == year + 1 && day >= 360 && day' < 30)
              || (year == year' + 1 && day' >= 360 && day < 30)
  {
    EpochOfDay(year, day, second);
    EpochOfDay(year', day', second');
  }

  /** The epoch never goes back. */
  lemma EpochIsMonotone(now: nat, later: nat)
    requires now <= later
    ensures CurrentEpochId(now) <= CurrentEpochId(later)
  {
    var a, b := now / (365 * DAY), later / (365 * DAY);
    assert a <= b;
    if a == b {
      assert now % (365 * DAY) <= later % (365 * DAY);
    }
  }

  // ---------------------------------------------------------------------------
  // Operations
  // ---------------------------------------------------------------------------

  function NewKeys(suite: KeySuite, wrappingKey: Bytes, now: nat): Keys {
    Keys(suite.root(wrappingKey), CurrentEpochId(now), [])
  }

  /** The first entry of the epoch. */
  function Lookup(suite: KeySuite, root: Bytes, prior: seq<WrappedKey>, epoch: nat): Option<Bytes> {
    if prior == [] then None
    else if prior[0].epoch == epoch then suite.unwrap(root, prior[0].wrapped)
    else Lookup(suite, root, prior[1..], epoch)
  }

  function EpochKey(suite: KeySuite, keys: Keys, epoch: nat): Option<Bytes> {
    if epoch == keys.current then Some(suite.derive(keys.root, epoch)) else Lookup(suite, keys.root, keys.prior, epoch)
  }

  function Wrapped(suite: KeySuite, root: Bytes, epoch: nat): WrappedKey {
    WrappedKey(epoch, suite.wrap(root, suite.derive(root, epoch)))
  }

  function Rotated(suite: KeySuite, keys: Keys): Keys {
    keys.(prior := keys.prior + [Wrapped(suite, keys.root, keys.current)], current := keys.current + 1)
  }

  function Pruned(keys: Keys, keep: nat): Keys {
    var n := if keep == 0 then 1 else keep;
    if |keys.prior| > n then keys.(prior := keys.prior[|keys.prior| - n..]) else keys
  }

  class EpochKeyManager {
    const suite: KeySuite
    const root: Bytes
    var current: nat
    var prior: seq<WrappedKey>

    function State(): Keys
      reads this
    {
      Keys(root, current, prior)
    }

    constructor (suite: KeySuite, wrappingKey: Bytes, now: nat)
      ensures this.suite == suite && State() == NewKeys(suite, wrappingKey, now)
    {
      this.suite := suite;
      root := suite.root(wrappingKey);
      current, prior := CurrentEpochId(now), [];
    }

    method CurrentEpochKey() returns (key: Bytes)
      ensures EpochKey(suite, State(), current) == Some(key)
    {
      key := suite.derive(root, current);
    }

    method GetEpochKey(epoch: nat) returns (key: Option<Bytes>)
      ensures key == EpochKey(suite, State(), epoch)
    {
      if epoch == current {
        return Some(suite.derive(root, epoch));
      }
      assert prior[0..] == prior;
      for i := 0 to |prior|
        invariant Lookup(suite, root, prior, epoch) == Lookup(suite, root, prior[i..], epoch)
      {
        if prior[i].epoch == epoch {
          return suite.unwrap(root, prior[i].wrapped);
        }
        assert prior[i..][1..] == prior[i + 1..];
      }
      return None;
    }

    method Rotate()
      modifies this
      ensures State() == Rotated(suite, old(State()))
    {
      var old_key := CurrentEpochKey();
      var wrapped := suite.wrap(root, old_key);
      prior := prior + [WrappedKey(current, wrapped)];
      current := current + 1;
    }

    method PruneOldEpochs(keep: nat)
      modifies this
      ensures State() == Pruned(old(State()), keep)
    {
      var n := if keep == 0 then 1 else keep;
      if |prior| > n {
        prior := prior[|prior| - n..];
      }
    }
  }

  // ---------------------------------------------------------------------------
  // The stored keys
  // ---------------------------------------------------------------------------

  /** The stored keys are those of the epochs just below the current one, in order. */
  ghost predicate Contiguous(suite: KeySuite, keys: Keys) {
    && |keys.prior| <= keys.current
    && forall i :: 0 <= i < |keys.prior| ==> keys.prior[i] == Wrapped(suite, keys.root, keys.current - |keys.prior| + i)
  }

  lemma RotateKeepsContiguous(suite: KeySuite, keys: Keys)
    requires Contiguous(suite, keys)
    ensures Contiguous(suite, Rotated(suite, keys))
  {
  }

  /** Pruning removes the oldest keys and no other: what is left is the last `max(1, keep)`. */
  lemma PruneKeepsNewest(suite: KeySuite, keys: Keys, keep: nat)
    requires Contiguous(suite, keys)
    ensures Contiguous(suite, Pruned(keys, keep)) && Pruned(keys, keep).current == keys.current
    ensures var n := if keep == 0 then 1 else keep;
            |Pruned(keys, keep).prior| == if |keys.prior| > n then n else |keys.prior|
  {
  }

  lemma {:induction false} LookupIn(suite: KeySuite, root: Bytes, prior: seq<WrappedKey>, first: nat, epoch: nat)
    requires Lawful(suite)
    requires forall i :: 0 <= i < |prior| ==> prior[i] == Wrapped(suite, root, first + i)
    ensures Lookup(suite, root, prior, epoch) ==
            if first <= epoch < first + |prior| then Some(suite.derive(root, epoch)) else None
    decreases |prior|
  {
    if prior != [] && prior[0].epoch != epoch {
      assert prior[0] == Wrapped(suite, root, first + 0);
      forall i | 0 <= i < |prior| - 1
        ensures prior[1..][i] == Wrapped(suite, root, first + 1 + i)
      {
        assert prior[i + 1] == Wrapped(suite, root, first + (i + 1));
      }
      LookupIn(suite, root, prior[1..], first + 1, epoch);
    } else if prior != [] {
      assert prior[0] == Wrapped(suite, root, first + 0);
    }
  }

  /**
   An epoch has a key exactly when it is the current one or its key is stored; and it is the
   key the epoch was given.
   */
  lemma KeyOfEpoch(suite: KeySuite, keys: Keys, epoch: nat)
    requires Lawful(suite) && Contiguous(suite, keys)
    ensures EpochKey(suite, keys, epoch) ==
            if keys.current - |keys.prior| <= epoch <= keys.current then Some(suite.derive(keys.root, epoch)) else None
  {
    LookupIn(suite, keys.root, keys.prior, keys.current - |keys.prior|, epoch);
  }
}
