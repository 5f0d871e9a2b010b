/** The libraries the programs call: Reed-Solomon coding and MD5, and what is assumed of them. */
module Erasure {
  import opened Basics
  import opened Batches
  import opened Wire

  /**
    `encode(m, shards)` gives the `m` parity shards of a batch, none if the encoder fails.
    `decode(k, m, originals, recovery)` gives the missing originals by index, or `None` for any error of the
    decoder. `lossyUtf8` and `utf8` convert paths.
    `safePath` is `is_safe_rel_path`. `udpForwarding` says whether a UDP target port was given.
   */
  datatype Libraries = Libraries(
    md5: Bytes -> Field,
    encode: (nat, seq<Bytes>) -> seq<Bytes>,
    decode: (nat, nat, map<nat, Bytes>, map<nat, Bytes>) -> Option<map<nat, Bytes>>,
    lossyUtf8: Bytes -> string,
    utf8: string -> Bytes,
    safePath: string -> bool,
    udpForwarding: bool)

  /** A chunk padded with zeros to a shard, as both sides do before coding. */
  function Pad(data: Bytes): (shard: Bytes)
    ensures |data| <= SHARD_SIZE ==> |shard| == SHARD_SIZE && data <= shard
  {
    var kept := data[..Min(|data|, SHARD_SIZE)];
    kept + Zeros(SHARD_SIZE - |kept|)
  }

  ghost predicate AreShards(shards: seq<Bytes>) {
    forall i :: 0 <= i < |shards| ==> |shards[i]| == SHARD_SIZE
  }

  /** The map holds some of the shards, each under its own index. */
  ghost predicate SomeOf(held: map<nat, Bytes>, shards: seq<Bytes>) {
    forall i :: i in held ==> i < |shards| && held[i] == shards[i]
  }

  ghost function Missing(held: map<nat, Bytes>, shards: seq<Bytes>): map<nat, Bytes> {
    map i: nat | 0 <= i < |shards| && i !in held :: shards[i]
  }

  /** Any `k` of the `k + m` shards give back all `k` originals. */
  ghost predicate Recovers(
    encode: (nat, seq<Bytes>) -> seq<Bytes>,
    decode: (nat, nat, map<nat, Bytes>, map<nat, Bytes>) -> Option<map<nat, Bytes>>,
    k: nat, m: nat)
  {
    forall shards: seq<Bytes> {:trigger encode(m, shards)} | |shards| == k && AreShards(shards) ::
      var parity := encode(m, shards);
      && |parity| == m && AreShards(parity)
      && forall originals, recovery {:trigger decode(k, m, originals, recovery)}
           | SomeOf(originals, shards) && SomeOf(recovery, parity) && |originals| + |recovery| >= k ::
           decode(k, m, originals, recovery) == Some(Missing(originals, shards))
  }

  /** The assumption about `reed_solomon_simd` for every batch size the programs use. */
  ghost predicate Reliable(libs: Libraries) {
    forall k: nat {:trigger Recovers(libs.encode, libs.decode, k, BATCH_PARITY_CHUNKS)}
      | 1 <= k <= BATCH_DATA_CHUNKS :: Recovers(libs.encode, libs.decode, k, BATCH_PARITY_CHUNKS)
  }

  // ---- The assumption can be met ----

  function AddBytes(a: Byte, b: Byte): Byte {
    ((a as int + b as int) % 256) as Byte
  }

  function SubBytes(a: Byte, b: Byte): Byte {
    ((a as int - b as int) % 256) as Byte
  }

  /** Byte `j` of the sum of the shards held under indices below `k`. */
  function SumAt(held: map<nat, Bytes>, k: nat, j: nat): Byte
    requires forall i :: i in held ==> j < |held[i]|
  {
    if k == 0 then 0
    else if k - 1 in held then AddBytes(SumAt(held, k - 1, j), held[k - 1][j])
    else SumAt(held, k - 1, j)
  }

  function ToMap(shards: seq<Bytes>): map<nat, Bytes> {
    map i: nat | 0 <= i < |shards| :: shards[i]
  }

  predicate AllShards(held: map<nat, Bytes>) {
    forall i | i in held :: |held[i]| == SHARD_SIZE
  }

  function SumShard(held: map<nat, Bytes>, k: nat): (shard: Bytes)
    requires AllShards(held)
    ensures |shard| == SHARD_SIZE && forall j :: 0 <= j < SHARD_SIZE ==> shard[j] == SumAt(held, k, j)
  {
    seq(SHARD_SIZE, j requires 0 <= j < SHARD_SIZE => SumAt(held, k, j))
  }

  function SubShards(a: Bytes, b: Bytes): (shard: Bytes)
    requires |a| == |b|
    ensures |shard| == |a| && forall j :: 0 <= j < |a| ==> shard[j] == SubBytes(a[j], b[j])
  {
    seq(|a|, j requires 0 <= j < |a| => SubBytes(a[j], b[j]))
  }

  /** A code with one parity shard: the bytewise sum of the originals. */
  function SumEncode(m: nat, shards: seq<Bytes>): seq<Bytes> {
    if AllShards(ToMap(shards)) then [SumShard(ToMap(shards), |shards|)] else []
  }

  /** The least index below `k` that is not held, or `k`. */
  function FirstLost(held: map<nat, Bytes>, k: nat): (i: nat)
    ensures i <= k && (i < k ==> i !in held) && forall j :: 0 <= j < i ==> j in held
  {
    if k == 0 then 0 else
      var i := FirstLost(held, k - 1);
      if i < k - 1 then i else if k - 1 in held then k else k - 1
  }

  /** The one missing original is the parity shard less the originals that arrived. */
  function SumDecode(k: nat, m: nat, originals: map<nat, Bytes>, recovery: map<nat, Bytes>)
    : Option<map<nat, Bytes>>
  {
    var lost := FirstLost(originals, k);
    if lost == k then Some(map[])
    else if |originals| + 1 == k && 0 in recovery && |recovery[0]| == SHARD_SIZE && AllShards(originals) then
      Some(map[lost := SubShards(recovery[0], SumShard(originals, k))])
    else None
  }

  /** Leaving one shard out of a sum subtracts exactly its byte. */
  lemma {:induction false} SumWithout(all: map<nat, Bytes>, some: map<nat, Bytes>, lost: nat, k: nat, j: nat)
    requires forall i :: i in all ==> j < |all[i]|
    requires lost in all && some == all - {lost}
    ensures SumAt(all, k, j) == if lost < k then AddBytes(SumAt(some, k, j), all[lost][j]) else SumAt(some, k, j)
  {
    if k > 0 {
      SumWithout(all, some, lost, k - 1, j);
      if lost < k - 1 && k - 1 in all {
        AddSwap(SumAt(some, k - 1, j), all[lost][j], all[k - 1][j]);
      }
    }
  }

  lemma AddSwap(a: Byte, b: Byte, c: Byte)
    ensures AddBytes(AddBytes(a, b), c) == AddBytes(AddBytes(a, c), b)
  {
  }

  lemma SubUndoesAdd(a: Byte, b: Byte)
    ensures SubBytes(AddBytes(a, b), a) == b
  {
  }

  lemma SolvesForLost(shards: seq<Bytes>, lost: nat)
    requires AreShards(shards) && lost < |shards|
    ensures var all := ToMap(shards);
            SubShards(SumShard(all, |shards|), SumShard(all - {lost}, |shards|)) == shards[lost]
  {
    var all := ToMap(shards);
    var some := all - {lost};
    forall j | 0 <= j < SHARD_SIZE
      ensures SubBytes(SumAt(all, |shards|, j), SumAt(some, |shards|, j)) == shards[lost][j]
    {
      SumWithout(all, some, lost, |shards|, j);
      SubUndoesAdd(SumAt(some, |shards|, j), shards[lost][j]);
    }
  }

  /** If all but one of the indices below `k` are held, the one is what is lost. */
  lemma OnlyOneLost(held: map<nat, Bytes>, lost: nat, k: nat)
    requires forall i :: i in held ==> i < k
    requires lost < k && lost !in held && |held| + 1 == k
    ensures forall i: nat | i < k :: i in held <==> i != lost
  {
    FullInterval(held.Keys + {lost}, 0, k);
  }

  lemma RecoversOneLost(shards: seq<Bytes>, originals: map<nat, Bytes>, recovery: map<nat, Bytes>, lost: nat)
    requires AreShards(shards) && SomeOf(originals, shards)
    requires lost == FirstLost(originals, |shards|) < |shards| && |originals| + 1 == |shards|
    requires 0 in recovery && recovery[0] == SumShard(ToMap(shards), |shards|)
    ensures SumDecode(|shards|, 1, originals, recovery) == Some(Missing(originals, shards))
  {
    OnlyOneLost(originals, lost, |shards|);
    assert originals == ToMap(shards) - {lost};
    SolvesForLost(shards, lost);
    assert Missing(originals, shards) == map[lost := shards[lost]];
  }

  lemma SumCodeRecoversFrom(shards: seq<Bytes>, originals: map<nat, Bytes>, recovery: map<nat, Bytes>)
    requires AreShards(shards)
    requires SomeOf(originals, shards) && SomeOf(recovery, SumEncode(1, shards))
    requires |originals| + |recovery| >= |shards|
    ensures SumDecode(|shards|, 1, originals, recovery) == Some(Missing(originals, shards))
  {
    var k := |shards|;
    var lost := FirstLost(originals, k);
    if lost == k {
      assert Missing(originals, shards) == map[];
    } else {
      IntervalSize(originals.Keys + {lost}, 0, k);
      assert |originals.Keys + {lost}| == |originals| + 1;
      assert recovery.Keys <= {0};
      SubsetSize(recovery.Keys, {0});
      var i :| i in recovery;
      RecoversOneLost(shards, originals, recovery, lost);
    }
  }

  /** One sum shard makes any number of originals recoverable from any one loss. */
  lemma SumCodeRecovers(k: nat)
    ensures Recovers(SumEncode, SumDecode, k, 1)
  {
    forall shards: seq<Bytes>, originals, recovery
      | |shards| == k && AreShards(shards)
        && SomeOf(originals, shards) && SomeOf(recovery, SumEncode(1, shards)) && |originals| + |recovery| >= k
      ensures SumDecode(k, 1, originals, recovery) == Some(Missing(originals, shards))
    {
      SumCodeRecoversFrom(shards, originals, recovery);
    }
  }
}
