/**
 * The bookkeeping of the bridge tester's heartbeat redeems: the fee and
 * threshold arithmetic, the top-up decision, the per-vault redeem loop that
 * records when each vault last answered, the retry list of expired redeem
 * requests and the liveness window over the recorded heartbeats.
 *
 * Every call into the chain client is an input here: the dust value the
 * chain reports, the fees it quotes, the current block and the clock seen
 * for each vault, and whether each request or cancellation went through.
 */
module Heartbeat {
  import opened Wrappers
  import opened Monetary

  type VaultKey = string
  type RedeemId = string
  /** Milliseconds since the Unix epoch. */
  type Timestamp = int

  /** Milliseconds in an hour (the bots' `MS_IN_AN_HOUR`). */
  const MsInAnHour: int := 3_600_000

  /** A vault counts as alive when it answered within this many milliseconds. */
  const OfflineWindow: int := 12 * MsInAnHour

  /** A registered vault as listed by the chain. */
  datatype Vault = Vault(id: VaultKey, bannedUntil: Option<nat>, issuedTokens: Magnitude)

  /** What the chain answered while the loop handled one vault. */
  datatype VaultRound = VaultRound(
    currentBlock: Option<nat>,  // none: reading the block number failed
    requestOk: bool,            // the redeem request, if sent, went through
    now: Timestamp)             // the clock when the heartbeat is recorded

  // ---------------------------------------------------------------------
  // An insertion-ordered map from vault to its last heartbeat

  /**
   * `keys` lists the keys in insertion order; setting an existing key keeps
   * its place.
   */
  datatype HeartbeatMap = HeartbeatMap(keys: seq<VaultKey>, at: map<VaultKey, Timestamp>) {

    ghost predicate Valid() {
      && (forall i, j :: 0 <= i < j < |keys| ==> keys[i] != keys[j])
      && (forall k :: k in at <==> k in keys)
    }

    /** `map.set(key, t)` */
    function Set(key: VaultKey, t: Timestamp): (r: HeartbeatMap)
      ensures Valid() ==> r.Valid()
      ensures r.at == at[key := t]
      ensures |keys| <= |r.keys| && r.keys[..|keys|] == keys
    {
      HeartbeatMap(if key in at then keys else keys + [key], at[key := t])
    }

    /** `map.entries()`, in insertion order. */
    function Entries(): (r: seq<(VaultKey, Timestamp)>)
      requires Valid()
      ensures |r| == |keys|
      ensures forall i :: 0 <= i < |r| ==> r[i] == (keys[i], at[keys[i]])
    {
      seq(|keys|, i requires 0 <= i < |keys| => (keys[i], at[keys[i]]))
    }
  }

  /** Every entry of a valid map is a key and its value. */
  lemma EntriesAreTheMap(m: HeartbeatMap, e: (VaultKey, Timestamp))
    requires m.Valid()
    ensures e in m.Entries() <==> e.0 in m.at && m.at[e.0] == e.1
  {
    if e.0 in m.at && m.at[e.0] == e.1 {
      var i :| 0 <= i < |m.keys| && m.keys[i] == e.0;
      assert m.Entries()[i] == e;
    }
  }

  // ---------------------------------------------------------------------
  // Amounts

  /** `x × 13 / 10`: a 30% buffer. */
  function IncreaseByThirtyPercent(x: Magnitude): (r: Magnitude)
    ensures r >= x
    ensures r == x <==> x == 0.0
  {
    x * 13.0 / 10.0
  }

  /** The balance needed to redeem the dust value once from every vault, with the buffer. */
  function MinimumBalanceForHeartbeat(dust: Magnitude, vaultCount: nat): Magnitude {
    IncreaseByThirtyPercent(dust * vaultCount as real)
  }

  /** The amount each heartbeat redeem asks for: the buffered dust value plus both fees. */
  function MinRedeemableAmount(dust: Magnitude, inclusionFee: Magnitude, bridgeFee: Magnitude): Magnitude {
    IncreaseByThirtyPercent(dust) + inclusionFee + bridgeFee
  }

  /**
   * The buffer is 30% (more than the 10% the comments speak of): the
   * minimum balance covers one dust redeem per vault, and a heartbeat
   * redeem asks for more than the dust value, which alone would fail.
   */
  lemma BuffersExceedDust(dust: Magnitude, vaultCount: nat, inclusionFee: Magnitude, bridgeFee: Magnitude)
    ensures IncreaseByThirtyPercent(dust) == dust + 3.0 * dust / 10.0
    ensures dust > 0.0 ==> IncreaseByThirtyPercent(dust) > dust + dust / 10.0
    ensures MinimumBalanceForHeartbeat(dust, vaultCount) >= dust * vaultCount as real
    ensures dust > 0.0 && vaultCount > 0 ==> MinimumBalanceForHeartbeat(dust, vaultCount) > dust * vaultCount as real
    ensures MinRedeemableAmount(dust, inclusionFee, bridgeFee) >= dust + inclusionFee + bridgeFee
    ensures dust > 0.0 ==> MinRedeemableAmount(dust, inclusionFee, bridgeFee) > dust
  {
    if dust > 0.0 && vaultCount > 0 {
      assert dust * vaultCount as real > 0.0;
    }
  }

  // ---------------------------------------------------------------------
  // The heartbeat loop, as a function of what the chain answered

  /** A vault is banned while the current block is at or before the last block of its ban. */
  predicate Banned(vault: Vault, currentBlock: nat): (b: bool)
    ensures vault.bannedUntil.None? ==> !b
    ensures vault.bannedUntil.Some? && currentBlock > vault.bannedUntil.value ==> !b
    ensures vault.bannedUntil.Some? && currentBlock <= vault.bannedUntil.value ==> b
  {
    vault.bannedUntil.Some? && vault.bannedUntil.value >= currentBlock
  }

  /**
   * The loop decides to redeem `amount` from `vault` (redeem.ts:228): the
   * block number was read, the vault is not banned and it has issued at
   * least `amount`. Whether the request then went through is `requestOk`.
   */
  predicate RequestsRedeem(vault: Vault, round: VaultRound, amount: Magnitude) {
    round.currentBlock.Some? && !Banned(vault, round.currentBlock.value) && vault.issuedTokens >= amount
  }

  /** The heartbeat is recorded only when the request did not throw. */
  predicate Answered(vault: Vault, round: VaultRound, amount: Magnitude) {
    RequestsRedeem(vault, round, amount) && round.requestOk
  }

  /** The heartbeat map after the loop has handled `vaults`, in order. */
  function HeartbeatsAfter(hs: HeartbeatMap, vaults: seq<Vault>, rounds: seq<VaultRound>, amount: Magnitude): HeartbeatMap
    requires |rounds| == |vaults|
    decreases |vaults|
  {
    if vaults == [] then hs
    else
      var n := |vaults| - 1;
      var before := HeartbeatsAfter(hs, vaults[..n], rounds[..n], amount);
      if Answered(vaults[n], rounds[n], amount) then before.Set(vaults[n].id, rounds[n].now) else before
  }

  /** The vaults the loop decides to redeem from (redeem.ts:228), in order. */
  function Requested(vaults: seq<Vault>, rounds: seq<VaultRound>, amount: Magnitude): seq<VaultKey>
    requires |rounds| == |vaults|
    decreases |vaults|
  {
    if vaults == [] then []
    else
      var n := |vaults| - 1;
      Requested(vaults[..n], rounds[..n], amount) + (if RequestsRedeem(vaults[n], rounds[n], amount) then [vaults[n].id] else [])
  }

  /**
   * The map stays valid, its keys keep their order, and every entry it had
   * is still there.
   */
  lemma {:induction false} HeartbeatsAfterKeepsOrder(hs: HeartbeatMap, vaults: seq<Vault>, rounds: seq<VaultRound>, amount: Magnitude)
    requires hs.Valid() && |rounds| == |vaults|
    ensures HeartbeatsAfter(hs, vaults, rounds, amount).Valid()
    ensures |hs.keys| <= |HeartbeatsAfter(hs, vaults, rounds, amount).keys|
    ensures HeartbeatsAfter(hs, vaults, rounds, amount).keys[..|hs.keys|] == hs.keys
    decreases |vaults|
  {
    if vaults != [] {
      var n := |vaults| - 1;
      var before := HeartbeatsAfter(hs, vaults[..n], rounds[..n], amount);
      HeartbeatsAfterKeepsOrder(hs, vaults[..n], rounds[..n], amount);
      if Answered(vaults[n], rounds[n], amount) {
        var after := before.Set(vaults[n].id, rounds[n].now);
        assert after.keys[..|before.keys|] == before.keys;
        assert after.keys[..|hs.keys|] == after.keys[..|before.keys|][..|hs.keys|];
      }
    }
  }

  /** A vault that never answered keeps the entry it had, or still has none. */
  lemma {:induction false} HeartbeatUntouched(hs: HeartbeatMap, vaults: seq<Vault>, rounds: seq<VaultRound>, amount: Magnitude, key: VaultKey)
    requires |rounds| == |vaults|
    requires forall i :: 0 <= i < |vaults| && vaults[i].id == key ==> !Answered(vaults[i], rounds[i], amount)
    ensures key in HeartbeatsAfter(hs, vaults, rounds, amount).at <==> key in hs.at
    ensures key in hs.at ==> HeartbeatsAfter(hs, vaults, rounds, amount).at[key] == hs.at[key]
    decreases |vaults|
  {
    if vaults != [] {
      var n := |vaults| - 1;
      assert forall i :: 0 <= i < n ==> vaults[..n][i] == vaults[i] && rounds[..n][i] == rounds[i];
      HeartbeatUntouched(hs, vaults[..n], rounds[..n], amount, key);
    }
  }

  /**
   * A vault whose request went through has its heartbeat set to the time
   * of that request, whatever happened to the later vaults with other ids.
   */
  lemma {:induction false} HeartbeatRecorded(hs: HeartbeatMap, vaults: seq<Vault>, rounds: seq<VaultRound>, amount: Magnitude, i: nat)
    requires |rounds| == |vaults| && i < |vaults|
    requires Answered(vaults[i], rounds[i], amount)
    requires forall j :: i < j < |vaults| ==> vaults[j].id != vaults[i].id
    ensures vaults[i].id in HeartbeatsAfter(hs, vaults, rounds, amount).at
    ensures HeartbeatsAfter(hs, vaults, rounds, amount).at[vaults[i].id] == rounds[i].now
    decreases |vaults|
  {
    var n := |vaults| - 1;
    if i < n {
      assert vaults[..n][i] == vaults[i] && rounds[..n][i] == rounds[i];
      assert forall j :: i < j < n ==> vaults[..n][j] == vaults[j];
      HeartbeatRecorded(hs, vaults[..n], rounds[..n], amount, i);
    }
  }

  /** A request goes only to an unbanned vault that has issued at least the amount. */
  lemma {:induction false} RequestedOnlyEligible(vaults: seq<Vault>, rounds: seq<VaultRound>, amount: Magnitude, key: VaultKey)
    requires |rounds| == |vaults|
    ensures key in Requested(vaults, rounds, amount) <==>
      exists i :: 0 <= i < |vaults| && vaults[i].id == key && RequestsRedeem(vaults[i], rounds[i], amount)
    decreases |vaults|
  {
    if vaults != [] {
      var n := |vaults| - 1;
      assert forall i :: 0 <= i < n ==> vaults[..n][i] == vaults[i] && rounds[..n][i] == rounds[i];
      RequestedOnlyEligible(vaults[..n], rounds[..n], amount, key);
    }
  }

  // ---------------------------------------------------------------------
  // Expired redeem requests and alive vaults

  /** The ids whose cancellation failed, in their original order. */
  function Retained(ids: seq<RedeemId>, cancelFailed: seq<bool>): seq<RedeemId>
    requires |cancelFailed| == |ids|
    decreases |ids|
  {
    if ids == [] then []
    else
      var n := |ids| - 1;
      Retained(ids[..n], cancelFailed[..n]) + (if cancelFailed[n] then [ids[n]] else [])
  }

  /** An id is kept exactly when one of its cancellations failed. */
  lemma {:induction false} RetainedAreFailures(ids: seq<RedeemId>, cancelFailed: seq<bool>, id: RedeemId)
    requires |cancelFailed| == |ids|
    ensures id in Retained(ids, cancelFailed) <==> exists i :: 0 <= i < |ids| && ids[i] == id && cancelFailed[i]
    decreases |ids|
  {
    if ids != [] {
      var n := |ids| - 1;
      assert forall i :: 0 <= i < n ==> ids[..n][i] == ids[i] && cancelFailed[..n][i] == cancelFailed[i];
      RetainedAreFailures(ids[..n], cancelFailed[..n], id);
    }
  }

  /** Nothing is added: the kept ids are drawn from the list, once each at most. */
  lemma {:induction false} RetainedIsSubMultiset(ids: seq<RedeemId>, cancelFailed: seq<bool>)
    requires |cancelFailed| == |ids|
    ensures multiset(Retained(ids, cancelFailed)) <= multiset(ids)
    ensures |Retained(ids, cancelFailed)| <= |ids|
    decreases |ids|
  {
    if ids != [] {
      var n := |ids| - 1;
      RetainedIsSubMultiset(ids[..n], cancelFailed[..n]);
      assert ids == ids[..n] + [ids[n]];
    }
  }

  /** When every cancellation succeeds the list empties. */
  lemma {:induction false} RetainedNoneWhenAllCancelled(ids: seq<RedeemId>, cancelFailed: seq<bool>)
    requires |cancelFailed| == |ids|
    requires forall i :: 0 <= i < |ids| ==> !cancelFailed[i]
    ensures Retained(ids, cancelFailed) == []
    decreases |ids|
  {
    if ids != [] {
      var n := |ids| - 1;
      RetainedNoneWhenAllCancelled(ids[..n], cancelFailed[..n]);
    }
  }

  /** When every cancellation fails the list is unchanged. */
  lemma {:induction false} RetainedAllWhenNoneCancelled(ids: seq<RedeemId>, cancelFailed: seq<bool>)
    requires |cancelFailed| == |ids|
    requires forall i :: 0 <= i < |ids| ==> cancelFailed[i]
    ensures Retained(ids, cancelFailed) == ids
    decreases |ids|
  {
    if ids != [] {
      var n := |ids| - 1;
      RetainedAllWhenNoneCancelled(ids[..n], cancelFailed[..n]);
      assert ids == ids[..n] + [ids[n]];
    }
  }

  /** The entries at or after `threshold`, in map order. */
  function AliveEntries(entries: seq<(VaultKey, Timestamp)>, threshold: Timestamp): seq<(VaultKey, Timestamp)>
    decreases |entries|
  {
    if entries == [] then []
    else
      var n := |entries| - 1;
      AliveEntries(entries[..n], threshold) + (if entries[n].1 >= threshold then [entries[n]] else [])
  }

  /** An entry is reported exactly when it is in the map and recent enough. */
  lemma {:induction false} AliveEntriesAreRecent(entries: seq<(VaultKey, Timestamp)>, threshold: Timestamp, e: (VaultKey, Timestamp))
    ensures e in AliveEntries(entries, threshold) <==> e in entries && e.1 >= threshold
    decreases |entries|
  {
    if entries != [] {
      var n := |entries| - 1;
      AliveEntriesAreRecent(entries[..n], threshold, e);
      assert entries == entries[..n] + [entries[n]];
    }
  }

  // ---------------------------------------------------------------------
  // The bot's state

  class Redeem {
    /** When each vault last fulfilled a heartbeat redeem request. */
    var vaultHeartbeats: HeartbeatMap
    /** The chain's redeem dust value, once fetched. */
    var redeemDustValue: Option<Magnitude>
    /** Redeem requests to cancel again on the next round. */
    var expiredRedeemRequests: seq<RedeemId>
    /** The amount issued when the balance runs low. */
    const issueTopUpAmount: Magnitude

    ghost predicate Valid()
      reads this
    {
      vaultHeartbeats.Valid()
    }

    constructor (issueTopUpAmount: Magnitude)
      ensures Valid()
      ensures vaultHeartbeats == HeartbeatMap([], map[])
      ensures redeemDustValue == None && expiredRedeemRequests == []
      ensures this.issueTopUpAmount == issueTopUpAmount
    {
      vaultHeartbeats := HeartbeatMap([], map[]);
      redeemDustValue := None;
      expiredRedeemRequests := [];
      this.issueTopUpAmount := issueTopUpAmount;
    }

    /**
     * The dust value: fetched from the chain (here `chainDust`) only while
     * none is cached, and from then on the cached value.
     */
    method GetCachedRedeemDustValue(chainDust: Magnitude) returns (dust: Magnitude)
      modifies this`redeemDustValue
      ensures old(redeemDustValue).None? ==> dust == chainDust
      ensures old(redeemDustValue).Some? ==> dust == old(redeemDustValue).value
      ensures redeemDustValue == Some(dust)
    {
      if redeemDustValue.None? {
        redeemDustValue := Some(chainDust);
      }
      dust := redeemDustValue.value;
    }

    /**
     * Zero when the parachain is not connected; otherwise the buffered
     * dust value times the vault count, which defaults to the number of
     * registered vaults.
     */
    method GetMinimumBalanceForHeartbeat(
      parachainConnected: bool, vaultCount: Option<nat>, registeredVaults: seq<Vault>, chainDust: Magnitude)
      returns (minimum: Magnitude)
      modifies this`redeemDustValue
      ensures !parachainConnected ==> minimum == 0.0 && redeemDustValue == old(redeemDustValue)
      ensures parachainConnected ==>
        && redeemDustValue == Some(old(redeemDustValue).GetOr(chainDust))
        && minimum == MinimumBalanceForHeartbeat(redeemDustValue.value, vaultCount.GetOr(|registeredVaults|))
    {
      if !parachainConnected {
        return 0.0;
      }
      var dust := GetCachedRedeemDustValue(chainDust);
      var count := if vaultCount.None? then |registeredVaults| else vaultCount.value;
      minimum := MinimumBalanceForHeartbeat(dust, count);
    }

    /** The buffered dust value plus the inclusion fee and the bridge fee. */
    method GetMinRedeemableAmount(chainDust: Magnitude, inclusionFee: Magnitude, bridgeFee: Magnitude)
      returns (amount: Magnitude)
      modifies this`redeemDustValue
      ensures redeemDustValue == Some(old(redeemDustValue).GetOr(chainDust))
      ensures amount == MinRedeemableAmount(redeemDustValue.value, inclusionFee, bridgeFee)
    {
      var dust := GetCachedRedeemDustValue(chainDust);
      amount := MinRedeemableAmount(dust, inclusionFee, bridgeFee);
    }

    /**
     * Issues `issueTopUpAmount` exactly when the free wrapped balance is at
     * most the minimum balance for one heartbeat round.
     */
    method IssueIfNeeded(parachainConnected: bool, vaultCount: nat, freeBalance: Magnitude, chainDust: Magnitude)
      returns (topUp: Option<Magnitude>)
      modifies this`redeemDustValue
      ensures topUp.Some? ==> topUp.value == issueTopUpAmount
      ensures !parachainConnected ==> (topUp.Some? <==> freeBalance == 0.0) && redeemDustValue == old(redeemDustValue)
      ensures parachainConnected ==>
        && redeemDustValue == Some(old(redeemDustValue).GetOr(chainDust))
        && (topUp.Some? <==> freeBalance <= MinimumBalanceForHeartbeat(redeemDustValue.value, vaultCount))
    {
      var minimum := GetMinimumBalanceForHeartbeat(parachainConnected, Some(vaultCount), [], chainDust);
      topUp := if freeBalance <= minimum then Some(issueTopUpAmount) else None;
    }

    /**
     * One heartbeat round: top up if needed, then ask each unbanned vault
     * with enough issued tokens to redeem the minimum redeemable amount,
     * recording the time for each vault whose request went through. A vault
     * that fails does not stop the round.
     */
    method PerformHeartbeatRedeems(
      parachainConnected: bool, vaults: seq<Vault>, freeBalance: Magnitude,
      chainDust: Magnitude, inclusionFee: Magnitude, bridgeFee: Magnitude, rounds: seq<VaultRound>)
      returns (topUp: Option<Magnitude>, requested: seq<VaultKey>)
      requires Valid() && |rounds| == |vaults|
      modifies this`redeemDustValue, this`vaultHeartbeats
      ensures Valid()
      ensures !parachainConnected ==>
        && topUp == None && requested == []
        && redeemDustValue == old(redeemDustValue) && vaultHeartbeats == old(vaultHeartbeats)
      ensures parachainConnected ==>
        && redeemDustValue == Some(old(redeemDustValue).GetOr(chainDust))
        && topUp == (if freeBalance <= MinimumBalanceForHeartbeat(redeemDustValue.value, |vaults|)
                     then Some(issueTopUpAmount) else None)
        && var amount := MinRedeemableAmount(redeemDustValue.value, inclusionFee, bridgeFee);
           && vaultHeartbeats == HeartbeatsAfter(old(vaultHeartbeats), vaults, rounds, amount)
           && requested == Requested(vaults, rounds, amount)
    {
      if !parachainConnected {
        return None, [];
      }
      topUp := IssueIfNeeded(parachainConnected, |vaults|, freeBalance, chainDust);
      var amountToRedeem := GetMinRedeemableAmount(chainDust, inclusionFee, bridgeFee);
      requested := [];
      ghost var start := vaultHeartbeats;
      ghost var dust := redeemDustValue;
      var i := 0;
      while i < |vaults|
        invariant 0 <= i <= |vaults|
        invariant redeemDustValue == dust
        invariant vaultHeartbeats == HeartbeatsAfter(start, vaults[..i], rounds[..i], amountToRedeem)
        invariant requested == Requested(vaults[..i], rounds[..i], amountToRedeem)
      {
        var vault := vaults[i];
        var round := rounds[i];
        assert vaults[..i + 1][..i] == vaults[..i] && rounds[..i + 1][..i] == rounds[..i];
        if round.currentBlock.Some? && !Banned(vault, round.currentBlock.value) {
          if vault.issuedTokens >= amountToRedeem {
            requested := requested + [vault.id];
            if round.requestOk {
              vaultHeartbeats := vaultHeartbeats.Set(vault.id, round.now);
            }
          }
        }
        i := i + 1;
      }
      assert vaults[..i] == vaults && rounds[..i] == rounds;
      HeartbeatsAfterKeepsOrder(start, vaults, rounds, amountToRedeem);
    }

    /**
     * Tries to cancel every expired request; the ones whose cancellation
     * failed stay, in their order, for the next round.
     */
    method CancelExpiredRedeems(cancelFailed: seq<bool>)
      requires |cancelFailed| == |expiredRedeemRequests|
      modifies this`expiredRedeemRequests
      ensures expiredRedeemRequests == Retained(old(expiredRedeemRequests), cancelFailed)
    {
      var remainingExpiredRequests: seq<RedeemId> := [];
      var i := 0;
      while i < |expiredRedeemRequests|
        invariant 0 <= i <= |expiredRedeemRequests|
        invariant expiredRedeemRequests == old(expiredRedeemRequests)
        invariant remainingExpiredRequests == Retained(expiredRedeemRequests[..i], cancelFailed[..i])
      {
        assert expiredRedeemRequests[..i + 1][..i] == expiredRedeemRequests[..i];
        assert cancelFailed[..i + 1][..i] == cancelFailed[..i];
        if cancelFailed[i] {
          remainingExpiredRequests := remainingExpiredRequests + [expiredRedeemRequests[i]];
        }
        i := i + 1;
      }
      assert expiredRedeemRequests[..i] == expiredRedeemRequests && cancelFailed[..i] == cancelFailed;
      expiredRedeemRequests := remainingExpiredRequests;
    }

    /**
     * The heartbeats no older than twelve hours before `now`, in map order;
     * the map itself is left as it is.
     */
    method GetAliveVaults(now: Timestamp) returns (aliveVaults: seq<(VaultKey, Timestamp)>)
      requires Valid()
      ensures aliveVaults == AliveEntries(vaultHeartbeats.Entries(), now - OfflineWindow)
      ensures forall e :: e in aliveVaults <==>
        e.0 in vaultHeartbeats.at && vaultHeartbeats.at[e.0] == e.1 && e.1 >= now - OfflineWindow
    {
      var offlineThreshold := now - 12 * MsInAnHour;
      ghost var entries := vaultHeartbeats.Entries();
      aliveVaults := [];
      var i := 0;
      while i < |vaultHeartbeats.keys|
        invariant 0 <= i <= |vaultHeartbeats.keys|
        invariant aliveVaults == AliveEntries(entries[..i], offlineThreshold)
      {
        var key := vaultHeartbeats.keys[i];
        var value := vaultHeartbeats.at[key];
        assert entries[..i + 1][..i] == entries[..i] && entries[..i + 1][i] == (key, value);
        if value >= offlineThreshold {
          aliveVaults := aliveVaults + [(key, value)];
        }
        i := i + 1;
      }
      assert entries[..i] == entries;
      forall e
        ensures e in aliveVaults <==>
          e.0 in vaultHeartbeats.at && vaultHeartbeats.at[e.0] == e.1 && e.1 >= offlineThreshold
      {
        AliveEntriesAreRecent(entries, offlineThreshold, e);
        EntriesAreTheMap(vaultHeartbeats, e);
      }
    }
  }
}
