/**
 * One cycle of `monitor_bonds`: fetch every roster address in order and
 * write the outcome into the shared store. A successful fetch inserts or
 * overwrites the address's record; a failed fetch removes it, so that the
 * metric goes missing instead of going stale. No failure stops the cycle.
 */
module Poller {
  import opened Wrappers
  import opened Bonds
  import opened Fetch

  type FetchResult = Result<BondData, FetchError>

  /** The record a store holds for `k`, if any. */
  function Lookup(store: Store, k: Address): (o: Option<BondData>)
  {
    if k in store then Some(store[k]) else None
  }

  /** What a fetch leaves in the store for its address: the record, or nothing. */
  function EntryAfter(res: FetchResult): (o: Option<BondData>)
  {
    match res
    case Success(b) => Some(b)
    case Failure(_) => None
  }

  /**
   * The store update for one roster entry: overwrite on success, remove on
   * failure (whether or not the address was present), and no other key
   * changes.
   */
  function Apply(store: Store, addr: Address, res: FetchResult): (s: Store)
    ensures Lookup(s, addr) == EntryAfter(res)
    ensures forall k :: k != addr ==> Lookup(s, k) == Lookup(store, k)
  {
    match res
    case Success(b) => store[addr := b]
    case Failure(_) => store - {addr}
  }

  /**
   * Keys compare on both fields: updating the entry of an address under one
   * display name leaves the same address under another name untouched.
   */
  lemma NamesKeepEntriesApart(store: Store, address: string, name: string, otherName: string, res: FetchResult)
    requires name != otherName
    ensures Lookup(Apply(store, Address(address, name), res), Address(address, otherName)) ==
      Lookup(store, Address(address, otherName))
  {
  }

  /**
   * The store after a cycle over `roster`, where `results[i]` is the fetch
   * result of `roster[i]`: the updates applied in roster order.
   */
  function Cycle(store: Store, roster: seq<Address>, results: seq<FetchResult>): (s: Store)
    requires |results| == |roster|
    ensures forall k :: k in s ==> k in store || k in roster
    decreases |roster|
  {
    if |roster| == 0 then store
    else
      var n := |roster| - 1;
      Apply(Cycle(store, roster[..n], results[..n]), roster[n], results[n])
  }

  /** The `updated` count of a cycle: how many fetches succeeded. */
  function Successes(results: seq<FetchResult>): (n: nat)
    ensures n <= |results|
    decreases |results|
  {
    if |results| == 0 then 0
    else
      var n := |results| - 1;
      Successes(results[..n]) + (if results[n].Success? then 1 else 0)
  }

  /** No update iff every fetch failed; all updated iff every fetch succeeded. */
  lemma {:induction false} SuccessesExtremes(results: seq<FetchResult>)
    ensures Successes(results) == 0 <==> forall i :: 0 <= i < |results| ==> results[i].Failure?
    ensures Successes(results) == |results| <==> forall i :: 0 <= i < |results| ==> results[i].Success?
    decreases |results|
  {
    if |results| > 0 {
      var n := |results| - 1;
      SuccessesExtremes(results[..n]);
      assert forall i :: 0 <= i < n ==> results[..n][i] == results[i];
    }
  }

  /** The positions whose fetch succeeded. */
  ghost function SucceededPositions(results: seq<FetchResult>): (ps: set<nat>)
  {
    set i: nat | i < |results| && results[i].Success?
  }

  /** `updated` is the number of roster positions whose fetch succeeded. */
  lemma {:induction false} SuccessesCountsPositions(results: seq<FetchResult>)
    ensures Successes(results) == |SucceededPositions(results)|
    decreases |results|
  {
    if |results| > 0 {
      var n := |results| - 1;
      SuccessesCountsPositions(results[..n]);
      var before := SucceededPositions(results[..n]);
      assert forall i: nat :: i in before ==> i < n;
      if results[n].Success? {
        assert SucceededPositions(results) == before + {n};
        assert n !in before;
      } else {
        assert SucceededPositions(results) == before;
      }
    }
  }

  /** The last position of `k` in the roster, if `k` occurs in it. */
  function LastIndex(roster: seq<Address>, k: Address): (r: Option<nat>)
    ensures r.None? <==> k !in roster
    ensures r.Some? ==>
      r.value < |roster| && roster[r.value] == k &&
      forall j :: r.value < j < |roster| ==> roster[j] != k
    decreases |roster|
  {
    if |roster| == 0 then None
    else if roster[|roster| - 1] == k then Some(|roster| - 1)
    else
      var n := |roster| - 1;
      assert roster == roster[..n] + [roster[n]];
      LastIndex(roster[..n], k)
  }

  /**
   * The fate of every key after a cycle: a key outside the roster keeps its
   * entry; a roster key holds exactly what its LAST fetch in the cycle left,
   * the fresh record or nothing, whatever it held before.
   */
  lemma {:induction false} CycleEntry(store: Store, roster: seq<Address>, results: seq<FetchResult>, k: Address)
    requires |results| == |roster|
    ensures k !in roster ==> Lookup(Cycle(store, roster, results), k) == Lookup(store, k)
    ensures k in roster ==>
      Lookup(Cycle(store, roster, results), k) == EntryAfter(results[LastIndex(roster, k).value])
    decreases |roster|
  {
    if |roster| > 0 {
      var n := |roster| - 1;
      CycleEntry(store, roster[..n], results[..n], k);
      assert roster == roster[..n] + [roster[n]];
      if roster[n] != k {
        assert k in roster <==> k in roster[..n];
        if k in roster {
          assert results[..n][LastIndex(roster[..n], k).value] == results[LastIndex(roster, k).value];
        }
      }
    }
  }

  /**
   * Failure isolation: the entry of `k` after a cycle depends only on the
   * fetch results at the positions of `k`; failures (or successes) of every
   * other address change nothing about it.
   */
  lemma {:induction false} FailureIsolation(store: Store, roster: seq<Address>, results: seq<FetchResult>,
                         others: seq<FetchResult>, k: Address)
    requires |results| == |roster| == |others|
    requires forall j :: 0 <= j < |roster| && roster[j] == k ==> results[j] == others[j]
    ensures Lookup(Cycle(store, roster, results), k) == Lookup(Cycle(store, roster, others), k)
  {
    CycleEntry(store, roster, results, k);
    CycleEntry(store, roster, others, k);
  }

  /**
   * No stale values: after a cycle, the entry of a roster address does not
   * depend on what the store held before the cycle.
   */
  lemma {:induction false} CycleForgetsPrior(before: Store, other: Store, roster: seq<Address>, results: seq<FetchResult>, k: Address)
    requires |results| == |roster|
    requires k in roster
    ensures Lookup(Cycle(before, roster, results), k) == Lookup(Cycle(other, roster, results), k)
  {
    CycleEntry(before, roster, results, k);
    CycleEntry(other, roster, results, k);
  }

  /**
   * A store that starts empty (or holds only roster addresses) never holds
   * anything but roster addresses, however many cycles run.
   */
  lemma CycleKeepsRosterKeys(store: Store, roster: seq<Address>, results: seq<FetchResult>)
    requires |results| == |roster|
    requires forall k :: k in store ==> k in roster
    ensures forall k :: k in Cycle(store, roster, results) ==> k in roster
  {
    forall k | k in Cycle(store, roster, results) ensures k in roster {
      CycleEntry(store, roster, results, k);
    }
  }

  /** Repeating a cycle with the same fetch results changes nothing more. */
  lemma CycleIdempotent(store: Store, roster: seq<Address>, results: seq<FetchResult>)
    requires |results| == |roster|
    ensures Cycle(Cycle(store, roster, results), roster, results) == Cycle(store, roster, results)
  {
    var once := Cycle(store, roster, results);
    var twice := Cycle(once, roster, results);
    forall k ensures Lookup(twice, k) == Lookup(once, k) {
      CycleEntry(store, roster, results, k);
      CycleEntry(once, roster, results, k);
    }
    assert forall k :: k in twice <==> Lookup(twice, k).Some?;
    assert forall k :: k in once <==> Lookup(once, k).Some?;
    assert twice.Keys == once.Keys;
  }

  /** A cycle over one more roster entry is one more update. */
  lemma CycleExtend(store: Store, roster: seq<Address>, results: seq<FetchResult>, i: nat)
    requires |results| == |roster| && i < |roster|
    ensures Cycle(store, roster[..i + 1], results[..i + 1]) ==
      Apply(Cycle(store, roster[..i], results[..i]), roster[i], results[i])
    ensures Successes(results[..i + 1]) == Successes(results[..i]) + (if results[i].Success? then 1 else 0)
  {
    assert roster[..i + 1][..i] == roster[..i];
    assert results[..i + 1][..i] == results[..i];
  }

  /** The fetch results of a cycle, one per roster position. */
  function FetchAll(roster: seq<Address>, outcomes: seq<ToolOutcome>, decode: string -> Option<BondData>)
    : (rs: seq<FetchResult>)
    requires |outcomes| == |roster|
    ensures |rs| == |roster|
  {
    seq(|roster|, i requires 0 <= i < |roster| => GetBondValue(outcomes[i], roster[i].address, decode))
  }

  /**
   * The store after a cycle, in terms of what the bonds CLI returned: a
   * roster address holds a record exactly when its last run in the cycle
   * exited successfully with a record about that address, and then holds
   * that record.
   */
  lemma StoreAfterFetches(store: Store, roster: seq<Address>, outcomes: seq<ToolOutcome>,
                          decode: string -> Option<BondData>, k: Address)
    requires |outcomes| == |roster|
    requires k in roster
    ensures var out := outcomes[LastIndex(roster, k).value];
      var after := Cycle(store, roster, FetchAll(roster, outcomes, decode));
      && (k in after <==>
            out.Exited? && out.success && decode(out.stdout).Some? &&
            MatchesAddress(decode(out.stdout).value, k.address))
      && (k in after ==> after[k] == decode(out.stdout).value)
  {
    CycleEntry(store, roster, FetchAll(roster, outcomes, decode), k);
  }

  /**
   * One poller cycle over the shared state. `outcomes[i]` is what running
   * the bonds CLI for `roster[i]` returned; `decode` is the JSON decoder.
   * Returns the `updated` count.
   */
  method MonitorCycle(state: BondsState, roster: seq<Address>, outcomes: seq<ToolOutcome>,
                      decode: string -> Option<BondData>)
    returns (updated: nat)
    requires |outcomes| == |roster|
    modifies state
    ensures state.bondByAddr == Cycle(old(state.bondByAddr), roster, FetchAll(roster, outcomes, decode))
    ensures updated == Successes(FetchAll(roster, outcomes, decode))
  {
    ghost var results := FetchAll(roster, outcomes, decode);
    updated := 0;
    var i := 0;
    while i < |roster|
      invariant 0 <= i <= |roster|
      invariant state.bondByAddr == Cycle(old(state.bondByAddr), roster[..i], results[..i])
      invariant updated == Successes(results[..i])
    {
      var addr := roster[i];
      var res := GetBondValue(outcomes[i], addr.address, decode);
      CycleExtend(old(state.bondByAddr), roster, results, i);
      ghost var before := state.bondByAddr;
      match res {
        case Success(bond) =>
          state.bondByAddr := state.bondByAddr[addr := bond];
          updated := updated + 1;
        case Failure(_) =>
          state.bondByAddr := state.bondByAddr - {addr};
      }
      assert state.bondByAddr == Apply(before, addr, res);
      i := i + 1;
    }
    assert roster[..|roster|] == roster;
    assert results[..|results|] == results;
  }
}
