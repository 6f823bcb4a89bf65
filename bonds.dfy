/**
 * The records of the bond monitor: the roster key `Address`, the record the
 * bonds CLI reports for one bond (`BondData` with its `Account` and
 * `VoteAccount`), the shared store `BondsState`, and the derivation of the
 * active amount in SOL from the record's textual `amount_active` field.
 */
module Bonds {
  import opened Wrappers

  /** A signed 32-bit integer, the width of the record's counters and commission. */
  newtype Int32 = x: int | -0x8000_0000 <= x < 0x8000_0000

  /**
   * One monitored thing: an address and its display name. Equality is
   * structural on BOTH fields, like the derived `Eq`/`Hash` of the source, so
   * the same address under two names is two distinct keys.
   */
  datatype Address = Address(address: string, name: string)

  datatype Account = Account(config: string, voteAccount: string, authority: string)

  datatype VoteAccount = VoteAccount(nodePubkey: string, authorizedWithdrawer: string, commission: Int32)

  /** What `show-bond <addr> --with-funding` reports about one bond. */
  datatype BondData = BondData(
    programId: string,
    publicKey: string,
    account: Account,
    voteAccount: VoteAccount,
    amountOwned: string,
    amountActive: string,
    numberActiveStakeAccounts: Int32,
    amountAtSettlements: string,
    numberSettlementStakeAccounts: Int32,
    amountToWithdraw: string,
    withdrawRequest: string,
    bondMint: string)

  /** The store: at most one record per address (latest wins). */
  type Store = map<Address, BondData>

  /**
   * The state shared by the poller (the only writer) and the metrics
   * endpoint (a reader). The store is created empty.
   */
  class BondsState {
    var bondByAddr: Store

    constructor ()
      ensures bondByAddr == map[]
    {
      bondByAddr := map[];
    }
  }

  /** The unit suffix the bonds CLI appends to amounts. */
  const SolSuffix: string := " SOLs"

  /**
   * `str::strip_suffix`: the text before `suffix` when `s` ends with it.
   * Succeeds exactly when `s` is some text followed by `suffix`, and then
   * gives that text back.
   */
  function StripSuffix(s: string, suffix: string): (r: Option<string>)
    ensures r.Some? <==> exists p :: p + suffix == s
    ensures r.Some? ==> r.value + suffix == s
  {
    if |suffix| <= |s| && s[|s| - |suffix|..] == suffix then
      assert s[..|s| - |suffix|] + suffix == s;
      Some(s[..|s| - |suffix|])
    else
      forall p ensures p + suffix != s {
        EndsWithAppended(p, suffix, s);
      }
      None
  }

  /** A text built as `p + suffix` ends with `suffix`. */
  lemma EndsWithAppended(p: string, suffix: string, s: string)
    ensures p + suffix == s ==> |suffix| <= |s| && s[|s| - |suffix|..] == suffix
  {
    assert (p + suffix)[|p|..] == suffix;
  }

  /** Stripping a suffix undoes appending it. */
  lemma StripAppended(p: string, suffix: string)
    ensures StripSuffix(p + suffix, suffix) == Some(p)
  {
    var r := StripSuffix(p + suffix, suffix);
    assert r.Some?;
    assert r.value + suffix == p + suffix;
    assert r.value == (p + suffix)[..|p|];
  }

  /** Why the active amount could not be derived. */
  datatype AmountError =
    | MissingSolSuffix(amountActive: string)
    | NotANumber(text: string)

  /**
   * `BondData::active_amount_sol`: strip the `" SOLs"` suffix from
   * `amount_active` and parse the rest as a number. The number parser is the
   * parameter `parse`.
   */
  function ActiveAmountSol(b: BondData, parse: string -> Option<real>): (r: Result<real, AmountError>)
    ensures r.Failure? && r.error.MissingSolSuffix? <==> !(exists p :: p + SolSuffix == b.amountActive)
    ensures r.Failure? && r.error.MissingSolSuffix? ==> r.error.amountActive == b.amountActive
    ensures r.Success? <==>
      exists p :: p + SolSuffix == b.amountActive && parse(p).Some?
    ensures r.Success? ==>
      |SolSuffix| <= |b.amountActive| && parse(b.amountActive[..|b.amountActive| - |SolSuffix|]) == Some(r.value)
    ensures r.Failure? && !r.error.MissingSolSuffix? ==>
      |SolSuffix| <= |b.amountActive| &&
      r.error == NotANumber(b.amountActive[..|b.amountActive| - |SolSuffix|]) &&
      parse(b.amountActive[..|b.amountActive| - |SolSuffix|]).None?
  {
    match StripSuffix(b.amountActive, SolSuffix)
    case None => Failure(MissingSolSuffix(b.amountActive))
    case Some(text) =>
      StripAppended(text, SolSuffix);
      assert forall p :: p + SolSuffix == b.amountActive ==> p == text by {
        forall p | p + SolSuffix == b.amountActive ensures p == text {
          StripAppended(p, SolSuffix);
        }
      }
      assert text == b.amountActive[..|b.amountActive| - |SolSuffix|];
      match parse(text)
      case None => Failure(NotANumber(text))
      case Some(value) => Success(value)
  }

  /**
   * Derivation of a record whose amount is `text + " SOLs"`: the value is
   * whatever `text` parses to, and a text that does not parse is reported
   * as such.
   */
  lemma ActiveAmountOfSolText(b: BondData, text: string, parse: string -> Option<real>)
    requires b.amountActive == text + SolSuffix
    ensures parse(text).Some? ==> ActiveAmountSol(b, parse) == Success(parse(text).value)
    ensures parse(text).None? ==> ActiveAmountSol(b, parse) == Failure(NotANumber(text))
  {
    StripAppended(text, SolSuffix);
  }
}
