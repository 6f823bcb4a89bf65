/**
 * `get_bond_value`: run `show-bond <addr> --with-funding`, and accept its
 * output only when the tool succeeded, the output decodes to a bond record,
 * and that record is about the requested address.
 */
module Fetch {
  import opened Wrappers
  import opened Bonds

  /**
   * What running the bonds CLI gave back: either running it failed with an
   * I/O error (spawning the process, waiting for it or reading its pipes),
   * or it exited with a success flag and its captured output.
   */
  datatype ToolOutcome =
    | RunFailed(reason: string)
    | Exited(success: bool, stdout: string, stderr: string)

  datatype FetchError =
    | CommandFailed(reason: string)
    | ToolFailed(stdout: string, stderr: string)
    | DecodeFailed(rawOutput: string)
    | AddressMismatch(addr: string)

  /** The record is about `addr`: its own key, or the vote account it bonds. */
  predicate MatchesAddress(b: BondData, addr: string)
  {
    b.publicKey == addr || b.account.voteAccount == addr
  }

  /**
   * One fetch. `decode` is the JSON decoder applied to the tool's output.
   * A failed exit is an error whatever the output holds; a decoded record is
   * accepted, unchanged, exactly when it matches the requested address.
   */
  function GetBondValue(outcome: ToolOutcome, addr: string, decode: string -> Option<BondData>)
    : (r: Result<BondData, FetchError>)
    ensures outcome.RunFailed? ==> r == Failure(CommandFailed(outcome.reason))
    ensures outcome.Exited? && !outcome.success ==> r == Failure(ToolFailed(outcome.stdout, outcome.stderr))
    ensures outcome.Exited? && outcome.success && decode(outcome.stdout).None? ==>
      r == Failure(DecodeFailed(outcome.stdout))
    ensures outcome.Exited? && outcome.success && decode(outcome.stdout).Some? ==>
      (r == Failure(AddressMismatch(addr)) <==>
         decode(outcome.stdout).value.publicKey != addr && decode(outcome.stdout).value.account.voteAccount != addr)
    ensures r.Success? <==>
      outcome.Exited? && outcome.success && decode(outcome.stdout).Some? &&
      MatchesAddress(decode(outcome.stdout).value, addr)
    ensures r.Success? ==> r.value == decode(outcome.stdout).value && MatchesAddress(r.value, addr)
  {
    match outcome
    case RunFailed(reason) => Failure(CommandFailed(reason))
    case Exited(success, stdout, stderr) =>
      if !success then
        Failure(ToolFailed(stdout, stderr))
      else
        match decode(stdout)
        case None => Failure(DecodeFailed(stdout))
        case Some(b) =>
          if !MatchesAddress(b, addr) then
            Failure(AddressMismatch(addr))
          else
            Success(b)
  }

}
