# Marinade bond monitor: a Dafny model of its poller and metrics exporter

The bond monitor watches a fixed roster of bonds. Each roster entry is an
address plus a display name. A background poller runs the bonds CLI
(`show-bond <addr> --with-funding`) once per address and checks the JSON
record that comes back. It keeps the latest good record per address in a
shared store, and it removes an address's record when its fetch fails. A
`/metrics` endpoint renders the store as a Prometheus gauge,
`marinade_bond_monitor_bond_value_active_sol`. There is one sample per
record whose `amount_active` text (`"<number> SOLs"`) yields a number. Each
sample has the labels `name`, `address`, `vote_account` and `bond_account`.

The model covers the sequential rules under the two threads:

- `wrappers.dfy`, module `Wrappers`: `Option` and `Result`.
- `bonds.dfy`, module `Bonds`: the `Address` key, the `BondData`,
  `Account` and `VoteAccount` records, and the shared `BondsState` class,
  which holds `bondByAddr: map<Address, BondData>`. It also has the
  amount derivation: `StripSuffix` models `str::strip_suffix`, and
  `ActiveAmountSol` models `BondData::active_amount_sol`.
- `fetch.dfy`, module `Fetch`: `GetBondValue`, the checks that
  `get_bond_value` applies to one run of the bonds CLI. These are the exit
  status, the decoding and the identity check.
- `poller.dfy`, module `Poller`: one cycle of `monitor_bonds`. The method
  `MonitorCycle` is a `while` loop over the roster that updates the shared
  state in place. It is proved against `Cycle`, the roster-ordered fold of
  the per-entry update `Apply`. Lemmas about `Cycle` then give the fate of
  every key, failure isolation, the absence of stale values, idempotence
  and the `updated` count.
- `exporter.dfy`, module `Exporter`: `metrics_handler`. The `GaugeVec`
  class holds its samples as `map<Labels, real>`. `MetricsHandler` resets
  the gauge and then loops over the store's keys in an arbitrary order. It
  sets one sample per entry whose amount derives and skips the others.
  Then it encodes the gauge. The method is proved against `Rendered`, and
  lemmas state what `Rendered` holds.

External pieces are parameters. Each call to the bonds CLI is a
`ToolOutcome`: either running it failed with an I/O error (spawning, waiting or
reading its output), or it exited with
a success flag, its stdout and its stderr. The poller receives one outcome
per roster position. The JSON decoder is a parameter
`decode: string -> Option<BondData>`. The `f64` parser is
`parse: string -> Option<real>`. The Prometheus text encoder is
`encode: map<Labels, real> -> Option<string>`.

The `vote_account` label carries `vote_account.node_pubkey`, the node
identity of the vote account (src/main.rs:137). It does not carry the
vote-account address in `account.vote_account`. The model keeps this
as written.

## Model

| member | source | states |
|---|---|---|
| `Bonds.StripSuffix` | src/main.rs:224-227 | The result is present exactly when the text is some prefix followed by the suffix; that prefix plus the suffix gives back the text |
| `Bonds.StripAppended` | src/main.rs:224-227 | Stripping `suffix` from `p + suffix` gives back exactly `p` |
| `Bonds.ActiveAmountSol` | src/main.rs:221-231 | A missing `" SOLs"` suffix, and nothing else, gives the missing-suffix error, which names `amount_active`; any other failure is the not-a-number error naming `amount_active` without its final `" SOLs"`, which does not parse. The derivation succeeds iff `amount_active` is some text followed by `" SOLs"` and that text parses. On success the value is the parse of `amount_active` with its final `" SOLs"` removed |
| `Bonds.ActiveAmountOfSolText` | src/main.rs:224-230 | For `amount_active == text + " SOLs"`, the result is the parsed value of `text`, or a not-a-number error naming `text` |
| `Bonds.BondsState.constructor` | src/main.rs:46-48 | The shared store starts empty |
| `Fetch.GetBondValue` | src/main.rs:252-284 | An I/O error while running the CLI is an error. A non-zero exit is a tool-failure error carrying stdout and stderr, whatever stdout holds. Undecodable output is a decode error. A decoded record is rejected as a mismatch iff neither its public key nor its account's vote account is the requested address. Otherwise the record is returned unchanged |
| `Poller.Apply` | src/main.rs:175-190 | After a success the address maps to the fresh record, overwriting any old one. After a failure the address is absent, whether or not it was present. No other key changes |
| `Poller.Cycle` | src/main.rs:171-191 | A cycle adds no key of its own: every key of the new store was in the old store or is a roster address |
| `Poller.NamesKeepEntriesApart` | src/main.rs:24-28 | The same address string under two display names gives two keys, and updating one leaves the other alone |
| `Poller.Successes` | src/main.rs:169-178 | The `updated` count never exceeds the roster length |
| `Poller.SuccessesExtremes` | src/main.rs:169-178 | `updated` is 0 iff every fetch in the cycle failed, and it equals the roster length iff every fetch succeeded |
| `Poller.SuccessesCountsPositions` | src/main.rs:169-178 | `updated` equals the number of roster positions whose fetch succeeded |
| `Poller.CycleEntry` | src/main.rs:171-191 | After a cycle, a key outside the roster keeps its entry. A roster key holds exactly what its last fetch in the cycle left: the record on success, nothing on failure |
| `Poller.FailureIsolation` | src/main.rs:171-191 | A key's entry after a cycle depends only on the fetches at that key's positions. Other addresses' failures do not affect it |
| `Poller.CycleForgetsPrior` | src/main.rs:181-188 | A roster key's entry after a cycle does not depend on what the store held before the cycle, so no stale value survives |
| `Poller.CycleKeepsRosterKeys` | src/main.rs:171-191 | A store that holds only roster addresses (the empty store at startup, for one) still holds only roster addresses after a cycle |
| `Poller.CycleIdempotent` | src/main.rs:171-191 | Running a cycle again with the same fetch results leaves the store as it is |
| `Poller.StoreAfterFetches` | src/main.rs:171-191 | After a cycle, a roster address holds a record iff its last CLI run exited successfully with decodable output about that address. That record is the decoded one |
| `Poller.MonitorCycle` | src/main.rs:161-200 | One poller cycle. The new store is `Cycle` of the old store over the roster and the validated fetch results. The returned `updated` is the number of successes |
| `Exporter.LabelsOf` | src/main.rs:134-139 | A sample's `name` and `address` labels are its store key's own fields |
| `Exporter.SampleOf` | src/main.rs:116-141 | Among the keys looked at, an entry whose amount derives has a sample under its labels, holding the derived amount |
| `Exporter.SampleSource` | src/main.rs:116-141 | Every sample over a set of keys comes from the key named by its `name` and `address` labels: that key is in the set, its entry is present and derives to the sample's value, and the sample's labels are that entry's |
| `Exporter.Rendered` | src/main.rs:116-141 | Every sample of a render names, by its `name` and `address` labels, a key present in the store |
| `Exporter.GaugeVec.constructor` | src/main.rs:80-87 | A new gauge family holds no samples |
| `Exporter.GaugeVec.Reset` | src/main.rs:115 | The gauge holds no samples afterwards |
| `Exporter.GaugeVec.Set` | src/main.rs:132-140 | Creates or overwrites the sample under one label combination and leaves every other sample alone |
| `Exporter.ApiContext.constructor` | src/main.rs:79-94 | The context shares the given state and starts with a fresh, empty gauge |
| `Exporter.RenderedEntry` | src/main.rs:116-141 | A store entry has a sample under its labels iff its amount derives. The sample's value is the derived amount |
| `Exporter.RenderedFromStore` | src/main.rs:116-141 | Each sample comes from the store entry named by its `name` and `address` labels. That entry is present and its amount derives to the sample's value. An absent address therefore has no sample |
| `Exporter.RenderedCount` | src/main.rs:115-141 | A render has exactly as many samples as there are store entries whose amount derives |
| `Exporter.MetricsHandler` | src/main.rs:109-155 | Afterwards the gauge holds exactly the samples of the current store, with nothing left from earlier renders. The store is unchanged. A derivation failure is never itself an error: the request fails exactly when encoding the rendered samples fails. The result is the encoded text, or status 500 with "Failed to encode metrics" exactly when encoding fails |

## Left out

- `main` (src/main.rs:30-70) is left out: configuration reading, TOML parsing, logger setup, thread spawn, the Tokio runtime and the join are process plumbing.
- `run_server` and the axum route (src/main.rs:97-107) are left out as HTTP glue.
- The subprocess call `Command::new(..).output()` is left out as I/O. Its result is the `ToolOutcome` parameter. `String::from_utf8_lossy` is not modelled: stdout and stderr are already strings.
- `serde_json::from_slice` into `BondData` is a foreign decoder. It is the `decode` parameter, and the model does not capture field renaming or ignored extra fields.
- The `f64` parse of the amount is the `parse` parameter and yields a `real`. NaN, infinities and rounding are not modelled.
- The Prometheus text encoding is the `encode` parameter. Only its failure, mapped to status 500, is modelled.
- The `RwLock`, the `Arc` sharing, the infinite `loop` and `thread::sleep` are left out as concurrency and timing. One cycle is a sequential method, and each store write is a single map assignment, which matches the source's per-address write lock. Repeated cycles are described by `CycleForgetsPrior`, `CycleKeepsRosterKeys` and `CycleIdempotent`.
- `Exporter.MetricsHandler`: what the Prometheus text encoder does with a gauge that has no samples (an empty store, or one where every derivation fails) is not modelled; the `encode` parameter may accept or refuse it, and a refusal gives status 500.
- Logging calls (`tracing::debug!`, `info!`, `error!`) are left out: they have no behaviour to verify.
- `Poller.MonitorCycle`: `updated` is an unbounded `nat`, whereas the source's counter is an `i32`. It is at most the roster length, so it would overflow only with a roster longer than 2^31 - 1 entries.
