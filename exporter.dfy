/**
 * `metrics_handler`: on each request, clear the gauge, set one sample per
 * store entry whose active amount can be derived, skip the others, and
 * encode the gauge. The store is only read.
 */
module Exporter {
  import opened Wrappers
  import opened Bonds

  /** The label values of one sample, in the order name, address, vote_account, bond_account. */
  datatype Labels = Labels(name: string, address: string, voteAccount: string, bondAccount: string)

  /**
   * The labels of the sample for one store entry. The `vote_account` label
   * carries the vote account's node identity, the `bond_account` label the
   * record's own public key.
   */
  function LabelsOf(addr: Address, b: BondData): (l: Labels)
    ensures Address(l.address, l.name) == addr
  {
    Labels(addr.name, addr.address, b.voteAccount.nodePubkey, b.publicKey)
  }

  /** The store entry of `a` is present and its active amount derives. */
  ghost predicate Emits(store: Store, a: Address, parse: string -> Option<real>)
  {
    a in store && ActiveAmountSol(store[a], parse).Success?
  }

  /** The samples for the store entries whose keys lie in `keys`. */
  ghost function Samples(store: Store, keys: set<Address>, parse: string -> Option<real>): (m: map<Labels, real>)
  {
    map a | a in keys && Emits(store, a, parse) :: LabelsOf(a, store[a]) := ActiveAmountSol(store[a], parse).value
  }

  /** The samples one render of `store` produces. */
  ghost function Rendered(store: Store, parse: string -> Option<real>): (m: map<Labels, real>)
    ensures forall l :: l in m ==> Address(l.address, l.name) in store
  {
    var m := Samples(store, store.Keys, parse);
    assert forall l :: l in m ==> Address(l.address, l.name) in store by {
      forall l | l in m ensures Address(l.address, l.name) in store {
        SampleSource(store, store.Keys, parse, l);
      }
    }
    m
  }

  /** An entry that emits, among `keys`, has its sample. */
  lemma SampleOf(store: Store, keys: set<Address>, parse: string -> Option<real>, a: Address)
    requires a in keys && Emits(store, a, parse)
    ensures LabelsOf(a, store[a]) in Samples(store, keys, parse)
    ensures Samples(store, keys, parse)[LabelsOf(a, store[a])] == ActiveAmountSol(store[a], parse).value
  {
  }

  /** A sample names, by its `name` and `address` labels, the entry it comes from. */
  lemma SampleSource(store: Store, keys: set<Address>, parse: string -> Option<real>, l: Labels)
    requires l in Samples(store, keys, parse)
    ensures var a := Address(l.address, l.name);
      && a in keys && Emits(store, a, parse)
      && l == LabelsOf(a, store[a])
      && Samples(store, keys, parse)[l] == ActiveAmountSol(store[a], parse).value
  {
    var a :| a in keys && Emits(store, a, parse) && LabelsOf(a, store[a]) == l;
    assert a == Address(l.address, l.name);
  }

  /**
   * Every store entry whose amount derives gets a sample under its labels,
   * carrying the derived value; an entry whose derivation fails gets none.
   */
  lemma RenderedEntry(store: Store, parse: string -> Option<real>, a: Address)
    requires a in store
    ensures LabelsOf(a, store[a]) in Rendered(store, parse) <==> ActiveAmountSol(store[a], parse).Success?
    ensures ActiveAmountSol(store[a], parse).Success? ==>
      Rendered(store, parse)[LabelsOf(a, store[a])] == ActiveAmountSol(store[a], parse).value
  {
    var l := LabelsOf(a, store[a]);
    if l in Rendered(store, parse) {
      SampleSource(store, store.Keys, parse, l);
    }
    if ActiveAmountSol(store[a], parse).Success? {
      SampleOf(store, store.Keys, parse, a);
    }
  }

  /**
   * Every sample comes from the store entry its `name` and `address` labels
   * name: that entry is present, its amount derives to the sample's value,
   * and the other two labels are that entry's. So an address absent from the
   * store has no sample.
   */
  lemma RenderedFromStore(store: Store, parse: string -> Option<real>, l: Labels)
    requires l in Rendered(store, parse)
    ensures var a := Address(l.address, l.name);
      && a in store
      && l == LabelsOf(a, store[a])
      && ActiveAmountSol(store[a], parse).Success?
      && Rendered(store, parse)[l] == ActiveAmountSol(store[a], parse).value
  {
    SampleSource(store, store.Keys, parse, l);
  }

  /** Adding an entry whose amount derives adds exactly its sample. */
  lemma SamplesAdd(store: Store, done: set<Address>, grown: set<Address>, a: Address, parse: string -> Option<real>)
    requires a in grown && done == grown - {a} && Emits(store, a, parse)
    ensures LabelsOf(a, store[a]) !in Samples(store, done, parse)
    ensures Samples(store, grown, parse) ==
      Samples(store, done, parse)[LabelsOf(a, store[a]) := ActiveAmountSol(store[a], parse).value]
  {
    var after := Samples(store, grown, parse);
    var expected := Samples(store, done, parse)[LabelsOf(a, store[a]) := ActiveAmountSol(store[a], parse).value];
    assert forall l :: l in after ==> l in expected && after[l] == expected[l] by {
      forall l | l in after ensures l in expected && after[l] == expected[l] {
        SampleAddedOrKept(store, done, grown, a, parse, l);
      }
    }
    assert forall l :: l in expected ==> l in after by {
      forall l | l in expected ensures l in after {
        SampleStillThere(store, done, grown, a, parse, l);
      }
    }
    SameSamples(after, expected);
  }

  /** Two sample maps with the same labels and values are equal. */
  lemma SameSamples(m1: map<Labels, real>, m2: map<Labels, real>)
    requires forall l :: l in m1 ==> l in m2 && m1[l] == m2[l]
    requires forall l :: l in m2 ==> l in m1
    ensures m1 == m2
  {
    assert m1.Keys == m2.Keys;
  }

  /** A sample over `grown` is the sample of `a` or one over `done`. */
  lemma SampleAddedOrKept(store: Store, done: set<Address>, grown: set<Address>, a: Address,
                          parse: string -> Option<real>, l: Labels)
    requires a in grown && done == grown - {a} && Emits(store, a, parse)
    requires l in Samples(store, grown, parse)
    ensures l == LabelsOf(a, store[a]) ==> Samples(store, grown, parse)[l] == ActiveAmountSol(store[a], parse).value
    ensures l != LabelsOf(a, store[a]) ==>
      l in Samples(store, done, parse) && Samples(store, grown, parse)[l] == Samples(store, done, parse)[l]
  {
    SampleSource(store, grown, parse, l);
    if l != LabelsOf(a, store[a]) {
      SampleOf(store, done, parse, Address(l.address, l.name));
    }
  }

  /** Every sample over `done`, and the sample of `a`, is a sample over `grown`. */
  lemma SampleStillThere(store: Store, done: set<Address>, grown: set<Address>, a: Address,
                         parse: string -> Option<real>, l: Labels)
    requires a in grown && done == grown - {a} && Emits(store, a, parse)
    requires l == LabelsOf(a, store[a]) || l in Samples(store, done, parse)
    ensures l in Samples(store, grown, parse)
  {
    if l == LabelsOf(a, store[a]) {
      SampleOf(store, grown, parse, a);
    } else {
      SampleSource(store, done, parse, l);
      SampleOf(store, grown, parse, Address(l.address, l.name));
    }
  }

  /** Adding an entry that does not emit adds nothing. */
  lemma SamplesSkip(store: Store, done: set<Address>, grown: set<Address>, a: Address, parse: string -> Option<real>)
    requires a in grown && done == grown - {a} && !Emits(store, a, parse)
    ensures Samples(store, grown, parse) == Samples(store, done, parse)
  {
    var before := Samples(store, done, parse);
    var after := Samples(store, grown, parse);
    assert forall l :: l in after ==> l in before && after[l] == before[l] by {
      forall l | l in after ensures l in before && after[l] == before[l] {
        SampleSource(store, grown, parse, l);
        SampleOf(store, done, parse, Address(l.address, l.name));
      }
    }
    assert forall l :: l in before ==> l in after by {
      forall l | l in before ensures l in after {
        SampleSource(store, done, parse, l);
        SampleOf(store, grown, parse, Address(l.address, l.name));
      }
    }
    SameSamples(after, before);
  }

  /** The store entries whose amount derives. */
  ghost function Emitting(store: Store, parse: string -> Option<real>): (e: set<Address>)
  {
    set a | a in store && ActiveAmountSol(store[a], parse).Success?
  }

  /** The store entries among `keys` whose amount derives. */
  ghost function Derivable(store: Store, keys: set<Address>, parse: string -> Option<real>): (d: set<Address>)
  {
    keys * Emitting(store, parse)
  }

  /** One sample per entry whose amount derives: no two entries share labels. */
  lemma {:induction false} SamplesCount(store: Store, keys: set<Address>, parse: string -> Option<real>)
    ensures |Samples(store, keys, parse)| == |Derivable(store, keys, parse)|
    decreases keys
  {
    if keys == {} {
      assert Samples(store, keys, parse).Keys == {};
      assert Derivable(store, keys, parse) == {};
    } else {
      var a :| a in keys;
      SamplesCount(store, keys - {a}, parse);
      SamplesCountStep(store, keys, a, parse);
    }
  }

  /**
   * Taking one key out changes the number of samples and the number of
   * derivable entries alike.
   */
  lemma SamplesCountStep(store: Store, keys: set<Address>, a: Address, parse: string -> Option<real>)
    requires a in keys
    ensures |Samples(store, keys, parse)| - |Derivable(store, keys, parse)| ==
      |Samples(store, keys - {a}, parse)| - |Derivable(store, keys - {a}, parse)|
  {
    var rest := keys - {a};
    DerivableDrop(store, keys, a, parse);
    if Emits(store, a, parse) {
      SamplesAdd(store, rest, keys, a, parse);
    } else {
      SamplesSkip(store, rest, keys, a, parse);
    }
  }

  /** Taking one key out drops it from the derivable entries, and nothing else. */
  lemma DerivableDrop(store: Store, keys: set<Address>, a: Address, parse: string -> Option<real>)
    requires a in keys
    ensures Emits(store, a, parse) ==>
      a !in Derivable(store, keys - {a}, parse) && Derivable(store, keys, parse) == Derivable(store, keys - {a}, parse) + {a}
    ensures !Emits(store, a, parse) ==> Derivable(store, keys, parse) == Derivable(store, keys - {a}, parse)
  {
  }

  /** A render emits exactly one sample per store entry whose amount derives. */
  lemma RenderedCount(store: Store, parse: string -> Option<real>)
    ensures |Rendered(store, parse)| == |set a | a in store && ActiveAmountSol(store[a], parse).Success?|
  {
    SamplesCount(store, store.Keys, parse);
    assert Derivable(store, store.Keys, parse) == Emitting(store, parse);
  }

  /** A labelled gauge family: one value per label combination. */
  class GaugeVec {
    var samples: map<Labels, real>

    constructor ()
      ensures samples == map[]
    {
      samples := map[];
    }

    /** Drops every sample. */
    method Reset()
      modifies this
      ensures samples == map[]
    {
      samples := map[];
    }

    /** `with_label_values(labels).set(value)`: creates or overwrites one sample. */
    method Set(labels: Labels, value: real)
      modifies this
      ensures samples == old(samples)[labels := value]
    {
      samples := samples[labels := value];
    }
  }

  /** The endpoint's context: the shared state and the active-bond gauge. */
  class ApiContext {
    const bondsState: BondsState
    const gauge: GaugeVec

    constructor (bondsState: BondsState)
      ensures this.bondsState == bondsState
      ensures fresh(gauge) && gauge.samples == map[]
    {
      this.bondsState := bondsState;
      gauge := new GaugeVec();
    }
  }

  /** The status and body of a failed request. */
  datatype HttpError = HttpError(status: int, body: string)

  const InternalServerError: int := 500

  /**
   * Serve one metrics request. `parse` is the number parser of the amount
   * derivation; `encode` is the text encoder, which may fail. The gauge ends
   * up holding exactly the samples of the current store, whatever it held
   * before; the store is not changed. A derivation failure is never itself
   * an error: the request fails exactly when encoding the rendered samples
   * fails.
   */
  method MetricsHandler(ctx: ApiContext, parse: string -> Option<real>,
                        encode: map<Labels, real> -> Option<string>)
    returns (r: Result<string, HttpError>)
    modifies ctx.gauge
    ensures ctx.gauge.samples == Rendered(ctx.bondsState.bondByAddr, parse)
    ensures ctx.bondsState.bondByAddr == old(ctx.bondsState.bondByAddr)
    ensures r.Success? <==> encode(ctx.gauge.samples).Some?
    ensures r.Success? ==> r.value == encode(ctx.gauge.samples).value
    ensures r.Failure? ==> r.error == HttpError(InternalServerError, "Failed to encode metrics")
  {
    var bonds := ctx.bondsState.bondByAddr;
    ctx.gauge.Reset();
    var remaining := bonds.Keys;
    ghost var done: set<Address> := {};
    while remaining != {}
      invariant remaining + done == bonds.Keys && remaining !! done
      invariant ctx.gauge.samples == Samples(bonds, done, parse)
      decreases remaining
    {
      var addr :| addr in remaining;
      var bond := bonds[addr];
      match ActiveAmountSol(bond, parse) {
        case Failure(_) =>
          SamplesSkip(bonds, done, done + {addr}, addr, parse);
        case Success(value) =>
          ctx.gauge.Set(LabelsOf(addr, bond), value);
          SamplesAdd(bonds, done, done + {addr}, addr, parse);
      }
      remaining := remaining - {addr};
      done := done + {addr};
    }
    match encode(ctx.gauge.samples) {
      case Some(text) => r := Success(text);
      case None => r := Failure(HttpError(InternalServerError, "Failed to encode metrics"));
    }
  }
}
