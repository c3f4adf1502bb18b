/** Batched initialisation of reserves: strategies deployed once per name, parallel arrays of
    per-reserve data, initialisation in chunks, and incentive arrays re-indexed by chunk. */
module ReserveInit {
  import opened Chunks

  /** Addresses are opaque; 0 stands for a missing or empty one. */
  type Address = nat

  datatype Kind = Generic | Collateral | Other

  datatype StrategyRates = StrategyRates(
    optimal: string, base: string, variableSlope1: string, variableSlope2: string,
    stableSlope1: string, stableSlope2: string)

  datatype Params = Params(strategyName: string, rates: StrategyRates, kind: Kind, decimals: string, emission: string)

  /** An entry of the reserve configuration. */
  datatype Entry = Entry(symbol: string, params: Params)

  datatype InitInput = InitInput(
    aTokenImpl: Address, decimals: string, interestRateStrategy: Address, yieldAddress: Address,
    underlyingAsset: Address, symbol: string)

  datatype Deployment = Deployment(name: string, rates: StrategyRates, address: Address)

  const INIT_CHUNKS: nat := 4

  /** The chain as this step sees it: strategies deployed, batches initialised, incentives
      configured. */
  class Chain {
    var deployments: seq<Deployment>
    var batches: seq<seq<InitInput>>
    var tokensForIncentive: seq<Address>
    var emissionsPerSecond: seq<string>

    constructor ()
      ensures deployments == [] && batches == [] && tokensForIncentive == [] && emissionsPerSecond == []
    {
      deployments, batches, tokensForIncentive, emissionsPerSecond := [], [], [], [];
    }

    /** A deployment gets an address of its own. */
    method DeployStrategy(name: string, rates: StrategyRates) returns (address: Address)
      modifies this`deployments
      ensures address == |old(deployments)| + 1
      ensures deployments == old(deployments) + [Deployment(name, rates, address)]
    {
      address := |deployments| + 1;
      deployments := deployments + [Deployment(name, rates, address)];
    }

    method BatchInitReserve(inputs: seq<InitInput>)
      modifies this`batches
      ensures batches == old(batches) + [inputs]
    {
      batches := batches + [inputs];
    }

    method ConfigureAssets(tokens: seq<Address>, emissions: seq<string>)
      modifies this`tokensForIncentive, this`emissionsPerSecond
      ensures tokensForIncentive == tokens && emissionsPerSecond == emissions
    {
      tokensForIncentive, emissionsPerSecond := tokens, emissions;
    }
  }

  // ---- What is to be initialised ----

  function Lookup(m: map<string, Address>, key: string): Address { if key in m then m[key] else 0 }

  /** A reserve of a known kind whose token address is set. */
  predicate Selected(e: Entry, tokens: map<string, Address>) {
    !e.params.kind.Other? && Lookup(tokens, e.symbol) != 0
  }

  function Kept(entries: seq<Entry>, tokens: map<string, Address>): (kept: seq<Entry>)
    ensures |kept| <= |entries|
  {
    if entries == [] then [] else
      var last := entries[|entries| - 1];
      var front := Kept(entries[..|entries| - 1], tokens);
      if Selected(last, tokens) then front + [last] else front
  }

  predicate Distinct(entries: seq<Entry>) {
    forall i, j :: 0 <= i < j < |entries| ==> entries[i].symbol != entries[j].symbol
  }

  predicate HasName(entries: seq<Entry>, name: string) {
    exists i :: 0 <= i < |entries| && entries[i].params.strategyName == name
  }

  /** One deployment per strategy name, at its first reserve, from the given address on. */
  function Deployments(kept: seq<Entry>, first: Address): (ds: seq<Deployment>)
    ensures |ds| <= |kept|
  {
    if kept == [] then [] else
      var front, p := kept[..|kept| - 1], kept[|kept| - 1].params;
      var ds := Deployments(front, first);
      if HasName(front, p.strategyName) then ds
      else ds + [Deployment(p.strategyName, p.rates, first + |ds|)]
  }

  /** The address cache: name to deployed address. */
  function Cache(ds: seq<Deployment>): map<string, Address> {
    if ds == [] then map[] else
      var d := ds[|ds| - 1];
      Cache(ds[..|ds| - 1])[d.name := d.address]
  }

  function ImplFor(kind: Kind, generic: Address, collateral: Address): Address {
    if kind == Generic then generic else collateral
  }

  function Input(e: Entry, tokens: map<string, Address>, yieldOf: map<string, Address>,
                 strategies: map<string, Address>, generic: Address, collateral: Address): InitInput {
    InitInput(ImplFor(e.params.kind, generic, collateral), e.params.decimals,
              Lookup(strategies, e.params.strategyName), Lookup(yieldOf, e.symbol),
              Lookup(tokens, e.symbol), e.symbol)
  }

  function Inputs(kept: seq<Entry>, tokens: map<string, Address>, yieldOf: map<string, Address>,
                  strategies: map<string, Address>, generic: Address, collateral: Address): seq<InitInput> {
    seq(|kept|, i requires 0 <= i < |kept| => Input(kept[i], tokens, yieldOf, strategies, generic, collateral))
  }

  // ---- The strategy cache ----

  ghost predicate NamesDistinct(ds: seq<Deployment>) {
    forall i, j :: 0 <= i < j < |ds| ==> ds[i].name != ds[j].name
  }

  ghost predicate HasDeployment(ds: seq<Deployment>, name: string) {
    exists i :: 0 <= i < |ds| && ds[i].name == name
  }

  lemma {:induction false} CacheHolds(ds: seq<Deployment>, name: string)
    ensures name in Cache(ds) <==> HasDeployment(ds, name)
    ensures NamesDistinct(ds) ==>
              forall i :: 0 <= i < |ds| && ds[i].name == name ==> name in Cache(ds) && Cache(ds)[name] == ds[i].address
  {
    if ds != [] {
      CacheHolds(ds[..|ds| - 1], name);
    }
  }

  /** The i-th reserve is the first one with the strategy name. */
  ghost predicate IsFirst(kept: seq<Entry>, i: int, name: string) {
    && 0 <= i < |kept| && kept[i].params.strategyName == name
    && forall j :: 0 <= j < i ==> kept[j].params.strategyName != name
  }

  /** A deployment carries the rates of the first reserve with its name. */
  ghost predicate FromFirst(kept: seq<Entry>, d: Deployment) {
    exists i :: IsFirst(kept, i, d.name) && kept[i].params.rates == d.rates
  }

  lemma FromFirstExtends(kept: seq<Entry>, d: Deployment)
    requires kept != [] && FromFirst(kept[..|kept| - 1], d)
    ensures FromFirst(kept, d) && HasName(kept, d.name)
  {
    var i :| IsFirst(kept[..|kept| - 1], i, d.name) && kept[i].params.rates == d.rates;
    assert IsFirst(kept, i, d.name);
  }

  lemma {:induction false} DeploymentOrigins(kept: seq<Entry>, first: Address)
    ensures forall i :: 0 <= i < |Deployments(kept, first)| ==>
              Deployments(kept, first)[i].address == first + i && FromFirst(kept, Deployments(kept, first)[i])
  {
    if kept != [] {
      var front, p := kept[..|kept| - 1], kept[|kept| - 1].params;
      DeploymentOrigins(front, first);
      var earlier, ds := Deployments(front, first), Deployments(kept, first);
      forall i | 0 <= i < |ds| ensures ds[i].address == first + i && FromFirst(kept, ds[i]) {
        if i < |earlier| {
          FromFirstExtends(kept, earlier[i]);
        } else {
          assert IsFirst(kept, |front|, p.strategyName);
        }
      }
    }
  }

  lemma {:induction false} EveryNameDeployed(kept: seq<Entry>, first: Address, name: string)
    ensures HasName(kept, name) <==> HasDeployment(Deployments(kept, first), name)
  {
    if kept != [] {
      var front, last := kept[..|kept| - 1], kept[|kept| - 1];
      EveryNameDeployed(front, first, name);
      EveryNameDeployed(front, first, last.params.strategyName);
      NamesExtend(kept, name);
      DeploymentsExtend(Deployments(front, first), Deployments(kept, first), name);
    }
  }

  lemma NamesExtend(kept: seq<Entry>, name: string)
    requires kept != []
    ensures HasName(kept, name) <==>
              HasName(kept[..|kept| - 1], name) || kept[|kept| - 1].params.strategyName == name
  {
    var front := kept[..|kept| - 1];
    if HasName(front, name) {
      var i :| 0 <= i < |front| && front[i].params.strategyName == name;
      assert kept[i].params.strategyName == name;
    }
  }

  lemma DeploymentsExtend(front: seq<Deployment>, ds: seq<Deployment>, name: string)
    requires ds == front || (|ds| == |front| + 1 && ds[..|front|] == front)
    ensures HasDeployment(ds, name) <==>
              HasDeployment(front, name) || (|ds| > |front| && ds[|front|].name == name)
  {
    if HasDeployment(front, name) {
      var i :| 0 <= i < |front| && front[i].name == name;
      assert ds[i].name == name;
    }
  }

  lemma {:induction false} DeployedOnce(kept: seq<Entry>, first: Address)
    ensures NamesDistinct(Deployments(kept, first))
  {
    if kept != [] {
      var front, last := kept[..|kept| - 1], kept[|kept| - 1];
      DeployedOnce(front, first);
      EveryNameDeployed(front, first, last.params.strategyName);
    }
  }

  /** The strategy address a kept reserve is given. */
  function StrategyOf(kept: seq<Entry>, first: Address, i: nat): Address
    requires i < |kept|
  {
    Lookup(Cache(Deployments(kept, first)), kept[i].params.strategyName)
  }

  /** The address a reserve gets is a deployment of its own strategy's name. */
  lemma OwnStrategy(kept: seq<Entry>, first: Address, i: nat) returns (d: nat)
    requires first > 0 && i < |kept|
    ensures d < |Deployments(kept, first)|
    ensures Deployments(kept, first)[d].name == kept[i].params.strategyName
    ensures Deployments(kept, first)[d].address == StrategyOf(kept, first, i) == first + d
    ensures FromFirst(kept, Deployments(kept, first)[d])
  {
    var ds, name := Deployments(kept, first), kept[i].params.strategyName;
    EveryNameDeployed(kept, first, name);
    DeployedOnce(kept, first);
    DeploymentOrigins(kept, first);
    CacheHolds(ds, name);
    d :| 0 <= d < |ds| && ds[d].name == name;
  }

  /** Two reserves share a strategy contract exactly when their strategies have one name. */
  lemma SharedExactlyByName(kept: seq<Entry>, first: Address, i: nat, j: nat)
    requires first > 0 && i < |kept| && j < |kept|
    ensures StrategyOf(kept, first, i) == StrategyOf(kept, first, j) <==>
              kept[i].params.strategyName == kept[j].params.strategyName
  {
    var d := OwnStrategy(kept, first, i);
    var e := OwnStrategy(kept, first, j);
  }

  /** The cache looks at names only, so a reserve's contract carries its own rates exactly
      when they are those of the first reserve with that strategy name. */
  lemma OwnRatesExactlyIfFirstAgrees(kept: seq<Entry>, first: Address, i: nat, f: int, d: nat)
    requires first > 0 && i < |kept| && IsFirst(kept, f, kept[i].params.strategyName)
    requires d < |Deployments(kept, first)| && Deployments(kept, first)[d].address == StrategyOf(kept, first, i)
    ensures Deployments(kept, first)[d].rates == kept[i].params.rates <==>
              kept[f].params.rates == kept[i].params.rates
  {
    hide Deployments, Cache, StrategyOf;
    var e := OwnStrategy(kept, first, i);
    DeploymentOrigins(kept, first);
    var g :| IsFirst(kept, g, Deployments(kept, first)[e].name)
          && kept[g].params.rates == Deployments(kept, first)[e].rates;
  }

  /** Of two reserves with one strategy name only the first one's rates are deployed, and the
      second is given that contract. */
  lemma SecondSharesFirst(a: Entry, b: Entry, first: Address)
    requires first > 0 && a.params.strategyName == b.params.strategyName
    ensures Deployments([a, b], first) == [Deployment(a.params.strategyName, a.params.rates, first)]
    ensures StrategyOf([a, b], first, 0) == StrategyOf([a, b], first, 1) == first
  {
    hide Deployments, Cache, Extended, HasDeployment;
    var d := Deployment(a.params.strategyName, a.params.rates, first);
    NothingDeployed(first);
    assert [] + [a] == [a] && [a] + [b] == [a, b] && [] + [d] == [d];
    DeploymentsStep([], a, first);
    DeploymentsStep([a], b, first);
    CacheStep([], d);
    ExtendingOnce(a.params, b.params, first);
  }

  lemma NothingDeployed(first: Address)
    ensures Deployments([], first) == [] && Cache([]) == map[]
  {
  }

  lemma ExtendingOnce(p: Params, q: Params, first: Address)
    requires p.strategyName == q.strategyName
    ensures var ds := [Deployment(p.strategyName, p.rates, first)];
            Extended([], p, first) == ds && Extended(ds, q, first) == ds
  {
    assert [Deployment(p.strategyName, p.rates, first)][0].name == q.strategyName;
  }

  const GENTLE: StrategyRates := StrategyRates("0.8", "0", "0.04", "0.75", "0.02", "0.75")
  const STEEP: StrategyRates := GENTLE.(variableSlope1 := "0.4")
  const FIRST_RESERVE: Entry := Entry("A", Params("strategy", GENTLE, Generic, "18", "0"))
  const SECOND_RESERVE: Entry := Entry("B", Params("strategy", STEEP, Generic, "18", "0"))

  /** So a reserve with steeper rates under a shared name runs on the gentler ones. */
  lemma SharedNameLosesRates()
    ensures var kept := [FIRST_RESERVE, SECOND_RESERVE];
            var ds := Deployments(kept, 1);
            && |ds| == 1 && StrategyOf(kept, 1, 1) == ds[0].address
            && ds[0].rates != SECOND_RESERVE.params.rates
  {
    SecondSharesFirst(FIRST_RESERVE, SECOND_RESERVE, 1);
    assert "0.4" != "0.04" by { assert |"0.4"| != |"0.04"|; }
  }

  // ---- The step itself ----

  function Known(entries: seq<Entry>): seq<Entry> {
    if entries == [] then [] else
      var front, last := Known(entries[..|entries| - 1]), entries[|entries| - 1];
      if last.params.kind.Other? then front else front + [last]
  }

  lemma {:induction false} KnownKept(entries: seq<Entry>, tokens: map<string, Address>)
    ensures Kept(Known(entries), tokens) == Kept(entries, tokens)
  {
    if entries != [] {
      var front, last := entries[..|entries| - 1], entries[|entries| - 1];
      KnownKept(front, tokens);
      if !last.params.kind.Other? {
        var k := Known(entries);
        assert k[..|k| - 1] == Known(front) && k[|k| - 1] == last;
      }
    }
  }

  lemma {:induction false} KnownMembers(entries: seq<Entry>, tokens: map<string, Address>)
    ensures forall e :: e in Known(entries) ==> e in entries && !e.params.kind.Other?
    ensures forall e :: e in Kept(entries, tokens) ==> e in entries && Selected(e, tokens)
    ensures Distinct(entries) ==> Distinct(Known(entries)) && Distinct(Kept(entries, tokens))
  {
    if entries != [] {
      var front := entries[..|entries| - 1];
      KnownMembers(front, tokens);
      var last := entries[|entries| - 1];
      assert entries == front + [last];
      if Distinct(entries) {
        assert forall e :: e in front ==> e.symbol != last.symbol;
        StaysDistinct(Known(front), front, last);
        StaysDistinct(Kept(front, tokens), front, last);
      }
    }
  }

  lemma StaysDistinct(chosen: seq<Entry>, front: seq<Entry>, last: Entry)
    requires Distinct(chosen) && (forall e :: e in chosen ==> e in front)
    requires forall e :: e in front ==> e.symbol != last.symbol
    ensures Distinct(chosen + [last])
  {
    forall i | 0 <= i < |chosen| ensures chosen[i].symbol != last.symbol {
      assert chosen[i] in chosen;
    }
  }

  /** What is known after the first i selected entries: the parallel arrays follow the kept
      reserves, the cache and the chain's deployments follow their strategy names, and each
      kept symbol maps to its kind and its strategy's address. */
  ghost predicate Collected(kept: seq<Entry>, tokens: map<string, Address>, first: Address,
                            decimals: seq<string>, addresses: seq<Address>, symbols: seq<string>, emissions: seq<string>,
                            strategyAddresses: map<string, Address>, perAsset: map<string, Address>, kinds: map<string, Kind>)
  {
    && |decimals| == |addresses| == |symbols| == |emissions| == |kept|
    && strategyAddresses == Cache(Deployments(kept, first))
    && forall k :: 0 <= k < |kept| ==>
         && decimals[k] == kept[k].params.decimals
         && addresses[k] == Lookup(tokens, kept[k].symbol)
         && symbols[k] == kept[k].symbol
         && emissions[k] == kept[k].params.emission
         && kept[k].symbol in perAsset && perAsset[kept[k].symbol] == StrategyOf(kept, first, k)
         && kept[k].symbol in kinds && kinds[kept[k].symbol] == kept[k].params.kind
  }

  /** Keeping one more reserve deploys its strategy if the cache has no such name. */
  lemma CacheExtends(kept: seq<Entry>, e: Entry, first: Address)
    requires first > 0
    ensures var ds, all := Deployments(kept, first), Deployments(kept + [e], first);
            var name := e.params.strategyName;
            && name in Cache(all)
            && (name in Cache(ds) ==> all == ds)
            && (name !in Cache(ds) ==>
                  && all == ds + [Deployment(name, e.params.rates, first + |ds|)]
                  && Cache(all) == Cache(ds)[name := first + |ds|])
  {
    hide Deployments, Cache;
    var name, ds := e.params.strategyName, Deployments(kept, first);
    DeploymentsStep(kept, e, first);
    EveryNameDeployed(kept, first, name);
    CacheHolds(ds, name);
    if name !in Cache(ds) {
      CacheStep(ds, Deployment(name, e.params.rates, first + |ds|));
    }
  }

  lemma DeploymentsStep(kept: seq<Entry>, e: Entry, first: Address)
    ensures Deployments(kept + [e], first) == Extended(Deployments(kept, first), e.params, first)
  {
    hide *;
    EveryNameDeployed(kept, first, e.params.strategyName);
    LastDeployment(kept + [e], kept, e, first);
    ExtendedByName(Deployments(kept, first), e.params, first, HasName(kept, e.params.strategyName));
  }

  /** The deployments with one more reserve's strategy, if it has a new name. */
  ghost function Extended(ds: seq<Deployment>, p: Params, first: Address): seq<Deployment> {
    if HasDeployment(ds, p.strategyName) then ds else ds + [Deployment(p.strategyName, p.rates, first + |ds|)]
  }

  lemma ExtendedByName(ds: seq<Deployment>, p: Params, first: Address, known: bool)
    requires known <==> HasDeployment(ds, p.strategyName)
    ensures Extended(ds, p, first) == if known then ds else ds + [Deployment(p.strategyName, p.rates, first + |ds|)]
  {
    hide HasDeployment;
  }

  lemma LastDeployment(all: seq<Entry>, front: seq<Entry>, last: Entry, first: Address)
    requires all == front + [last]
    ensures var ds, p := Deployments(front, first), last.params;
            Deployments(all, first)
              == if HasName(front, p.strategyName) then ds else ds + [Deployment(p.strategyName, p.rates, first + |ds|)]
  {
    hide HasName;
    assert all[..|all| - 1] == front && all[|all| - 1] == last;
  }

  lemma CacheStep(ds: seq<Deployment>, d: Deployment)
    ensures Cache(ds + [d]) == Cache(ds)[d.name := d.address]
  {
    var all := ds + [d];
    assert all[..|all| - 1] == ds && all[|all| - 1] == d;
  }

  lemma StrategyOfStable(kept: seq<Entry>, e: Entry, first: Address, k: nat)
    requires first > 0 && k < |kept|
    ensures StrategyOf(kept + [e], first, k) == StrategyOf(kept, first, k)
  {
    var name := kept[k].params.strategyName;
    EveryNameDeployed(kept, first, name);
    CacheHolds(Deployments(kept, first), name);
    CacheExtends(kept, e, first);
  }

  /** Keeping one more reserve extends everything collected. */
  lemma CollectedExtends(kept: seq<Entry>, e: Entry, tokens: map<string, Address>, first: Address,
                         decimals: seq<string>, addresses: seq<Address>, symbols: seq<string>, emissions: seq<string>,
                         strategyAddresses: map<string, Address>, perAsset: map<string, Address>, kinds: map<string, Kind>)
    requires Collected(kept, tokens, first, decimals, addresses, symbols, emissions, strategyAddresses, perAsset, kinds)
    requires Distinct(kept + [e]) && first > 0
    ensures var cache := Cache(Deployments(kept + [e], first));
            && e.params.strategyName in cache
            && Collected(kept + [e], tokens, first, decimals + [e.params.decimals],
                         addresses + [Lookup(tokens, e.symbol)], symbols + [e.symbol], emissions + [e.params.emission],
                         cache, perAsset[e.symbol := cache[e.params.strategyName]], kinds[e.symbol := e.params.kind])
  {
    hide Deployments, Cache;
    CacheExtends(kept, e, first);
    var all := kept + [e];
    forall k | 0 <= k < |kept|
      ensures StrategyOf(all, first, k) == StrategyOf(kept, first, k) && all[k] == kept[k] && all[k].symbol != e.symbol
    {
      StrategyOfStable(kept, e, first, k);
      assert all[|kept|] == e;
    }
  }

  /** Incentives of the first n reserves: entry pairs 2k and 2k + 1 belong to reserve k. */
  ghost predicate Paired(inputs: seq<InitInput>, emissions: seq<string>, tokensOf: Address -> (Address, Address), n: nat,
                         tokensForIncentive: seq<Address>, emissionsPerSecond: seq<string>)
    requires |inputs| == |emissions| && n <= |inputs|
  {
    && |tokensForIncentive| == |emissionsPerSecond| == 2 * n
    && forall k :: 0 <= k < n ==>
         && tokensForIncentive[2 * k] == tokensOf(inputs[k].underlyingAsset).0
         && tokensForIncentive[2 * k + 1] == tokensOf(inputs[k].underlyingAsset).1
         && emissionsPerSecond[2 * k] == emissions[k]
         && emissionsPerSecond[2 * k + 1] == emissions[k]
  }

  lemma NothingPaired(inputs: seq<InitInput>, emissions: seq<string>, tokensOf: Address -> (Address, Address))
    requires |inputs| == |emissions|
    ensures Paired(inputs, emissions, tokensOf, 0, [], [])
  {
  }

  lemma PairedExtends(inputs: seq<InitInput>, emissions: seq<string>, tokensOf: Address -> (Address, Address), n: nat,
                      tokensForIncentive: seq<Address>, emissionsPerSecond: seq<string>)
    requires |inputs| == |emissions| && n < |inputs|
    requires Paired(inputs, emissions, tokensOf, n, tokensForIncentive, emissionsPerSecond)
    ensures var r := tokensOf(inputs[n].underlyingAsset);
            Paired(inputs, emissions, tokensOf, n + 1, tokensForIncentive + [r.0, r.1],
                   emissionsPerSecond + [emissions[n], emissions[n]])
  {
  }

  function Emissions(kept: seq<Entry>): seq<string> {
    seq(|kept|, i requires 0 <= i < |kept| => kept[i].params.emission)
  }

  /** The input initialises the reserve: its own kind's implementation, decimals, asset, yield
      address (none set: zero) and symbol, with the given strategy contract. */
  ghost predicate Initialises(input: InitInput, e: Entry, strategy: Address, tokens: map<string, Address>,
                              yieldOf: map<string, Address>, generic: Address, collateral: Address) {
    && (e.params.kind == Generic ==> input.aTokenImpl == generic)
    && (e.params.kind == Collateral ==> input.aTokenImpl == collateral)
    && input.decimals == e.params.decimals && input.symbol == e.symbol
    && input.interestRateStrategy == strategy
    && e.symbol in tokens && input.underlyingAsset == tokens[e.symbol] != 0
    && input.yieldAddress == (if e.symbol in yieldOf then yieldOf[e.symbol] else 0)
  }

  lemma InputInitialises(kept: seq<Entry>, first: Address, k: nat, tokens: map<string, Address>, yieldOf: map<string, Address>,
                         generic: Address, collateral: Address)
    requires k < |kept| && Selected(kept[k], tokens)
    ensures Initialises(Input(kept[k], tokens, yieldOf, Cache(Deployments(kept, first)), generic, collateral), kept[k],
                        StrategyOf(kept, first, k), tokens, yieldOf, generic, collateral)
  {
    hide Cache, Deployments;
  }

  /** What reaches the chain: batch entry k initialises kept reserve k, and incentive entries 2k and
      2k + 1 give its two tokens its emission. */
  ghost predicate Initialised(kept: seq<Entry>, first: Address, sent: seq<InitInput>, tokens: map<string, Address>,
                              yieldOf: map<string, Address>, generic: Address, collateral: Address,
                              tokensOf: Address -> (Address, Address),
                              tokensForIncentive: seq<Address>, emissionsPerSecond: seq<string>) {
    && |sent| == |kept| && |tokensForIncentive| == |emissionsPerSecond| == 2 * |kept|
    && forall k :: 0 <= k < |kept| ==>
         && Initialises(sent[k], kept[k], StrategyOf(kept, first, k), tokens, yieldOf, generic, collateral)
         && tokensForIncentive[2 * k] == tokensOf(sent[k].underlyingAsset).0
         && tokensForIncentive[2 * k + 1] == tokensOf(sent[k].underlyingAsset).1
         && emissionsPerSecond[2 * k] == emissionsPerSecond[2 * k + 1] == kept[k].params.emission
  }

  lemma AllInitialised(entries: seq<Entry>, first: Address, tokens: map<string, Address>,
                       yieldOf: map<string, Address>, generic: Address, collateral: Address,
                       tokensOf: Address -> (Address, Address),
                       tokensForIncentive: seq<Address>, emissionsPerSecond: seq<string>)
    requires var kept := Kept(entries, tokens);
             var inputs := Inputs(kept, tokens, yieldOf, Cache(Deployments(kept, first)), generic, collateral);
             Paired(inputs, Emissions(kept), tokensOf, |kept|, tokensForIncentive, emissionsPerSecond)
    ensures var kept := Kept(entries, tokens);
            var inputs := Inputs(kept, tokens, yieldOf, Cache(Deployments(kept, first)), generic, collateral);
            Initialised(kept, first, inputs, tokens, yieldOf, generic, collateral, tokensOf, tokensForIncentive, emissionsPerSecond)
  {
    hide Cache, Deployments, Kept, Input, Initialises, StrategyOf;
    var kept := Kept(entries, tokens);
    KnownMembers(entries, tokens);
    forall k | 0 <= k < |kept|
      ensures Initialises(Inputs(kept, tokens, yieldOf, Cache(Deployments(kept, first)), generic, collateral)[k], kept[k],
                          StrategyOf(kept, first, k), tokens, yieldOf, generic, collateral)
    {
      InputInitialises(kept, first, k, tokens, yieldOf, generic, collateral);
    }
  }

  /** The reserves initialised are those of a known kind with a token address, in the order of the
      configuration. */
  lemma {:induction false} KeptExactly(entries: seq<Entry>, tokens: map<string, Address>, e: Entry)
    ensures e in Kept(entries, tokens) <==>
              e in entries && (e.params.kind == Generic || e.params.kind == Collateral)
              && e.symbol in tokens && tokens[e.symbol] != 0
  {
    if entries != [] {
      var front := entries[..|entries| - 1];
      KeptExactly(front, tokens, e);
      assert entries == front + [entries[|entries| - 1]];
    }
  }

  lemma {:induction false} KeptInOrder(entries: seq<Entry>, more: seq<Entry>, tokens: map<string, Address>)
    ensures Kept(entries + more, tokens) == Kept(entries, tokens) + Kept(more, tokens)
  {
    if more == [] {
      assert entries + more == entries;
    } else {
      var front, last := more[..|more| - 1], more[|more| - 1];
      KeptInOrder(entries, front, tokens);
      assert entries + more == entries + front + [last];
      assert (entries + front + [last])[..|entries + more| - 1] == entries + front;
    }
  }

  /** Deploys strategies, initialises the reserves in chunks and configures the incentives.
      `tokensOf` is what the pool reports for an initialised asset: its aToken and its
      variable debt token. The symbols of a configuration object are distinct. */
  method InitReserves(chain: Chain, entries: seq<Entry>, tokens: map<string, Address>, yieldOf: map<string, Address>,
                      generic: Address, collateral: Address, tokensOf: Address -> (Address, Address))
    requires Distinct(entries)
    modifies chain
    ensures var kept := Kept(entries, tokens);
            var first := |old(chain.deployments)| + 1;
            var ds := Deployments(kept, first);
            var inputs := Inputs(kept, tokens, yieldOf, Cache(ds), generic, collateral);
            && chain.deployments == old(chain.deployments) + ds
            && old(chain.batches) <= chain.batches
            && ChunksOf(inputs, INIT_CHUNKS, chain.batches[|old(chain.batches)|..])
            && Flatten(chain.batches[|old(chain.batches)|..]) == inputs
            && Paired(inputs, Emissions(kept), tokensOf, |kept|, chain.tokensForIncentive, chain.emissionsPerSecond)
            && Initialised(kept, first, Flatten(chain.batches[|old(chain.batches)|..]), tokens, yieldOf, generic, collateral,
                           tokensOf, chain.tokensForIncentive, chain.emissionsPerSecond)
            && (forall c :: |old(chain.batches)| <= c < |chain.batches| - 1 ==> |chain.batches[c]| == 4)
  {
    hide Initialised, Kept, Deployments, Cache, Flatten, ChunksOf, Paired;
    ghost var first := |chain.deployments| + 1;
    var decimals, addresses, symbols, emissions, kinds, perAsset := CollectReserves(chain, entries, tokens);
    ghost var kept := Kept(entries, tokens);
    ghost var strategies := Cache(Deployments(kept, first));

    var inputs: seq<InitInput> := [];
    for i := 0 to |symbols|
      invariant |inputs| == i
      invariant forall k :: 0 <= k < i ==> inputs[k] == Input(kept[k], tokens, yieldOf, strategies, generic, collateral)
    {
      var impl := if kinds[symbols[i]] == Generic then generic else collateral;
      inputs := inputs + [InitInput(impl, decimals[i], perAsset[symbols[i]], Lookup(yieldOf, symbols[i]),
                                    addresses[i], symbols[i])];
    }
    assert inputs == Inputs(kept, tokens, yieldOf, strategies, generic, collateral);
    assert emissions == Emissions(kept);

    var chunked := Chunk(inputs, INIT_CHUNKS);
    FlattenUndoesChunk(inputs, INIT_CHUNKS, chunked);
    InitInChunks(chain, chunked, inputs, emissions, tokensOf);
    assert chain.batches[|old(chain.batches)|..] == chunked;
    forall c | |old(chain.batches)| <= c < |chain.batches| - 1 ensures |chain.batches[c]| == 4 {
      ChunkIndexing(inputs, INIT_CHUNKS, chunked, c - |old(chain.batches)|);
      assert chain.batches[c] == chunked[c - |old(chain.batches)|];
    }
    AllInitialised(entries, first, tokens, yieldOf, generic, collateral, tokensOf,
                   chain.tokensForIncentive, chain.emissionsPerSecond);
  }

  /** The first loop: skip unset tokens, deploy each strategy name once, fill the parallel
      arrays. */
  method CollectReserves(chain: Chain, entries: seq<Entry>, tokens: map<string, Address>)
    returns (decimals: seq<string>, addresses: seq<Address>, symbols: seq<string>, emissions: seq<string>,
             kinds: map<string, Kind>, perAsset: map<string, Address>)
    requires Distinct(entries)
    modifies chain`deployments
    ensures var kept := Kept(entries, tokens);
            var first := |old(chain.deployments)| + 1;
            && chain.deployments == old(chain.deployments) + Deployments(kept, first)
            && Collected(kept, tokens, first, decimals, addresses, symbols, emissions,
                         Cache(Deployments(kept, first)), perAsset, kinds)
  {
    hide Progress, Kept, Known, Lookup, Distinct, OfKnownKinds;
    ghost var first, before := |chain.deployments| + 1, chain.deployments;
    var known := Known(entries);
    KnownReady(entries, tokens);
    assert known[..0] == [];
    decimals, addresses, symbols, emissions, kinds, perAsset := [], [], [], [], map[], map[];
    var strategyAddresses: map<string, Address> := map[];
    NoProgress(tokens, before);
    for i := 0 to |known|
      invariant Progress(Kept(known[..i], tokens), tokens, before, chain.deployments, decimals, addresses, symbols, emissions,
                         strategyAddresses, perAsset, kinds)
    {
      var e := known[i];
      KeptStep(known, tokens, i);
      if Lookup(tokens, e.symbol) == 0 {
        continue;
      }
      ProgressStep(Kept(known[..i], tokens), e, tokens, before, chain.deployments, decimals, addresses, symbols, emissions,
                   strategyAddresses, perAsset, kinds);
      var name := e.params.strategyName;
      if name !in strategyAddresses {
        var address := chain.DeployStrategy(name, e.params.rates);
        strategyAddresses := strategyAddresses[name := address];
      }
      perAsset := perAsset[e.symbol := strategyAddresses[name]];
      kinds := kinds[e.symbol := e.params.kind];
      decimals := decimals + [e.params.decimals];
      addresses := addresses + [Lookup(tokens, e.symbol)];
      symbols := symbols + [e.symbol];
      emissions := emissions + [e.params.emission];
    }
    assert known[..|known|] == known;
    ProgressMade(Kept(known, tokens), tokens, before, chain.deployments, decimals, addresses, symbols, emissions,
                 strategyAddresses, perAsset, kinds);
  }

  /** The chain's deployments and what has been collected for the reserves kept so far. */
  ghost predicate Progress(kept: seq<Entry>, tokens: map<string, Address>, before: seq<Deployment>, deployments: seq<Deployment>,
                           decimals: seq<string>, addresses: seq<Address>, symbols: seq<string>, emissions: seq<string>,
                           strategyAddresses: map<string, Address>, perAsset: map<string, Address>, kinds: map<string, Kind>)
  {
    && deployments == before + Deployments(kept, |before| + 1)
    && Collected(kept, tokens, |before| + 1, decimals, addresses, symbols, emissions, strategyAddresses, perAsset, kinds)
  }

  lemma NoProgress(tokens: map<string, Address>, before: seq<Deployment>)
    ensures Kept([], tokens) == [] && Progress([], tokens, before, before, [], [], [], [], map[], map[], map[])
  {
    hide Collected;
    NothingCollected(tokens, |before| + 1);
  }

  lemma ProgressStep(kept: seq<Entry>, e: Entry, tokens: map<string, Address>, before: seq<Deployment>, deployments: seq<Deployment>,
                     decimals: seq<string>, addresses: seq<Address>, symbols: seq<string>, emissions: seq<string>,
                     strategyAddresses: map<string, Address>, perAsset: map<string, Address>, kinds: map<string, Kind>)
    requires Progress(kept, tokens, before, deployments, decimals, addresses, symbols, emissions, strategyAddresses, perAsset, kinds)
    requires Distinct(kept + [e])
    ensures var name, address := e.params.strategyName, |deployments| + 1;
            var cache := if name in strategyAddresses then strategyAddresses else strategyAddresses[name := address];
            var deployed := if name in strategyAddresses then deployments
                            else deployments + [Deployment(name, e.params.rates, address)];
            && name in cache
            && Progress(kept + [e], tokens, before, deployed, decimals + [e.params.decimals],
                        addresses + [Lookup(tokens, e.symbol)], symbols + [e.symbol], emissions + [e.params.emission],
                        cache, perAsset[e.symbol := cache[name]], kinds[e.symbol := e.params.kind])
  {
    hide Collected, Deployments, Distinct, Lookup;
    var first, name := |before| + 1, e.params.strategyName;
    CollectStep(kept, e, tokens, first, decimals, addresses, symbols, emissions, strategyAddresses, perAsset, kinds);
    var d := Deployment(name, e.params.rates, |deployments| + 1);
    assert before + Deployments(kept, first) + [d] == before + (Deployments(kept, first) + [d]);
  }

  lemma ProgressMade(kept: seq<Entry>, tokens: map<string, Address>, before: seq<Deployment>, deployments: seq<Deployment>,
                     decimals: seq<string>, addresses: seq<Address>, symbols: seq<string>, emissions: seq<string>,
                     strategyAddresses: map<string, Address>, perAsset: map<string, Address>, kinds: map<string, Kind>)
    requires Progress(kept, tokens, before, deployments, decimals, addresses, symbols, emissions, strategyAddresses, perAsset, kinds)
    ensures var first := |before| + 1;
            && deployments == before + Deployments(kept, first)
            && Collected(kept, tokens, first, decimals, addresses, symbols, emissions,
                         Cache(Deployments(kept, first)), perAsset, kinds)
  {
    hide Collected, Deployments, Cache;
    CacheIs(kept, tokens, |before| + 1, decimals, addresses, symbols, emissions, strategyAddresses, perAsset, kinds);
  }

  ghost predicate OfKnownKinds(entries: seq<Entry>) { forall e :: e in entries ==> !e.params.kind.Other? }

  /** Selecting by kind first keeps the same reserves, in a list without repetitions. */
  lemma KnownReady(entries: seq<Entry>, tokens: map<string, Address>)
    requires Distinct(entries)
    ensures Kept(Known(entries), tokens) == Kept(entries, tokens)
    ensures Distinct(Known(entries)) && OfKnownKinds(Known(entries))
  {
    hide Kept, Known;
    KnownKept(entries, tokens);
    KnownMembers(entries, tokens);
  }

  /** What the loop does for one more kept reserve. */
  lemma CollectStep(kept: seq<Entry>, e: Entry, tokens: map<string, Address>, first: Address,
                    decimals: seq<string>, addresses: seq<Address>, symbols: seq<string>, emissions: seq<string>,
                    strategyAddresses: map<string, Address>, perAsset: map<string, Address>, kinds: map<string, Kind>)
    requires Collected(kept, tokens, first, decimals, addresses, symbols, emissions, strategyAddresses, perAsset, kinds)
    requires Distinct(kept + [e]) && first > 0
    ensures var ds, name := Deployments(kept, first), e.params.strategyName;
            var cache := if name in strategyAddresses then strategyAddresses else strategyAddresses[name := first + |ds|];
            && Deployments(kept + [e], first)
               == (if name in strategyAddresses then ds else ds + [Deployment(name, e.params.rates, first + |ds|)])
            && name in cache
            && Collected(kept + [e], tokens, first, decimals + [e.params.decimals],
                         addresses + [Lookup(tokens, e.symbol)], symbols + [e.symbol], emissions + [e.params.emission],
                         cache, perAsset[e.symbol := cache[name]], kinds[e.symbol := e.params.kind])
  {
    hide Collected, Deployments, Cache, Distinct, Lookup;
    CacheExtends(kept, e, first);
    CollectedExtends(kept, e, tokens, first, decimals, addresses, symbols, emissions, strategyAddresses, perAsset, kinds);
    CacheIs(kept, tokens, first, decimals, addresses, symbols, emissions, strategyAddresses, perAsset, kinds);
  }

  lemma NothingCollected(tokens: map<string, Address>, first: Address)
    ensures Kept([], tokens) == [] && Deployments([], first) == []
    ensures Collected([], tokens, first, [], [], [], [], map[], map[], map[])
  {
  }

  lemma KeptStep(known: seq<Entry>, tokens: map<string, Address>, i: nat)
    requires i < |known| && Distinct(known) && OfKnownKinds(known)
    ensures Kept(known[..i + 1], tokens)
         == if Lookup(tokens, known[i].symbol) == 0 then Kept(known[..i], tokens) else Kept(known[..i], tokens) + [known[i]]
    ensures Distinct(Kept(known[..i], tokens) + [known[i]])
  {
    assert known[..i + 1][..i] == known[..i];
    KnownMembers(known[..i], tokens);
    StaysDistinct(Kept(known[..i], tokens), known[..i], known[i]);
  }

  lemma CacheIs(kept: seq<Entry>, tokens: map<string, Address>, first: Address,
                decimals: seq<string>, addresses: seq<Address>, symbols: seq<string>, emissions: seq<string>,
                strategyAddresses: map<string, Address>, perAsset: map<string, Address>, kinds: map<string, Kind>)
    requires Collected(kept, tokens, first, decimals, addresses, symbols, emissions, strategyAddresses, perAsset, kinds)
    ensures strategyAddresses == Cache(Deployments(kept, first))
  {
  }

  /** The chunk loop: initialise a batch, then pair up its tokens with the emission found at
      the chunk's offset in the flat array. */
  method InitInChunks(chain: Chain, chunked: seq<seq<InitInput>>, ghost inputs: seq<InitInput>, emissions: seq<string>,
                      tokensOf: Address -> (Address, Address))
    requires ChunksOf(inputs, INIT_CHUNKS, chunked) && |inputs| == |emissions|
    modifies chain`batches, chain`tokensForIncentive, chain`emissionsPerSecond
    ensures chain.batches == old(chain.batches) + chunked
    ensures Paired(inputs, emissions, tokensOf, |inputs|, chain.tokensForIncentive, chain.emissionsPerSecond)
  {
    hide Paired, ChunksOf, ChunksUpTo;
    var tokensForIncentive: seq<Address>, emissionsPerSecond: seq<string> := [], [];
    NothingPaired(inputs, emissions, tokensOf);
    ChunkIndexing(inputs, INIT_CHUNKS, chunked, |chunked|);
    for c := 0 to |chunked|
      invariant chain.batches == old(chain.batches) + chunked[..c]
      invariant Paired(inputs, emissions, tokensOf, Covered(inputs, INIT_CHUNKS, c), tokensForIncentive, emissionsPerSecond)
    {
      ChunkIndexing(inputs, INIT_CHUNKS, chunked, c);
      chain.BatchInitReserve(chunked[c]);
      assert chunked[..c + 1] == chunked[..c] + [chunked[c]];
      for t := 0 to |chunked[c]|
        invariant chain.batches == old(chain.batches) + chunked[..c + 1]
        invariant Paired(inputs, emissions, tokensOf, c * INIT_CHUNKS + t, tokensForIncentive, emissionsPerSecond)
      {
        PairedExtends(inputs, emissions, tokensOf, c * INIT_CHUNKS + t, tokensForIncentive, emissionsPerSecond);
        assert chunked[c][t] == inputs[c * INIT_CHUNKS + t];
        var response := tokensOf(chunked[c][t].underlyingAsset);
        tokensForIncentive := tokensForIncentive + [response.0, response.1];
        emissionsPerSecond := emissionsPerSecond
          + [emissions[c * INIT_CHUNKS + t], emissions[c * INIT_CHUNKS + t]];
      }
    }
    assert chunked[..|chunked|] == chunked;
    chain.ConfigureAssets(tokensForIncentive, emissionsPerSecond);
  }
}
