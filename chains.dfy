/** The chain-list transforms exported by
    packages/hooks/src/orderly/useChains.ts: `fillChainsInfo`,
    `getSwapSupportChains`, `updateOrderlyChains` and `updateTestnetInfo`.
    The library lookups they call (`chainsInfoMap`, `isTestnet`, the
    bridgeless predicate and the caller's filter) are parameters. */
module Chains {
  import opened Optional

  // ---------------------------------------------------------------------------
  // Data model
  // ---------------------------------------------------------------------------

  /** An entry of `token_infos`. `swapEnable` is the truthiness of
      `swap_enable` (an absent flag is false). */
  datatype TokenInfo = TokenInfo(symbol: string, address: Option<string>, decimals: Option<int>, swapEnable: bool)

  /** `network_infos`; a field the object does not carry is `None`. */
  datatype NetworkInfos = NetworkInfos(
    name: Option<string>,
    shortName: Option<string>,
    chainId: int,
    withdrawalFee: Option<real>,
    crossChainWithdrawalFee: Option<real>,
    bridgeless: Option<bool>,
    mainnet: Option<bool>,
    bridgeEnable: Option<bool>,
    publicRpcUrl: Option<string>,
    currencySymbol: Option<string>,
    explorerBaseUrl: Option<string>,
    estTxnMins: Option<real>,
    woofiRouter: Option<string>,
    woofiDepositor: Option<string>)

  /** `API.Chain`: a chain with its network description and tokens. */
  datatype Chain = Chain(name: Option<string>, network: NetworkInfos, tokens: seq<TokenInfo>)

  /** One element of `chain_details` in the `/v1/public/token` answer. */
  datatype ChainDetail = ChainDetail(
    chainId: int,
    chainName: Option<string>,
    withdrawalFee: Option<real>,
    crossChainWithdrawalFee: Option<real>,
    contractAddress: Option<string>,
    decimals: Option<int>)

  /** One element of the `/v1/public/token` answer: a token and the chains
      it lives on. */
  datatype TokenEntry = TokenEntry(token: string, details: seq<ChainDetail>)

  /** One element of the `/v1/public/chain_info` answer. */
  datatype ChainInfo = ChainInfo(
    chainId: int,
    name: Option<string>,
    publicRpcUrl: Option<string>,
    currencySymbol: Option<string>,
    explorerBaseUrl: Option<string>)

  /** `typeof filter !== "function" || filter(c)` */
  predicate Accepts(filter: Option<Chain -> bool>, c: Chain) {
    filter.None? || filter.value(c)
  }

  /** The chains the filter accepts, in order. */
  function Keep(filter: Option<Chain -> bool>, s: seq<Chain>): (r: seq<Chain>)
    ensures |r| <= |s|
  {
    if s == [] then []
    else Keep(filter, s[..|s| - 1]) + (if Accepts(filter, s[|s| - 1]) then [s[|s| - 1]] else [])
  }

  /** Keeping is filtering: exactly the accepted chains stay, and without
      a filter everything stays. */
  lemma {:induction false} KeepMeaning(filter: Option<Chain -> bool>, s: seq<Chain>)
    ensures forall c :: c in Keep(filter, s) <==> c in s && Accepts(filter, c)
    ensures filter.None? ==> Keep(filter, s) == s
    decreases |s|
  {
    if s != [] {
      KeepMeaning(filter, s[..|s| - 1]);
      assert s == s[..|s| - 1] + [s[|s| - 1]];
    }
  }

  lemma {:induction false} KeepAppend(filter: Option<Chain -> bool>, a: seq<Chain>, b: seq<Chain>)
    ensures Keep(filter, a + b) == Keep(filter, a) + Keep(filter, b)
    decreases |b|
  {
    if b == [] {
      assert a + b == a;
    } else {
      assert (a + b)[..|a + b| - 1] == a + b[..|b| - 1];
      KeepAppend(filter, a, b[..|b| - 1]);
    }
  }

  lemma KeepSnoc(filter: Option<Chain -> bool>, s: seq<Chain>, c: Chain)
    ensures Keep(filter, s + [c]) == Keep(filter, s) + (if Accepts(filter, c) then [c] else [])
  {
    assert (s + [c])[..|s|] == s;
  }

  // ---------------------------------------------------------------------------
  // fillChainsInfo
  // ---------------------------------------------------------------------------

  /** The chain built for one chain detail of one token. */
  function FillEntry(item: TokenEntry, d: ChainDetail, chainNameOf: int -> Option<string>): Chain {
    var name :=
      if d.chainName.Some? then d.chainName.value
      else if chainNameOf(d.chainId).Some? then chainNameOf(d.chainId).value
      else "--";
    Chain(
      None,
      NetworkInfos(Some(name), None, d.chainId, d.withdrawalFee, d.crossChainWithdrawalFee,
                   Some(true), None, None, None, None, None, None, None, None),
      [TokenInfo(item.token, d.contractAddress, d.decimals, false)])
  }

  /** The name falls back from the detail's own name to the library's name
      for the chain id to "--" (`??` only skips a missing name, so an empty
      one is kept); the token carries the detail's address and decimals and
      no swap flag. */
  lemma FillEntryMeaning(item: TokenEntry, d: ChainDetail, chainNameOf: int -> Option<string>)
    ensures var c := FillEntry(item, d, chainNameOf);
      && (d.chainName.Some? ==> c.network.name == d.chainName)
      && (d.chainName.None? && chainNameOf(d.chainId).Some? ==> c.network.name == chainNameOf(d.chainId))
      && (d.chainName.None? && chainNameOf(d.chainId).None? ==> c.network.name == Some("--"))
      && c.network.chainId == d.chainId && c.network.bridgeless == Some(true)
      && c.network.withdrawalFee == d.withdrawalFee && c.network.crossChainWithdrawalFee == d.crossChainWithdrawalFee
      && c.tokens == [TokenInfo(item.token, d.contractAddress, d.decimals, false)]
  {
  }

  /** The chains built for the first details of one token, in order. */
  function DetailEntries(item: TokenEntry, details: seq<ChainDetail>, chainNameOf: int -> Option<string>): (r: seq<Chain>)
    ensures |r| == |details|
  {
    if details == [] then []
    else DetailEntries(item, details[..|details| - 1], chainNameOf) + [FillEntry(item, details[|details| - 1], chainNameOf)]
  }

  lemma {:induction false} DetailEntriesAt(item: TokenEntry, details: seq<ChainDetail>, chainNameOf: int -> Option<string>)
    ensures forall j :: 0 <= j < |details| ==> DetailEntries(item, details, chainNameOf)[j] == FillEntry(item, details[j], chainNameOf)
    decreases |details|
  {
    if details != [] {
      DetailEntriesAt(item, details[..|details| - 1], chainNameOf);
    }
  }

  /** All chains built, tokens first, then their details. */
  function Entries(items: seq<TokenEntry>, chainNameOf: int -> Option<string>): seq<Chain> {
    if items == [] then []
    else
      var item := items[|items| - 1];
      Entries(items[..|items| - 1], chainNameOf) + DetailEntries(item, item.details, chainNameOf)
  }

  /** The number of chain details over all tokens. */
  function TotalDetails(items: seq<TokenEntry>): nat {
    if items == [] then 0 else TotalDetails(items[..|items| - 1]) + |items[|items| - 1].details|
  }

  /** What `fillChainsInfo` returns. */
  function FilledChains(chains: Option<seq<TokenEntry>>, chainNameOf: int -> Option<string>, filter: Option<Chain -> bool>): seq<Chain> {
    if chains.None? then [] else Keep(filter, Entries(chains.value, chainNameOf))
  }

  /** The entries come in nested order: the `j`-th detail of the `i`-th
      token is entry number `TotalDetails(items[..i]) + j`. */
  lemma {:induction false} EntriesAt(items: seq<TokenEntry>, chainNameOf: int -> Option<string>, i: int, j: int)
    requires 0 <= i < |items| && 0 <= j < |items[i].details|
    ensures |Entries(items, chainNameOf)| == TotalDetails(items)
    ensures TotalDetails(items[..i]) + j < TotalDetails(items)
    ensures Entries(items, chainNameOf)[TotalDetails(items[..i]) + j] == FillEntry(items[i], items[i].details[j], chainNameOf)
    decreases |items|
  {
    var p := items[..|items| - 1];
    EntriesLength(p, chainNameOf);
    if i < |p| {
      EntriesAt(p, chainNameOf, i, j);
      assert items[..i] == p[..i];
      assert items[i] == p[i];
    } else {
      assert items[..i] == p;
      DetailEntriesAt(items[i], items[i].details, chainNameOf);
    }
  }

  /** One entry per chain detail. */
  lemma {:induction false} EntriesLength(items: seq<TokenEntry>, chainNameOf: int -> Option<string>)
    ensures |Entries(items, chainNameOf)| == TotalDetails(items)
    decreases |items|
  {
    if items != [] {
      EntriesLength(items[..|items| - 1], chainNameOf);
    }
  }

  /** Every chain `fillChainsInfo` returns is bridgeless, carries one token,
      the token of the entry it was built from, and has that detail's chain
      id; with a filter, every one is accepted by it. */
  lemma FilledChainsShape(items: seq<TokenEntry>, chainNameOf: int -> Option<string>, filter: Option<Chain -> bool>)
    ensures forall c :: c in FilledChains(Some(items), chainNameOf, filter) ==>
      Accepts(filter, c) && c.network.bridgeless == Some(true) && |c.tokens| == 1 &&
      exists i, j :: 0 <= i < |items| && 0 <= j < |items[i].details| &&
        c.tokens[0].symbol == items[i].token && c.network.chainId == items[i].details[j].chainId
  {
    var e := Entries(items, chainNameOf);
    KeepMeaning(filter, e);
    forall c | c in e
      ensures exists i, j :: 0 <= i < |items| && 0 <= j < |items[i].details| && c == FillEntry(items[i], items[i].details[j], chainNameOf)
    {
      EntriesFrom(items, chainNameOf, c);
    }
  }

  lemma {:induction false} EntriesFrom(items: seq<TokenEntry>, chainNameOf: int -> Option<string>, c: Chain)
    requires c in Entries(items, chainNameOf)
    ensures exists i, j :: 0 <= i < |items| && 0 <= j < |items[i].details| && c == FillEntry(items[i], items[i].details[j], chainNameOf)
    decreases |items|
  {
    var p := items[..|items| - 1];
    var item := items[|items| - 1];
    if c in Entries(p, chainNameOf) {
      EntriesFrom(p, chainNameOf, c);
      var i, j :| 0 <= i < |p| && 0 <= j < |p[i].details| && c == FillEntry(p[i], p[i].details[j], chainNameOf);
      assert items[i] == p[i];
    } else {
      var d := DetailEntries(item, item.details, chainNameOf);
      DetailEntriesAt(item, item.details, chainNameOf);
      var j :| 0 <= j < |d| && d[j] == c;
      assert c == FillEntry(items[|items| - 1], items[|items| - 1].details[j], chainNameOf);
    }
  }

  /** No input gives no chains; without a filter there is one chain per
      chain detail. */
  lemma FilledChainsCount(chains: Option<seq<TokenEntry>>, chainNameOf: int -> Option<string>, filter: Option<Chain -> bool>)
    ensures chains.None? ==> FilledChains(chains, chainNameOf, filter) == []
    ensures chains.Some? && filter.None? ==> |FilledChains(chains, chainNameOf, filter)| == TotalDetails(chains.value)
  {
    if chains.Some? {
      KeepMeaning(filter, Entries(chains.value, chainNameOf));
      EntriesLength(chains.value, chainNameOf);
    }
  }

  lemma DetailStep(item: TokenEntry, chainNameOf: int -> Option<string>, filter: Option<Chain -> bool>, j: int)
    requires 0 <= j < |item.details|
    ensures var c := FillEntry(item, item.details[j], chainNameOf);
      Keep(filter, DetailEntries(item, item.details[..j + 1], chainNameOf)) ==
      Keep(filter, DetailEntries(item, item.details[..j], chainNameOf)) + (if Accepts(filter, c) then [c] else [])
  {
    assert item.details[..j + 1][..j] == item.details[..j];
    KeepSnoc(filter, DetailEntries(item, item.details[..j], chainNameOf), FillEntry(item, item.details[j], chainNameOf));
  }

  /** The inner `item.chain_details.forEach` of `fillChainsInfo`: the
      accepted chains of the details of one token, in the order they are
      pushed. */
  method PushDetails(item: TokenEntry, chainNameOf: int -> Option<string>, filter: Option<Chain -> bool>)
    returns (pushed: seq<Chain>)
    ensures pushed == Keep(filter, DetailEntries(item, item.details, chainNameOf))
  {
    pushed := [];
    for j := 0 to |item.details|
      invariant pushed == Keep(filter, DetailEntries(item, item.details[..j], chainNameOf))
    {
      var d := item.details[j];
      var c := FillEntry(item, d, chainNameOf);
      DetailStep(item, chainNameOf, filter, j);
      if Accepts(filter, c) {
        pushed := pushed + [c];
      }
    }
    assert item.details[..|item.details|] == item.details;
  }

  lemma EntriesStep(items: seq<TokenEntry>, chainNameOf: int -> Option<string>, filter: Option<Chain -> bool>, i: int)
    requires 0 <= i < |items|
    ensures Keep(filter, Entries(items[..i + 1], chainNameOf)) ==
      Keep(filter, Entries(items[..i], chainNameOf)) + Keep(filter, DetailEntries(items[i], items[i].details, chainNameOf))
  {
    assert items[..i + 1][..i] == items[..i];
    KeepAppend(filter, Entries(items[..i], chainNameOf), DetailEntries(items[i], items[i].details, chainNameOf));
  }

  /** `fillChainsInfo`: an outer `forEach` over the tokens around the inner
      one over their chain details. */
  method FillChainsInfo(chains: Option<seq<TokenEntry>>, chainNameOf: int -> Option<string>, filter: Option<Chain -> bool>)
    returns (result: seq<Chain>)
    ensures result == FilledChains(chains, chainNameOf, filter)
  {
    result := [];
    if chains.None? {
      return;
    }
    var items := chains.value;
    for i := 0 to |items|
      invariant result == Keep(filter, Entries(items[..i], chainNameOf))
    {
      var item := items[i];
      var pushed := PushDetails(item, chainNameOf, filter);
      EntriesStep(items, chainNameOf, filter, i);
      result := result + pushed;
    }
    assert items[..|items|] == items;
  }

  // ---------------------------------------------------------------------------
  // getSwapSupportChains
  // ---------------------------------------------------------------------------

  /** `chain.token_infos.filter((token) => !!token.swap_enable)` */
  function SwapTokens(tokens: seq<TokenInfo>): (r: seq<TokenInfo>)
    ensures |r| <= |tokens|
  {
    if tokens == [] then []
    else SwapTokens(tokens[..|tokens| - 1]) + (if tokens[|tokens| - 1].swapEnable then [tokens[|tokens| - 1]] else [])
  }

  /** The swap-enabled tokens are exactly the input tokens with the flag set. */
  lemma {:induction false} SwapTokensMeaning(tokens: seq<TokenInfo>)
    ensures forall t :: t in SwapTokens(tokens) <==> t in tokens && t.swapEnable
    decreases |tokens|
  {
    if tokens != [] {
      SwapTokensMeaning(tokens[..|tokens| - 1]);
      assert tokens == tokens[..|tokens| - 1] + [tokens[|tokens| - 1]];
    }
  }

  /** `mergeDeepRight(chain, {...})`: the key becomes the name and the short
      name, the bridgeless flag is looked up by chain id, and the token
      list is replaced by its swap-enabled part. */
  function SwapItem(key: string, chain: Chain, isBridgeless: int -> bool): Chain {
    chain.(
      name := Some(key),
      network := chain.network.(bridgeless := Some(isBridgeless(chain.network.chainId)), shortName := Some(key)),
      tokens := SwapTokens(chain.tokens))
  }

  /** `item.network_infos.mainnet` is truthy. */
  predicate IsMainnet(c: Chain) {
    c.network.mainnet == Some(true)
  }

  /** An item survives when it has a swap-enabled token and the filter
      accepts it. */
  predicate SwapKept(item: Chain, filter: Option<Chain -> bool>) {
    |item.tokens| != 0 && Accepts(filter, item)
  }

  /** What `getSwapSupportChains` returns, for the entries of `data` in
      `Object.keys` order: `(mainnet, testnet)`. */
  function SwapSupportChains(data: seq<(string, Chain)>, isBridgeless: int -> bool, filter: Option<Chain -> bool>)
    : (r: (seq<Chain>, seq<Chain>))
    ensures |r.0| + |r.1| <= |data|
  {
    if data == [] then ([], [])
    else
      var r := SwapSupportChains(data[..|data| - 1], isBridgeless, filter);
      var (key, chain) := data[|data| - 1];
      var item := SwapItem(key, chain, isBridgeless);
      if !SwapKept(item, filter) then r
      else if IsMainnet(item) then (r.0 + [item], r.1)
      else (r.0, r.1 + [item])
  }

  /** `c` is the item built from some entry of `data`. */
  ghost predicate BuiltFrom(data: seq<(string, Chain)>, isBridgeless: int -> bool, c: Chain) {
    exists i :: 0 <= i < |data| && c == SwapItem(data[i].0, data[i].1, isBridgeless)
  }

  lemma BuiltFromSnoc(data: seq<(string, Chain)>, isBridgeless: int -> bool, c: Chain)
    requires data != []
    ensures BuiltFrom(data, isBridgeless, c) <==>
      (BuiltFrom(data[..|data| - 1], isBridgeless, c) ||
       c == SwapItem(data[|data| - 1].0, data[|data| - 1].1, isBridgeless))
  {
    var p := data[..|data| - 1];
    if BuiltFrom(data, isBridgeless, c) {
      var i :| 0 <= i < |data| && c == SwapItem(data[i].0, data[i].1, isBridgeless);
      if i < |p| {
        assert p[i] == data[i];
      }
    }
    if BuiltFrom(p, isBridgeless, c) {
      var i :| 0 <= i < |p| && c == SwapItem(p[i].0, p[i].1, isBridgeless);
      assert p[i] == data[i];
    }
  }

  /** The two lists partition the kept items: a chain is in the first list
      exactly when it is a kept, mainnet item built from some entry, and in
      the second exactly when it is a kept item that is not mainnet. */
  lemma {:induction false} SwapSupportChainsMeaning(data: seq<(string, Chain)>, isBridgeless: int -> bool, filter: Option<Chain -> bool>)
    ensures var r := SwapSupportChains(data, isBridgeless, filter);
      forall c :: c in r.0 <==> (IsMainnet(c) && SwapKept(c, filter) && BuiltFrom(data, isBridgeless, c))
    ensures var r := SwapSupportChains(data, isBridgeless, filter);
      forall c :: c in r.1 <==> (!IsMainnet(c) && SwapKept(c, filter) && BuiltFrom(data, isBridgeless, c))
    decreases |data|
  {
    if data != [] {
      SwapSupportChainsMeaning(data[..|data| - 1], isBridgeless, filter);
      forall c {
        BuiltFromSnoc(data, isBridgeless, c);
      }
    }
  }

  /** Every item `getSwapSupportChains` returns is named by its key, has
      that key as short name, the looked-up bridgeless flag, and exactly the
      swap-enabled tokens of its source entry (at least one). */
  lemma SwapItemShape(key: string, chain: Chain, isBridgeless: int -> bool, filter: Option<Chain -> bool>)
    requires SwapKept(SwapItem(key, chain, isBridgeless), filter)
    ensures var item := SwapItem(key, chain, isBridgeless);
      && item.name == Some(key) && item.network.shortName == Some(key)
      && item.network.bridgeless == Some(isBridgeless(chain.network.chainId))
      && item.network.chainId == chain.network.chainId && item.network.mainnet == chain.network.mainnet
      && |item.tokens| > 0
      && forall t :: t in item.tokens <==> t in chain.tokens && t.swapEnable
  {
    SwapTokensMeaning(chain.tokens);
  }

  /** `getSwapSupportChains`: one pass over the keys, pushing each kept item
      onto the mainnet or the testnet list. */
  method GetSwapSupportChains(data: seq<(string, Chain)>, isBridgeless: int -> bool, filter: Option<Chain -> bool>)
    returns (mainnet: seq<Chain>, testnet: seq<Chain>)
    ensures (mainnet, testnet) == SwapSupportChains(data, isBridgeless, filter)
  {
    mainnet, testnet := [], [];
    for i := 0 to |data|
      invariant (mainnet, testnet) == SwapSupportChains(data[..i], isBridgeless, filter)
    {
      assert data[..i + 1][..i] == data[..i];
      var (key, chain) := data[i];
      var item := SwapItem(key, chain, isBridgeless);
      if |item.tokens| == 0 {
        continue;
      }
      if !Accepts(filter, item) {
        continue;
      }
      if item.network.mainnet == Some(true) {
        mainnet := mainnet + [item];
      } else {
        testnet := testnet + [item];
      }
    }
    assert data[..|data|] == data;
  }

  // ---------------------------------------------------------------------------
  // updateOrderlyChains
  // ---------------------------------------------------------------------------

  /** `chainInfos?.find((item) => item.chain_id == chainId)` */
  function FindInfo(infos: Option<seq<ChainInfo>>, chainId: int): (r: Option<ChainInfo>)
    ensures r.Some? ==> infos.Some? && r.value in infos.value && r.value.chainId == chainId
    ensures r.None? <==> infos.None? || forall x :: x in infos.value ==> x.chainId != chainId
    ensures r.Some? ==> exists i :: 0 <= i < |infos.value| && infos.value[i] == r.value &&
                                    (forall j :: 0 <= j < i ==> infos.value[j].chainId != chainId)
    decreases if infos.Some? then |infos.value| else 0
  {
    if infos.None? || infos.value == [] then None
    else if infos.value[0].chainId == chainId then Some(infos.value[0])
    else
      var r := FindInfo(Some(infos.value[1..]), chainId);
      if r.Some? then
        var i :| 0 <= i < |infos.value[1..]| && infos.value[1..][i] == r.value &&
          forall j :: 0 <= j < i ==> infos.value[1..][j].chainId != chainId;
        assert infos.value[i + 1] == r.value;
        assert forall j :: 0 <= j < i + 1 ==> infos.value[j].chainId != chainId by {
          forall j | 0 <= j < i + 1 ensures infos.value[j].chainId != chainId {
            if j > 0 { assert infos.value[j] == infos.value[1..][j - 1]; }
          }
        }
        r
      else r
  }

  /** `{..._chain.network_infos, name, shortName: name, ...}` */
  function Overlay(n: NetworkInfos, info: ChainInfo): NetworkInfos {
    n.(name := info.name, shortName := info.name, publicRpcUrl := info.publicRpcUrl,
       currencySymbol := info.currencySymbol, bridgeEnable := Some(true), mainnet := Some(true),
       explorerBaseUrl := info.explorerBaseUrl, estTxnMins := None,
       woofiRouter := Some(""), woofiDepositor := Some(""))
  }

  /** One chain after the overlay. */
  function UpdatedChain(chain: Chain, infos: Option<seq<ChainInfo>>): Chain {
    var info := FindInfo(infos, chain.network.chainId);
    if info.Some? then chain.(network := Overlay(chain.network, info.value)) else chain
  }

  function UpdatedAll(chains: seq<Chain>, infos: Option<seq<ChainInfo>>): (r: seq<Chain>)
    ensures |r| == |chains|
  {
    if chains == [] then []
    else UpdatedAll(chains[..|chains| - 1], infos) + [UpdatedChain(chains[|chains| - 1], infos)]
  }

  lemma {:induction false} UpdatedAllAt(chains: seq<Chain>, infos: Option<seq<ChainInfo>>)
    ensures forall i :: 0 <= i < |chains| ==> UpdatedAll(chains, infos)[i] == UpdatedChain(chains[i], infos)
    decreases |chains|
  {
    if chains != [] {
      UpdatedAllAt(chains[..|chains| - 1], infos);
    }
  }

  lemma UpdatedAllPrefix(chains: seq<Chain>, infos: Option<seq<ChainInfo>>, i: nat)
    requires i < |chains|
    ensures UpdatedAll(chains[..i + 1], infos) == UpdatedAll(chains[..i], infos) + [UpdatedChain(chains[i], infos)]
  {
    assert chains[..i + 1][..i] == chains[..i];
  }

  /** What `updateOrderlyChains` returns. */
  function UpdatedChains(chains: seq<Chain>, infos: Option<seq<ChainInfo>>, filter: Option<Chain -> bool>): seq<Chain> {
    Keep(filter, UpdatedAll(chains, infos))
  }

  /** A chain with matching chain info becomes a bridge-enabled mainnet
      chain named after the info, keeping its id, fees, bridgeless flag and
      tokens; a chain without one is left as it is. */
  lemma UpdatedChainMeaning(chain: Chain, infos: Option<seq<ChainInfo>>)
    ensures var u := UpdatedChain(chain, infos);
      && u.name == chain.name && u.tokens == chain.tokens
      && u.network.chainId == chain.network.chainId
      && u.network.withdrawalFee == chain.network.withdrawalFee
      && u.network.crossChainWithdrawalFee == chain.network.crossChainWithdrawalFee
      && u.network.bridgeless == chain.network.bridgeless
      && (FindInfo(infos, chain.network.chainId).None? ==> u == chain)
      && (FindInfo(infos, chain.network.chainId).Some? ==>
            var info := FindInfo(infos, chain.network.chainId).value;
            info in infos.value && info.chainId == chain.network.chainId &&
            u.network.mainnet == Some(true) && u.network.bridgeEnable == Some(true) &&
            u.network.name == info.name && u.network.shortName == info.name)
  {
  }

  /** Without a filter, `updateOrderlyChains` keeps every chain, in order;
      with one, it keeps exactly the updated chains the filter accepts. */
  lemma UpdatedChainsMeaning(chains: seq<Chain>, infos: Option<seq<ChainInfo>>, filter: Option<Chain -> bool>)
    ensures |UpdatedChains(chains, infos, filter)| <= |chains|
    ensures filter.None? ==> (|UpdatedChains(chains, infos, filter)| == |chains| &&
      forall i :: 0 <= i < |chains| ==> UpdatedChains(chains, infos, filter)[i] == UpdatedChain(chains[i], infos))
    ensures forall c :: c in UpdatedChains(chains, infos, filter) <==>
      Accepts(filter, c) && exists i :: 0 <= i < |chains| && c == UpdatedChain(chains[i], infos)
  {
    var u := UpdatedAll(chains, infos);
    KeepMeaning(filter, u);
    UpdatedAllAt(chains, infos);
    forall c ensures c in u <==> exists i :: 0 <= i < |chains| && c == UpdatedChain(chains[i], infos) {
      if c in u {
        var i :| 0 <= i < |u| && u[i] == c;
      }
    }
  }

  /** The body of the `forEach` callback of `updateOrderlyChains`: overlay
      the chain info with the chain's id, when there is one. */
  method UpdateOne(chain: Chain, infos: Option<seq<ChainInfo>>) returns (updated: Chain)
    ensures updated == UpdatedChain(chain, infos)
  {
    updated := chain;
    var networkInfo := FindInfo(infos, chain.network.chainId);
    if networkInfo.Some? {
      updated := chain.(network := Overlay(chain.network, networkInfo.value));
    }
  }

  /** `updateOrderlyChains`: one pass pushing each (possibly overlaid)
      chain the filter accepts. */
  method UpdateOrderlyChains(chains: seq<Chain>, infos: Option<seq<ChainInfo>>, filter: Option<Chain -> bool>)
    returns (result: seq<Chain>)
    ensures result == UpdatedChains(chains, infos, filter)
  {
    result := [];
    for i := 0 to |chains|
      invariant result == Keep(filter, UpdatedAll(chains[..i], infos))
    {
      var chain := UpdateOne(chains[i], infos);
      UpdatedAllPrefix(chains, infos, i);
      KeepSnoc(filter, UpdatedAll(chains[..i], infos), chain);
      if Accepts(filter, chain) {
        result := result + [chain];
      }
    }
    assert chains[..|chains|] == chains;
  }

  // ---------------------------------------------------------------------------
  // updateTestnetInfo
  // ---------------------------------------------------------------------------

  /** `findIndex((item) => item.network_infos.chain_id === chainId)` */
  function ChainIndex(s: seq<Chain>, chainId: int): (i: int)
    ensures -1 <= i < |s|
    ensures 0 <= i ==> s[i].network.chainId == chainId && forall j :: 0 <= j < i ==> s[j].network.chainId != chainId
    ensures i == -1 <==> forall j :: 0 <= j < |s| ==> s[j].network.chainId != chainId
  {
    if s == [] then -1
    else if s[0].network.chainId == chainId then 0
    else
      var i := ChainIndex(s[1..], chainId);
      if i == -1 then -1 else i + 1
  }

  /** The testnet list after `updateTestnetInfo`. */
  function TestnetUpdated(s: seq<Chain>, chainId: int, chain: Chain, isTestnet: int -> bool): seq<Chain> {
    var index := ChainIndex(s, chainId);
    if isTestnet(chainId) && index > -1 then s[index := chain] else s
  }

  /** Only the first entry with the chain id is replaced, and only for a
      testnet id; the length and every other entry stay. */
  lemma TestnetUpdatedMeaning(s: seq<Chain>, chainId: int, chain: Chain, isTestnet: int -> bool)
    ensures |TestnetUpdated(s, chainId, chain, isTestnet)| == |s|
    ensures !isTestnet(chainId) || (forall j :: 0 <= j < |s| ==> s[j].network.chainId != chainId) ==>
      TestnetUpdated(s, chainId, chain, isTestnet) == s
    ensures forall j :: 0 <= j < |s| && TestnetUpdated(s, chainId, chain, isTestnet)[j] != s[j] ==>
      isTestnet(chainId) && s[j].network.chainId == chainId &&
      (forall k :: 0 <= k < j ==> s[k].network.chainId != chainId) &&
      TestnetUpdated(s, chainId, chain, isTestnet)[j] == chain
    ensures isTestnet(chainId) && ChainIndex(s, chainId) != -1 ==>
      TestnetUpdated(s, chainId, chain, isTestnet)[ChainIndex(s, chainId)] == chain
  {
  }

  /** `updateTestnetInfo`: replace, in the caller's array, the first entry
      with the given testnet chain id. */
  method UpdateTestnetInfo(testnetArr: array<Chain>, chainId: int, chain: Chain, isTestnet: int -> bool)
    modifies testnetArr
    ensures testnetArr[..] == TestnetUpdated(old(testnetArr[..]), chainId, chain, isTestnet)
  {
    if isTestnet(chainId) {
      var index := -1;
      var k := 0;
      while k < testnetArr.Length
        invariant 0 <= k <= testnetArr.Length
        invariant forall j :: 0 <= j < k ==> testnetArr[j].network.chainId != chainId
        decreases testnetArr.Length - k
      {
        if testnetArr[k].network.chainId == chainId {
          index := k;
          break;
        }
        k := k + 1;
      }
      assert index == ChainIndex(testnetArr[..], chainId);
      if index > -1 {
        testnetArr[index] := chain;
      }
    }
  }
}
