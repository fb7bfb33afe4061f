/** The token and wallet selectors of selectors/wallet.ts: the merged token list, the
    tokens the wallet config asks for, token balances, and the list of wallets that
    cannot be used, with a reason for each. Token amounts are natural numbers. */
module WalletSelectors {
  import opened Wrappers
  import opened Seqs
  import StringOrder

  /** A token of a network's config, or one the user added. */
  datatype Token = Token(address: string, symbol: string, decimal: nat)

  /** A token with the `custom` mark; `false` stands for the mark being absent. */
  datatype MergedToken = MergedToken(address: string, symbol: string, decimal: nat, custom: bool)

  /** The wallet's record for one symbol in `state.wallet.tokens`. */
  datatype BalanceRecord = BalanceRecord(balance: nat, error: Option<string>)

  datatype TokenBalance = TokenBalance(symbol: string, balance: nat, custom: bool, decimal: nat, error: Option<string>)

  /** `state.wallet.config`; `tokens` may be absent. */
  datatype WalletConfig = WalletConfig(tokens: Option<seq<string>>)

  function Merge(t: Token, custom: bool): MergedToken {
    MergedToken(t.address, t.symbol, t.decimal, custom)
  }

  /** `getTokens`: the network's tokens, then the custom tokens marked as custom. */
  function GetTokens(networkTokens: seq<Token>, customTokens: seq<Token>): (r: seq<MergedToken>)
    ensures |r| == |networkTokens| + |customTokens|
    ensures forall i :: 0 <= i < |networkTokens| ==> r[i] == Merge(networkTokens[i], false)
    ensures forall i :: 0 <= i < |customTokens| ==> r[|networkTokens| + i] == Merge(customTokens[i], true)
  {
    seq(|networkTokens|, i requires 0 <= i < |networkTokens| => Merge(networkTokens[i], false))
    + seq(|customTokens|, i requires 0 <= i < |customTokens| => Merge(customTokens[i], true))
  }

  /** Exactly the appended custom tokens are marked custom. */
  lemma GetTokensMarksCustom(networkTokens: seq<Token>, customTokens: seq<Token>)
    ensures var r := GetTokens(networkTokens, customTokens);
      forall i :: 0 <= i < |r| ==> (r[i].custom <==> i >= |networkTokens|)
  {
  }

  function SymbolIs(symbol: string): MergedToken -> bool {
    (t: MergedToken) => t.symbol == symbol
  }

  /** `getToken`: the first token with the symbol. */
  function GetToken(tokens: seq<MergedToken>, unit: string): (r: Option<MergedToken>)
    ensures r.None? <==> forall i :: 0 <= i < |tokens| ==> tokens[i].symbol != unit
    ensures r.Some? ==> exists i ::
      && 0 <= i < |tokens|
      && tokens[i] == r.value
      && r.value.symbol == unit
      && forall j :: 0 <= j < i ==> tokens[j].symbol != unit
  {
    Find(tokens, SymbolIs(unit))
  }

  /** The `map(find)` then `filter` of `getWalletConfigTokens`, in one pass. */
  function MatchSymbols(symbols: seq<string>, tokens: seq<MergedToken>): seq<MergedToken> {
    if symbols == [] then []
    else
      (match GetToken(tokens, symbols[0]) case Some(t) => [t] case None => [])
      + MatchSymbols(symbols[1..], tokens)
  }

  function HasToken(tokens: seq<MergedToken>): string -> bool {
    symbol => GetToken(tokens, symbol).Some?
  }

  /** `getWalletConfigTokens` */
  function GetWalletConfigTokens(tokens: seq<MergedToken>, config: Option<WalletConfig>): seq<MergedToken> {
    if config.None? || config.value.tokens.None? then []
    else MatchSymbols(config.value.tokens.value, tokens)
  }

  /** For each symbol that some token has, in the order of the symbols, the first token
      with that symbol; symbols no token has are dropped. */
  lemma {:induction false} MatchSymbolsSpec(symbols: seq<string>, tokens: seq<MergedToken>)
    ensures var r, matched := MatchSymbols(symbols, tokens), Filter(symbols, HasToken(tokens));
      && |r| == |matched|
      && forall i :: 0 <= i < |r| ==> GetToken(tokens, matched[i]) == Some(r[i])
  {
    if symbols != [] {
      var rest := symbols[1..];
      MatchSymbolsSpec(rest, tokens);
      var r, matched := MatchSymbols(symbols, tokens), Filter(symbols, HasToken(tokens));
      var r', matched' := MatchSymbols(rest, tokens), Filter(rest, HasToken(tokens));
      match GetToken(tokens, symbols[0])
      case Some(t) =>
        assert matched == [symbols[0]] + matched';
        assert r == [t] + r';
      case None =>
        assert matched == matched';
        assert r == r';
    }
  }

  /** Without a config or its token list there is nothing to show; otherwise the result is
      the first match for each listed symbol that has one, in config order. */
  lemma GetWalletConfigTokensSpec(tokens: seq<MergedToken>, config: Option<WalletConfig>)
    ensures config.None? || config.value.tokens.None? ==> GetWalletConfigTokens(tokens, config) == []
    ensures config.Some? && config.value.tokens.Some? ==>
      var r, matched := GetWalletConfigTokens(tokens, config), Filter(config.value.tokens.value, HasToken(tokens));
      && |r| == |matched|
      && forall i :: 0 <= i < |r| ==> r[i].symbol == matched[i] && GetToken(tokens, matched[i]) == Some(r[i])
  {
    if config.Some? && config.value.tokens.Some? {
      var symbols := config.value.tokens.value;
      MatchSymbolsSpec(symbols, tokens);
      var r, matched := GetWalletConfigTokens(tokens, config), Filter(symbols, HasToken(tokens));
      forall i | 0 <= i < |r| ensures r[i].symbol == matched[i] {
        var found := GetToken(tokens, matched[i]);
        assert found == Some(r[i]);
      }
    }
  }

  /** `getTokenBalances`: one entry per token, in token order; a symbol the wallet has no
      record for gets balance 0 and no error. */
  function GetTokenBalances(tokens: seq<MergedToken>, tkBalances: map<string, BalanceRecord>): (r: seq<TokenBalance>)
    ensures |r| == |tokens|
    ensures forall i :: 0 <= i < |r| ==>
      && r[i].symbol == tokens[i].symbol
      && r[i].custom == tokens[i].custom
      && r[i].decimal == tokens[i].decimal
      && r[i].balance == (if tokens[i].symbol in tkBalances then tkBalances[tokens[i].symbol].balance else 0)
      && r[i].error == (if tokens[i].symbol in tkBalances then tkBalances[tokens[i].symbol].error else None)
  {
    seq(|tokens|, i requires 0 <= i < |tokens| =>
      var t := tokens[i];
      TokenBalance(
        t.symbol,
        if t.symbol in tkBalances then tkBalances[t.symbol].balance else 0,
        t.custom,
        t.decimal,
        if t.symbol in tkBalances then tkBalances[t.symbol].error else None))
  }

  function NonZero(): TokenBalance -> bool {
    (t: TokenBalance) => t.balance != 0
  }

  /** `getNonZeroTokenBalances` */
  function GetNonZeroTokenBalances(balances: seq<TokenBalance>): seq<TokenBalance> {
    Filter(balances, NonZero())
  }

  /** The non-zero balances, all of them, in their order. */
  lemma GetNonZeroTokenBalancesSpec(balances: seq<TokenBalance>)
    ensures var r := GetNonZeroTokenBalances(balances);
      && Subsequence(r, balances)
      && (forall b :: b in r <==> b in balances && b.balance != 0)
      && forall b :: multiset(r)[b] == if b.balance != 0 then multiset(balances)[b] else 0
  {
    FilterSubsequence(balances, NonZero());
    FilterMembers(balances, NonZero());
    FilterMultiset(balances, NonZero());
  }

  function BalanceSymbolIs(symbol: string): TokenBalance -> bool {
    (t: TokenBalance) => t.symbol == symbol
  }

  /** `getTokenWithBalance`: the first balance with the symbol, or null. */
  function GetTokenWithBalance(balances: seq<TokenBalance>, symbol: string): (r: Option<TokenBalance>)
    ensures r.None? <==> forall i :: 0 <= i < |balances| ==> balances[i].symbol != symbol
    ensures r.Some? ==> exists i ::
      && 0 <= i < |balances|
      && balances[i] == r.value
      && r.value.symbol == symbol
      && forall j :: 0 <= j < i ==> balances[j].symbol != symbol
  {
    Find(balances, BalanceSymbolIs(symbol))
  }

  /** `getTokenBalance`: the amount of the first balance with the symbol, or null. */
  function GetTokenBalance(balances: seq<TokenBalance>, unit: string): (r: Option<nat>)
    ensures r.None? <==> forall i :: 0 <= i < |balances| ==> balances[i].symbol != unit
    ensures r.Some? ==> exists i ::
      && 0 <= i < |balances|
      && balances[i].symbol == unit
      && balances[i].balance == r.value
      && forall j :: 0 <= j < i ==> balances[j].symbol != unit
  {
    match GetTokenWithBalance(balances, unit)
    case None => None
    case Some(t) => Some(t.balance)
  }

  /** Over the whole state: null exactly when no merged token has the symbol. */
  lemma TokenBalanceNullIffNoToken(tokens: seq<MergedToken>, tkBalances: map<string, BalanceRecord>, unit: string)
    ensures GetTokenBalance(GetTokenBalances(tokens, tkBalances), unit).None? <==> GetToken(tokens, unit).None?
  {
  }

  function ShownIn(walletTokens: seq<string>): TokenBalance -> bool {
    (t: TokenBalance) => t.symbol in walletTokens
  }

  /** `getShown`: the balances whose symbol the wallet config lists. */
  function GetShown(balances: seq<TokenBalance>, config: Option<WalletConfig>): seq<TokenBalance> {
    var walletTokens := if config.Some? && config.value.tokens.Some? then config.value.tokens.value else [];
    Filter(balances, ShownIn(walletTokens))
  }

  /** In balance order, exactly the balances with a listed symbol, each as often as it
      occurs; empty without a config or without a token list. */
  lemma GetShownSpec(balances: seq<TokenBalance>, config: Option<WalletConfig>)
    ensures var r := GetShown(balances, config);
      && Subsequence(r, balances)
      && (config.None? || config.value.tokens.None? ==> r == [])
      && (config.Some? && config.value.tokens.Some? ==>
            && (forall b :: b in r <==> b in balances && b.symbol in config.value.tokens.value)
            && forall b :: multiset(r)[b] == if b.symbol in config.value.tokens.value then multiset(balances)[b] else 0)
  {
    var walletTokens := if config.Some? && config.value.tokens.Some? then config.value.tokens.value else [];
    FilterSubsequence(balances, ShownIn(walletTokens));
    FilterMembers(balances, ShownIn(walletTokens));
    FilterMultiset(balances, ShownIn(walletTokens));
    if config.None? || config.value.tokens.None? {
      FilterNone(balances, ShownIn(walletTokens));
    }
  }

  // ---- getDisabledWallets ----

  /** The wallet names the selector lists by name. */
  datatype SecureWalletNames = SecureWalletNames(web3: string, trezor: string, ledgerNanoS: string)

  datatype DisabledWallets = DisabledWallets(wallets: seq<string>, reasons: map<string, string>)

  const OfflineReason := "This wallet cannot be accessed offline"
  const DownloadableReason := "This wallet is only supported at MyCrypto.com"
  const ElectronReason := "This wallet is not supported in the MyCrypto app"

  function UnsupportedReason(networkName: string): string {
    networkName + " does not support this wallet"
  }

  /** `addReason`: appends the wallets and gives each of them the reason, overwriting any
      earlier one. */
  method AddReason(d: DisabledWallets, ws: seq<string>, reason: string) returns (r: DisabledWallets)
    ensures r.wallets == d.wallets + ws
    ensures r.reasons == d.reasons + map w | w in ws :: reason
  {
    r := d;
    if |ws| == 0 {
      assert r.reasons == d.reasons + map w | w in ws :: reason;
      return;
    }
    r := r.(wallets := r.wallets + ws);
    for i := 0 to |ws|
      invariant r.wallets == d.wallets + ws
      invariant r.reasons == d.reasons + map w | w in ws[..i] :: reason
    {
      assert ws[..i + 1] == ws[..i] + [ws[i]];
      r := r.(reasons := r.reasons[ws[i] := reason]);
    }
    assert ws[..|ws|] == ws;
  }

  /** Which rules disable a wallet: the network, being offline, the downloadable build,
      the desktop build. */
  predicate Disabled(w: string, names: SecureWalletNames, unsupported: seq<string>,
                     isOffline: bool, buildDownloadable: bool, buildElectron: bool) {
    || w in unsupported
    || (isOffline && (w == names.web3 || w == names.trezor))
    || (buildDownloadable && w == names.ledgerNanoS)
    || (buildElectron && w == names.web3)
  }

  /** The reason that stays: the last rule that applies. */
  function LastReason(w: string, names: SecureWalletNames, networkName: string,
                      isOffline: bool, buildDownloadable: bool, buildElectron: bool): string {
    if buildElectron && w == names.web3 then ElectronReason
    else if buildDownloadable && w == names.ledgerNanoS then DownloadableReason
    else if isOffline && (w == names.web3 || w == names.trezor) then OfflineReason
    else UnsupportedReason(networkName)
  }

  /** What the selector has built once the rules with the given flags have run. */
  ghost predicate Stage(d: DisabledWallets, names: SecureWalletNames, networkName: string, unsupported: seq<string>,
                        isOffline: bool, buildDownloadable: bool, buildElectron: bool) {
    && (forall w :: w in d.wallets <==> w in d.reasons)
    && (forall w :: w in d.wallets <==> Disabled(w, names, unsupported, isOffline, buildDownloadable, buildElectron))
    && (forall w :: w in d.reasons ==>
          d.reasons[w] == LastReason(w, names, networkName, isOffline, buildDownloadable, buildElectron))
  }

  /** The network rule runs first, on an empty result. */
  lemma UnsupportedStage(d: DisabledWallets, names: SecureWalletNames, networkName: string, unsupported: seq<string>)
    requires d.wallets == unsupported
    requires d.reasons == map[] + map w | w in unsupported :: UnsupportedReason(networkName)
    ensures Stage(d, names, networkName, unsupported, false, false, false)
  {
  }

  /** The offline rule overrides earlier reasons for WEB3 and TREZOR. */
  lemma OfflineStage(d: DisabledWallets, d': DisabledWallets, names: SecureWalletNames, networkName: string,
                     unsupported: seq<string>)
    requires Stage(d, names, networkName, unsupported, false, false, false)
    requires d'.wallets == d.wallets + [names.web3, names.trezor]
    requires d'.reasons == d.reasons + map w | w in [names.web3, names.trezor] :: OfflineReason
    ensures Stage(d', names, networkName, unsupported, true, false, false)
  {
    var offline := map w | w in [names.web3, names.trezor] :: OfflineReason;
    assert forall w :: w in offline <==> w == names.web3 || w == names.trezor;
    forall w | w in d'.reasons
      ensures d'.reasons[w] == LastReason(w, names, networkName, true, false, false)
    {
      if w in offline {
        assert d'.reasons[w] == OfflineReason;
      } else {
        assert d'.reasons[w] == d.reasons[w];
      }
    }
  }

  /** The downloadable-build rule overrides earlier reasons for LEDGER_NANO_S. */
  lemma DownloadableStage(d: DisabledWallets, d': DisabledWallets, names: SecureWalletNames, networkName: string,
                          unsupported: seq<string>, isOffline: bool)
    requires Stage(d, names, networkName, unsupported, isOffline, false, false)
    requires d'.wallets == d.wallets + [names.ledgerNanoS]
    requires d'.reasons == d.reasons + map w | w in [names.ledgerNanoS] :: DownloadableReason
    ensures Stage(d', names, networkName, unsupported, isOffline, true, false)
  {
    var added := map w | w in [names.ledgerNanoS] :: DownloadableReason;
    assert forall w :: w in added <==> w == names.ledgerNanoS;
    forall w | w in d'.reasons
      ensures d'.reasons[w] == LastReason(w, names, networkName, isOffline, true, false)
    {
      if w in added {
        assert d'.reasons[w] == DownloadableReason;
      } else {
        assert d'.reasons[w] == d.reasons[w];
      }
    }
  }

  /** The desktop-build rule, last to run, overrides any earlier reason for WEB3. */
  lemma ElectronStage(d: DisabledWallets, d': DisabledWallets, names: SecureWalletNames, networkName: string,
                      unsupported: seq<string>, isOffline: bool, buildDownloadable: bool)
    requires Stage(d, names, networkName, unsupported, isOffline, buildDownloadable, false)
    requires d'.wallets == d.wallets + [names.web3]
    requires d'.reasons == d.reasons + map w | w in [names.web3] :: ElectronReason
    ensures Stage(d', names, networkName, unsupported, isOffline, buildDownloadable, true)
  {
    var added := map w | w in [names.web3] :: ElectronReason;
    assert forall w :: w in added <==> w == names.web3;
    forall w | w in d'.reasons
      ensures d'.reasons[w] == LastReason(w, names, networkName, isOffline, buildDownloadable, true)
    {
      if w in added {
        assert d'.reasons[w] == ElectronReason;
      } else {
        assert d'.reasons[w] == d.reasons[w];
      }
    }
  }

  /** The four `addReason` calls of `getDisabledWallets`, in order. */
  method AddAllReasons(names: SecureWalletNames, networkName: string, unsupported: seq<string>,
                       isOffline: bool, buildDownloadable: bool, buildElectron: bool)
    returns (d: DisabledWallets)
    ensures Stage(d, names, networkName, unsupported, isOffline, buildDownloadable, buildElectron)
  {
    d := DisabledWallets([], map[]);
    d := AddReason(d, unsupported, UnsupportedReason(networkName));
    UnsupportedStage(d, names, networkName, unsupported);
    if isOffline {
      ghost var before := d;
      d := AddReason(d, [names.web3, names.trezor], OfflineReason);
      OfflineStage(before, d, names, networkName, unsupported);
    }
    if buildDownloadable {
      ghost var before := d;
      d := AddReason(d, [names.ledgerNanoS], DownloadableReason);
      DownloadableStage(before, d, names, networkName, unsupported, isOffline);
    }
    if buildElectron {
      ghost var before := d;
      d := AddReason(d, [names.web3], ElectronReason);
      ElectronStage(before, d, names, networkName, unsupported, isOffline, buildDownloadable);
    }
  }

  /** The closing dedupe and sort keep the same wallets, once each, in order. */
  lemma DedupeSortSpec(ws: seq<string>)
    ensures var sorted := StringOrder.Sort(Dedupe(ws));
      && StringOrder.Sorted(sorted)
      && NoDuplicates(sorted)
      && forall w :: w in sorted <==> w in ws
  {
    var listed := Dedupe(ws);
    DedupeSpec(ws);
    var sorted := StringOrder.Sort(listed);
    StringOrder.SortSpec(listed);
    PermutationNoDuplicates(listed, sorted);
    assert forall w :: w in sorted <==> w in multiset(listed);
  }

  /** `getDisabledWallets`, with the network's unsupported wallet formats, the offline flag
      and the build flags given. The list is sorted and duplicate-free, lists exactly the
      disabled wallets, and each of them has the reason of the last rule that applies. */
  method GetDisabledWallets(names: SecureWalletNames, networkName: string, unsupported: seq<string>,
                            isOffline: bool, buildDownloadable: bool, buildElectron: bool)
    returns (r: DisabledWallets)
    ensures StringOrder.Sorted(r.wallets) && NoDuplicates(r.wallets)
    ensures forall w :: w in r.wallets <==> w in r.reasons
    ensures forall w :: w in r.wallets <==> Disabled(w, names, unsupported, isOffline, buildDownloadable, buildElectron)
    ensures forall w :: w in r.reasons ==>
      r.reasons[w] == LastReason(w, names, networkName, isOffline, buildDownloadable, buildElectron)
    ensures isOffline ==> names.web3 in r.wallets && names.trezor in r.wallets
  {
    var d := AddAllReasons(names, networkName, unsupported, isOffline, buildDownloadable, buildElectron);
    DedupeSortSpec(d.wallets);
    r := d.(wallets := StringOrder.Sort(Dedupe(d.wallets)));
  }
}
