/**
 * The trading-competition leaderboard table
 * (sections/leaderboard/Competition/Competition.tsx): the tier of the
 * connected wallet, the table rows built from the fetched competition file
 * (sorted by rank, turned into display rows, filtered by tier and by a search
 * term, with pinned copies of the wallet's own rows in front), and the
 * message shown when the table is empty.
 */
module Competition {
  import opened Wrappers
  import opened Seqs
  import opened Strings

  /** One entry of the competition data file. */
  datatype AccountStat = AccountStat(
    account: string,
    tier: string,
    rank: int,
    pnl: real,
    pnlPct: real,
    volume: real,
    trades: int,
    liquidations: int)

  /**
   * A display row: the entry it was built from (`...trader`) and the fields
   * the table adds or overrides.
   */
  datatype Row = Row(
    stat: AccountStat,
    trader: string,
    traderEns: Option<string>,
    rankText: string,
    traderShort: string,
    pnl: real,
    pnlPct: string,
    totalVolume: real,
    totalTrades: int)

  /** The formatting helpers the table calls; their definitions are not part of this model. */
  datatype Formatters = Formatters(
    truncateAddress: string -> string,
    formatPercent: real -> string)

  /** The component's props that the row pipeline reads. */
  datatype CompetitionProps = CompetitionProps(
    activeTier: string,
    ensInfo: map<string, string>,
    compact: bool,
    searchTerm: Option<string>)

  /**
   * `walletTier`: the tier of the first entry whose account equals the wallet
   * address exactly (case-sensitive), or null. A missing file reads as `[]`;
   * with no wallet no account matches.
   */
  function WalletTier(data: Option<seq<AccountStat>>, wallet: Option<string>): (r: Option<string>)
    ensures var d := data.GetOr([]);
            r.Some? <==> wallet.Some? && exists i :: 0 <= i < |d| && d[i].account == wallet.value
    ensures var d := data.GetOr([]);
            r.Some? ==> exists i :: 0 <= i < |d| && d[i].account == wallet.value && d[i].tier == r.value &&
                                    forall j :: 0 <= j < i ==> d[j].account != wallet.value
  {
    match wallet
    case None => None
    case Some(w) =>
      match First((s: AccountStat) => s.account == w, data.GetOr([]))
      case None => None
      case Some(s) => Some(s.tier)
  }

  /** JavaScript truthiness of the wallet tier: present and not the empty string. */
  predicate Truthy(t: Option<string>) {
    t.Some? && t.value != ""
  }

  function RankKey(s: AccountStat): int {
    s.rank
  }

  function RowRank(r: Row): int {
    r.stat.rank
  }

  /** The `map` step: one display row for one entry. */
  function ToRow(s: AccountStat, ensInfo: map<string, string>, fmt: Formatters): (r: Row)
    ensures r.stat == s && r.trader == s.account
    ensures r.traderEns == if s.account in ensInfo then Some(ensInfo[s.account]) else None
    ensures r.rankText == IntToString(s.rank) && IsDecimalOf(r.rankText, s.rank)
    ensures r.totalVolume == s.volume && r.totalTrades == s.trades && r.pnl == s.pnl
  {
    Row(
      stat := s,
      trader := s.account,
      traderEns := if s.account in ensInfo then Some(ensInfo[s.account]) else None,
      rankText := IntToString(s.rank),
      traderShort := fmt.truncateAddress(s.account),
      pnl := s.pnl,
      pnlPct := "(" + fmt.formatPercent(s.pnlPct) + ")",
      totalVolume := s.volume,
      totalTrades := s.trades)
  }

  function RowOf(ensInfo: map<string, string>, fmt: Formatters): AccountStat -> Row {
    (s: AccountStat) => ToRow(s, ensInfo, fmt)
  }

  /**
   * The tier filter: in compact mode with a known wallet tier a row is kept
   * when it has the wallet's tier, otherwise when it has the active tier.
   */
  function KeepTier(compact: bool, walletTier: Option<string>, activeTier: string): (keep: Row -> bool)
    ensures compact && Truthy(walletTier) ==> forall r: Row :: keep(r) <==> r.stat.tier == walletTier.value
    ensures !(compact && Truthy(walletTier)) ==> forall r: Row :: keep(r) <==> r.stat.tier == activeTier
  {
    (r: Row) => if compact && Truthy(walletTier) then r.stat.tier == walletTier.value else r.stat.tier == activeTier
  }

  /** A search term is in force when present and non-empty (`searchTerm?.length`). */
  predicate Searching(searchTerm: Option<string>) {
    searchTerm.Some? && |searchTerm.value| > 0
  }

  /**
   * The search match: the term occurs somewhere in the lower-cased address,
   * or somewhere in the lower-cased ENS name when there is one.
   */
  function MatchesSearch(r: Row, term: string): (b: bool)
    ensures b <==> (exists i: nat :: i <= |ToLower(r.trader)| && OccursAt(ToLower(r.trader), term, i))
                   || (r.traderEns.Some? &&
                       exists i: nat :: i <= |ToLower(r.traderEns.value)| && OccursAt(ToLower(r.traderEns.value), term, i))
  {
    Includes(ToLower(r.trader), term) || (r.traderEns.Some? && Includes(ToLower(r.traderEns.value), term))
  }

  /** The search filter: every row when no term is in force, else the matching rows. */
  function KeepSearch(searchTerm: Option<string>): (keep: Row -> bool)
    ensures !Searching(searchTerm) ==> forall r: Row :: keep(r)
    ensures Searching(searchTerm) ==> forall r: Row :: keep(r) <==> MatchesSearch(r, searchTerm.value)
  {
    (r: Row) => if Searching(searchTerm) then MatchesSearch(r, searchTerm.value) else true
  }

  /** The rows before each filter, in rank order. */
  function RankedRows(data: Option<seq<AccountStat>>, props: CompetitionProps, fmt: Formatters): seq<Row> {
    Map(RowOf(props.ensInfo, fmt), SortBy(RankKey, data.GetOr([])))
  }

  /**
   * `cleanCompetitionData`: sort by rank, map to rows, filter by tier, filter
   * by search. No more rows than entries, and every row meets the tier rule
   * and, when a search term is in force, matches it.
   */
  function CleanRows(data: Option<seq<AccountStat>>, props: CompetitionProps, walletTier: Option<string>,
                     fmt: Formatters): (rows: seq<Row>)
    ensures |rows| <= |data.GetOr([])|
    ensures forall i :: 0 <= i < |rows| ==>
              rows[i].stat.tier == if props.compact && Truthy(walletTier) then walletTier.value else props.activeTier
    ensures Searching(props.searchTerm) ==> forall i :: 0 <= i < |rows| ==> MatchesSearch(rows[i], props.searchTerm.value)
  {
    var ranked := RankedRows(data, props, fmt);
    assert |ranked| == |data.GetOr([])| by {
      assert |multiset(SortBy(RankKey, data.GetOr([])))| == |multiset(data.GetOr([]))|;
    }
    FilterTwice(KeepTier(props.compact, walletTier, props.activeTier), KeepSearch(props.searchTerm), ranked);
    Filter(KeepSearch(props.searchTerm), Filter(KeepTier(props.compact, walletTier, props.activeTier), ranked))
  }

  /** The pin match: the row's account equals the wallet address ignoring case. */
  function MatchesWallet(wallet: Option<string>): (matches: Row -> bool)
    ensures wallet.None? ==> forall r: Row :: !matches(r)
    ensures wallet.Some? ==> forall r: Row :: matches(r) <==> ToLower(r.stat.account) == ToLower(wallet.value)
  {
    (r: Row) => wallet.Some? && ToLower(r.stat.account) == ToLower(wallet.value)
  }

  /** A pinned copy: the rank followed by the pin marker. */
  function PinOf(pin: string): Row -> Row {
    (r: Row) => r.(rankText := IntToString(r.stat.rank) + pin)
  }

  /**
   * Pinned copies of rows that pass the pin match belong to the wallet
   * ignoring case, and carry the rank followed by the pin marker.
   */
  lemma PinnedCopiesMatch(mine: seq<Row>, wallet: Option<string>, pin: string)
    requires forall i :: 0 <= i < |mine| ==> MatchesWallet(wallet)(mine[i])
    ensures forall i :: 0 <= i < |mine| ==>
              wallet.Some? && ToLower(Map(PinOf(pin), mine)[i].stat.account) == ToLower(wallet.value)
    ensures forall i :: 0 <= i < |mine| ==>
              Map(PinOf(pin), mine)[i].rankText == IntToString(Map(PinOf(pin), mine)[i].stat.rank) + pin
    ensures mine != [] ==> wallet.Some?
  {
    var pins := Map(PinOf(pin), mine);
    if mine != [] {
      assert MatchesWallet(wallet)(mine[0]);
    }
    forall i | 0 <= i < |mine|
      ensures wallet.Some? && ToLower(pins[i].stat.account) == ToLower(wallet.value)
      ensures pins[i].rankText == IntToString(pins[i].stat.rank) + pin
    {
      assert MatchesWallet(wallet)(mine[i]);
      assert pins[i] == PinOf(pin)(mine[i]);
    }
  }

  /**
   * `pinRow`: pinned copies of the cleaned rows that belong to the wallet, in
   * their order (`PinRowsConcat`, `PinRowsSingle`). Every pinned row belongs to
   * the wallet ignoring case, and its rank text is the rank followed by the pin
   * marker.
   */
  function PinRows(clean: seq<Row>, wallet: Option<string>, pin: string): (pins: seq<Row>)
    ensures |pins| <= |clean|
    ensures pins != [] ==> wallet.Some?
    ensures forall i :: 0 <= i < |pins| ==> wallet.Some? && ToLower(pins[i].stat.account) == ToLower(wallet.value)
    ensures forall i :: 0 <= i < |pins| ==> pins[i].rankText == IntToString(pins[i].stat.rank) + pin
  {
    var mine := Filter(MatchesWallet(wallet), clean);
    PinnedCopiesMatch(mine, wallet, pin);
    Map(PinOf(pin), mine)
  }

  /** The table data: the pinned rows followed by all cleaned rows. */
  function TableData(data: Option<seq<AccountStat>>, props: CompetitionProps, wallet: Option<string>,
                     fmt: Formatters, pin: string): (r: seq<Row>)
    ensures var clean := CleanRows(data, props, WalletTier(data, wallet), fmt);
            var pins := PinRows(clean, wallet, pin);
            |r| == |pins| + |clean| && r[..|pins|] == pins && r[|pins|..] == clean
  {
    var clean := CleanRows(data, props, WalletTier(data, wallet), fmt);
    var pins := PinRows(clean, wallet, pin);
    assert (pins + clean)[..|pins|] == pins;
    assert (pins + clean)[|pins|..] == clean;
    pins + clean
  }

  /** Rows in non-decreasing rank order. */
  ghost predicate RankOrdered(rows: seq<Row>) {
    forall i, j :: 0 <= i < j < |rows| ==> rows[i].stat.rank <= rows[j].stat.rank
  }

  /** The cleaned rows, i.e. the rows after the pinned ones, are in non-decreasing rank order. */
  lemma CleanRowsRankOrdered(data: Option<seq<AccountStat>>, props: CompetitionProps,
                             walletTier: Option<string>, fmt: Formatters)
    ensures RankOrdered(CleanRows(data, props, walletTier, fmt))
  {
    var sorted := SortBy(RankKey, data.GetOr([]));
    var ranked := RankedRows(data, props, fmt);
    assert SortedBy(RowRank, ranked) by {
      forall i, j | 0 <= i < j < |ranked| ensures RowRank(ranked[i]) <= RowRank(ranked[j]) {
        assert RankKey(sorted[i]) <= RankKey(sorted[j]);
      }
    }
    var tiered := Filter(KeepTier(props.compact, walletTier, props.activeTier), ranked);
    FilterSorted(KeepTier(props.compact, walletTier, props.activeTier), RowRank, ranked);
    FilterSorted(KeepSearch(props.searchTerm), RowRank, tiered);
  }

  /**
   * The cleaned rows are, up to order, exactly the rows of the input entries
   * that pass both filters, each as many times as its entry occurs.
   */
  lemma CleanRowsAreKeptRows(data: Option<seq<AccountStat>>, props: CompetitionProps,
                             walletTier: Option<string>, fmt: Formatters)
    ensures var keepTier := KeepTier(props.compact, walletTier, props.activeTier);
            var rows := Map(RowOf(props.ensInfo, fmt), data.GetOr([]));
            multiset(CleanRows(data, props, walletTier, fmt)) ==
            multiset(Filter(KeepSearch(props.searchTerm), Filter(keepTier, rows)))
  {
    var d := data.GetOr([]);
    var keepTier := KeepTier(props.compact, walletTier, props.activeTier);
    MapPermutes(RowOf(props.ensInfo, fmt), SortBy(RankKey, d), d);
    var ranked := RankedRows(data, props, fmt);
    var rows := Map(RowOf(props.ensInfo, fmt), d);
    FilterPermutes(keepTier, ranked, rows);
    FilterPermutes(KeepSearch(props.searchTerm), Filter(keepTier, ranked), Filter(keepTier, rows));
  }

  /** With no search term in force the search filter keeps every row. */
  lemma NoSearchKeepsAll(rows: seq<Row>, searchTerm: Option<string>)
    requires !Searching(searchTerm)
    ensures Filter(KeepSearch(searchTerm), rows) == rows
  {
    FilterAll(KeepSearch(searchTerm), rows);
  }

  /** With a search term in force a row is kept exactly when it matches the term. */
  lemma SearchKeepsMatches(rows: seq<Row>, term: string)
    requires |term| > 0
    ensures forall i :: 0 <= i < |rows| ==>
              (rows[i] in Filter(KeepSearch(Some(term)), rows) <==> MatchesSearch(rows[i], term))
  {
  }

  /**
   * `p` is the pinned copy of the cleaned row `c`: `c` belongs to the wallet
   * ignoring case, and `p` is `c` with its rank text replaced by the rank
   * followed by the pin marker.
   */
  ghost predicate PinnedCopy(p: Row, c: Row, wallet: Option<string>, pin: string) {
    && wallet.Some?
    && ToLower(c.stat.account) == ToLower(wallet.value)
    && p == c.(rankText := IntToString(c.stat.rank) + pin)
  }

  /**
   * Every pinned row is the pinned copy of a cleaned row, and every cleaned
   * row of the wallet has its pinned copy among the pinned rows.
   */
  lemma PinRowsSpec(clean: seq<Row>, wallet: Option<string>, pin: string)
    ensures forall i :: 0 <= i < |PinRows(clean, wallet, pin)| ==>
              exists j :: 0 <= j < |clean| && PinnedCopy(PinRows(clean, wallet, pin)[i], clean[j], wallet, pin)
    ensures forall j :: 0 <= j < |clean| && MatchesWallet(wallet)(clean[j]) ==>
              exists i :: 0 <= i < |PinRows(clean, wallet, pin)| &&
                PinnedCopy(PinRows(clean, wallet, pin)[i], clean[j], wallet, pin)
  {
    var matched := Filter(MatchesWallet(wallet), clean);
    var pins := PinRows(clean, wallet, pin);
    forall i | 0 <= i < |pins|
      ensures exists j :: 0 <= j < |clean| && PinnedCopy(pins[i], clean[j], wallet, pin)
    {
      assert matched[i] in clean;
      var j :| 0 <= j < |clean| && clean[j] == matched[i];
      assert PinnedCopy(pins[i], clean[j], wallet, pin);
    }
    forall j | 0 <= j < |clean| && MatchesWallet(wallet)(clean[j])
      ensures exists i :: 0 <= i < |pins| && PinnedCopy(pins[i], clean[j], wallet, pin)
    {
      assert clean[j] in matched;
      var i :| 0 <= i < |matched| && matched[i] == clean[j];
      assert PinnedCopy(pins[i], clean[j], wallet, pin);
    }
  }

  /** Pinning a concatenation pins each part and keeps the parts in order. */
  lemma PinRowsConcat(a: seq<Row>, b: seq<Row>, wallet: Option<string>, pin: string)
    ensures PinRows(a + b, wallet, pin) == PinRows(a, wallet, pin) + PinRows(b, wallet, pin)
  {
    FilterConcat(MatchesWallet(wallet), a, b);
    MapConcat(PinOf(pin), Filter(MatchesWallet(wallet), a), Filter(MatchesWallet(wallet), b));
  }

  /**
   * A single cleaned row yields exactly one pinned copy when it belongs to the
   * wallet ignoring case, and none otherwise; with `PinRowsConcat` this fixes
   * the pinned rows, their number and their order.
   */
  lemma PinRowsSingle(c: Row, wallet: Option<string>, pin: string)
    ensures wallet.Some? && ToLower(c.stat.account) == ToLower(wallet.value) ==>
              PinRows([c], wallet, pin) == [c.(rankText := IntToString(c.stat.rank) + pin)]
    ensures !(wallet.Some? && ToLower(c.stat.account) == ToLower(wallet.value)) ==>
              PinRows([c], wallet, pin) == []
  {
    assert [c][1..] == [];
  }

  /** Without a connected wallet nothing is pinned. */
  lemma NoWalletNoPins(clean: seq<Row>, pin: string)
    ensures PinRows(clean, None, pin) == []
  {
    FilterNone(MatchesWallet(None), clean);
  }

  const StartedMessage := "leaderboard.competition.table.started"
  const StartingSoonMessage := "leaderboard.competition.table.starting-soon"

  /** `noResultsMessage`: "started" strictly after the competition start, else "starting soon". */
  function NoResultsMessage(now: int, competitionStart: int): (key: string)
    ensures key == StartedMessage <==> now > competitionStart
    ensures key == StartingSoonMessage <==> now <= competitionStart
  {
    if now > competitionStart then StartedMessage else StartingSoonMessage
  }

  /** Such wallets exist: `0xAB` differs from `0xab` and equals it ignoring case. */
  lemma CaseOnlyDifferenceExample()
    ensures "0xab" != "0xAB" && ToLower("0xab") == ToLower("0xAB")
  {
    assert "0xab"[2] != "0xAB"[2];
    assert ToLower("0xAB") == "0xab";
  }

  /**
   * The tier lookup and the pin match disagree on letter case: with a single
   * entry of the active tier and no search, a wallet whose address differs
   * from the entry's account but equals it ignoring case gets no tier, yet
   * its row is pinned.
   */
  lemma WalletCaseQuirk(stat: AccountStat, w: string, props: CompetitionProps, fmt: Formatters, pin: string)
    requires stat.account != w && ToLower(stat.account) == ToLower(w)
    requires stat.tier == props.activeTier && !Searching(props.searchTerm)
    ensures WalletTier(Some([stat]), Some(w)) == None
    ensures |PinRows(CleanRows(Some([stat]), props, WalletTier(Some([stat]), Some(w)), fmt), Some(w), pin)| == 1
  {
    var data := Some([stat]);
    assert WalletTier(data, Some(w)) == None;
    var row := ToRow(stat, props.ensInfo, fmt);
    assert SortBy(RankKey, [stat]) == [stat];
    var ranked := RankedRows(data, props, fmt);
    assert ranked == [row];
    var keepTier := KeepTier(props.compact, None, props.activeTier);
    assert keepTier(row);
    assert Filter(keepTier, ranked) == [row];
    NoSearchKeepsAll([row], props.searchTerm);
    var clean := CleanRows(data, props, None, fmt);
    assert clean == [row];
    assert MatchesWallet(Some(w))(row);
    assert Filter(MatchesWallet(Some(w)), [row]) == [row];
  }
}
