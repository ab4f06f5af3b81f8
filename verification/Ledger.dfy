/** Double entry: how a posting rule becomes a journal, how the report jobs fold journals into account rows,
    and why the balance sheet balances. Amounts are whole cents. */
module Ledger {
  import opened Common

  type Id = nat
  type Branch = nat

  datatype Kind = Asset | Liability | Equity | Revenue | Expense
  datatype Account = Account(branch: Branch, code: string, kind: Kind)
  datatype Line = Line(account: Id, debit: int, credit: int)
  datatype Entry = Entry(date: int, lines: seq<Line>)
  /** The chart of accounts of all branches. */
  type Chart = map<Id, Account>

  // ---- folds over lines ----

  function Debits(lines: seq<Line>): int {
    if lines == [] then 0 else lines[0].debit + Debits(lines[1..])
  }

  function Credits(lines: seq<Line>): int {
    if lines == [] then 0 else lines[0].credit + Credits(lines[1..])
  }

  function DebitOf(lines: seq<Line>, account: Id): int {
    if lines == [] then 0
    else (if lines[0].account == account then lines[0].debit else 0) + DebitOf(lines[1..], account)
  }

  function CreditOf(lines: seq<Line>, account: Id): int {
    if lines == [] then 0
    else (if lines[0].account == account then lines[0].credit else 0) + CreditOf(lines[1..], account)
  }

  /** What the lines do to one account. */
  function NetOf(lines: seq<Line>, account: Id): int {
    DebitOf(lines, account) - CreditOf(lines, account)
  }

  /** Debit less credit of the lines on a set of accounts. */
  function NetWithin(lines: seq<Line>, accounts: set<Id>): int {
    if lines == [] then 0
    else (if lines[0].account in accounts then lines[0].debit - lines[0].credit else 0) + NetWithin(lines[1..], accounts)
  }

  lemma {:induction false} NetWithinAppend(a: seq<Line>, b: seq<Line>, accounts: set<Id>)
    ensures NetWithin(a + b, accounts) == NetWithin(a, accounts) + NetWithin(b, accounts)
    decreases |a|
  {
    if a == [] {
      assert a + b == b;
    } else {
      NetWithinAppend(a[1..], b, accounts);
      assert (a + b)[1..] == a[1..] + b;
    }
  }

  lemma {:induction false} NetOfAppend(a: seq<Line>, b: seq<Line>, account: Id)
    ensures NetOf(a + b, account) == NetOf(a, account) + NetOf(b, account)
    decreases |a|
  {
    if a == [] {
      assert a + b == b;
    } else {
      NetOfAppend(a[1..], b, account);
      assert (a + b)[1..] == a[1..] + b;
    }
  }

  lemma {:induction false} NetWithinAll(lines: seq<Line>, accounts: set<Id>)
    requires forall i :: 0 <= i < |lines| ==> lines[i].account in accounts
    ensures NetWithin(lines, accounts) == Debits(lines) - Credits(lines)
    decreases |lines|
  {
    if lines != [] {
      NetWithinAll(lines[1..], accounts);
    }
  }

  // ---- the lines a report reads ----

  predicate InPeriod(date: int, from: Option<int>, to: int) {
    (from.Some? ==> from.value <= date) && date <= to
  }

  function BranchLines(chart: Chart, branch: Branch, lines: seq<Line>): seq<Line> {
    if lines == [] then []
    else
      var first := lines[0];
      (if first.account in chart && chart[first.account].branch == branch then [first] else [])
        + BranchLines(chart, branch, lines[1..])
  }

  function Included(chart: Chart, branch: Branch, entries: seq<Entry>, from: Option<int>, to: int): seq<Line> {
    if entries == [] then []
    else
      (if InPeriod(entries[0].date, from, to) then BranchLines(chart, branch, entries[0].lines) else [])
        + Included(chart, branch, entries[1..], from, to)
  }

  lemma {:induction false} BranchLinesAreOfBranch(chart: Chart, branch: Branch, lines: seq<Line>)
    ensures forall l :: l in BranchLines(chart, branch, lines) ==> l.account in chart && chart[l.account].branch == branch
    decreases |lines|
  {
    if lines != [] {
      BranchLinesAreOfBranch(chart, branch, lines[1..]);
    }
  }

  lemma {:induction false} IncludedAreOfBranch(chart: Chart, branch: Branch, entries: seq<Entry>, from: Option<int>, to: int)
    ensures forall l :: l in Included(chart, branch, entries, from, to) ==>
      l.account in chart && chart[l.account].branch == branch
    decreases |entries|
  {
    if entries != [] {
      IncludedAreOfBranch(chart, branch, entries[1..], from, to);
      BranchLinesAreOfBranch(chart, branch, entries[0].lines);
    }
  }

  // ---- account rows ----

  datatype Row = Row(kind: Kind, debit: int, credit: int, balance: int)

  function NormalBalance(kind: Kind, debit: int, credit: int): int {
    if kind in {Asset, Expense} then debit - credit else credit - debit
  }

  /** One row for each grouped account; `ids` is the order the database lists them in. */
  function Rows(chart: Chart, lines: seq<Line>, ids: seq<Id>): seq<Row>
    requires forall id :: id in ids ==> id in chart
  {
    if ids == [] then []
    else
      var kind := chart[ids[0]].kind;
      var debit, credit := DebitOf(lines, ids[0]), CreditOf(lines, ids[0]);
      [Row(kind, debit, credit, NormalBalance(kind, debit, credit))] + Rows(chart, lines, ids[1..])
  }

  /** The sum of the balances of one kind: rows.filter(type).reduce(add). */
  function Total(rows: seq<Row>, kind: Kind): int {
    if rows == [] then 0 else (if rows[0].kind == kind then rows[0].balance else 0) + Total(rows[1..], kind)
  }

  function Earnings(rows: seq<Row>): int {
    Total(rows, Revenue) - Total(rows, Expense)
  }

  datatype SheetRow = SheetRow(kind: Kind, amount: int)

  function BalanceRows(rows: seq<Row>): seq<SheetRow> {
    if rows == [] then []
    else
      (if rows[0].kind in {Asset, Liability, Equity} then [SheetRow(rows[0].kind, rows[0].balance)] else [])
        + BalanceRows(rows[1..])
  }

  /** The BALANCE_SHEET rows; the running result stands last, as equity. */
  function BalanceSheet(rows: seq<Row>): seq<SheetRow> {
    BalanceRows(rows) + [SheetRow(Equity, Earnings(rows))]
  }

  /** The PROFIT_LOSS rows. */
  function ProfitLoss(rows: seq<Row>): seq<SheetRow> {
    if rows == [] then []
    else
      (if rows[0].kind in {Revenue, Expense} then [SheetRow(rows[0].kind, rows[0].balance)] else [])
        + ProfitLoss(rows[1..])
  }

  function SheetTotal(sheet: seq<SheetRow>, kind: Kind): int {
    if sheet == [] then 0 else (if sheet[0].kind == kind then sheet[0].amount else 0) + SheetTotal(sheet[1..], kind)
  }

  lemma {:induction false} SheetTotalAppend(a: seq<SheetRow>, b: seq<SheetRow>, kind: Kind)
    ensures SheetTotal(a + b, kind) == SheetTotal(a, kind) + SheetTotal(b, kind)
    decreases |a|
  {
    if a == [] {
      assert a + b == b;
    } else {
      SheetTotalAppend(a[1..], b, kind);
      assert (a + b)[1..] == a[1..] + b;
    }
  }

  lemma {:induction false} BalanceRowsTotals(rows: seq<Row>, kind: Kind)
    ensures SheetTotal(BalanceRows(rows), kind) == if kind in {Asset, Liability, Equity} then Total(rows, kind) else 0
    decreases |rows|
  {
    if rows != [] {
      BalanceRowsTotals(rows[1..], kind);
      SheetTotalAppend(BalanceRows(rows[..1]), BalanceRows(rows[1..]), kind);
      assert BalanceRows(rows) == BalanceRows(rows[..1]) + BalanceRows(rows[1..]);
    }
  }

  lemma {:induction false} ProfitLossTotals(rows: seq<Row>)
    ensures SheetTotal(ProfitLoss(rows), Revenue) - SheetTotal(ProfitLoss(rows), Expense) == Earnings(rows)
    decreases |rows|
  {
    if rows != [] {
      ProfitLossTotals(rows[1..]);
      SheetTotalAppend(ProfitLoss(rows[..1]), ProfitLoss(rows[1..]), Revenue);
      SheetTotalAppend(ProfitLoss(rows[..1]), ProfitLoss(rows[1..]), Expense);
      assert ProfitLoss(rows) == ProfitLoss(rows[..1]) + ProfitLoss(rows[1..]);
    }
  }

  // ---- exchanging the two sums ----

  ghost predicate NoDuplicates(ids: seq<Id>) {
    forall i, j :: 0 <= i < j < |ids| ==> ids[i] != ids[j]
  }

  /** groupBy: exactly the accounts that have a line, each once. */
  ghost predicate Groups(ids: seq<Id>, lines: seq<Line>) {
    && NoDuplicates(ids)
    && (forall id :: id in ids <==> exists i :: 0 <= i < |lines| && lines[i].account == id)
  }

  function Listed(ids: seq<Id>, accounts: set<Id>): set<Id> {
    set id | id in ids && id in accounts
  }

  /** The sum over accounts of the sums over their lines. */
  function NetOfEach(lines: seq<Line>, ids: seq<Id>, accounts: set<Id>): int {
    if ids == [] then 0
    else (if ids[0] in accounts then NetOf(lines, ids[0]) else 0) + NetOfEach(lines, ids[1..], accounts)
  }

  lemma {:induction false} EachIsWithin(lines: seq<Line>, ids: seq<Id>, accounts: set<Id>)
    requires NoDuplicates(ids)
    ensures NetOfEach(lines, ids, accounts) == NetWithin(lines, Listed(ids, accounts))
    decreases |ids|
  {
    if ids == [] {
      NothingWithin(lines, Listed(ids, accounts));
    } else {
      EachIsWithin(lines, ids[1..], accounts);
      var id, rest := ids[0], Listed(ids[1..], accounts);
      if id in accounts {
        OneMore(lines, id, rest);
        assert Listed(ids, accounts) == {id} + rest;
      } else {
        assert Listed(ids, accounts) == rest;
      }
    }
  }

  lemma {:induction false} NothingWithin(lines: seq<Line>, accounts: set<Id>)
    requires accounts == {}
    ensures NetWithin(lines, accounts) == 0
    decreases |lines|
  {
    if lines != [] {
      NothingWithin(lines[1..], accounts);
    }
  }

  lemma {:induction false} OneMore(lines: seq<Line>, id: Id, accounts: set<Id>)
    requires id !in accounts
    ensures NetWithin(lines, {id} + accounts) == NetOf(lines, id) + NetWithin(lines, accounts)
    decreases |lines|
  {
    if lines != [] {
      OneMore(lines[1..], id, accounts);
    }
  }

  function OfKinds(chart: Chart, kinds: set<Kind>): set<Id> {
    set id | id in chart && chart[id].kind in kinds
  }

  lemma {:induction false} TotalsAreNets(chart: Chart, lines: seq<Line>, ids: seq<Id>)
    requires forall id :: id in ids ==> id in chart
    ensures var rows := Rows(chart, lines, ids);
      && Total(rows, Asset) - Total(rows, Liability) - Total(rows, Equity) - Earnings(rows)
         == NetOfEach(lines, ids, chart.Keys)
      && Earnings(rows) == 0 - NetOfEach(lines, ids, OfKinds(chart, {Revenue, Expense}))
    decreases |ids|
  {
    if ids != [] {
      TotalsAreNets(chart, lines, ids[1..]);
      var rows := Rows(chart, lines, ids);
      assert rows[1..] == Rows(chart, lines, ids[1..]);
    }
  }

  // ---- the balance sheet ----

  /** Assets against everything else: the two sides differ by exactly what the included debits and credits do. */
  lemma SheetDifference(chart: Chart, lines: seq<Line>, ids: seq<Id>)
    requires Groups(ids, lines)
    requires forall i :: 0 <= i < |lines| ==> lines[i].account in chart
    ensures forall id :: id in ids ==> id in chart
    ensures var sheet := BalanceSheet(Rows(chart, lines, ids));
      SheetTotal(sheet, Asset) - SheetTotal(sheet, Liability) - SheetTotal(sheet, Equity) == Debits(lines) - Credits(lines)
  {
    var rows := Rows(chart, lines, ids);
    var last := [SheetRow(Equity, Earnings(rows))];
    forall kind: Kind
      ensures SheetTotal(BalanceSheet(rows), kind) ==
        SheetTotal(BalanceRows(rows), kind) + if kind == Equity then Earnings(rows) else 0
    {
      assert last[1..] == [];
      SheetTotalAppend(BalanceRows(rows), last, kind);
    }
    BalanceRowsTotals(rows, Asset);
    BalanceRowsTotals(rows, Liability);
    BalanceRowsTotals(rows, Equity);
    TotalsAreNets(chart, lines, ids);
    EachIsWithin(lines, ids, chart.Keys);
    NetWithinAll(lines, Listed(ids, chart.Keys));
  }

  /** The sheet of a branch on a day balances exactly when the branch's debits and credits up to that day agree. */
  lemma SheetBalancesIff(chart: Chart, branch: Branch, entries: seq<Entry>, to: int, ids: seq<Id>)
    requires Groups(ids, Included(chart, branch, entries, None, to))
    ensures forall id :: id in ids ==> id in chart
    ensures var lines := Included(chart, branch, entries, None, to);
      var sheet := BalanceSheet(Rows(chart, lines, ids));
      SheetTotal(sheet, Asset) == SheetTotal(sheet, Liability) + SheetTotal(sheet, Equity) <==>
        Debits(lines) == Credits(lines)
  {
    var lines := Included(chart, branch, entries, None, to);
    IncludedAreOfBranch(chart, branch, entries, None, to);
    SheetDifference(chart, lines, ids);
  }

  ghost predicate OneBranch(chart: Chart, entry: Entry) {
    forall i, j :: 0 <= i < |entry.lines| && 0 <= j < |entry.lines| ==>
      && entry.lines[i].account in chart && entry.lines[j].account in chart
      && chart[entry.lines[i].account].branch == chart[entry.lines[j].account].branch
  }

  ghost predicate Sound(chart: Chart, entry: Entry) {
    OneBranch(chart, entry) && Debits(entry.lines) == Credits(entry.lines)
  }

  lemma {:induction false} AllOrNone(chart: Chart, branch: Branch, home: Branch, lines: seq<Line>)
    requires forall i :: 0 <= i < |lines| ==> lines[i].account in chart && chart[lines[i].account].branch == home
    ensures BranchLines(chart, branch, lines) == if branch == home then lines else []
    decreases |lines|
  {
    if lines != [] {
      AllOrNone(chart, branch, home, lines[1..]);
      assert lines == [lines[0]] + lines[1..];
    }
  }

  lemma {:induction false} DebitsCreditsAppend(a: seq<Line>, b: seq<Line>)
    ensures Debits(a + b) == Debits(a) + Debits(b) && Credits(a + b) == Credits(a) + Credits(b)
    decreases |a|
  {
    if a == [] {
      assert a + b == b;
    } else {
      DebitsCreditsAppend(a[1..], b);
      assert (a + b)[1..] == a[1..] + b;
    }
  }

  lemma {:induction false} SoundEntriesAgree(chart: Chart, branch: Branch, entries: seq<Entry>, from: Option<int>, to: int)
    requires forall i :: 0 <= i < |entries| ==> Sound(chart, entries[i])
    ensures var lines := Included(chart, branch, entries, from, to); Debits(lines) == Credits(lines)
    decreases |entries|
  {
    if entries != [] {
      var first := if InPeriod(entries[0].date, from, to) then BranchLines(chart, branch, entries[0].lines) else [];
      SoundEntriesAgree(chart, branch, entries[1..], from, to);
      if entries[0].lines != [] {
        AllOrNone(chart, branch, chart[entries[0].lines[0].account].branch, entries[0].lines);
      }
      DebitsCreditsAppend(first, Included(chart, branch, entries[1..], from, to));
    }
  }

  /** Journals that balance and stay in one branch give a balanced sheet for every branch on every day. */
  lemma SheetBalances(chart: Chart, branch: Branch, entries: seq<Entry>, to: int, ids: seq<Id>)
    requires forall i :: 0 <= i < |entries| ==> Sound(chart, entries[i])
    requires Groups(ids, Included(chart, branch, entries, None, to))
    ensures forall id :: id in ids ==> id in chart
    ensures var sheet := BalanceSheet(Rows(chart, Included(chart, branch, entries, None, to), ids));
      SheetTotal(sheet, Asset) == SheetTotal(sheet, Liability) + SheetTotal(sheet, Equity)
  {
    SoundEntriesAgree(chart, branch, entries, None, to);
    SheetBalancesIff(chart, branch, entries, to, ids);
  }

  function Transfer(to: Id, from: Id, amount: int): Entry {
    Entry(0, [Line(to, amount, 0), Line(from, 0, amount)])
  }

  lemma TwoLines(chart: Chart, to: Id, from: Id, amount: int)
    requires to in chart && from in chart && chart[to].branch != chart[from].branch
    ensures Debits(Transfer(to, from, amount).lines) == Credits(Transfer(to, from, amount).lines)
    ensures Included(chart, chart[to].branch, [Transfer(to, from, amount)], None, 0) == [Line(to, amount, 0)]
  {
    var debit, credit := Line(to, amount, 0), Line(from, 0, amount);
    assert [debit, credit][1..] == [credit] && [credit][1..] == [];
    assert Debits([credit]) == 0 && Credits([credit]) == amount;
    assert BranchLines(chart, chart[to].branch, [credit]) == [];
    assert Included(chart, chart[to].branch, [], None, 0) == [];
  }

  lemma OneLine(line: Line)
    ensures Debits([line]) == line.debit && Credits([line]) == line.credit
  {
    assert [line][1..] == [] && Debits([]) == 0 && Credits([]) == 0;
  }

  lemma OneGroup(line: Line)
    ensures Groups([line.account], [line])
  {
    assert [line][0].account == line.account;
  }

  /** Staying in one branch matters: any balanced transfer between two branches unbalances the sheet. */
  lemma CrossBranchUnbalances(chart: Chart, to: Id, from: Id, amount: int)
    requires to in chart && from in chart && chart[to].branch != chart[from].branch && amount != 0
    ensures var entry := Transfer(to, from, amount);
      var lines := Included(chart, chart[to].branch, [entry], None, 0);
      var sheet := BalanceSheet(Rows(chart, lines, [to]));
      && Debits(entry.lines) == Credits(entry.lines)
      && Groups([to], lines)
      && SheetTotal(sheet, Asset) != SheetTotal(sheet, Liability) + SheetTotal(sheet, Equity)
  {
    hide Debits, Credits, Included, SheetTotal, Groups;
    TwoLines(chart, to, from, amount);
    var lines := [Line(to, amount, 0)];
    OneLine(lines[0]);
    assert Groups([to], lines) by {
      OneGroup(lines[0]);
    }
    SheetBalancesIff(chart, chart[to].branch, [Transfer(to, from, amount)], 0, [to]);
  }

  // ---- the result of a period ----

  lemma {:induction false} PeriodsAdd(chart: Chart, branch: Branch, entries: seq<Entry>, before: int, to: int, accounts: set<Id>)
    requires before <= to
    ensures NetWithin(Included(chart, branch, entries, None, to), accounts) ==
      NetWithin(Included(chart, branch, entries, None, before), accounts)
      + NetWithin(Included(chart, branch, entries, Some(before + 1), to), accounts)
    decreases |entries|
  {
    if entries != [] {
      var date, rest := entries[0].date, entries[1..];
      var lines := BranchLines(chart, branch, entries[0].lines);
      PeriodsAdd(chart, branch, rest, before, to, accounts);
      NetWithinAppend(if date <= to then lines else [], Included(chart, branch, rest, None, to), accounts);
      NetWithinAppend(if date <= before then lines else [], Included(chart, branch, rest, None, before), accounts);
      NetWithinAppend(if before < date <= to then lines else [], Included(chart, branch, rest, Some(before + 1), to), accounts);
    }
  }

  lemma {:induction false} WithinListed(lines: seq<Line>, ids: seq<Id>, accounts: set<Id>)
    requires forall i :: 0 <= i < |lines| ==> lines[i].account in ids
    ensures NetWithin(lines, Listed(ids, accounts)) == NetWithin(lines, accounts)
    decreases |lines|
  {
    if lines != [] {
      WithinListed(lines[1..], ids, accounts);
    }
  }

  lemma EarningsAreNet(chart: Chart, branch: Branch, entries: seq<Entry>, from: Option<int>, to: int, ids: seq<Id>)
    requires Groups(ids, Included(chart, branch, entries, from, to))
    ensures forall id :: id in ids ==> id in chart
    ensures var lines := Included(chart, branch, entries, from, to);
      Earnings(Rows(chart, lines, ids)) == 0 - NetWithin(lines, OfKinds(chart, {Revenue, Expense}))
  {
    var lines := Included(chart, branch, entries, from, to);
    IncludedAreOfBranch(chart, branch, entries, from, to);
    TotalsAreNets(chart, lines, ids);
    EachIsWithin(lines, ids, OfKinds(chart, {Revenue, Expense}));
    WithinListed(lines, ids, OfKinds(chart, {Revenue, Expense}));
  }

  /** The two reports agree: the profit and loss of a period is what it adds to the current earnings on the
      balance sheet. */
  lemma PeriodResultIsGrowth(chart: Chart, branch: Branch, entries: seq<Entry>, before: int, to: int,
      opening: seq<Id>, period: seq<Id>, closing: seq<Id>)
    requires before <= to
    requires Groups(opening, Included(chart, branch, entries, None, before))
    requires Groups(period, Included(chart, branch, entries, Some(before + 1), to))
    requires Groups(closing, Included(chart, branch, entries, None, to))
    ensures forall id :: id in opening || id in period || id in closing ==> id in chart
    ensures
      var result := ProfitLoss(Rows(chart, Included(chart, branch, entries, Some(before + 1), to), period));
      SheetTotal(result, Revenue) - SheetTotal(result, Expense) ==
        Earnings(Rows(chart, Included(chart, branch, entries, None, to), closing))
        - Earnings(Rows(chart, Included(chart, branch, entries, None, before), opening))
  {
    EarningsAreNet(chart, branch, entries, None, before, opening);
    EarningsAreNet(chart, branch, entries, Some(before + 1), to, period);
    EarningsAreNet(chart, branch, entries, None, to, closing);
    PeriodsAdd(chart, branch, entries, before, to, OfKinds(chart, {Revenue, Expense}));
    ProfitLossTotals(Rows(chart, Included(chart, branch, entries, Some(before + 1), to), period));
  }
}
