/** The posting engine, which turns a rule of the seeded table and a set of amounts into a journal, and what the
    table's rules do to the accounts. */
module PostingRules {
  import opened Common
  import L = Ledger

  /** The keys the modelled rules use, for amounts and for account codes alike. */
  datatype Key = Settlement | Gross | Net | Revenue | Returns | OutputTax | Cogs | Inventory | CustomerAdvance | Receivable

  datatype Side = Debit | Credit
  datatype Source = ByKey(key: Key) | Fixed(code: string)
  datatype RuleLine = RuleLine(source: Source, side: Side, amountKey: Key, skipIfZero: Option<bool>)
  type Rule = seq<RuleLine>

  /** What an event brings along: its amounts in cents, the configured account codes, and the branch's active accounts. */
  datatype Posting = Posting(amounts: map<Key, int>, codes: map<Key, string>, accounts: map<string, L.Id>)

  datatype PostError = NothingToPost | NoAccountCode | UnknownAccount | NegativeAmount | Unbalanced
  datatype Result = Ok(lines: seq<L.Line>) | Err(error: PostError)

  function Amount(p: Posting, line: RuleLine): int {
    if line.amountKey in p.amounts then p.amounts[line.amountKey] else 0
  }

  function Code(p: Posting, line: RuleLine): string {
    match line.source
    case ByKey(key) => if key in p.codes then p.codes[key] else ""
    case Fixed(code) => code
  }

  /** A line without the flag is skipped at zero, as if the flag were set. */
  predicate Kept(p: Posting, line: RuleLine) {
    (line.skipIfZero.Some? && !line.skipIfZero.value) || Amount(p, line) != 0
  }

  function Usable(p: Posting, rule: Rule): Rule {
    if rule == [] then [] else (if Kept(p, rule[0]) then [rule[0]] else []) + Usable(p, rule[1..])
  }

  function JournalLine(p: Posting, line: RuleLine): L.Line
    requires Code(p, line) in p.accounts
  {
    var account := p.accounts[Code(p, line)];
    if line.side == Debit then L.Line(account, Amount(p, line), 0) else L.Line(account, 0, Amount(p, line))
  }

  function JournalLines(p: Posting, usable: Rule): seq<L.Line>
    requires forall line :: line in usable ==> Code(p, line) in p.accounts
  {
    if usable == [] then [] else [JournalLine(p, usable[0])] + JournalLines(p, usable[1..])
  }

  function Post(p: Posting, rule: Rule): Result {
    var usable := Usable(p, rule);
    if usable == [] then Err(NothingToPost)
    else if exists line :: line in usable && Code(p, line) == "" then Err(NoAccountCode)
    else if exists line :: line in usable && Code(p, line) !in p.accounts then Err(UnknownAccount)
    else if exists line :: line in usable && Amount(p, line) < 0 then Err(NegativeAmount)
    else
      var lines := JournalLines(p, usable);
      if L.Debits(lines) != L.Credits(lines) then Err(Unbalanced) else Ok(lines)
  }

  // ---- what a rule does, without its journal ----

  function Signed(p: Posting, line: RuleLine): int {
    if line.side == Debit then Amount(p, line) else 0 - Amount(p, line)
  }

  predicate On(p: Posting, line: RuleLine, account: L.Id) {
    Code(p, line) in p.accounts && p.accounts[Code(p, line)] == account
  }

  function Effect(p: Posting, rule: Rule, account: L.Id): int {
    if rule == [] then 0
    else (if On(p, rule[0], account) then Signed(p, rule[0]) else 0) + Effect(p, rule[1..], account)
  }

  function Excess(p: Posting, rule: Rule): int {
    if rule == [] then 0 else Signed(p, rule[0]) + Excess(p, rule[1..])
  }

  predicate Postable(p: Posting, line: RuleLine) {
    Kept(p, line) ==> Code(p, line) != "" && Code(p, line) in p.accounts && Amount(p, line) >= 0
  }

  lemma {:induction false} UsableIsKept(p: Posting, rule: Rule)
    ensures forall line :: line in Usable(p, rule) <==> line in rule && Kept(p, line)
    decreases |rule|
  {
    if rule != [] {
      UsableIsKept(p, rule[1..]);
      assert forall line :: line in rule <==> line == rule[0] || line in rule[1..];
    }
  }

  lemma {:induction false} JournalMeaning(p: Posting, rule: Rule, account: L.Id)
    requires forall line :: line in Usable(p, rule) ==> Code(p, line) in p.accounts
    ensures var lines := JournalLines(p, Usable(p, rule));
      && L.NetOf(lines, account) == Effect(p, rule, account)
      && L.Debits(lines) - L.Credits(lines) == Excess(p, rule)
      && (forall l :: l in lines ==> l.account in p.accounts.Values)
    decreases |rule|
  {
    if rule != [] {
      var first, rest := rule[0], Usable(p, rule[1..]);
      JournalMeaning(p, rule[1..], account);
      if Kept(p, first) {
        assert Usable(p, rule)[0] == first && Usable(p, rule)[1..] == rest;
        var lines := JournalLines(p, Usable(p, rule));
        assert lines[1..] == JournalLines(p, rest);
        assert first in Usable(p, rule);
        assert lines[0].account in p.accounts.Values by {
          assert p.accounts[Code(p, first)] in p.accounts.Values;
        }
      } else {
        assert Usable(p, rule) == rest;
      }
    }
  }

  /** A rule posts exactly when some line remains, every remaining line can be posted, and the amounts balance. */
  lemma PostsIff(p: Posting, rule: Rule)
    ensures Post(p, rule).Ok? <==>
      && (exists line :: line in rule && Kept(p, line))
      && (forall line :: line in rule ==> Postable(p, line))
      && Excess(p, rule) == 0
  {
    UsableIsKept(p, rule);
    var usable := Usable(p, rule);
    if usable != [] {
      assert usable[0] in usable;
    }
    if forall line :: line in rule ==> Postable(p, line) {
      JournalMeaning(p, rule, 0);
    } else {
      var line :| line in rule && !Postable(p, line);
      assert line in usable;
    }
  }

  lemma PostedEffect(p: Posting, rule: Rule, account: L.Id)
    requires Post(p, rule).Ok?
    ensures L.NetOf(Post(p, rule).lines, account) == Effect(p, rule, account)
  {
    JournalMeaning(p, rule, account);
  }

  lemma {:induction false} JournalHas(p: Posting, usable: Rule, line: RuleLine)
    requires (forall l :: l in usable ==> Code(p, l) in p.accounts) && line in usable
    ensures JournalLine(p, line) in JournalLines(p, usable)
    decreases |usable|
  {
    if usable[0] != line {
      JournalHas(p, usable[1..], line);
    }
  }

  /** Every line of the rule with an amount stands in the journal: on the account of its fixed code, or of the code
      configured for its key, and on its side. */
  lemma LineIsPosted(p: Posting, rule: Rule, line: RuleLine)
    requires Post(p, rule).Ok? && line in rule
    requires line.amountKey in p.amounts && p.amounts[line.amountKey] != 0
    ensures var amount := p.amounts[line.amountKey];
      var posted := account => if line.side == Debit then L.Line(account, amount, 0) else L.Line(account, 0, amount);
      match line.source
      case Fixed(code) => code in p.accounts && posted(p.accounts[code]) in Post(p, rule).lines
      case ByKey(key) => key in p.codes && p.codes[key] in p.accounts && posted(p.accounts[p.codes[key]]) in Post(p, rule).lines
  {
    UsableIsKept(p, rule);
    JournalHas(p, Usable(p, rule), line);
  }

  lemma {:induction false} UsableSnoc(p: Posting, rule: Rule, line: RuleLine)
    ensures Usable(p, rule + [line]) == Usable(p, rule) + if Kept(p, line) then [line] else []
    decreases |rule|
  {
    if rule == [] {
      assert rule + [line] == [line] && [line][1..] == [];
    } else {
      assert (rule + [line])[1..] == rule[1..] + [line];
      UsableSnoc(p, rule[1..], line);
    }
  }

  lemma {:induction false} ExcessSnoc(p: Posting, rule: Rule, line: RuleLine)
    ensures Excess(p, rule + [line]) == Excess(p, rule) + Signed(p, line)
    decreases |rule|
  {
    if rule == [] {
      assert rule + [line] == [line] && [line][1..] == [];
    } else {
      assert (rule + [line])[1..] == rule[1..] + [line];
      ExcessSnoc(p, rule[1..], line);
    }
  }

  /** A further line without an amount changes nothing, unless its flag says that it must not be skipped: then its
      account has to exist. */
  lemma ZeroLine(p: Posting, rule: Rule, line: RuleLine)
    requires Post(p, rule).Ok? && (line.amountKey in p.amounts ==> p.amounts[line.amountKey] == 0)
    ensures line.skipIfZero != Some(false) ==> Post(p, rule + [line]) == Post(p, rule)
    ensures line.skipIfZero == Some(false) ==>
      (Post(p, rule + [line]).Ok? <==> Code(p, line) != "" && Code(p, line) in p.accounts)
  {
    UsableSnoc(p, rule, line);
    if line.skipIfZero == Some(false) {
      PostsIff(p, rule);
      PostsIff(p, rule + [line]);
      ExcessSnoc(p, rule, line);
      hide Post, Excess;
      assert forall l :: l in rule + [line] <==> l in rule || l == line;
    } else {
      assert Usable(p, rule) + [] == Usable(p, rule);
    }
  }

  /** What each refusal means; the first that applies is given. */
  lemma RefusalsMean(p: Posting, rule: Rule)
    requires Post(p, rule).Err?
    ensures match Post(p, rule).error
      case NothingToPost => forall line :: line in rule ==> !Kept(p, line)
      case NoAccountCode => exists line :: line in rule && Kept(p, line) && Code(p, line) == ""
      case UnknownAccount =>
        && (exists line :: line in rule && Kept(p, line) && Code(p, line) !in p.accounts)
        && forall line :: line in rule && Kept(p, line) ==> Code(p, line) != ""
      case NegativeAmount =>
        && (exists line :: line in rule && Kept(p, line) && Amount(p, line) < 0)
        && forall line :: line in rule && Kept(p, line) ==> Code(p, line) in p.accounts
      case Unbalanced => Excess(p, rule) != 0 && forall line :: line in rule ==> Postable(p, line)
  {
    UsableIsKept(p, rule);
    if forall line :: line in Usable(p, rule) ==> Code(p, line) in p.accounts {
      JournalMeaning(p, rule, 0);
    }
  }

  // ---- posted journals and the balance sheet ----

  /** The accounts the engine looks up: those of one branch. */
  ghost predicate AccountsOf(chart: L.Chart, branch: L.Branch, accounts: map<string, L.Id>) {
    forall code :: code in accounts ==> accounts[code] in chart && chart[accounts[code]].branch == branch
  }

  ghost predicate Posted(chart: L.Chart, entry: L.Entry) {
    exists branch, p: Posting, rule: Rule :: AccountsOf(chart, branch, p.accounts) && Post(p, rule) == Ok(entry.lines)
  }

  lemma PostedIsSound(chart: L.Chart, entry: L.Entry)
    requires Posted(chart, entry)
    ensures L.Sound(chart, entry)
  {
    var branch, p: Posting, rule: Rule :| AccountsOf(chart, branch, p.accounts) && Post(p, rule) == Ok(entry.lines);
    JournalMeaning(p, rule, 0);
    forall i | 0 <= i < |entry.lines|
      ensures entry.lines[i].account in chart && chart[entry.lines[i].account].branch == branch
    {
      assert entry.lines[i] in entry.lines;
      var code :| code in p.accounts && p.accounts[code] == entry.lines[i].account;
    }
  }

  /** Whatever rules, amounts and account codes are configured, the books the engine writes have a balanced sheet
      for every branch on every day. */
  lemma PostedBooksBalance(chart: L.Chart, branch: L.Branch, entries: seq<L.Entry>, to: int, ids: seq<L.Id>)
    requires forall i :: 0 <= i < |entries| ==> Posted(chart, entries[i])
    requires L.Groups(ids, L.Included(chart, branch, entries, None, to))
    ensures forall id :: id in ids ==> id in chart
    ensures var sheet := L.BalanceSheet(L.Rows(chart, L.Included(chart, branch, entries, None, to), ids));
      L.SheetTotal(sheet, L.Asset) == L.SheetTotal(sheet, L.Liability) + L.SheetTotal(sheet, L.Equity)
  {
    forall i | 0 <= i < |entries|
      ensures L.Sound(chart, entries[i])
    {
      PostedIsSound(chart, entries[i]);
    }
    L.SheetBalances(chart, branch, entries, to, ids);
  }

  // ---- the seeded table ----

  function Dr(account: Key, amount: Key): RuleLine {
    RuleLine(ByKey(account), Debit, amount, None)
  }

  function Cr(account: Key, amount: Key): RuleLine {
    RuleLine(ByKey(account), Credit, amount, None)
  }

  function Skipped(line: RuleLine): RuleLine {
    line.(skipIfZero := Some(true))
  }

  const SALE_CASH: Rule := [Dr(Settlement, Settlement), Cr(Revenue, Revenue), Skipped(Cr(OutputTax, OutputTax)),
    Dr(Cogs, Cogs), Cr(Inventory, Inventory)]
  const ORDER_PREPAYMENT: Rule := [Dr(Settlement, Gross), Cr(CustomerAdvance, Gross)]
  const ORDER_PREPAID_FULFILLED: Rule := [Dr(CustomerAdvance, Gross), Cr(Revenue, Revenue),
    Skipped(Cr(OutputTax, OutputTax)), Dr(Cogs, Cogs), Cr(Inventory, Inventory)]
  const ORDER_CREDIT_FULFILLED: Rule := [Dr(Receivable, Gross), Cr(Revenue, Revenue), Skipped(Cr(OutputTax, OutputTax)),
    Dr(Cogs, Cogs), Cr(Inventory, Inventory)]
  const CUSTOMER_RECEIPT: Rule := [Dr(Settlement, Gross), Cr(Receivable, Gross)]
  const ORDER_PAID: Rule := [Dr(Settlement, Settlement), Cr(Revenue, Revenue), Skipped(Cr(OutputTax, OutputTax)),
    Dr(Cogs, Cogs), Cr(Inventory, Inventory)]
  const SALE_RETURN: Rule := [Dr(Returns, Net), Skipped(Dr(OutputTax, OutputTax)), Cr(Settlement, Gross),
    Skipped(Dr(Inventory, Inventory)), Skipped(Cr(Cogs, Cogs))]

  /** None of the rules insists on a line without an amount. */
  lemma SeededSkipZero(p: Posting, line: RuleLine)
    requires line in SALE_CASH + ORDER_PREPAYMENT + ORDER_PREPAID_FULFILLED + ORDER_CREDIT_FULFILLED + CUSTOMER_RECEIPT + ORDER_PAID + SALE_RETURN
    requires line.amountKey in p.amounts ==> p.amounts[line.amountKey] == 0
    ensures !Kept(p, line)
  {
  }

  /** The lines every fulfilment shares. */
  const FULFILMENT: Rule := [Cr(Revenue, Revenue), Skipped(Cr(OutputTax, OutputTax)), Dr(Cogs, Cogs), Cr(Inventory, Inventory)]

  // ---- payment through an intermediate account ----

  lemma {:induction false} Cons(p: Posting, line: RuleLine, rule: Rule, account: L.Id)
    ensures Effect(p, [line] + rule, account) == (if On(p, line, account) then Signed(p, line) else 0) + Effect(p, rule, account)
    ensures Excess(p, [line] + rule) == Signed(p, line) + Excess(p, rule)
  {
    assert ([line] + rule)[1..] == rule;
  }

  /** The pair that moves the gross amount from one account to another. */
  function Move(to: Key, from: Key): Rule {
    [Dr(to, Gross), Cr(from, Gross)]
  }

  lemma {:induction false} MoveMeaning(p: Posting, to: Key, from: Key, account: L.Id)
    ensures Effect(p, Move(to, from), account) ==
      (if On(p, Dr(to, Gross), account) then Amount(p, Dr(to, Gross)) else 0)
      - (if On(p, Cr(from, Gross), account) then Amount(p, Cr(from, Gross)) else 0)
    ensures Excess(p, Move(to, from)) == 0
  {
    Cons(p, Dr(to, Gross), [Cr(from, Gross)], account);
    Cons(p, Cr(from, Gross), [], account);
    assert Move(to, from) == [Dr(to, Gross)] + [Cr(from, Gross)];
    assert [Cr(from, Gross)] + [] == [Cr(from, Gross)];
  }

  ghost predicate Configured(p: Posting, account: Key) {
    account in p.codes && p.codes[account] != "" && p.codes[account] in p.accounts
  }

  /** Paying through an intermediate account posts exactly when paying directly does and that account is configured,
      and leaves every account balance the same, even where two keys name one account. */
  lemma Detour(p: Posting, through: Key, tail: Rule)
    requires Settlement in p.amounts && Gross in p.amounts && p.amounts[Settlement] == p.amounts[Gross] > 0
    ensures var direct := [Dr(Settlement, Settlement)] + tail;
      var fulfilled, paid := [Dr(through, Gross)] + tail, Move(Settlement, through);
      && (Post(p, fulfilled).Ok? && Post(p, paid).Ok? <==> Post(p, direct).Ok? && Configured(p, through))
      && (Post(p, fulfilled).Ok? && Post(p, paid).Ok? ==> forall account ::
            L.NetOf(Post(p, fulfilled).lines, account) + L.NetOf(Post(p, paid).lines, account)
              == L.NetOf(Post(p, direct).lines, account))
  {
    hide Post, Effect, Excess, L.NetOf, Postable;
    var direct := [Dr(Settlement, Settlement)] + tail;
    var fulfilled, paid := [Dr(through, Gross)] + tail, Move(Settlement, through);
    DetourPosts(p, through, tail);
    if Post(p, fulfilled).Ok? && Post(p, paid).Ok? {
      forall account
        ensures L.NetOf(Post(p, fulfilled).lines, account) + L.NetOf(Post(p, paid).lines, account)
          == L.NetOf(Post(p, direct).lines, account)
      {
        PostedEffect(p, fulfilled, account);
        PostedEffect(p, paid, account);
        PostedEffect(p, direct, account);
        Cons(p, Dr(Settlement, Settlement), tail, account);
        Cons(p, Dr(through, Gross), tail, account);
        MoveMeaning(p, Settlement, through, account);
      }
    }
  }

  lemma DetourPosts(p: Posting, through: Key, tail: Rule)
    requires Settlement in p.amounts && Gross in p.amounts && p.amounts[Settlement] == p.amounts[Gross] > 0
    ensures Post(p, [Dr(through, Gross)] + tail).Ok? && Post(p, Move(Settlement, through)).Ok? <==>
      Post(p, [Dr(Settlement, Settlement)] + tail).Ok? && Configured(p, through)
  {
    hide Post, Effect, Excess;
    var direct := [Dr(Settlement, Settlement)] + tail;
    var fulfilled, paid := [Dr(through, Gross)] + tail, Move(Settlement, through);
    PostsIff(p, direct);
    PostsIff(p, fulfilled);
    PostsIff(p, paid);
    Cons(p, Dr(Settlement, Settlement), tail, 0);
    Cons(p, Dr(through, Gross), tail, 0);
    MoveMeaning(p, Settlement, through, 0);
    assert direct[0] in direct && fulfilled[0] in fulfilled && paid[0] in paid && paid[1] in paid;
    assert Kept(p, direct[0]) && Kept(p, fulfilled[0]) && Kept(p, paid[0]) && Kept(p, paid[1]);
    assert forall line :: line in direct <==> line == direct[0] || line in tail;
    assert forall line :: line in fulfilled <==> line == fulfilled[0] || line in tail;
    assert Postable(p, fulfilled[0]) <==> Configured(p, through);
    assert Postable(p, paid[1]) <==> Configured(p, through);
    assert Postable(p, direct[0]) <==> Configured(p, Settlement);
    assert Postable(p, paid[0]) <==> Configured(p, Settlement);
  }

  /** Prepaying an order and fulfilling it later is, on every account, the same as the paid order. */
  lemma PrepaidIsPaid(p: Posting)
    requires Settlement in p.amounts && Gross in p.amounts && p.amounts[Settlement] == p.amounts[Gross] > 0
    ensures Post(p, ORDER_PREPAYMENT).Ok? && Post(p, ORDER_PREPAID_FULFILLED).Ok? <==>
      Post(p, ORDER_PAID).Ok? && Configured(p, CustomerAdvance)
    ensures Post(p, ORDER_PREPAYMENT).Ok? && Post(p, ORDER_PREPAID_FULFILLED).Ok? ==> forall account ::
      L.NetOf(Post(p, ORDER_PREPAYMENT).lines, account) + L.NetOf(Post(p, ORDER_PREPAID_FULFILLED).lines, account)
        == L.NetOf(Post(p, ORDER_PAID).lines, account)
  {
    hide Post, L.NetOf;
    Detour(p, CustomerAdvance, FULFILMENT);
    assert ORDER_PREPAYMENT == Move(Settlement, CustomerAdvance);
    assert ORDER_PREPAID_FULFILLED == [Dr(CustomerAdvance, Gross)] + FULFILMENT;
    assert ORDER_PAID == [Dr(Settlement, Settlement)] + FULFILMENT;
  }

  /** Fulfilling on credit and collecting the receivable later is, on every account, the same as the paid order. */
  lemma CollectedIsPaid(p: Posting)
    requires Settlement in p.amounts && Gross in p.amounts && p.amounts[Settlement] == p.amounts[Gross] > 0
    ensures Post(p, ORDER_CREDIT_FULFILLED).Ok? && Post(p, CUSTOMER_RECEIPT).Ok? <==>
      Post(p, ORDER_PAID).Ok? && Configured(p, Receivable)
    ensures Post(p, ORDER_CREDIT_FULFILLED).Ok? && Post(p, CUSTOMER_RECEIPT).Ok? ==> forall account ::
      L.NetOf(Post(p, ORDER_CREDIT_FULFILLED).lines, account) + L.NetOf(Post(p, CUSTOMER_RECEIPT).lines, account)
        == L.NetOf(Post(p, ORDER_PAID).lines, account)
  {
    hide Post, L.NetOf;
    Detour(p, Receivable, FULFILMENT);
    assert CUSTOMER_RECEIPT == Move(Settlement, Receivable);
    assert ORDER_CREDIT_FULFILLED == [Dr(Receivable, Gross)] + FULFILMENT;
    assert ORDER_PAID == [Dr(Settlement, Settlement)] + FULFILMENT;
  }

  // ---- a return against its sale ----

  function Part(p: Posting, line: RuleLine, account: L.Id): int {
    if On(p, line, account) then Signed(p, line) else 0
  }

  lemma {:induction false} FiveLines(p: Posting, a: RuleLine, b: RuleLine, c: RuleLine, d: RuleLine, e: RuleLine, account: L.Id)
    ensures Effect(p, [a, b, c, d, e], account) ==
      Part(p, a, account) + Part(p, b, account) + Part(p, c, account) + Part(p, d, account) + Part(p, e, account)
  {
    Cons(p, e, [], account);
    Cons(p, d, [e], account);
    Cons(p, c, [d, e], account);
    Cons(p, b, [c, d, e], account);
    Cons(p, a, [b, c, d, e], account);
    assert [e] + [] == [e] && [d] + [e] == [d, e] && [c] + [d, e] == [c, d, e];
    assert [b] + [c, d, e] == [b, c, d, e] && [a] + [b, c, d, e] == [a, b, c, d, e];
  }

  /** Returning a whole sale undoes it on every account, but for the revenue, which stays and is countered on the
      returns account. */
  lemma ReturnUndoesSale(p: Posting, account: L.Id)
    requires Settlement in p.amounts && Gross in p.amounts && p.amounts[Gross] == p.amounts[Settlement]
    requires Revenue in p.amounts && Net in p.amounts && p.amounts[Net] == p.amounts[Revenue]
    requires Post(p, SALE_CASH).Ok? && Post(p, SALE_RETURN).Ok?
    ensures L.NetOf(Post(p, SALE_CASH).lines, account) + L.NetOf(Post(p, SALE_RETURN).lines, account)
      == (if On(p, Dr(Returns, Net), account) then p.amounts[Net] else 0)
         - (if On(p, Cr(Revenue, Revenue), account) then p.amounts[Revenue] else 0)
  {
    hide Post, L.NetOf, Effect;
    PostedEffect(p, SALE_CASH, account);
    PostedEffect(p, SALE_RETURN, account);
    FiveLines(p, SALE_CASH[0], SALE_CASH[1], SALE_CASH[2], SALE_CASH[3], SALE_CASH[4], account);
    FiveLines(p, SALE_RETURN[0], SALE_RETURN[1], SALE_RETURN[2], SALE_RETURN[3], SALE_RETURN[4], account);
  }
}
