/** The quote a register computes without the server: a discount spread over the lines to the cent, and tax on
    what is left of each line. Amounts are whole cents; the discount typed in and the tax rates are real numbers. */
module OfflineQuote {
  import opened Common

  type Id = string

  datatype Rate = NotFinite | Finite(value: real)
  datatype TaxCode = TaxCode(id: Id, rate: Rate, inclusive: bool)
  datatype Item = Item(quantity: nat, unitPrice: nat, taxCodeId: Option<Id>)
  datatype Quote = Quote(subtotal: int, discount: int, net: int, tax: int, total: int)
  datatype QuoteError = DiscountExceedsSubtotal | TaxCodeMissing(line: nat) | InvalidRate(line: nat)
  datatype Result = Ok(quote: Quote) | Err(error: QuoteError)

  /** Math.round: to the nearest whole number, halves up. */
  function Round(x: real): (r: int)
    ensures r as real - 0.5 <= x < r as real + 0.5
  {
    (x + 0.5).Floor
  }

  function Discount(raw: real): (d: int)
    ensures d >= 0
    ensures if raw > 0.0 then d as real - 0.5 <= raw < d as real + 0.5 else d == 0
  {
    if raw > 0.0 then Round(raw) else 0
  }

  function Line(item: Item): nat {
    item.unitPrice * item.quantity
  }

  /** The first k lines together. */
  function LinesUpTo(items: seq<Item>, k: nat): nat
    requires k <= |items|
  {
    if k == 0 then 0 else LinesUpTo(items, k - 1) + Line(items[k - 1])
  }

  function Subtotal(items: seq<Item>): nat {
    LinesUpTo(items, |items|)
  }

  // ---- the specification: shares, bases, taxes ----

  function Ratio(discount: int, line: nat, subtotal: nat): real
    requires subtotal != 0
  {
    discount as real * line as real / subtotal as real
  }

  /** The exact share of a line in the discount. */
  function Proportional(discount: int, line: nat, subtotal: nat): real {
    if subtotal == 0 then 0.0 else Ratio(discount, line, subtotal)
  }

  function RoundedShare(items: seq<Item>, discount: int, i: nat): int
    requires i < |items|
  {
    Round(Proportional(discount, Line(items[i]), Subtotal(items)))
  }

  function RoundedUpTo(items: seq<Item>, discount: int, k: nat): int
    requires k <= |items|
  {
    if k == 0 then 0 else RoundedUpTo(items, discount, k - 1) + RoundedShare(items, discount, k - 1)
  }

  /** Each line takes its rounded share, but the last takes what is left. */
  function Share(items: seq<Item>, discount: int, i: nat): int
    requires i < |items|
  {
    if i == |items| - 1 then discount - RoundedUpTo(items, discount, i) else RoundedShare(items, discount, i)
  }

  function SharesUpTo(items: seq<Item>, discount: int, k: nat): int
    requires k <= |items|
  {
    if k == 0 then 0 else SharesUpTo(items, discount, k - 1) + Share(items, discount, k - 1)
  }

  function Base(items: seq<Item>, discount: int, i: nat): int
    requires i < |items|
  {
    Line(items[i]) - Share(items, discount, i)
  }

  /** new Map(taxCodes by id): a later code replaces an earlier one of the same id. */
  function TaxMap(codes: seq<TaxCode>): map<Id, TaxCode> {
    if codes == [] then map[]
    else TaxMap(codes[..|codes| - 1])[codes[|codes| - 1].id := codes[|codes| - 1]]
  }

  function LineError(codes: map<Id, TaxCode>, items: seq<Item>, i: nat): Option<QuoteError>
    requires i < |items|
  {
    match items[i].taxCodeId
    case None => None
    case Some(id) =>
      if id == "" then None
      else if id !in codes then Some(TaxCodeMissing(i))
      else if codes[id].rate.NotFinite? || codes[id].rate.value < 0.0 then Some(InvalidRate(i))
      else None
  }

  /** How a line is taxed, once it has no error. */
  datatype Taxing = Untaxed | Inside(rate: real) | OnTop(rate: real)

  function TaxingOf(codes: map<Id, TaxCode>, items: seq<Item>, i: nat): (t: Taxing)
    requires i < |items| && LineError(codes, items, i).None?
    ensures t.Inside? ==> t.rate > 0.0
    ensures t.OnTop? ==> t.rate >= 0.0
  {
    match items[i].taxCodeId
    case None => Untaxed
    case Some(id) =>
      if id == "" then Untaxed
      else
        var rate := codes[id].rate.value;
        if codes[id].inclusive && rate > 0.0 then Inside(rate) else OnTop(rate)
  }

  function WithoutTax(base: int, rate: real): real
    requires rate > 0.0
  {
    base as real / (1.0 + rate)
  }

  function TaxOnTop(base: int, rate: real): real {
    base as real * rate
  }

  function NetPart(t: Taxing, base: int): int
    requires t.Inside? ==> t.rate > 0.0
  {
    if t.Inside? then Round(WithoutTax(base, t.rate)) else base
  }

  function TaxPart(t: Taxing, base: int): int
    requires t.Inside? ==> t.rate > 0.0
  {
    match t
    case Untaxed => 0
    case Inside(_) => base - NetPart(t, base)
    case OnTop(rate) => Round(TaxOnTop(base, rate))
  }

  ghost predicate NoErrors(codes: map<Id, TaxCode>, items: seq<Item>, k: nat)
    requires k <= |items|
  {
    forall i :: 0 <= i < k ==> LineError(codes, items, i).None?
  }

  ghost function NetUpTo(codes: map<Id, TaxCode>, items: seq<Item>, discount: int, k: nat): int
    requires k <= |items| && NoErrors(codes, items, k)
  {
    if k == 0 then 0
    else NetUpTo(codes, items, discount, k - 1) + NetPart(TaxingOf(codes, items, k - 1), Base(items, discount, k - 1))
  }

  ghost function TaxUpTo(codes: map<Id, TaxCode>, items: seq<Item>, discount: int, k: nat): int
    requires k <= |items| && NoErrors(codes, items, k)
  {
    if k == 0 then 0
    else TaxUpTo(codes, items, discount, k - 1) + TaxPart(TaxingOf(codes, items, k - 1), Base(items, discount, k - 1))
  }

  /** The tax that comes on top of the prices. */
  ghost function OnTopUpTo(codes: map<Id, TaxCode>, items: seq<Item>, discount: int, k: nat): int
    requires k <= |items| && NoErrors(codes, items, k)
  {
    if k == 0 then 0
    else
      var t := TaxingOf(codes, items, k - 1);
      OnTopUpTo(codes, items, discount, k - 1) + if t.OnTop? then TaxPart(t, Base(items, discount, k - 1)) else 0
  }

  // ---- what a quote has to be ----

  /** The code an id stands for: the last of its name. */
  ghost predicate Names(taxCodes: seq<TaxCode>, id: Id, code: TaxCode) {
    exists k :: 0 <= k < |taxCodes| && taxCodes[k] == code && code.id == id && forall j :: k < j < |taxCodes| ==> taxCodes[j].id != id
  }

  predicate HasCode(item: Item) {
    item.taxCodeId.Some? && item.taxCodeId.value != ""
  }

  /** A line without a tax code, or with a known one of a usable rate. */
  ghost predicate Taxable(taxCodes: seq<TaxCode>, item: Item) {
    HasCode(item) ==>
      exists code :: Names(taxCodes, item.taxCodeId.value, code) && code.rate.Finite? && code.rate.value >= 0.0
  }

  /** What one line adds to the quote. */
  datatype Amounts = Amounts(net: int, tax: int, total: int)

  /** n times the factor is the amount, if n is taken to the nearest whole number, halves up. */
  ghost predicate IsNearest(n: real, factor: real, amount: real) {
    (n - 0.5) * factor <= amount < (n + 0.5) * factor
  }

  /** A tax inside the price leaves the total alone, and the net is the price without it, to the nearest cent; a tax on
      top is its share of the net, to the nearest cent, and raises the total. */
  ghost predicate TaxedBy(code: TaxCode, base: int, a: Amounts)
    requires code.rate.Finite?
  {
    var rate := code.rate.value;
    if code.inclusive && rate > 0.0 then
      && a.total == base && a.net + a.tax == base
      && IsNearest(a.net as real, 1.0 + rate, base as real)
    else
      && a.net == base && a.total == base + a.tax
      && a.tax as real - 0.5 <= base as real * rate < a.tax as real + 0.5
  }

  ghost predicate IsTaxed(taxCodes: seq<TaxCode>, item: Item, base: int, a: Amounts) {
    if !HasCode(item) then a == Amounts(base, 0, base)
    else exists code :: Names(taxCodes, item.taxCodeId.value, code) && code.rate.Finite? && TaxedBy(code, base, a)
  }

  function SumOf(lines: seq<Amounts>): Amounts {
    if lines == [] then Amounts(0, 0, 0)
    else
      var n := |lines| - 1;
      var before := SumOf(lines[..n]);
      Amounts(before.net + lines[n].net, before.tax + lines[n].tax, before.total + lines[n].total)
  }

  /** The quote is the sum of its lines, each taxed on what the discount leaves of it. */
  ghost predicate SumsLines(taxCodes: seq<TaxCode>, items: seq<Item>, discount: int, quote: Quote) {
    exists lines: seq<Amounts> ::
      && |lines| == |items|
      && (forall i :: 0 <= i < |items| ==> IsTaxed(taxCodes, items[i], Base(items, discount, i), lines[i]))
      && SumOf(lines) == Amounts(quote.net, quote.tax, quote.total)
  }

  /** No line has a tax on top of its price. */
  ghost predicate AllInside(taxCodes: seq<TaxCode>, items: seq<Item>) {
    forall i, code :: 0 <= i < |items| && HasCode(items[i]) && Names(taxCodes, items[i].taxCodeId.value, code) ==>
      code.inclusive && code.rate.Finite? && code.rate.value > 0.0
  }

  // ---- the calculation meets it ----

  lemma {:induction false} TaxMapNames(taxCodes: seq<TaxCode>, id: Id)
    ensures id in TaxMap(taxCodes) <==> exists k :: 0 <= k < |taxCodes| && taxCodes[k].id == id
    ensures forall code :: id in TaxMap(taxCodes) && TaxMap(taxCodes)[id] == code <==> Names(taxCodes, id, code)
    decreases |taxCodes|
  {
    if taxCodes != [] {
      var n := |taxCodes| - 1;
      var init := taxCodes[..n];
      TaxMapNames(init, id);
      assert forall k :: 0 <= k < n ==> init[k] == taxCodes[k];
      forall code
        ensures id in TaxMap(taxCodes) && TaxMap(taxCodes)[id] == code <==> Names(taxCodes, id, code)
      {
        if taxCodes[n].id != id && Names(init, id, code) {
          var k :| 0 <= k < n && init[k] == code && code.id == id && forall j :: k < j < n ==> init[j].id != id;
          assert forall j :: k < j < |taxCodes| ==> taxCodes[j].id != id;
        }
      }
    }
  }

  lemma LineErrorMeans(taxCodes: seq<TaxCode>, items: seq<Item>, i: nat)
    requires i < |items|
    ensures var item, error := items[i], LineError(TaxMap(taxCodes), items, i);
      && (error.None? <==> Taxable(taxCodes, item))
      && (error.Some? ==> HasCode(item))
      && (error == Some(TaxCodeMissing(i)) <==> HasCode(item) && forall k :: 0 <= k < |taxCodes| ==> taxCodes[k].id != item.taxCodeId.value)
      && (error == Some(InvalidRate(i)) <==>
            HasCode(item) && exists code :: Names(taxCodes, item.taxCodeId.value, code) && (code.rate.NotFinite? || code.rate.value < 0.0))
      && (error.Some? ==> error.value in {TaxCodeMissing(i), InvalidRate(i)})
  {
    hide TaxMap, Names;
    if HasCode(items[i]) {
      TaxMapNames(taxCodes, items[i].taxCodeId.value);
    }
  }

  lemma NetIsNearest(base: int, rate: real, net: int)
    requires rate > 0.0 && net == Round(WithoutTax(base, rate))
    ensures IsNearest(net as real, 1.0 + rate, base as real)
  {
    hide IsNearest;
    Nearest(net as real, base as real, 1.0 + rate);
  }

  lemma Nearest(n: real, b: real, r: real)
    requires r > 0.0 && n - 0.5 <= b / r < n + 0.5
    ensures IsNearest(n, r, b)
  {
    QuotientTimes(b, r);
    NearestProduct(n - 0.5, b / r, n + 0.5, r, b);
  }

  lemma NearestProduct(low: real, x: real, high: real, r: real, b: real)
    requires low <= x < high && r > 0.0 && x * r == b
    ensures low * r <= b < high * r
  {
    Scaled(low, x, high, r);
  }

  lemma QuotientTimes(b: real, r: real)
    requires r > 0.0
    ensures b / r * r == b
  {
  }

  lemma Scaled(low: real, x: real, high: real, r: real)
    requires low <= x < high && r > 0.0
    ensures low * r <= x * r < high * r
  {
    Differs(x, low, r);
    Differs(high, x, r);
    PositiveProduct(high - x, r);
    if low < x {
      PositiveProduct(x - low, r);
    }
  }

  lemma Differs(x: real, y: real, r: real)
    ensures (x - y) * r == x * r - y * r
  {
  }

  ghost function LineAmounts(codes: map<Id, TaxCode>, items: seq<Item>, discount: int, i: nat): Amounts
    requires i < |items| && LineError(codes, items, i).None?
  {
    var t, base := TaxingOf(codes, items, i), Base(items, discount, i);
    Amounts(NetPart(t, base), TaxPart(t, base), base + if t.OnTop? then TaxPart(t, base) else 0)
  }

  lemma LineIsTaxed(taxCodes: seq<TaxCode>, items: seq<Item>, discount: int, i: nat)
    requires i < |items| && LineError(TaxMap(taxCodes), items, i).None?
    ensures IsTaxed(taxCodes, items[i], Base(items, discount, i), LineAmounts(TaxMap(taxCodes), items, discount, i))
  {
    hide TaxMap, Names, Base, WithoutTax, Round;
    if HasCode(items[i]) {
      var id := items[i].taxCodeId.value;
      TaxMapNames(taxCodes, id);
      var code := TaxMap(taxCodes)[id];
      assert Names(taxCodes, id, code);
      if code.inclusive && code.rate.value > 0.0 {
        NetIsNearest(Base(items, discount, i), code.rate.value, Round(WithoutTax(Base(items, discount, i), code.rate.value)));
      }
      assert TaxedBy(code, Base(items, discount, i), LineAmounts(TaxMap(taxCodes), items, discount, i));
    }
  }

  ghost function AmountsUpTo(codes: map<Id, TaxCode>, items: seq<Item>, discount: int, k: nat): (lines: seq<Amounts>)
    requires k <= |items| && NoErrors(codes, items, k)
    ensures |lines| == k
    ensures forall i :: 0 <= i < k ==> lines[i] == LineAmounts(codes, items, discount, i)
  {
    if k == 0 then [] else AmountsUpTo(codes, items, discount, k - 1) + [LineAmounts(codes, items, discount, k - 1)]
  }

  lemma SumSnoc(lines: seq<Amounts>, last: Amounts)
    ensures var before := SumOf(lines);
      SumOf(lines + [last]) == Amounts(before.net + last.net, before.tax + last.tax, before.total + last.total)
  {
    assert (lines + [last])[..|lines|] == lines;
  }

  lemma {:induction false} AmountsSum(codes: map<Id, TaxCode>, items: seq<Item>, discount: int, k: nat)
    requires k <= |items| && NoErrors(codes, items, k)
    ensures SumOf(AmountsUpTo(codes, items, discount, k)) ==
      Amounts(NetUpTo(codes, items, discount, k), TaxUpTo(codes, items, discount, k),
              LinesUpTo(items, k) - SharesUpTo(items, discount, k) + OnTopUpTo(codes, items, discount, k))
    decreases k
  {
    hide SumOf, LineAmounts, NetUpTo, TaxUpTo, OnTopUpTo, LinesUpTo, SharesUpTo, LineError;
    if k == 0 {
      NothingYet(codes, items, discount);
    } else {
      AmountsSum(codes, items, discount, k - 1);
      UpToNext(codes, items, discount, k - 1);
      SumSnoc(AmountsUpTo(codes, items, discount, k - 1), LineAmounts(codes, items, discount, k - 1));
    }
  }

  lemma NothingYet(codes: map<Id, TaxCode>, items: seq<Item>, discount: int)
    ensures NetUpTo(codes, items, discount, 0) == TaxUpTo(codes, items, discount, 0) == OnTopUpTo(codes, items, discount, 0) == 0
    ensures LinesUpTo(items, 0) == SharesUpTo(items, discount, 0) == 0 && SumOf([]) == Amounts(0, 0, 0)
  {
  }

  /** What line k adds. */
  lemma UpToNext(codes: map<Id, TaxCode>, items: seq<Item>, discount: int, k: nat)
    requires k < |items| && NoErrors(codes, items, k + 1)
    ensures var a := LineAmounts(codes, items, discount, k);
      && NetUpTo(codes, items, discount, k + 1) == NetUpTo(codes, items, discount, k) + a.net
      && TaxUpTo(codes, items, discount, k + 1) == TaxUpTo(codes, items, discount, k) + a.tax
      && LinesUpTo(items, k + 1) - SharesUpTo(items, discount, k + 1) + OnTopUpTo(codes, items, discount, k + 1) ==
           LinesUpTo(items, k) - SharesUpTo(items, discount, k) + OnTopUpTo(codes, items, discount, k) + a.total
  {
    hide NetPart, TaxPart, TaxingOf, Line, Share, LineError;
  }

  lemma QuoteSumsLines(taxCodes: seq<TaxCode>, items: seq<Item>, discount: int, quote: Quote)
    requires NoErrors(TaxMap(taxCodes), items, |items|)
    requires var codes := TaxMap(taxCodes);
      && quote.net == NetUpTo(codes, items, discount, |items|) && quote.tax == TaxUpTo(codes, items, discount, |items|)
      && quote.total == Subtotal(items) - SharesUpTo(items, discount, |items|) + OnTopUpTo(codes, items, discount, |items|)
    ensures SumsLines(taxCodes, items, discount, quote)
  {
    hide TaxMap, IsTaxed, LineAmounts, Base, LineError;
    var codes := TaxMap(taxCodes);
    var lines := AmountsUpTo(codes, items, discount, |items|);
    AmountsSum(codes, items, discount, |items|);
    forall i | 0 <= i < |items|
      ensures IsTaxed(taxCodes, items[i], Base(items, discount, i), lines[i])
    {
      LineIsTaxed(taxCodes, items, discount, i);
    }
  }

  lemma {:induction false} NothingOnTop(taxCodes: seq<TaxCode>, items: seq<Item>, discount: int, k: nat)
    requires k <= |items| && NoErrors(TaxMap(taxCodes), items, k) && AllInside(taxCodes, items)
    ensures OnTopUpTo(TaxMap(taxCodes), items, discount, k) == 0
    decreases k
  {
    hide TaxMap, TaxPart, Base, Names;
    if k > 0 {
      NothingOnTop(taxCodes, items, discount, k - 1);
      if HasCode(items[k - 1]) {
        var id := items[k - 1].taxCodeId.value;
        assert LineError(TaxMap(taxCodes), items, k - 1).None?;
        TaxMapNames(taxCodes, id);
        assert Names(taxCodes, id, TaxMap(taxCodes)[id]);
      }
    }
  }

  // ---- the calculation ----

  method CalculateOfflineQuote(items: seq<Item>, rawDiscount: real, taxCodes: seq<TaxCode>) returns (result: Result)
    ensures result == Err(DiscountExceedsSubtotal) <==> Discount(rawDiscount) > Subtotal(items)
    ensures result.Ok? <==> Discount(rawDiscount) <= Subtotal(items) && forall i :: 0 <= i < |items| ==> Taxable(taxCodes, items[i])
    ensures result.Err? && result.error.TaxCodeMissing? ==>
      var i := result.error.line;
      && i < |items| && (forall j :: 0 <= j < i ==> Taxable(taxCodes, items[j]))
      && HasCode(items[i]) && forall k :: 0 <= k < |taxCodes| ==> taxCodes[k].id != items[i].taxCodeId.value
    ensures result.Err? && result.error.InvalidRate? ==>
      var i := result.error.line;
      && i < |items| && (forall j :: 0 <= j < i ==> Taxable(taxCodes, items[j]))
      && HasCode(items[i])
      && exists code :: Names(taxCodes, items[i].taxCodeId.value, code) && (code.rate.NotFinite? || code.rate.value < 0.0)
    ensures var discount := Discount(rawDiscount);
      result.Ok? ==>
        && result.quote.subtotal == Subtotal(items)
        && result.quote.discount == SharesUpTo(items, discount, |items|) == discount
        && SumsLines(taxCodes, items, discount, result.quote)
        && result.quote.net + result.quote.tax == result.quote.total
        && (AllInside(taxCodes, items) ==> result.quote.total == result.quote.subtotal - discount)
    ensures var codes, discount := TaxMap(taxCodes), Discount(rawDiscount);
      result.Ok? ==>
        && NoErrors(codes, items, |items|)
        && result.quote.net == NetUpTo(codes, items, discount, |items|)
        && result.quote.tax == TaxUpTo(codes, items, discount, |items|)
  {
    hide Line, Proportional, Ratio, Round, NetPart, TaxPart, WithoutTax, TaxOnTop, Discount, TaxMap, RoundedShare, Share, Taxable,
      Names, SumsLines, AllInside;
    var subtotal := 0;
    for i := 0 to |items|
      invariant subtotal == LinesUpTo(items, i)
    {
      subtotal := subtotal + Line(items[i]);
    }
    var discount := Discount(rawDiscount);
    if discount > subtotal {
      return Err(DiscountExceedsSubtotal);
    }
    var codes := TaxMap(taxCodes);
    forall i | 0 <= i < |items|
      ensures LineError(codes, items, i).None? <==> Taxable(taxCodes, items[i])
    {
      LineErrorMeans(taxCodes, items, i);
    }
    var allocatedDiscount, net, tax, total := 0, 0, 0, 0;
    for index := 0 to |items|
      invariant NoErrors(codes, items, index)
      invariant index < |items| ==> allocatedDiscount == RoundedUpTo(items, discount, index)
      invariant allocatedDiscount == SharesUpTo(items, discount, index)
      invariant net == NetUpTo(codes, items, discount, index)
      invariant tax == TaxUpTo(codes, items, discount, index)
      invariant net + tax == total
      invariant total == LinesUpTo(items, index) - allocatedDiscount + OnTopUpTo(codes, items, discount, index)
      invariant index == |items| > 0 ==> allocatedDiscount == discount
    {
      var item := items[index];
      var line := Line(item);
      var share :=
        if index == |items| - 1 then discount - allocatedDiscount
        else if subtotal == 0 then 0
        else Round(Ratio(discount, line, subtotal));
      ShareStep(items, discount, index, allocatedDiscount, share);
      allocatedDiscount := allocatedDiscount + share;
      var discountedBase := line - share;
      if item.taxCodeId.Some? && item.taxCodeId.value != "" && item.taxCodeId.value !in codes {
        assert LineError(codes, items, index) == Some(TaxCodeMissing(index));
        LineErrorMeans(taxCodes, items, index);
        return Err(TaxCodeMissing(index));
      }
      if item.taxCodeId.None? || item.taxCodeId.value == "" {
        UntaxedParts(discountedBase);
        net := net + discountedBase;
        total := total + discountedBase;
      } else {
        var taxCode := codes[item.taxCodeId.value];
        if taxCode.rate.NotFinite? || taxCode.rate.value < 0.0 {
          assert LineError(codes, items, index) == Some(InvalidRate(index));
          LineErrorMeans(taxCodes, items, index);
          return Err(InvalidRate(index));
        }
        var rate := taxCode.rate.value;
        if taxCode.inclusive && rate > 0.0 {
          var lineNet := Round(WithoutTax(discountedBase, rate));
          var lineTax := discountedBase - lineNet;
          InsideParts(rate, discountedBase);
          net := net + lineNet;
          tax := tax + lineTax;
          total := total + discountedBase;
        } else {
          var lineTax := Round(TaxOnTop(discountedBase, rate));
          OnTopParts(rate, discountedBase);
          net := net + discountedBase;
          tax := tax + lineTax;
          total := total + discountedBase + lineTax;
        }
      }
    }
    var quote := Quote(subtotal, discount, net, tax, total);
    QuoteSumsLines(taxCodes, items, discount, quote);
    if AllInside(taxCodes, items) {
      NothingOnTop(taxCodes, items, discount, |items|);
    }
    result := Ok(quote);
  }

  lemma ShareStep(items: seq<Item>, discount: int, index: nat, soFar: int, share: int)
    requires index < |items| && soFar == RoundedUpTo(items, discount, index)
    requires share == (if index == |items| - 1 then discount - soFar
      else if Subtotal(items) == 0 then 0
      else Round(Ratio(discount, Line(items[index]), Subtotal(items))))
    ensures share == Share(items, discount, index)
    ensures index + 1 < |items| ==> soFar + share == RoundedUpTo(items, discount, index + 1)
  {
    hide Line, Ratio;
    RoundWhole(0);
  }

  lemma RoundWhole(n: int)
    ensures Round(n as real) == n
  {
  }

  lemma UntaxedParts(base: int)
    ensures NetPart(Untaxed, base) == base && TaxPart(Untaxed, base) == 0
  {
  }

  lemma InsideParts(rate: real, base: int)
    requires rate > 0.0
    ensures NetPart(Inside(rate), base) == Round(WithoutTax(base, rate))
    ensures TaxPart(Inside(rate), base) == base - NetPart(Inside(rate), base)
  {
  }

  lemma OnTopParts(rate: real, base: int)
    requires rate >= 0.0
    ensures NetPart(OnTop(rate), base) == base && TaxPart(OnTop(rate), base) == Round(TaxOnTop(base, rate))
  {
  }

  // ---- how far rounding can go ----

  lemma RatioAdds(discount: int, a: nat, b: nat, subtotal: nat)
    ensures Proportional(discount, a + b, subtotal) == Proportional(discount, a, subtotal) + Proportional(discount, b, subtotal)
  {
    if subtotal != 0 {
      var d, x, y, s := discount as real, a as real, b as real, subtotal as real;
      assert (a + b) as real == x + y;
      assert d * (x + y) == d * x + d * y;
    }
  }

  lemma QuotientOrder(a: real, b: real, s: real)
    requires s > 0.0 && a <= b
    ensures a / s <= b / s
  {
    var p, q := a / s, b / s;
    assert p * s == a && q * s == b;
    assert (p - q) * s == a - b;
    if q < p {
      PositiveProduct(p - q, s);
    }
  }

  lemma PositiveProduct(x: real, y: real)
    requires x > 0.0 && y > 0.0
    ensures x * y > 0.0
  {
  }

  lemma RatioBounds(discount: int, line: nat, subtotal: nat)
    requires 0 <= discount <= subtotal
    ensures 0.0 <= Proportional(discount, line, subtotal) <= line as real
  {
    if subtotal != 0 {
      var d, x, s := discount as real, line as real, subtotal as real;
      assert 0.0 <= d * x <= s * x by {
        assert (s - d) * x >= 0.0;
      }
      QuotientOrder(d * x, s * x, s);
      QuotientOrder(0.0, d * x, s);
      assert s * x / s == x;
    }
  }

  lemma RatioWhole(discount: int, subtotal: nat)
    requires 0 <= discount <= subtotal
    ensures Proportional(discount, subtotal, subtotal) == discount as real
  {
  }

  /** After k lines the rounded shares are less than k half cents away from the exact ones. */
  lemma {:induction false} RoundedDrift(items: seq<Item>, discount: int, k: nat)
    requires k <= |items|
    ensures var exact := Proportional(discount, LinesUpTo(items, k), Subtotal(items));
      var rounded := RoundedUpTo(items, discount, k) as real;
      && exact - k as real / 2.0 <= rounded <= exact + k as real / 2.0
      && (k > 0 ==> exact - k as real / 2.0 < rounded)
  {
    hide Proportional, Line, Round;
    if k > 0 {
      RoundedDrift(items, discount, k - 1);
      RatioAdds(discount, LinesUpTo(items, k - 1), Line(items[k - 1]), Subtotal(items));
    } else {
      RatioZero(discount, Subtotal(items));
    }
  }

  lemma RatioZero(discount: int, subtotal: nat)
    ensures Proportional(discount, 0, subtotal) == 0.0
  {
  }

  /** What the last line may lack, in cents. */
  function Shortfall(n: nat): nat {
    if n < 2 then 0 else (n - 2) / 2
  }

  /** Every line but the last pays its proportional share to half a cent and is never overdrawn; the last one
      makes the shares sum to the discount, and can go below zero only by the collected roundings. */
  lemma BaseBounds(items: seq<Item>, discount: int, i: nat)
    requires i < |items| && 0 <= discount <= Subtotal(items)
    ensures var exact := Proportional(discount, Line(items[i]), Subtotal(items));
      var drift := (if i < |items| - 1 then 1 else |items| - 1) as real / 2.0;
      exact - drift <= Share(items, discount, i) as real <= exact + drift
    ensures i < |items| - 1 ==> 0 <= Base(items, discount, i) <= Line(items[i])
    ensures i == |items| - 1 ==> Base(items, discount, i) >= 0 - Shortfall(|items|)
  {
    hide Proportional, Line, Round;
    RatioBounds(discount, Line(items[i]), Subtotal(items));
    if i == |items| - 1 {
      RoundedDrift(items, discount, i);
      RatioAdds(discount, LinesUpTo(items, i), Line(items[i]), Subtotal(items));
      RatioWhole(discount, Subtotal(items));
    }
  }

  /** No line of a quote with at most three lines is overdrawn. */
  lemma ThreeLinesSuffice(items: seq<Item>, discount: int, i: nat)
    requires i < |items| <= 3 && 0 <= discount <= Subtotal(items)
    ensures Base(items, discount, i) >= 0
  {
    BaseBounds(items, discount, i);
  }

  /** n - 1 lines of one cent and a free one. */
  function Pennies(n: nat): seq<Item>
    requires n > 0
  {
    seq(n, i => Item(if i < n - 1 then 1 else 0, 1, None))
  }

  lemma {:induction false} PenniesUpTo(n: nat, discount: int, k: nat)
    requires 2 <= n && k < n && 0 <= 2 * discount < n - 1
    requires Subtotal(Pennies(n)) == n - 1
    ensures LinesUpTo(Pennies(n), k) == k && RoundedUpTo(Pennies(n), discount, k) == 0
  {
    hide Proportional, Round;
    if k > 0 {
      PenniesUpTo(n, discount, k - 1);
      PennyShare(n - 1, discount);
      assert Pennies(n)[k - 1] == Item(1, 1, None);
    }
  }

  lemma PennyShare(lines: nat, discount: int)
    requires 0 <= 2 * discount < lines
    ensures Round(Proportional(discount, 1, lines)) == 0
  {
    var d, s := discount as real, lines as real;
    assert Proportional(discount, 1, lines) == d / s;
    QuotientOrder(0.0, d, s);
    QuotientBelowHalf(d, s);
  }

  lemma QuotientBelowHalf(a: real, s: real)
    requires s > 0.0 && 2.0 * a < s
    ensures a / s < 0.5
  {
    var q := a / s;
    assert q * s == a;
    assert (q - 0.5) * s == a - 0.5 * s;
    if q > 0.5 {
      PositiveProduct(q - 0.5, s);
    }
  }

  lemma {:induction false} PenniesSubtotal(n: nat, k: nat)
    requires n > 0 && k <= n
    ensures LinesUpTo(Pennies(n), k) == if k < n then k else n - 1
  {
    if k > 0 {
      PenniesSubtotal(n, k - 1);
    }
  }

  /** The bound is met for every number of lines: from four lines on, a discount can leave the last line below zero. */
  lemma ShortfallHappens(n: nat)
    requires n >= 2
    ensures 0 <= Shortfall(n) <= Subtotal(Pennies(n))
    ensures Base(Pennies(n), Shortfall(n), n - 1) == 0 - Shortfall(n)
  {
    PenniesSubtotal(n, n);
    PenniesUpTo(n, Shortfall(n), n - 1);
  }

  lemma RoundKeepsSign(x: real)
    requires x >= 0.0
    ensures Round(x) >= 0
  {
  }

  lemma WithoutTaxBounds(base: int, rate: real)
    requires base >= 0 && rate > 0.0
    ensures 0.0 <= WithoutTax(base, rate) <= base as real
  {
    var b, r := base as real, 1.0 + rate;
    QuotientOrder(0.0, b, r);
    assert b <= b * r by {
      assert b * rate >= 0.0;
      assert b * r == b + b * rate;
    }
    QuotientOrder(b, b * r, r);
    assert b * r / r == b;
  }

  lemma PartsNotNegative(t: Taxing, base: int)
    requires base >= 0 && (t.Inside? ==> t.rate > 0.0) && (t.OnTop? ==> t.rate >= 0.0)
    ensures NetPart(t, base) >= 0 && TaxPart(t, base) >= 0
  {
    hide WithoutTax;
    match t
    case Untaxed =>
    case Inside(rate) => WithoutTaxBounds(base, rate);
    case OnTop(rate) => RoundKeepsSign(TaxOnTop(base, rate));
  }

  /** A quote whose last line is not overdrawn has no negative amount. */
  lemma {:induction false} AmountsNotNegative(codes: map<Id, TaxCode>, items: seq<Item>, discount: int, k: nat)
    requires k <= |items| && NoErrors(codes, items, k)
    requires 0 <= discount <= Subtotal(items)
    requires items != [] ==> Base(items, discount, |items| - 1) >= 0
    ensures NetUpTo(codes, items, discount, k) >= 0 && TaxUpTo(codes, items, discount, k) >= 0
  {
    hide Base, NetPart, TaxPart;
    if k > 0 {
      AmountsNotNegative(codes, items, discount, k - 1);
      BaseBounds(items, discount, k - 1);
      PartsNotNegative(TaxingOf(codes, items, k - 1), Base(items, discount, k - 1));
    }
  }
}
