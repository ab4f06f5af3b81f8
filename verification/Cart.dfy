/** The register's cart, capped by the stock the server reported less what the offline queue has already sold. */
module Cart {
  import opened Common

  type Product = string

  /** What cartLineKey joins: the product and the unit, barcode or variant, or "BASE". */
  datatype Key = Key(product: Product, unit: string)

  /** A line; its quantity counts units of `factor` base pieces. A scanned line keeps its barcode. */
  datatype Line = Line(key: Key, quantity: int, factor: int, barcode: Option<string>)
  type Cart = seq<Line>

  /** Adding asks for a quantity of a line; a click on a product adds its base unit, a scan what the barcode names. */
  datatype Op = Add(line: Line) | Change(key: Key, quantity: int)

  // ---- keys ----

  function KeyText(key: Key): string {
    key.product + ":" + key.unit
  }

  /** The joined text tells keys apart as long as product ids hold no colon. */
  lemma KeyTextInjective(a: Key, b: Key)
    requires ':' !in a.product && ':' !in b.product && KeyText(a) == KeyText(b)
    ensures a == b
  {
    var text := KeyText(a);
    var m, n := |a.product|, |b.product|;
    assert text[m] == ':' && text[n] == ':';
    assert forall i :: 0 <= i < m ==> text[i] == a.product[i] && a.product[i] in a.product;
    assert forall i :: 0 <= i < n ==> text[i] == b.product[i] && b.product[i] in b.product;
    assert m == n;
    assert a.product == text[..m] && b.product == text[..m];
    assert a.unit == text[m + 1..] && b.unit == text[m + 1..];
  }

  // ---- the updates ----

  /** Base pieces of a product in the cart. */
  function Used(cart: Cart, product: Product): int {
    if cart == [] then 0
    else (if cart[0].key.product == product then cart[0].quantity * cart[0].factor else 0) + Used(cart[1..], product)
  }

  /** usedOtherBase: the same, leaving out the line of one key. */
  function UsedOther(cart: Cart, key: Key): int {
    if cart == [] then 0
    else
      (if cart[0].key.product == key.product && cart[0].key != key then cart[0].quantity * cart[0].factor else 0)
        + UsedOther(cart[1..], key)
  }

  function Find(cart: Cart, key: Key): (line: Option<Line>)
    ensures line.Some? ==> line.value.key == key && line.value in cart
    ensures line.None? ==> forall l :: l in cart ==> l.key != key
  {
    if cart == [] then None else if cart[0].key == key then Some(cart[0]) else Find(cart[1..], key)
  }

  function SetQuantity(cart: Cart, key: Key, quantity: int): Cart {
    if cart == [] then []
    else [if cart[0].key == key then cart[0].(quantity := quantity) else cart[0]] + SetQuantity(cart[1..], key, quantity)
  }

  function Filter(cart: Cart, keep: Line -> bool): Cart {
    if cart == [] then [] else (if keep(cart[0]) then [cart[0]] else []) + Filter(cart[1..], keep)
  }

  function MaxUnits(cart: Cart, key: Key, stock: int, factor: int): int
    requires factor >= 1
  {
    Max(0, (stock - UsedOther(cart, key)) / factor)
  }

  function AddTo(cart: Cart, line: Line, stock: int): Cart {
    if line.factor < 1 then cart
    else
      var existing := Find(cart, line.key);
      var have := if existing.Some? then existing.value.quantity else 0;
      var next := Min(MaxUnits(cart, line.key, stock, line.factor), have + Max(1, line.quantity));
      if next <= 0 || (existing.Some? && next == have) then cart
      else if existing.Some? then SetQuantity(cart, line.key, next)
      else cart + [line.(quantity := next)]
  }

  /** A line's factor is at least one, since AddTo takes no other. */
  function ChangeIn(cart: Cart, key: Key, quantity: int, stock: int): Cart {
    match Find(cart, key)
    case None => cart
    case Some(target) =>
      if quantity <= 0 then Filter(cart, (l: Line) => l.key != key)
      else if target.factor < 1 then cart
      else
        var next := Min(Max(1, quantity), MaxUnits(cart, key, stock, target.factor));
        Filter(SetQuantity(cart, key, next), (l: Line) => l.quantity > 0)
  }

  function Step(cart: Cart, op: Op, stock: Product -> int): Cart {
    match op
    case Add(line) => AddTo(cart, line, stock(line.key.product))
    case Change(key, quantity) => ChangeIn(cart, key, quantity, stock(key.product))
  }

  function Run(cart: Cart, ops: seq<Op>, stock: Product -> int): Cart
    decreases |ops|
  {
    if ops == [] then cart else Run(Step(cart, ops[0], stock), ops[1..], stock)
  }

  // ---- the cap ----

  ghost predicate DistinctKeys(cart: Cart) {
    forall i, j :: 0 <= i < j < |cart| ==> cart[i].key != cart[j].key
  }

  const BASE := "BASE"

  /** A line without a barcode is in the product's base unit, whose key says so. */
  predicate Named(line: Line) {
    line.barcode.None? ==> line.key.unit == BASE
  }

  ghost predicate Shaped(cart: Cart) {
    && DistinctKeys(cart)
    && (forall l :: l in cart ==> l.quantity >= 1 && l.factor >= 1 && Named(l))
  }

  ghost predicate Within(cart: Cart, stock: Product -> int) {
    forall product :: Used(cart, product) <= stock(product)
  }

  ghost predicate Good(cart: Cart, stock: Product -> int) {
    Shaped(cart) && Within(cart, stock)
  }

  /** What is added counts at least as many pieces a unit as the line it joins. */
  predicate Fits(cart: Cart, op: Op) {
    op.Add? && op.line.factor >= 1 && Find(cart, op.line.key).Some? ==> op.line.factor >= Find(cart, op.line.key).value.factor
  }

  predicate RunFits(cart: Cart, ops: seq<Op>, stock: Product -> int)
    decreases |ops|
  {
    ops != [] ==> Fits(cart, ops[0]) && RunFits(Step(cart, ops[0], stock), ops[1..], stock)
  }

  lemma {:induction false} UsedAppend(cart: Cart, line: Line, product: Product)
    ensures Used(cart + [line], product) ==
      Used(cart, product) + if line.key.product == product then line.quantity * line.factor else 0
    decreases |cart|
  {
    if cart == [] {
      assert [line][1..] == [] && cart + [line] == [line];
    } else {
      UsedAppend(cart[1..], line, product);
      assert (cart + [line])[1..] == cart[1..] + [line];
    }
  }

  lemma {:induction false} OtherIsAll(cart: Cart, key: Key)
    requires forall l :: l in cart ==> l.key != key
    ensures UsedOther(cart, key) == Used(cart, key.product)
    decreases |cart|
  {
    if cart != [] {
      assert cart[0] in cart;
      OtherIsAll(cart[1..], key);
    }
  }

  /** A map over the line of one key moves that product's use to the others' use plus the new line's. */
  lemma {:induction false} UsedAfterSet(cart: Cart, key: Key, quantity: int, factor: int, product: Product)
    requires DistinctKeys(cart) && Find(cart, key).Some? && Find(cart, key).value.factor == factor
    ensures Used(SetQuantity(cart, key, quantity), product) ==
      if product == key.product then UsedOther(cart, key) + quantity * factor else Used(cart, product)
    decreases |cart|
  {
    var rest := cart[1..];
    if cart[0].key == key {
      assert forall l :: l in rest ==> l.key != key;
      OtherIsAll(rest, key);
      SetNothing(rest, key, quantity);
    } else {
      UsedAfterSet(rest, key, quantity, factor, product);
    }
  }

  lemma {:induction false} SetNothing(cart: Cart, key: Key, quantity: int)
    requires forall l :: l in cart ==> l.key != key
    ensures SetQuantity(cart, key, quantity) == cart
    decreases |cart|
  {
    if cart != [] {
      assert cart[0] in cart;
      SetNothing(cart[1..], key, quantity);
    }
  }

  lemma {:induction false} SetShape(cart: Cart, key: Key, quantity: int)
    ensures var after := SetQuantity(cart, key, quantity);
      && |after| == |cart|
      && (forall i :: 0 <= i < |cart| ==>
            after[i] == if cart[i].key == key then cart[i].(quantity := quantity) else cart[i])
    decreases |cart|
  {
    if cart != [] {
      SetShape(cart[1..], key, quantity);
    }
  }

  lemma {:induction false} FilterMembers(cart: Cart, keep: Line -> bool)
    ensures forall l :: l in Filter(cart, keep) <==> l in cart && keep(l)
    decreases |cart|
  {
    if cart != [] {
      FilterMembers(cart[1..], keep);
      assert forall l :: l in cart <==> l == cart[0] || l in cart[1..];
    }
  }

  lemma {:induction false} FilterDistinct(cart: Cart, keep: Line -> bool)
    requires DistinctKeys(cart)
    ensures DistinctKeys(Filter(cart, keep))
    decreases |cart|
  {
    if cart != [] {
      var rest := Filter(cart[1..], keep);
      FilterDistinct(cart[1..], keep);
      FilterMembers(cart[1..], keep);
      if keep(cart[0]) {
        assert Filter(cart, keep) == [cart[0]] + rest;
        forall j | 0 <= j < |rest|
          ensures rest[j].key != cart[0].key
        {
          assert rest[j] in cart[1..];
        }
      } else {
        assert Filter(cart, keep) == rest;
      }
    }
  }

  /** Dropping lines never adds use. */
  lemma {:induction false} FilterUse(cart: Cart, keep: Line -> bool, product: Product)
    requires forall l :: l in cart ==> l.quantity >= 0 && l.factor >= 1
    ensures Used(Filter(cart, keep), product) <= Used(cart, product)
    decreases |cart|
  {
    if cart != [] {
      assert cart[0] in cart;
      FilterUse(cart[1..], keep, product);
      ProductNotNegative(cart[0].quantity, cart[0].factor);
      if keep(cart[0]) {
        assert Filter(cart, keep)[1..] == Filter(cart[1..], keep);
      } else {
        assert Filter(cart, keep) == Filter(cart[1..], keep);
      }
    }
  }

  lemma ProductNotNegative(a: int, b: int)
    requires a >= 0 && b >= 0
    ensures a * b >= 0
  {
  }

  /** What the floor division promises: that many units fit beside the other lines. */
  lemma UnitsFit(cart: Cart, key: Key, stock: int, factor: int, next: int)
    requires factor >= 1 && 0 < next <= MaxUnits(cart, key, stock, factor)
    ensures UsedOther(cart, key) + next * factor <= stock
  {
    var room := stock - UsedOther(cart, key);
    var q := room / factor;
    assert q * factor <= room;
    assert next * factor <= q * factor by {
      ProductNotNegative(q - next, factor);
      assert (q - next) * factor == q * factor - next * factor;
    }
  }

  lemma MoreUnitsUseMore(n: int, f: int, g: int)
    requires n >= 0 && f <= g
    ensures n * f <= n * g
  {
    ProductNotNegative(n, g - f);
    assert n * (g - f) == n * g - n * f;
  }

  lemma AddKeepsCap(cart: Cart, line: Line, stock: Product -> int)
    requires Good(cart, stock) && Named(line) && Fits(cart, Add(line))
    ensures Good(AddTo(cart, line, stock(line.key.product)), stock)
  {
    hide MaxUnits, Used, UsedOther, SetQuantity;
    var key, factor := line.key, line.factor;
    var after := AddTo(cart, line, stock(key.product));
    if after != cart {
      var existing := Find(cart, key);
      var have := if existing.Some? then existing.value.quantity else 0;
      var next := Min(MaxUnits(cart, key, stock(key.product), factor), have + Max(1, line.quantity));
      UnitsFit(cart, key, stock(key.product), factor, next);
      if existing.Some? {
        SetShape(cart, key, next);
        MoreUnitsUseMore(next, existing.value.factor, factor);
        forall product
          ensures Used(after, product) <= stock(product)
        {
          UsedAfterSet(cart, key, next, existing.value.factor, product);
        }
      } else {
        OtherIsAll(cart, key);
        forall product
          ensures Used(after, product) <= stock(product)
        {
          UsedAppend(cart, line.(quantity := next), product);
        }
      }
    }
  }

  /** One piece less than one more unit of the line takes, beside everything else in the cart. */
  function ShortOfOneMore(cart: Cart, key: Key, quantity: int, factor: int): Product -> int {
    product => if product == key.product then UsedOther(cart, key) + (quantity + 1) * factor - 1 else Used(cart, product)
  }

  lemma FactorMismatchBreaksCap(cart: Cart, line: Line)
    requires Shaped(cart) && Find(cart, line.key).Some? && 1 <= line.factor < Find(cart, line.key).value.factor
    ensures var stored := Find(cart, line.key).value;
      var stock := ShortOfOneMore(cart, line.key, stored.quantity, stored.factor);
      && Within(cart, stock)
      && Used(AddTo(cart, line, stock(line.key.product)), line.key.product) > stock(line.key.product)
  {
    hide SetQuantity, Used, UsedOther, Find, DistinctKeys;
    var key, g := line.key, line.factor;
    var q, f := Find(cart, key).value.quantity, Find(cart, key).value.factor;
    var stock := ShortOfOneMore(cart, key, q, f);
    assert (q + 1) * f == q * f + f;
    SameLine(cart, key);
    forall product
      ensures Used(cart, product) <= stock(product)
    {
      UsedAfterSet(cart, key, q, f, product);
    }
    RoomForOneMore(q, f, g);
    var next := Min(MaxUnits(cart, key, stock(key.product), g), q + Max(1, line.quantity));
    assert next >= q + 1;
    UsedAfterSet(cart, key, next, f, key.product);
    MoreUnitsUseMore(f, q + 1, next);
    assert f * (q + 1) == (q + 1) * f && f * next == next * f;
  }

  lemma RoomForOneMore(q: int, f: int, g: int)
    requires q >= 1 && 1 <= g < f
    ensures ((q + 1) * f - 1) / g >= q + 1
  {
    MoreUnitsUseMore(q + 1, g + 1, f);
    assert (q + 1) * (g + 1) == (q + 1) * g + q + 1;
    UnitsBelow((q + 1) * f - 1, g, q + 1);
  }

  lemma UnitsBelow(room: int, factor: int, n: int)
    requires factor >= 1 && n * factor <= room
    ensures room / factor >= n
  {
    var q := room / factor;
    assert room < q * factor + factor;
    assert (n - q - 1) * factor == n * factor - q * factor - factor;
    if q < n {
      ProductNotNegative(n - q - 1, factor);
    }
  }

  /** Adding is safe for every stock that covers the cart if and only if what is added counts at least as many pieces
      a unit as the line it joins. */
  lemma AddIsSafeIff(cart: Cart, line: Line)
    requires Shaped(cart) && Named(line) && line.factor >= 1
    ensures (forall stock: Product -> int :: Within(cart, stock) ==> Within(AddTo(cart, line, stock(line.key.product)), stock))
      <==> Fits(cart, Add(line))
  {
    hide AddTo, Within;
    if Fits(cart, Add(line)) {
      forall stock: Product -> int | Within(cart, stock)
        ensures Within(AddTo(cart, line, stock(line.key.product)), stock)
      {
        AddKeepsCap(cart, line, stock);
      }
    } else {
      var stored := Find(cart, line.key).value;
      var stock := ShortOfOneMore(cart, line.key, stored.quantity, stored.factor);
      FactorMismatchBreaksCap(cart, line);
      NotWithin(AddTo(cart, line, stock(line.key.product)), stock, line.key.product);
    }
  }

  lemma NotWithin(cart: Cart, stock: Product -> int, product: Product)
    requires Used(cart, product) > stock(product)
    ensures !Within(cart, stock)
  {
  }

  lemma ChangeKeepsCap(cart: Cart, key: Key, quantity: int, stock: Product -> int)
    requires Good(cart, stock)
    ensures Good(ChangeIn(cart, key, quantity, stock(key.product)), stock)
  {
    hide MaxUnits, Used, UsedOther, SetQuantity, Filter;
    if Find(cart, key).Some? {
      if quantity <= 0 {
        FilterKeepsGood(cart, (l: Line) => l.key != key, stock);
      } else {
        ChangeSets(cart, key, quantity, stock);
      }
    }
  }

  lemma FilterKeepsGood(cart: Cart, keep: Line -> bool, stock: Product -> int)
    requires DistinctKeys(cart) && Within(cart, stock)
    requires forall l :: l in cart ==> l.quantity >= 0 && l.factor >= 1 && Named(l) && (keep(l) ==> l.quantity >= 1)
    ensures Good(Filter(cart, keep), stock)
  {
    hide Used, Filter;
    FilterMembers(cart, keep);
    FilterDistinct(cart, keep);
    forall product
      ensures Used(Filter(cart, keep), product) <= stock(product)
    {
      FilterUse(cart, keep, product);
    }
  }

  lemma MaxUnitsNotNegative(cart: Cart, key: Key, stock: int, factor: int)
    requires factor >= 1
    ensures MaxUnits(cart, key, stock, factor) >= 0
  {
  }

  lemma {:induction false} OtherAtMostAll(cart: Cart, key: Key)
    requires forall l :: l in cart ==> l.quantity >= 1 && l.factor >= 1
    ensures UsedOther(cart, key) <= Used(cart, key.product)
    decreases |cart|
  {
    if cart != [] {
      assert cart[0] in cart;
      ProductNotNegative(cart[0].quantity, cart[0].factor);
      OtherAtMostAll(cart[1..], key);
    }
  }

  lemma ChangeSets(cart: Cart, key: Key, quantity: int, stock: Product -> int)
    requires Good(cart, stock) && quantity > 0 && Find(cart, key).Some?
    ensures Good(ChangeIn(cart, key, quantity, stock(key.product)), stock)
  {
    hide MaxUnits, Used, UsedOther, SetQuantity, Filter;
    var factor := Find(cart, key).value.factor;
    var next := Min(Max(1, quantity), MaxUnits(cart, key, stock(key.product), factor));
    var changed := SetQuantity(cart, key, next);
    MaxUnitsNotNegative(cart, key, stock(key.product), factor);
    OtherAtMostAll(cart, key);
    if next > 0 {
      UnitsFit(cart, key, stock(key.product), factor, next);
    }
    SetShape(cart, key, next);
    forall product
      ensures Used(changed, product) <= stock(product)
    {
      UsedAfterSet(cart, key, next, factor, product);
    }
    FilterKeepsGood(changed, (l: Line) => l.quantity > 0, stock);
  }

  lemma {:induction false} RunKeepsGood(cart: Cart, ops: seq<Op>, stock: Product -> int)
    requires Good(cart, stock) && RunFits(cart, ops, stock)
    requires forall op :: op in ops && op.Add? ==> Named(op.line)
    ensures Good(Run(cart, ops, stock), stock)
    decreases |ops|
  {
    hide Good, AddTo, ChangeIn, Fits;
    if ops != [] {
      assert ops[0] in ops;
      match ops[0]
      case Add(line) =>
        AddKeepsCap(cart, line, stock);
        RunKeepsGood(Step(cart, ops[0], stock), ops[1..], stock);
      case Change(key, quantity) =>
        ChangeKeepsCap(cart, key, quantity, stock);
        RunKeepsGood(Step(cart, ops[0], stock), ops[1..], stock);
    }
  }

  lemma EmptyIsGood(stock: Product -> int)
    requires forall product :: stock(product) >= 0
    ensures Good([], stock)
  {
  }

  /** From the empty cart on, over every sequence of additions and changes in which no unit joins a larger one, the
      pieces of each product stay within its stock, every line keeps a positive quantity, and no key appears twice. */
  lemma RunKeepsCap(ops: seq<Op>, stock: Product -> int)
    requires (forall product :: stock(product) >= 0) && RunFits([], ops, stock)
    requires forall op :: op in ops && op.Add? ==> Named(op.line)
    ensures Good(Run([], ops, stock), stock)
  {
    EmptyIsGood(stock);
    RunKeepsGood([], ops, stock);
  }

  ghost predicate KeysTellFactors(cart: Cart, factorOf: Key -> int) {
    forall l :: l in cart ==> l.factor == factorOf(l.key)
  }

  lemma StepKeepsFactors(cart: Cart, op: Op, factorOf: Key -> int, stock: Product -> int)
    requires KeysTellFactors(cart, factorOf) && (op.Add? && op.line.factor >= 1 ==> op.line.factor == factorOf(op.line.key))
    ensures Fits(cart, op) && KeysTellFactors(Step(cart, op, stock), factorOf)
  {
    hide SetQuantity, Filter, MaxUnits;
    match op
    case Add(line) =>
      SetFactors(cart, line.key, Min(MaxUnits(cart, line.key, stock(line.key.product), Max(1, line.factor)),
        (if Find(cart, line.key).Some? then Find(cart, line.key).value.quantity else 0) + Max(1, line.quantity)), factorOf);
    case Change(key, quantity) =>
      if Find(cart, key).Some? && Find(cart, key).value.factor >= 1 {
        var next := Min(Max(1, quantity), MaxUnits(cart, key, stock(key.product), Find(cart, key).value.factor));
        SetFactors(cart, key, next, factorOf);
        FilterMembers(SetQuantity(cart, key, next), (l: Line) => l.quantity > 0);
      }
      FilterMembers(cart, (l: Line) => l.key != key);
  }

  lemma SetFactors(cart: Cart, key: Key, quantity: int, factorOf: Key -> int)
    requires KeysTellFactors(cart, factorOf)
    ensures KeysTellFactors(SetQuantity(cart, key, quantity), factorOf)
  {
    hide SetQuantity;
    var after := SetQuantity(cart, key, quantity);
    SetShape(cart, key, quantity);
    forall l | l in after
      ensures l.factor == factorOf(l.key)
    {
      var i :| 0 <= i < |after| && after[i] == l;
      assert cart[i] in cart;
    }
  }

  /** In particular every run is safe in which a key always stands for one factor. */
  lemma {:induction false} FixedFactorsFit(cart: Cart, ops: seq<Op>, factorOf: Key -> int, stock: Product -> int)
    requires KeysTellFactors(cart, factorOf)
    requires forall op :: op in ops && op.Add? && op.line.factor >= 1 ==> op.line.factor == factorOf(op.line.key)
    ensures RunFits(cart, ops, stock)
    decreases |ops|
  {
    hide KeysTellFactors, Fits, Step;
    if ops != [] {
      assert ops[0] in ops;
      StepKeepsFactors(cart, ops[0], factorOf, stock);
      FixedFactorsFit(Step(cart, ops[0], stock), ops[1..], factorOf, stock);
    }
  }

  // ---- what one update gives ----

  function QuantityOf(cart: Cart, key: Key): int {
    match Find(cart, key)
    case None => 0
    case Some(line) => line.quantity
  }

  /** n units of the key fit beside the other lines, and n is as much as was asked for or the most that fits. */
  ghost predicate LargestFit(cart: Cart, key: Key, factor: int, stock: int, asked: int, n: int) {
    && 0 <= n <= asked
    && (n > 0 ==> UsedOther(cart, key) + n * factor <= stock)
    && (n < asked ==> UsedOther(cart, key) + (n + 1) * factor > stock)
  }

  lemma MinIsLargestFit(cart: Cart, key: Key, factor: int, stock: int, asked: int)
    requires factor >= 1 && asked >= 0
    ensures LargestFit(cart, key, factor, stock, asked, Min(MaxUnits(cart, key, stock, factor), asked))
  {
    var room := stock - UsedOther(cart, key);
    var n := Min(MaxUnits(cart, key, stock, factor), asked);
    if n > 0 {
      UnitsFit(cart, key, stock, factor, n);
    }
    if n < asked {
      var q := room / factor;
      assert room < q * factor + factor;
      ProductNotNegative(n - q, factor);
      assert (n - q) * factor == n * factor - q * factor;
      assert (n + 1) * factor == n * factor + factor;
    }
  }

  lemma {:induction false} FindAfterSet(cart: Cart, key: Key, quantity: int)
    requires Find(cart, key).Some?
    ensures QuantityOf(SetQuantity(cart, key, quantity), key) == quantity
    decreases |cart|
  {
    if cart[0].key != key {
      FindAfterSet(cart[1..], key, quantity);
      assert SetQuantity(cart, key, quantity)[1..] == SetQuantity(cart[1..], key, quantity);
    }
  }

  lemma {:induction false} OthersAfterSet(cart: Cart, key: Key, quantity: int)
    ensures Filter(SetQuantity(cart, key, quantity), (l: Line) => l.key != key) == Filter(cart, (l: Line) => l.key != key)
    decreases |cart|
  {
    if cart != [] {
      OthersAfterSet(cart[1..], key, quantity);
      assert SetQuantity(cart, key, quantity)[1..] == SetQuantity(cart[1..], key, quantity);
    }
  }

  lemma {:induction false} FindAfterAppend(cart: Cart, line: Line)
    requires Find(cart, line.key).None?
    ensures Find(cart + [line], line.key) == Some(line)
    ensures Filter(cart + [line], (l: Line) => l.key != line.key) == Filter(cart, (l: Line) => l.key != line.key)
    decreases |cart|
  {
    if cart == [] {
      assert cart + [line] == [line] && [line][1..] == [];
    } else {
      FindAfterAppend(cart[1..], line);
      assert (cart + [line])[1..] == cart[1..] + [line];
    }
  }

  /** Adding raises a line as far as asked, or as far as the stock goes, and touches no other line. */
  lemma AddIsLargest(cart: Cart, line: Line, stock: Product -> int)
    requires Good(cart, stock) && line.factor >= 1
    requires Find(cart, line.key).Some? ==> line.factor == Find(cart, line.key).value.factor
    ensures var after := AddTo(cart, line, stock(line.key.product)); var key := line.key;
      && LargestFit(cart, key, line.factor, stock(key.product), QuantityOf(cart, key) + Max(1, line.quantity), QuantityOf(after, key))
      && Filter(after, (l: Line) => l.key != key) == Filter(cart, (l: Line) => l.key != key)
  {
    hide MaxUnits, SetQuantity, Filter, Find, LargestFit, Within;
    var key, factor := line.key, line.factor;
    var asked := QuantityOf(cart, key) + Max(1, line.quantity);
    MinIsLargestFit(cart, key, factor, stock(key.product), asked);
    MaxUnitsNotNegative(cart, key, stock(key.product), factor);
    var next := Min(MaxUnits(cart, key, stock(key.product), factor), asked);
    if Find(cart, key).Some? {
      assert next > 0 by {
        OneUnitFits(cart, key, stock);
      }
      FindAfterSet(cart, key, next);
      OthersAfterSet(cart, key, next);
    } else {
      FindAfterAppend(cart, line.(quantity := next));
    }
  }

  lemma OneUnitFits(cart: Cart, key: Key, stock: Product -> int)
    requires Good(cart, stock) && Find(cart, key).Some?
    ensures MaxUnits(cart, key, stock(key.product), Find(cart, key).value.factor) >= 1
  {
    hide Used, UsedOther, SetQuantity;
    var line := Find(cart, key).value;
    var factor := line.factor;
    SetShape(cart, key, line.quantity);
    assert SetQuantity(cart, key, line.quantity) == cart by {
      SameLine(cart, key);
    }
    UsedAfterSet(cart, key, line.quantity, factor, key.product);
    ProductNotNegative(line.quantity - 1, factor);
    assert (line.quantity - 1) * factor == line.quantity * factor - factor;
    assert stock(key.product) >= Used(cart, key.product);
    assert stock(key.product) - UsedOther(cart, key) >= factor;
    AtLeastOnce(stock(key.product) - UsedOther(cart, key), factor);
  }

  lemma AtLeastOnce(room: int, factor: int)
    requires 1 <= factor <= room
    ensures room / factor >= 1
  {
    var q := room / factor;
    assert room < q * factor + factor;
    ProductNotNegative(if q <= 0 then 0 - q else 0, factor);
  }

  lemma FindHead(cart: Cart, key: Key)
    requires cart != []
    ensures Find(cart, key) == if cart[0].key == key then Some(cart[0]) else Find(cart[1..], key)
  {
  }

  lemma SetHead(cart: Cart, key: Key, quantity: int)
    requires cart != []
    ensures SetQuantity(cart, key, quantity) ==
      [if cart[0].key == key then cart[0].(quantity := quantity) else cart[0]] + SetQuantity(cart[1..], key, quantity)
  {
  }

  lemma DistinctTail(cart: Cart)
    requires DistinctKeys(cart) && cart != []
    ensures DistinctKeys(cart[1..]) && forall l :: l in cart[1..] ==> l.key != cart[0].key
  {
  }

  lemma {:induction false} SameLine(cart: Cart, key: Key)
    requires DistinctKeys(cart) && Find(cart, key).Some?
    ensures SetQuantity(cart, key, Find(cart, key).value.quantity) == cart
    decreases |cart|
  {
    hide Find, SetQuantity, DistinctKeys;
    var quantity := Find(cart, key).value.quantity;
    FoundSomewhere(cart, key);
    FindHead(cart, key);
    SetHead(cart, key, quantity);
    DistinctTail(cart);
    if cart[0].key == key {
      SetNothing(cart[1..], key, quantity);
    } else {
      SameLine(cart[1..], key);
    }
    assert cart == [cart[0]] + cart[1..];
  }

  lemma FoundSomewhere(cart: Cart, key: Key)
    requires Find(cart, key).Some?
    ensures cart != []
  {
  }

  /** Changing sets a line to the quantity asked for, or to what the stock allows, and touches no other line; zero or
      less removes it. */
  lemma ChangeIsLargest(cart: Cart, key: Key, quantity: int, stock: Product -> int)
    requires Good(cart, stock) && Find(cart, key).Some?
    ensures var after := ChangeIn(cart, key, quantity, stock(key.product));
      && LargestFit(cart, key, Find(cart, key).value.factor, stock(key.product), Max(0, quantity), QuantityOf(after, key))
      && Filter(after, (l: Line) => l.key != key) == Filter(cart, (l: Line) => l.key != key)
  {
    hide MaxUnits, SetQuantity, Filter, Find, LargestFit, Within, UsedOther;
    var after := ChangeIn(cart, key, quantity, stock(key.product));
    if quantity <= 0 {
      FilterTwice(cart, (l: Line) => l.key != key, key);
      assert Find(after, key).None? by {
        FilterMembers(cart, (l: Line) => l.key != key);
      }
      MinIsLargestFit(cart, key, Find(cart, key).value.factor, stock(key.product), 0);
      MaxUnitsNotNegative(cart, key, stock(key.product), Find(cart, key).value.factor);
    } else {
      var factor := Find(cart, key).value.factor;
      var next := Min(MaxUnits(cart, key, stock(key.product), factor), quantity);
      MinIsLargestFit(cart, key, factor, stock(key.product), quantity);
      OneUnitFits(cart, key, stock);
      FindAfterSet(cart, key, next);
      OthersAfterSet(cart, key, next);
      SetShape(cart, key, next);
      FilterAll(SetQuantity(cart, key, next), (l: Line) => l.quantity > 0);
    }
  }

  lemma {:induction false} FilterAll(cart: Cart, keep: Line -> bool)
    requires forall l :: l in cart ==> keep(l)
    ensures Filter(cart, keep) == cart
    decreases |cart|
  {
    if cart != [] {
      assert cart[0] in cart;
      FilterAll(cart[1..], keep);
    }
  }

  lemma {:induction false} FilterTwice(cart: Cart, keep: Line -> bool, key: Key)
    requires forall l: Line :: keep(l) <==> l.key != key
    ensures Filter(Filter(cart, keep), (l: Line) => l.key != key) == Filter(cart, (l: Line) => l.key != key)
    decreases |cart|
  {
    if cart != [] {
      FilterTwice(cart[1..], keep, key);
      if keep(cart[0]) {
        assert Filter(cart, keep)[1..] == Filter(cart[1..], keep);
      } else {
        assert Filter(cart, keep) == Filter(cart[1..], keep);
      }
    }
  }

  // ---- stock sold offline ----

  /** A queued sale: the warehouse and the lines of its cart. */
  datatype Sale = Sale(warehouse: string, lines: Cart)

  function FirstOf(lines: Cart, product: Product): int {
    if lines == [] then 0
    else if lines[0].key.product == product then lines[0].quantity
    else FirstOf(lines[1..], product)
  }

  function ReservedOfflineQuantity(queue: seq<Sale>, warehouse: string, product: Product): int {
    if queue == [] then 0
    else
      (if queue[0].warehouse == warehouse then FirstOf(queue[0].lines, product) else 0)
        + ReservedOfflineQuantity(queue[1..], warehouse, product)
  }

  /** The base pieces the queue has really sold. */
  function SoldPieces(queue: seq<Sale>, warehouse: string, product: Product): int {
    if queue == [] then 0
    else
      (if queue[0].warehouse == warehouse then Used(queue[0].lines, product) else 0)
        + SoldPieces(queue[1..], warehouse, product)
  }

  ghost predicate Proper(lines: Cart) {
    forall l :: l in lines ==> l.quantity >= 1 && l.factor >= 1
  }

  ghost predicate ProperQueue(queue: seq<Sale>) {
    forall i :: 0 <= i < |queue| ==> Proper(queue[i].lines)
  }

  /** At most one line of the product, and that one in base pieces. */
  ghost predicate PlainFor(lines: Cart, product: Product) {
    && (forall i :: 0 <= i < |lines| && lines[i].key.product == product ==> lines[i].factor == 1)
    && (forall i, j :: 0 <= i < j < |lines| && lines[i].key.product == product ==> lines[j].key.product != product)
  }

  lemma AtLeastQuantity(quantity: int, factor: int)
    requires quantity >= 1 && factor >= 1
    ensures quantity * factor >= quantity >= 1
    ensures factor > 1 ==> quantity * factor > quantity
  {
    ProductNotNegative(quantity, factor - 1);
    assert quantity * (factor - 1) == quantity * factor - quantity;
    if factor > 1 {
      ProductNotNegative(quantity, factor - 2);
      assert quantity * (factor - 2) == quantity * factor - 2 * quantity;
    }
  }

  lemma {:induction false} UsedPositive(lines: Cart, product: Product)
    requires Proper(lines)
    ensures Used(lines, product) >= 0
    ensures Used(lines, product) == 0 <==> forall i :: 0 <= i < |lines| ==> lines[i].key.product != product
    decreases |lines|
  {
    if lines != [] {
      var rest := lines[1..];
      assert lines[0] in lines && forall l :: l in rest ==> l in lines;
      UsedPositive(rest, product);
      AtLeastQuantity(lines[0].quantity, lines[0].factor);
      assert forall i :: 1 <= i < |lines| ==> lines[i] == rest[i - 1];
    }
  }

  lemma {:induction false} FirstAgainstAll(lines: Cart, product: Product)
    requires Proper(lines)
    ensures FirstOf(lines, product) <= Used(lines, product)
    ensures FirstOf(lines, product) == Used(lines, product) <==> PlainFor(lines, product)
    decreases |lines|
  {
    if lines != [] {
      var rest := lines[1..];
      assert lines[0] in lines && forall l :: l in rest ==> l in lines;
      assert forall i :: 1 <= i < |lines| ==> lines[i] == rest[i - 1];
      AtLeastQuantity(lines[0].quantity, lines[0].factor);
      if lines[0].key.product == product {
        UsedPositive(rest, product);
        FirstIsHead(lines, product);
      } else {
        FirstAgainstAll(rest, product);
        PlainTail(lines, product);
      }
    }
  }

  lemma PlainTail(lines: Cart, product: Product)
    requires lines != [] && lines[0].key.product != product
    ensures PlainFor(lines, product) <==> PlainFor(lines[1..], product)
  {
    var rest := lines[1..];
    assert forall i :: 0 <= i < |rest| ==> rest[i] == lines[i + 1];
    assert forall i :: 1 <= i < |lines| ==> lines[i] == rest[i - 1];
  }

  lemma FirstIsHead(lines: Cart, product: Product)
    requires lines != [] && lines[0].key.product == product
    ensures PlainFor(lines, product) <==>
      lines[0].factor == 1 && forall i :: 0 <= i < |lines[1..]| ==> lines[1..][i].key.product != product
  {
    var rest := lines[1..];
    assert forall i :: 0 <= i < |rest| ==> rest[i] == lines[i + 1];
    assert forall i :: 1 <= i < |lines| ==> lines[i] == rest[i - 1];
  }

  /** The reserved quantity never overstates what the queue sold, and is exact if and only if no queued sale of the
      warehouse has a second line of the product or sells it in a larger unit. */
  lemma {:induction false} ReservedIsSoldIff(queue: seq<Sale>, warehouse: string, product: Product)
    requires ProperQueue(queue)
    ensures ReservedOfflineQuantity(queue, warehouse, product) <= SoldPieces(queue, warehouse, product)
    ensures ReservedOfflineQuantity(queue, warehouse, product) == SoldPieces(queue, warehouse, product) <==>
      forall i :: 0 <= i < |queue| && queue[i].warehouse == warehouse ==> PlainFor(queue[i].lines, product)
    decreases |queue|
  {
    hide PlainFor, Used, FirstOf, Proper;
    if queue != [] {
      var rest := queue[1..];
      assert forall i :: 1 <= i < |queue| ==> queue[i] == rest[i - 1];
      assert forall i :: 0 <= i < |rest| ==> rest[i] == queue[i + 1];
      FirstAgainstAll(queue[0].lines, product);
      ReservedIsSoldIff(rest, warehouse, product);
    }
  }

  /** available(): what the register still offers. */
  function Available(server: Product -> int, queue: seq<Sale>, warehouse: string): Product -> int {
    product => Max(0, server(product) - ReservedOfflineQuantity(queue, warehouse, product))
  }

  lemma {:induction false} SoldAppend(queue: seq<Sale>, sale: Sale, warehouse: string, product: Product)
    ensures SoldPieces(queue + [sale], warehouse, product) ==
      SoldPieces(queue, warehouse, product) + if sale.warehouse == warehouse then Used(sale.lines, product) else 0
    decreases |queue|
  {
    if queue == [] {
      assert [sale][1..] == [] && queue + [sale] == [sale];
    } else {
      SoldAppend(queue[1..], sale, warehouse, product);
      assert (queue + [sale])[1..] == queue[1..] + [sale];
    }
  }

  /** How a sale comes into the queue: paid while the server was known to be out of reach, or paid online with its
      reply lost. */
  datatype Entry = Direct | LostReply

  /** The quote an offline payment needs is refused for a cart with a larger unit or a scanned line. */
  predicate OfflineAdmits(lines: Cart) {
    forall l :: l in lines ==> l.factor == 1 && l.barcode.None?
  }

  datatype Sold = Sold(sale: Sale, entry: Entry)

  function Sales(day: seq<Sold>): (sales: seq<Sale>)
    ensures |sales| == |day| && forall i :: 0 <= i < |day| ==> sales[i] == day[i].sale
  {
    if day == [] then [] else Sales(day[..|day| - 1]) + [day[|day| - 1].sale]
  }

  /** A cart the register allowed: within what was available when it was paid, and admitted if paid offline. */
  ghost predicate SoldOffline(server: Product -> int, before: seq<Sale>, sold: Sold, warehouse: string) {
    && sold.sale.warehouse == warehouse && Shaped(sold.sale.lines)
    && Within(sold.sale.lines, Available(server, before, warehouse))
    && (sold.entry == Direct ==> OfflineAdmits(sold.sale.lines))
  }

  ghost predicate OfflineDay(server: Product -> int, day: seq<Sold>, warehouse: string) {
    forall i :: 0 <= i < |day| ==> SoldOffline(server, Sales(day[..i]), day[i], warehouse)
  }

  /** Every cart an offline payment admits has one line per product, in base pieces. */
  lemma AdmittedIsPlain(lines: Cart, product: Product)
    requires Shaped(lines) && OfflineAdmits(lines)
    ensures PlainFor(lines, product)
  {
    forall i | 0 <= i < |lines|
      ensures lines[i].factor == 1 && lines[i].key.unit == BASE
    {
      assert lines[i] in lines;
    }
  }

  /** A day of offline sales never sells more of a product than the server had, if each sale whose reply was lost has
      one line of it in base pieces. */
  lemma {:induction false} PlainSalesNeverOversell(server: Product -> int, day: seq<Sold>, warehouse: string, product: Product)
    requires server(product) >= 0 && OfflineDay(server, day, warehouse)
    requires forall i :: 0 <= i < |day| && day[i].entry == LostReply ==> PlainFor(day[i].sale.lines, product)
    ensures SoldPieces(Sales(day), warehouse, product) <= server(product)
    ensures ProperQueue(Sales(day)) && forall i :: 0 <= i < |day| ==> PlainFor(day[i].sale.lines, product)
    decreases |day|
  {
    hide PlainFor, Used, Proper, Shaped, OfflineAdmits, Within, Sales, SoldPieces, ReservedOfflineQuantity;
    NoSales(warehouse, product);
    if day != [] {
      var n := |day| - 1;
      var before, last := day[..n], day[n];
      assert forall i :: 0 <= i < n ==> before[i] == day[i] && before[..i] == day[..i];
      assert OfflineDay(server, before, warehouse);
      PlainSalesNeverOversell(server, before, warehouse, product);
      assert SoldOffline(server, Sales(before), last, warehouse);
      if last.entry == Direct {
        AdmittedIsPlain(last.sale.lines, product);
      }
      ShapedIsProper(last.sale.lines);
      WithinAt(last.sale.lines, Available(server, Sales(before), warehouse), product);
      ReservedIsSoldIff(Sales(before), warehouse, product);
      SoldAppend(Sales(before), last.sale, warehouse, product);
      SalesSnoc(day);
    }
  }

  lemma NoSales(warehouse: string, product: Product)
    ensures Sales([]) == [] && SoldPieces([], warehouse, product) == 0
  {
  }

  lemma SalesSnoc(day: seq<Sold>)
    requires day != []
    ensures Sales(day) == Sales(day[..|day| - 1]) + [day[|day| - 1].sale]
  {
  }

  /** Sales paid offline never oversell. */
  lemma DirectSalesNeverOversell(server: Product -> int, day: seq<Sold>, warehouse: string, product: Product)
    requires server(product) >= 0 && OfflineDay(server, day, warehouse)
    requires forall i :: 0 <= i < |day| ==> day[i].entry == Direct
    ensures SoldPieces(Sales(day), warehouse, product) <= server(product)
  {
    PlainSalesNeverOversell(server, day, warehouse, product);
  }

  lemma ShapedIsProper(lines: Cart)
    requires Shaped(lines)
    ensures Proper(lines)
  {
  }

  lemma WithinAt(lines: Cart, stock: Product -> int, product: Product)
    requires Within(lines, stock)
    ensures Used(lines, product) <= stock(product)
  {
  }

  ghost predicate AllDirect(day: seq<Sold>) {
    forall i :: 0 <= i < |day| ==> day[i].entry == Direct
  }

  /** Whatever the server's stock, and whatever is paid offline after the cart's reply was lost, the product is not
      oversold. */
  ghost predicate SafeToLose(lines: Cart, warehouse: string, product: Product) {
    forall server: Product -> int, later: seq<Sold> ::
      server(product) >= 0 && AllDirect(later) && OfflineDay(server, [Sold(Sale(warehouse, lines), LostReply)] + later, warehouse) ==>
        SoldPieces(Sales([Sold(Sale(warehouse, lines), LostReply)] + later), warehouse, product) <= server(product)
  }

  /** A stock of just what the cart takes. */
  function JustEnough(lines: Cart): Product -> int {
    p => Used(lines, p)
  }

  /** The product's pieces in the cart that its reservation leaves out, one by one. */
  function Unreserved(lines: Cart, product: Product): Line {
    Line(Key(product, BASE), Used(lines, product) - FirstOf(lines, product), 1, None)
  }

  /** Any other cart, paid online for the last pieces with its reply lost, lets the register sell again offline all
      that its reservation leaves out. */
  lemma NotPlainOversells(lines: Cart, warehouse: string, product: Product)
    requires Shaped(lines) && !PlainFor(lines, product)
    ensures Used(lines, product) > FirstOf(lines, product)
    ensures var first, second := Sale(warehouse, lines), Sale(warehouse, [Unreserved(lines, product)]);
      var day := [Sold(first, LostReply)] + [Sold(second, Direct)];
      && Used(lines, product) > 0 && OfflineDay(JustEnough(lines), day, warehouse)
      && SoldPieces(Sales(day), warehouse, product) == 2 * Used(lines, product) - FirstOf(lines, product)
  {
    hide Shaped, PlainFor, Used, FirstOf, OfflineAdmits, Sales, SoldPieces, ReservedOfflineQuantity, SoldOffline;
    var line := Unreserved(lines, product);
    var first, second := Sale(warehouse, lines), Sale(warehouse, [line]);
    var day := [Sold(first, LostReply)] + [Sold(second, Direct)];
    ShapedIsProper(lines);
    FirstAgainstAll(lines, product);
    UsedPositive(lines, product);
    FirstNotNegative(lines, product);
    LastPieces(lines, warehouse);
    RestSoldAgain(lines, warehouse, product);
    assert day[..0] == [] && day[..1] == [Sold(first, LostReply)] && day[..2] == day;
    NoSales(warehouse, product);
    SalesSnoc(day[..1]);
    SalesSnoc(day);
    assert Sales(day[..0]) == [] && Sales(day[..1]) == [] + [first] == [first] && Sales(day) == [first] + [second];
    assert |day| == 2;
    OneLine(line, warehouse, product);
    SoldAppend([], first, warehouse, product);
    SoldAppend([first], second, warehouse, product);
  }

  lemma {:induction false} FirstNotNegative(lines: Cart, product: Product)
    requires Proper(lines)
    ensures FirstOf(lines, product) >= 0
    decreases |lines|
  {
    if lines != [] {
      assert lines[0] in lines && forall l :: l in lines[1..] ==> l in lines;
      FirstNotNegative(lines[1..], product);
    }
  }

  lemma LastPieces(lines: Cart, warehouse: string)
    requires Shaped(lines)
    ensures SoldOffline(JustEnough(lines), [], Sold(Sale(warehouse, lines), LostReply), warehouse)
  {
    hide Used;
    var left := Available(JustEnough(lines), [], warehouse);
    forall product
      ensures Used(lines, product) <= left(product)
    {
      assert ReservedOfflineQuantity([], warehouse, product) == 0;
      assert JustEnough(lines)(product) == Used(lines, product);
    }
  }

  lemma RestSoldAgain(lines: Cart, warehouse: string, product: Product)
    requires Proper(lines) && Used(lines, product) > FirstOf(lines, product)
    ensures SoldOffline(JustEnough(lines), [Sale(warehouse, lines)], Sold(Sale(warehouse, [Unreserved(lines, product)]), Direct), warehouse)
  {
    hide Used, FirstOf;
    var line := Unreserved(lines, product);
    var left := Available(JustEnough(lines), [Sale(warehouse, lines)], warehouse);
    forall other
      ensures Used([line], other) <= left(other)
    {
      OneLine(line, warehouse, other);
      OneReserved(lines, warehouse, other);
      assert left(other) == Max(0, Used(lines, other) - FirstOf(lines, other));
    }
  }

  lemma OneReserved(lines: Cart, warehouse: string, product: Product)
    ensures ReservedOfflineQuantity([Sale(warehouse, lines)], warehouse, product) == FirstOf(lines, product)
  {
    var queue := [Sale(warehouse, lines)];
    assert queue[1..] == [] && ReservedOfflineQuantity([], warehouse, product) == 0;
  }

  /** Exactly which carts are safe to pay online and lose the reply of: those with at most one line of the product, in
      base pieces. */
  lemma SafeToLoseIff(lines: Cart, warehouse: string, product: Product)
    requires Shaped(lines)
    ensures SafeToLose(lines, warehouse, product) <==> PlainFor(lines, product)
  {
    hide Shaped, PlainFor, Used, FirstOf, OfflineDay, Sales, SoldPieces;
    var lost := [Sold(Sale(warehouse, lines), LostReply)];
    if PlainFor(lines, product) {
      forall server: Product -> int, later: seq<Sold> |
        server(product) >= 0 && AllDirect(later) && OfflineDay(server, lost + later, warehouse)
        ensures SoldPieces(Sales(lost + later), warehouse, product) <= server(product)
      {
        PlainSalesNeverOversell(server, lost + later, warehouse, product);
      }
    } else {
      NotPlainOversells(lines, warehouse, product);
      var later := [Sold(Sale(warehouse, [Unreserved(lines, product)]), Direct)];
      assert JustEnough(lines)(product) >= 0 && AllDirect(later) && OfflineDay(JustEnough(lines), lost + later, warehouse);
    }
  }

  /** For one: a box of several pieces whose reply is lost reserves one piece, so that the register goes on to sell
      the others again. */
  lemma BoxOversells(box: Key, pieces: int, barcode: string, warehouse: string)
    requires pieces > 1
    ensures !SafeToLose([Line(box, 1, pieces, Some(barcode))], warehouse, box.product)
    ensures var lines := [Line(box, 1, pieces, Some(barcode))];
      var day := [Sold(Sale(warehouse, lines), LostReply)] + [Sold(Sale(warehouse, [Unreserved(lines, box.product)]), Direct)];
      && JustEnough(lines)(box.product) == pieces && OfflineDay(JustEnough(lines), day, warehouse)
      && SoldPieces(Sales(day), warehouse, box.product) == 2 * pieces - 1
  {
    hide OfflineDay, Sales, SoldPieces;
    var lines := [Line(box, 1, pieces, Some(barcode))];
    OneLine(lines[0], warehouse, box.product);
    OneReserved(lines, warehouse, box.product);
    assert lines[0].factor != 1;
    SafeToLoseIff(lines, warehouse, box.product);
    NotPlainOversells(lines, warehouse, box.product);
  }

  lemma OneLine(line: Line, warehouse: string, product: Product)
    ensures Used([line], product) == if line.key.product == product then line.quantity * line.factor else 0
    ensures ReservedOfflineQuantity([Sale(warehouse, [line])], warehouse, product) ==
      if line.key.product == product then line.quantity else 0
  {
    var queue := [Sale(warehouse, [line])];
    assert [line][1..] == [] && queue[1..] == [];
    assert FirstOf([], product) == 0;
    assert ReservedOfflineQuantity([], warehouse, product) == 0;
  }

  // ---- recalling a held cart ----

  /** Each held line is cut to the stock on its own; one that does not fit at all is dropped. */
  function Recall(held: Cart, stock: Product -> int): Cart
    requires Proper(held)
  {
    if held == [] then []
    else
      var line := held[0];
      var quantity := Min(line.quantity, stock(line.key.product) / line.factor);
      (if quantity > 0 then [line.(quantity := quantity)] else []) + Recall(held[1..], stock)
  }

  /** n units are what was held, or the most that fit the stock. */
  ghost predicate LargestAlone(line: Line, stock: int, n: int) {
    && 1 <= n <= line.quantity && n * line.factor <= stock
    && (n < line.quantity ==> (n + 1) * line.factor > stock)
  }

  lemma LineRecalled(line: Line, stock: int)
    requires line.quantity >= 1 && line.factor >= 1
    ensures var n := Min(line.quantity, stock / line.factor);
      if stock >= line.factor then LargestAlone(line, stock, n) else n <= 0
  {
    var q := stock / line.factor;
    var n := Min(line.quantity, q);
    assert stock < q * line.factor + line.factor && q * line.factor <= stock;
    if stock >= line.factor {
      AtLeastOnce(stock, line.factor);
      ProductNotNegative(q - n, line.factor);
      assert (q - n) * line.factor == q * line.factor - n * line.factor;
      assert (n + 1) * line.factor == n * line.factor + line.factor;
    }
    SomeUnits(q, line.factor);
  }

  lemma SomeUnits(q: int, factor: int)
    requires factor >= 1
    ensures q >= 1 ==> q * factor >= factor
  {
    if q >= 1 {
      ProductNotNegative(q - 1, factor);
      assert (q - 1) * factor == q * factor - factor;
    }
  }

  /** Every held line of which one unit fits comes back with what was held or the most that fits, and no other does. */
  lemma {:induction false} RecallIsLargest(held: Cart, stock: Product -> int)
    requires Proper(held)
    ensures forall l :: l in Recall(held, stock) ==>
      exists line :: line in held && l == line.(quantity := l.quantity) && LargestAlone(line, stock(line.key.product), l.quantity)
    ensures forall line :: line in held && stock(line.key.product) >= line.factor ==>
      exists l :: l in Recall(held, stock) && l == line.(quantity := l.quantity) && LargestAlone(line, stock(line.key.product), l.quantity)
    decreases |held|
  {
    if held != [] {
      var first, rest := held[0], held[1..];
      assert first in held && forall l :: l in rest ==> l in held;
      RecallIsLargest(rest, stock);
      LineRecalled(first, stock(first.key.product));
      hide LargestAlone;
      var n := Min(first.quantity, stock(first.key.product) / first.factor);
      var head := if n > 0 then [first.(quantity := n)] else [];
      assert Recall(held, stock) == head + Recall(rest, stock);
      forall line | line in held && stock(line.key.product) >= line.factor
        ensures exists l ::
          && l in Recall(held, stock) && l == line.(quantity := l.quantity)
          && LargestAlone(line, stock(line.key.product), l.quantity)
      {
        if line == first {
          assert head[0] in Recall(held, stock);
        } else {
          assert line in rest;
        }
      }
    }
  }

  ghost predicate ProductDistinct(lines: Cart) {
    forall i, j :: 0 <= i < j < |lines| ==> lines[i].key.product != lines[j].key.product
  }

  function Cut(line: Line, stock: int): int
    requires line.factor >= 1
  {
    Max(0, Min(line.quantity, stock / line.factor)) * line.factor
  }

  lemma CutFits(line: Line, stock: int)
    requires line.quantity >= 1 && line.factor >= 1 && stock >= 0
    ensures 0 <= Cut(line, stock) <= stock
    ensures stock >= line.factor ==> Cut(line, stock) >= line.factor
  {
    var q := stock / line.factor;
    var n := Max(0, Min(line.quantity, q));
    assert q * line.factor <= stock;
    FewerUseLess(n, Max(0, q), line.factor);
    ProductNotNegative(n, line.factor);
    if stock >= line.factor {
      AtLeastOnce(stock, line.factor);
      FewerUseLess(1, n, line.factor);
    }
  }

  lemma FewerUseLess(m: int, n: int, factor: int)
    requires m <= n && factor >= 0
    ensures m * factor <= n * factor
  {
    ProductNotNegative(n - m, factor);
    assert (n - m) * factor == n * factor - m * factor;
  }

  lemma {:induction false} RecallUse(held: Cart, stock: Product -> int, product: Product)
    requires Proper(held) && stock(product) >= 0
    ensures held != [] ==> (
      Used(Recall(held, stock), product) ==
      (if held[0].key.product == product then Cut(held[0], stock(product)) else 0)
      + Used(Recall(held[1..], stock), product))
    ensures Used(Recall(held, stock), product) >= 0
    decreases |held|
  {
    if held != [] {
      var line := held[0];
      assert line in held && forall l :: l in held[1..] ==> l in held;
      if |held| > 1 {
        RecallUse(held[1..], stock, product);
      }
      var quantity := Min(line.quantity, stock(line.key.product) / line.factor);
      if quantity > 0 {
        assert Recall(held, stock)[1..] == Recall(held[1..], stock);
      } else {
        assert Recall(held, stock) == Recall(held[1..], stock);
      }
      if line.key.product == product {
        CutFits(line, stock(product));
      }
    }
  }

  lemma {:induction false} RecallNone(held: Cart, stock: Product -> int, product: Product)
    requires Proper(held) && stock(product) >= 0
    requires forall i :: 0 <= i < |held| ==> held[i].key.product != product
    ensures Used(Recall(held, stock), product) == 0
    decreases |held|
  {
    if held != [] {
      RecallUse(held, stock, product);
      assert held[0] in held && forall l :: l in held[1..] ==> l in held;
      RecallNone(held[1..], stock, product);
    }
  }

  lemma {:induction false} DistinctRecallFits(held: Cart, stock: Product -> int, product: Product)
    requires Proper(held) && ProductDistinct(held) && stock(product) >= 0
    ensures Used(Recall(held, stock), product) <= stock(product)
    decreases |held|
  {
    hide Recall, Used, Cut;
    if held == [] {
      RecallNone(held, stock, product);
    } else {
      var rest := held[1..];
      assert held[0] in held && forall l :: l in rest ==> l in held;
      assert forall i :: 0 <= i < |rest| ==> rest[i] == held[i + 1];
      RecallUse(held, stock, product);
      if held[0].key.product == product {
        RecallNone(rest, stock, product);
        CutFits(held[0], stock(product));
      } else {
        DistinctRecallFits(rest, stock, product);
      }
    }
  }

  lemma {:induction false} RecallHas(held: Cart, stock: Product -> int, product: Product, j: nat)
    requires Proper(held) && j < |held| && held[j].key.product == product && stock(product) >= held[j].factor
    ensures Used(Recall(held, stock), product) >= held[j].factor
    decreases |held|
  {
    hide Recall, Used, Cut;
    assert held[j] in held && held[0] in held && forall l :: l in held[1..] ==> l in held;
    RecallUse(held, stock, product);
    if j == 0 {
      CutFits(held[0], stock(product));
      RecallUse(held[1..], stock, product);
    } else {
      RecallHas(held[1..], stock, product, j - 1);
      if held[0].key.product == product {
        CutFits(held[0], stock(product));
      }
    }
  }

  lemma {:induction false} RecallHasBoth(held: Cart, stock: Product -> int, product: Product, i: nat, j: nat)
    requires Proper(held) && i < j < |held| && held[i].key.product == held[j].key.product == product
    requires stock(product) >= held[i].factor && stock(product) >= held[j].factor
    ensures Used(Recall(held, stock), product) >= held[i].factor + held[j].factor
    decreases |held|
  {
    hide Recall, Used, Cut;
    assert held[i] in held && held[j] in held && held[0] in held && forall l :: l in held[1..] ==> l in held;
    RecallUse(held, stock, product);
    if i == 0 {
      CutFits(held[0], stock(product));
      RecallHas(held[1..], stock, product, j - 1);
    } else {
      RecallHasBoth(held[1..], stock, product, i - 1, j - 1);
      if held[0].key.product == product {
        CutFits(held[0], stock(product));
      }
    }
  }

  /** A recalled cart stays within the stock, whatever the stock is, if and only if the held cart has one line per
      product. */
  lemma RecallFitsIff(held: Cart)
    requires Proper(held)
    ensures ProductDistinct(held) <==>
      forall stock: Product -> int, product: Product :: stock(product) >= 0 ==>
        Used(Recall(held, stock), product) <= stock(product)
  {
    hide Recall, Used;
    if ProductDistinct(held) {
      forall stock: Product -> int, product: Product | stock(product) >= 0
        ensures Used(Recall(held, stock), product) <= stock(product)
      {
        DistinctRecallFits(held, stock, product);
      }
    } else {
      var i: nat, j: nat :| i < j < |held| && held[i].key.product == held[j].key.product;
      assert held[i] in held && held[j] in held;
      var product, most := held[i].key.product, Max(held[i].factor, held[j].factor);
      var stock: Product -> int := _ => most;
      RecallHasBoth(held, stock, product, i, j);
      assert Used(Recall(held, stock), product) > stock(product) >= 0;
    }
  }
}
