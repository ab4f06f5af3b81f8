/** Expiry of unpaid orders: one serializable transaction cancels the order and gives back its stock on two levels,
    at the locations that hold it and at the warehouse.

    Reservations made explicitly name their location; older ones are only a number, which is taken greedily from
    whatever the locations have reserved beyond their explicit reservations. */
module OrderExpiry {
  import opened Common

  type Id = nat

  datatype Result<T> = Ok(value: T) | Inconsistent

  datatype Stock = Stock(quantity: int, reserved: int, available: int)

  datatype LocationRow = LocationRow(location: Id, warehouse: Id, product: Id, stock: Stock)

  /** sourceOrder is None for reservations that do not come from an order. */
  datatype Reservation = Reservation(location: Id, product: Id, sourceOrder: Option<Id>, quantity: nat, active: bool)

  datatype Item = Item(product: Id, quantity: nat)

  datatype OrderStatus = PENDING_PAYMENT | CANCELLED | OTHER

  datatype Order = Order(status: OrderStatus, expiresAt: Option<int>, warehouse: Id, items: seq<Item>)

  datatype Tables = Tables(reservations: seq<Reservation>, locations: seq<LocationRow>, inventory: map<(Id, Id), Stock>)

  datatype Database = Database(orders: map<Id, Order>, tables: Tables)

  /** The decrement and increment every release makes. */
  function Release(stock: Stock, n: nat): Stock {
    Stock(stock.quantity, stock.reserved - n, stock.available + n)
  }

  // ---- sums over the tables ----

  predicate AtProduct(row: LocationRow, w: Id, p: Id) {
    row.warehouse == w && row.product == p
  }

  function SumReserved(rows: seq<LocationRow>, w: Id, p: Id): int {
    if rows == [] then 0
    else
      var last := rows[|rows| - 1];
      SumReserved(rows[..|rows| - 1], w, p) + (if AtProduct(last, w, p) then last.stock.reserved else 0)
  }

  /** Active reservations at a location: the aggregate the legacy loop subtracts. */
  function Tracked(reservations: seq<Reservation>, location: Id, p: Id): nat {
    if reservations == [] then 0
    else
      var last := reservations[|reservations| - 1];
      Tracked(reservations[..|reservations| - 1], location, p)
        + (if last.active && last.location == location && last.product == p then last.quantity else 0)
  }

  predicate IsExplicit(r: Reservation, order: Id) {
    r.active && r.sourceOrder == Some(order)
  }

  function ExplicitTotal(reservations: seq<Reservation>, order: Id, p: Id): nat {
    if reservations == [] then 0
    else
      (if IsExplicit(reservations[0], order) && reservations[0].product == p then reservations[0].quantity else 0)
        + ExplicitTotal(reservations[1..], order, p)
  }

  function Ordered(items: seq<Item>, p: Id): nat {
    if items == [] then 0 else (if items[0].product == p then items[0].quantity else 0) + Ordered(items[1..], p)
  }

  /** Several items of one product are ordered together; the others do not matter. */
  lemma {:induction false} OrderedTogether(a: seq<Item>, p: Id, quantity: nat, b: seq<Item>)
    ensures Ordered(a + [Item(p, quantity)] + b, p) == Ordered(a, p) + quantity + Ordered(b, p)
    ensures forall q :: q != p ==> Ordered(a + [Item(p, quantity)] + b, q) == Ordered(a, q) + Ordered(b, q)
    decreases |a|
  {
    var all := a + [Item(p, quantity)] + b;
    if a == [] {
      assert all[0] == Item(p, quantity) && all[1..] == b;
    } else {
      OrderedTogether(a[1..], p, quantity, b);
      assert all[0] == a[0] && all[1..] == a[1..] + [Item(p, quantity)] + b;
    }
  }

  predicate HasRows(rows: seq<LocationRow>, w: Id, p: Id) {
    exists i :: 0 <= i < |rows| && AtProduct(rows[i], w, p)
  }

  lemma {:induction false} SumUpdate(rows: seq<LocationRow>, i: nat, stock: Stock, w: Id, p: Id)
    requires i < |rows|
    ensures SumReserved(rows[i := rows[i].(stock := stock)], w, p)
         == SumReserved(rows, w, p) + (if AtProduct(rows[i], w, p) then stock.reserved - rows[i].stock.reserved else 0)
  {
    var init, n := rows[..|rows| - 1], |rows| - 1;
    var next := rows[i := rows[i].(stock := stock)];
    if i < n {
      SumUpdate(init, i, stock, w, p);
      assert next[..n] == init[i := init[i].(stock := stock)];
    } else {
      assert next[..n] == init;
    }
  }

  lemma {:induction false} TrackedUpdate(reservations: seq<Reservation>, i: nat, location: Id, p: Id)
    requires i < |reservations| && reservations[i].active
    ensures var r := reservations[i];
      Tracked(reservations[i := r.(active := false)], location, p)
        == Tracked(reservations, location, p) - (if r.location == location && r.product == p then r.quantity else 0)
  {
    var init, n := reservations[..|reservations| - 1], |reservations| - 1;
    var next := reservations[i := reservations[i].(active := false)];
    if i < n {
      TrackedUpdate(init, i, location, p);
      assert next[..n] == init[i := init[i].(active := false)];
    } else {
      assert next[..n] == init;
    }
  }

  // ---- releasing the explicit reservations ----

  function FindRow(rows: seq<LocationRow>, location: Id, p: Id): (k: Option<nat>)
    ensures k.Some? ==> k.value < |rows| && rows[k.value].location == location && rows[k.value].product == p
    ensures k.None? ==> forall i :: 0 <= i < |rows| ==> rows[i].location != location || rows[i].product != p
  {
    if rows == [] then None
    else
      var n := |rows| - 1;
      if rows[n].location == location && rows[n].product == p then Some(n) else FindRow(rows[..n], location, p)
  }

  /** One conditional update: the row must exist and have that much reserved. */
  function ReleaseAt(rows: seq<LocationRow>, r: Reservation): Result<seq<LocationRow>> {
    match FindRow(rows, r.location, r.product)
    case None => Inconsistent
    case Some(k) =>
      if rows[k].stock.reserved >= r.quantity then Ok(rows[k := rows[k].(stock := Release(rows[k].stock, r.quantity))])
      else Inconsistent
  }

  /** The reservations from index i on. */
  function ReleaseExplicit(t: Tables, order: Id, i: nat): (r: Result<Tables>)
    requires i <= |t.reservations|
    ensures r.Ok? ==> |r.value.locations| == |t.locations|
    decreases |t.reservations| - i
  {
    if i == |t.reservations| then Ok(t)
    else if !IsExplicit(t.reservations[i], order) then ReleaseExplicit(t, order, i + 1)
    else
      match ReleaseAt(t.locations, t.reservations[i])
      case Inconsistent => Inconsistent
      case Ok(rows) =>
        ReleaseExplicit(t.(locations := rows, reservations := t.reservations[i := t.reservations[i].(active := false)]), order, i + 1)
  }

  /** Exactly the order's own active reservations are released. */
  lemma {:induction false} ReleasesItsOwn(t: Tables, order: Id, i: nat)
    requires i <= |t.reservations| && ReleaseExplicit(t, order, i).Ok?
    ensures var u := ReleaseExplicit(t, order, i).value;
      && |u.reservations| == |t.reservations| && u.inventory == t.inventory
      && forall k :: i <= k < |t.reservations| ==>
           u.reservations[k] == t.reservations[k].(active :=
             t.reservations[k].active && t.reservations[k].sourceOrder != Some(order))
    ensures forall k :: 0 <= k < i ==> ReleaseExplicit(t, order, i).value.reservations[k] == t.reservations[k]
    decreases |t.reservations| - i
  {
    hide ReleaseAt;
    if i < |t.reservations| {
      var r := t.reservations[i];
      if IsExplicit(r, order) {
        ReleasesItsOwn(t.(locations := ReleaseAt(t.locations, r).value,
                          reservations := t.reservations[i := r.(active := false)]), order, i + 1);
      } else {
        ReleasesItsOwn(t, order, i + 1);
      }
    }
  }

  // ---- the greedy release of untracked reservations ----

  predicate InRange(rowOrder: seq<nat>, n: nat) {
    forall i :: 0 <= i < |rowOrder| ==> rowOrder[i] < n
  }

  predicate Distinct(rowOrder: seq<nat>) {
    forall i, j :: 0 <= i < j < |rowOrder| ==> rowOrder[i] != rowOrder[j]
  }

  function Untracked(row: LocationRow, reservations: seq<Reservation>): nat {
    Max(0, row.stock.reserved - Tracked(reservations, row.location, row.product))
  }

  /** rowOrder lists row indices by update time; rows of other products are skipped. */
  function UntrackedTotal(rows: seq<LocationRow>, reservations: seq<Reservation>, w: Id, p: Id, rowOrder: seq<nat>): nat
    requires InRange(rowOrder, |rows|)
  {
    if rowOrder == [] then 0
    else
      var row := rows[rowOrder[0]];
      (if AtProduct(row, w, p) then Untracked(row, reservations) else 0)
        + UntrackedTotal(rows, reservations, w, p, rowOrder[1..])
  }

  datatype Legacy = Legacy(rows: seq<LocationRow>, remaining: nat)

  function ReleaseLegacy(rows: seq<LocationRow>, reservations: seq<Reservation>, w: Id, p: Id, rowOrder: seq<nat>, remaining: nat): (legacy: Legacy)
    requires InRange(rowOrder, |rows|)
    ensures |legacy.rows| == |rows|
    decreases |rowOrder|
  {
    if rowOrder == [] then Legacy(rows, remaining)
    else
      var k := rowOrder[0];
      var take := if AtProduct(rows[k], w, p) then Min(Untracked(rows[k], reservations), remaining) else 0;
      ReleaseLegacy(rows[k := rows[k].(stock := Release(rows[k].stock, take))], reservations, w, p, rowOrder[1..], remaining - take)
  }

  // ---- one product, all products, one order ----

  function ReleaseProduct(t: Tables, w: Id, p: Id, quantity: nat, explicit: nat, rowOrder: seq<nat>): (r: Result<Tables>)
    requires InRange(rowOrder, |t.locations|)
    ensures r.Ok? ==> |r.value.locations| == |t.locations|
  {
    if explicit != 0 && explicit != quantity then Inconsistent
    else
      var legacy := if explicit == 0 then ReleaseLegacy(t.locations, t.reservations, w, p, rowOrder, quantity) else Legacy(t.locations, 0);
      if legacy.remaining > 0 && HasRows(t.locations, w, p) then Inconsistent
      else if (w, p) in t.inventory && t.inventory[(w, p)].reserved >= quantity then
        Ok(t.(locations := legacy.rows, inventory := t.inventory[(w, p) := Release(t.inventory[(w, p)], quantity)]))
      else Inconsistent
  }

  /** The products of an order, each once, in order of first appearance. */
  function Products(items: seq<Item>): (ps: seq<Id>)
    ensures forall p :: p in ps <==> exists i :: 0 <= i < |items| && items[i].product == p
    ensures forall i, j :: 0 <= i < j < |ps| ==> ps[i] != ps[j]
  {
    if items == [] then []
    else
      var n := |items| - 1;
      var ps := Products(items[..n]);
      assert forall i :: 0 <= i < n ==> items[..n][i] == items[i];
      if items[n].product in ps then ps else ps + [items[n].product]
  }

  /** The remaining products; before holds the reservations as the transaction found them. */
  function ReleaseProducts(t: Tables, before: seq<Reservation>, order: Id, row: Order, ps: seq<Id>, rowOrder: seq<nat>): Result<Tables>
    requires InRange(rowOrder, |t.locations|)
    decreases |ps|
  {
    if ps == [] then Ok(t)
    else
      match ReleaseProduct(t, row.warehouse, ps[0], Ordered(row.items, ps[0]), ExplicitTotal(before, order, ps[0]), rowOrder)
      case Inconsistent => Inconsistent
      case Ok(u) => ReleaseProducts(u, before, order, row, ps[1..], rowOrder)
  }

  predicate IsDue(db: Database, order: Id, now: int) {
    && order in db.orders && db.orders[order].status == PENDING_PAYMENT
    && db.orders[order].expiresAt.Some? && db.orders[order].expiresAt.value <= now
  }

  /** The stock part of the transaction. */
  function ReleaseOrder(t: Tables, order: Id, row: Order, rowOrder: seq<nat>): Result<Tables>
    requires InRange(rowOrder, |t.locations|)
  {
    match ReleaseExplicit(t, order, 0)
    case Inconsistent => Inconsistent
    case Ok(u) => ReleaseProducts(u, t.reservations, order, row, Products(row.items), rowOrder)
  }

  /** One transaction: nothing to do, rolled back, or committed. */
  function Expire(db: Database, order: Id, now: int, rowOrder: seq<nat>): Database
    requires InRange(rowOrder, |db.tables.locations|)
  {
    if !IsDue(db, order, now) then db
    else
      match ReleaseOrder(db.tables, order, db.orders[order], rowOrder)
      case Inconsistent => db
      case Ok(t) => Database(db.orders[order := db.orders[order].(status := CANCELLED)], t)
  }

  /** An order is cancelled exactly when it awaits its payment, its time is up, and its stock can be released. */
  lemma ExpiresIff(db: Database, order: Id, now: int, rowOrder: seq<nat>)
    requires InRange(rowOrder, |db.tables.locations|) && order in db.orders && db.orders[order].status != CANCELLED
    ensures Expire(db, order, now, rowOrder).orders[order].status == CANCELLED <==>
      && db.orders[order].status == PENDING_PAYMENT
      && db.orders[order].expiresAt.Some? && now >= db.orders[order].expiresAt.value
      && ReleaseOrder(db.tables, order, db.orders[order], rowOrder).Ok?
    ensures forall other <- db.orders :: other != order ==> Expire(db, order, now, rowOrder).orders[other] == db.orders[other]
  {
    hide ReleaseOrder;
  }

  // ---- what the releases keep ----

  ghost predicate SameStock(a: Stock, b: Stock) {
    a.quantity == b.quantity && a.reserved + a.available == b.reserved + b.available
  }

  /** Rows stay where they are, and stock only moves between reserved and available. */
  ghost predicate SameShape(a: seq<LocationRow>, b: seq<LocationRow>) {
    && |a| == |b|
    && forall i :: 0 <= i < |a| ==>
         a[i].location == b[i].location && a[i].warehouse == b[i].warehouse && a[i].product == b[i].product && SameStock(a[i].stock, b[i].stock)
  }

  /** The unique key of the location table. */
  ghost predicate UniqueRows(rows: seq<LocationRow>) {
    forall i, j :: 0 <= i < j < |rows| ==> rows[i].location != rows[j].location || rows[i].product != rows[j].product
  }

  /** Every location has at least its active explicit reservations reserved. */
  ghost predicate Covered(t: Tables) {
    forall i :: 0 <= i < |t.locations| ==>
      t.locations[i].stock.reserved >= Tracked(t.reservations, t.locations[i].location, t.locations[i].product)
  }

  // ---- where the explicit reservations sit ----

  /** The row a reservation is released from belongs to warehouse w. */
  predicate SitsAt(rows: seq<LocationRow>, r: Reservation, w: Id) {
    var k := FindRow(rows, r.location, r.product);
    k.Some? && rows[k.value].warehouse == w
  }

  /** What an order's explicit reservations of a product hold at the locations of a warehouse. */
  function ExplicitAt(rows: seq<LocationRow>, reservations: seq<Reservation>, order: Id, w: Id, p: Id): nat {
    if reservations == [] then 0
    else
      var r := reservations[0];
      (if IsExplicit(r, order) && r.product == p && SitsAt(rows, r, w) then r.quantity else 0)
        + ExplicitAt(rows, reservations[1..], order, w, p)
  }

  /** Every piece an order has reserved explicitly is of one of its items and lies in its own warehouse. */
  ghost predicate Own(t: Tables, order: Id, row: Order) {
    forall j :: 0 <= j < |t.reservations| && IsExplicit(t.reservations[j], order) && t.reservations[j].quantity > 0 ==>
      t.reservations[j].product in Products(row.items) && SitsAt(t.locations, t.reservations[j], row.warehouse)
  }

  lemma {:induction false} FindInSameShape(a: seq<LocationRow>, b: seq<LocationRow>, location: Id, p: Id)
    requires SameShape(a, b)
    ensures FindRow(a, location, p) == FindRow(b, location, p)
    decreases |a|
  {
    if a != [] {
      var n := |a| - 1;
      assert forall i :: 0 <= i < n ==> a[..n][i] == a[i] && b[..n][i] == b[i];
      FindInSameShape(a[..n], b[..n], location, p);
    }
  }

  lemma {:induction false} ExplicitAtInSameShape(a: seq<LocationRow>, b: seq<LocationRow>, reservations: seq<Reservation>, order: Id, w: Id, p: Id)
    requires SameShape(a, b)
    ensures ExplicitAt(a, reservations, order, w, p) == ExplicitAt(b, reservations, order, w, p)
    decreases |reservations|
  {
    if reservations != [] {
      FindInSameShape(a, b, reservations[0].location, reservations[0].product);
      ExplicitAtInSameShape(a, b, reservations[1..], order, w, p);
    }
  }

  lemma ReleaseAtKeeps(t: Tables, i: nat, rows: seq<LocationRow>)
    requires i < |t.reservations| && t.reservations[i].active && ReleaseAt(t.locations, t.reservations[i]) == Ok(rows)
    requires UniqueRows(t.locations) && Covered(t)
    ensures SameShape(t.locations, rows)
    ensures Covered(t.(locations := rows, reservations := t.reservations[i := t.reservations[i].(active := false)]))
  {
    var r := t.reservations[i];
    forall m | 0 <= m < |rows|
      ensures rows[m].stock.reserved >= Tracked(t.reservations[i := r.(active := false)], rows[m].location, rows[m].product)
    {
      TrackedUpdate(t.reservations, i, rows[m].location, rows[m].product);
    }
  }

  lemma ReleaseAtSum(rows: seq<LocationRow>, r: Reservation, w: Id, p: Id)
    requires ReleaseAt(rows, r).Ok?
    ensures SumReserved(ReleaseAt(rows, r).value, w, p)
         == SumReserved(rows, w, p) - (if p == r.product && SitsAt(rows, r, w) then r.quantity else 0)
    ensures SameShape(rows, ReleaseAt(rows, r).value)
  {
    var k := FindRow(rows, r.location, r.product).value;
    SumUpdate(rows, k, Release(rows[k].stock, r.quantity), w, p);
  }

  lemma {:induction false} ExplicitKeeps(t: Tables, order: Id, i: nat)
    requires i <= |t.reservations| && ReleaseExplicit(t, order, i).Ok?
    requires UniqueRows(t.locations) && Covered(t)
    ensures var u := ReleaseExplicit(t, order, i).value;
      SameShape(t.locations, u.locations) && Covered(u) && u.inventory == t.inventory
    decreases |t.reservations| - i
  {
    if i < |t.reservations| {
      var r := t.reservations[i];
      if IsExplicit(r, order) {
        var rows := ReleaseAt(t.locations, r).value;
        ReleaseAtKeeps(t, i, rows);
        hide ReleaseAt, Tracked, Covered;
        ExplicitKeeps(t.(locations := rows, reservations := t.reservations[i := r.(active := false)]), order, i + 1);
      } else {
        ExplicitKeeps(t, order, i + 1);
      }
    }
  }

  /** Each warehouse's locations give back exactly what the order holds there explicitly. */
  lemma {:induction false} ExplicitSum(t: Tables, order: Id, i: nat, w: Id, p: Id)
    requires i <= |t.reservations| && ReleaseExplicit(t, order, i).Ok?
    ensures SumReserved(ReleaseExplicit(t, order, i).value.locations, w, p)
         == SumReserved(t.locations, w, p) - ExplicitAt(t.locations, t.reservations[i..], order, w, p)
    decreases |t.reservations| - i
  {
    hide SumReserved, SitsAt, FindRow, ReleaseAt;
    if i < |t.reservations| {
      var r := t.reservations[i];
      assert t.reservations[i..][1..] == t.reservations[i + 1..];
      if IsExplicit(r, order) {
        var rows := ReleaseAt(t.locations, r).value;
        ReleaseAtSum(t.locations, r, w, p);
        var u := t.(locations := rows, reservations := t.reservations[i := r.(active := false)]);
        assert u.reservations[i + 1..] == t.reservations[i + 1..];
        ExplicitSum(u, order, i + 1, w, p);
        ExplicitAtInSameShape(t.locations, rows, t.reservations[i + 1..], order, w, p);
      } else {
        ExplicitSum(t, order, i + 1, w, p);
      }
    }
  }

  ghost predicate RowsCovered(rows: seq<LocationRow>, reservations: seq<Reservation>) {
    forall i :: 0 <= i < |rows| ==> rows[i].stock.reserved >= Tracked(reservations, rows[i].location, rows[i].product)
  }

  lemma {:induction false} UntrackedFrame(a: seq<LocationRow>, b: seq<LocationRow>, reservations: seq<Reservation>, w: Id, p: Id, rowOrder: seq<nat>)
    requires |a| <= |b| && InRange(rowOrder, |a|) && forall i :: 0 <= i < |rowOrder| ==> a[rowOrder[i]] == b[rowOrder[i]]
    ensures UntrackedTotal(a, reservations, w, p, rowOrder) == UntrackedTotal(b, reservations, w, p, rowOrder)
    decreases |rowOrder|
  {
    if rowOrder != [] {
      UntrackedFrame(a, b, reservations, w, p, rowOrder[1..]);
    }
  }

  /** One location row gives back some of its untracked pieces. */
  lemma TakeKeeps(rows: seq<LocationRow>, reservations: seq<Reservation>, k: nat, take: nat)
    requires k < |rows| && RowsCovered(rows, reservations) && take <= Untracked(rows[k], reservations)
    ensures var next := rows[k := rows[k].(stock := Release(rows[k].stock, take))];
      && SameShape(rows, next) && RowsCovered(next, reservations)
      && forall v: Id, q: Id :: SumReserved(next, v, q) == SumReserved(rows, v, q) - (if AtProduct(rows[k], v, q) then take else 0)
  {
    hide Tracked, SumReserved;
    forall v: Id, q: Id
      ensures var next := rows[k := rows[k].(stock := Release(rows[k].stock, take))];
        SumReserved(next, v, q) == SumReserved(rows, v, q) - (if AtProduct(rows[k], v, q) then take else 0)
    {
      SumUpdate(rows, k, Release(rows[k].stock, take), v, q);
    }
  }

  lemma ShapesJoin(a: seq<LocationRow>, b: seq<LocationRow>, c: seq<LocationRow>)
    requires SameShape(a, b) && SameShape(b, c)
    ensures SameShape(a, c)
  {
  }

  lemma FirstTaken(rows: seq<LocationRow>, reservations: seq<Reservation>, w: Id, p: Id, rowOrder: seq<nat>, remaining: nat)
    requires InRange(rowOrder, |rows|) && rowOrder != []
    ensures var k := rowOrder[0];
      var untracked := if AtProduct(rows[k], w, p) then Untracked(rows[k], reservations) else 0;
      var take := Min(untracked, remaining);
      && ReleaseLegacy(rows, reservations, w, p, rowOrder, remaining) ==
           ReleaseLegacy(rows[k := rows[k].(stock := Release(rows[k].stock, take))], reservations, w, p, rowOrder[1..], remaining - take)
      && UntrackedTotal(rows, reservations, w, p, rowOrder) == untracked + UntrackedTotal(rows, reservations, w, p, rowOrder[1..])
  {
    hide Untracked;
  }

  /** The greedy loop takes all it needs or all there is, only from matching rows, and never a tracked piece. */
  lemma {:induction false} LegacyKeeps(rows: seq<LocationRow>, reservations: seq<Reservation>, w: Id, p: Id, rowOrder: seq<nat>, remaining: nat)
    requires InRange(rowOrder, |rows|) && Distinct(rowOrder) && RowsCovered(rows, reservations)
    ensures var legacy := ReleaseLegacy(rows, reservations, w, p, rowOrder, remaining);
      && SameShape(rows, legacy.rows) && RowsCovered(legacy.rows, reservations)
      && legacy.remaining == remaining - Min(remaining, UntrackedTotal(rows, reservations, w, p, rowOrder))
      && forall v: Id, q: Id :: SumReserved(legacy.rows, v, q)
           == SumReserved(rows, v, q) - (if v == w && q == p then remaining - legacy.remaining else 0)
    decreases |rowOrder|
  {
    if rowOrder != [] {
      var k := rowOrder[0];
      var take := if AtProduct(rows[k], w, p) then Min(Untracked(rows[k], reservations), remaining) else 0;
      var next := rows[k := rows[k].(stock := Release(rows[k].stock, take))];
      hide Tracked, SumReserved, RowsCovered, Untracked;
      FirstTaken(rows, reservations, w, p, rowOrder, remaining);
      hide ReleaseLegacy, UntrackedTotal;
      TakeKeeps(rows, reservations, k, take);
      UntrackedFrame(rows, next, reservations, w, p, rowOrder[1..]);
      hide SameShape;
      LegacyKeeps(next, reservations, w, p, rowOrder[1..], remaining - take);
      ShapesJoin(rows, next, ReleaseLegacy(next, reservations, w, p, rowOrder[1..], remaining - take).rows);
    }
  }

  // ---- the two levels together ----

  /** The warehouse quantity an order's release takes from one product. */
  function Given(row: Order, ps: seq<Id>, w: Id, p: Id): nat {
    if w == row.warehouse && p in ps then Ordered(row.items, p) else 0
  }

  /** The part of it the explicit reservations do not account for. */
  function GivenLegacy(row: Order, ps: seq<Id>, before: seq<Reservation>, order: Id, w: Id, p: Id): nat {
    if ExplicitTotal(before, order, p) == 0 then Given(row, ps, w, p) else 0
  }

  ghost predicate SameInventory(a: map<(Id, Id), Stock>, b: map<(Id, Id), Stock>) {
    a.Keys == b.Keys && forall k <- a :: SameStock(a[k], b[k])
  }

  lemma RowsMatchShape(a: seq<LocationRow>, b: seq<LocationRow>, w: Id, p: Id)
    requires SameShape(a, b)
    ensures HasRows(a, w, p) == HasRows(b, w, p)
    ensures UniqueRows(a) ==> UniqueRows(b)
  {
    assert forall i :: 0 <= i < |a| ==> AtProduct(a[i], w, p) == AtProduct(b[i], w, p);
  }

  lemma {:induction false} NoRowsNoSum(rows: seq<LocationRow>, w: Id, p: Id)
    requires !HasRows(rows, w, p)
    ensures SumReserved(rows, w, p) == 0
  {
    if rows != [] {
      var init := rows[..|rows| - 1];
      assert forall i :: 0 <= i < |init| ==> init[i] == rows[i];
      NoRowsNoSum(init, w, p);
    }
  }

  /** One product: both levels move by the same amount wherever the product has location rows. */
  lemma ProductKeeps(t: Tables, w: Id, p: Id, quantity: nat, explicit: nat, rowOrder: seq<nat>)
    requires InRange(rowOrder, |t.locations|) && Distinct(rowOrder) && Covered(t)
    requires ReleaseProduct(t, w, p, quantity, explicit, rowOrder).Ok?
    ensures var u := ReleaseProduct(t, w, p, quantity, explicit, rowOrder).value;
      && SameShape(t.locations, u.locations) && Covered(u) && u.reservations == t.reservations
      && SameInventory(t.inventory, u.inventory)
      && (forall k <- t.inventory :: u.inventory[k].reserved == t.inventory[k].reserved - (if k == (w, p) then quantity else 0))
      && (w, p) in t.inventory && (explicit == 0 || explicit == quantity)
      && forall v: Id, q: Id :: HasRows(t.locations, v, q) ==>
           SumReserved(u.locations, v, q) == SumReserved(t.locations, v, q) - (if v == w && q == p && explicit == 0 then quantity else 0)
  {
    if explicit == 0 {
      LegacyKeeps(t.locations, t.reservations, w, p, rowOrder, quantity);
    }
  }

  ghost predicate NoRepeats(ps: seq<Id>) {
    forall i, j :: 0 <= i < j < |ps| ==> ps[i] != ps[j]
  }

  lemma GivenTail(row: Order, ps: seq<Id>, w: Id, p: Id)
    requires ps != [] && NoRepeats(ps)
    ensures Given(row, ps, w, p) == (if (w, p) == (row.warehouse, ps[0]) then Ordered(row.items, p) else 0) + Given(row, ps[1..], w, p)
  {
    assert ps == [ps[0]] + ps[1..];
  }

  lemma GivenTails(row: Order, ps: seq<Id>)
    requires ps != [] && NoRepeats(ps)
    ensures forall w: Id, p: Id ::
      Given(row, ps, w, p) ==
        (if (w, p) == (row.warehouse, ps[0]) then Ordered(row.items, p) else 0) + Given(row, ps[1..], w, p)
  {
    hide Given, Ordered;
    forall w: Id, p: Id
      ensures Given(row, ps, w, p) ==
        (if (w, p) == (row.warehouse, ps[0]) then Ordered(row.items, p) else 0) + Given(row, ps[1..], w, p)
    {
      GivenTail(row, ps, w, p);
    }
  }

  lemma RowsMatchEverywhere(a: seq<LocationRow>, b: seq<LocationRow>)
    requires SameShape(a, b)
    ensures forall w: Id, p: Id :: HasRows(a, w, p) == HasRows(b, w, p)
  {
    hide HasRows;
    forall w: Id, p: Id
      ensures HasRows(a, w, p) == HasRows(b, w, p)
    {
      RowsMatchShape(a, b, w, p);
    }
  }

  lemma SameInventoryJoins(a: map<(Id, Id), Stock>, b: map<(Id, Id), Stock>, c: map<(Id, Id), Stock>)
    requires SameInventory(a, b) && SameInventory(b, c)
    ensures SameInventory(a, c) && a.Keys == b.Keys == c.Keys
  {
  }

  lemma FirstProduct(t: Tables, before: seq<Reservation>, order: Id, row: Order, ps: seq<Id>, rowOrder: seq<nat>)
    requires InRange(rowOrder, |t.locations|) && ps != [] && ReleaseProducts(t, before, order, row, ps, rowOrder).Ok?
    ensures var r := ReleaseProduct(t, row.warehouse, ps[0], Ordered(row.items, ps[0]), ExplicitTotal(before, order, ps[0]), rowOrder);
      && r.Ok? && InRange(rowOrder, |r.value.locations|)
      && ReleaseProducts(t, before, order, row, ps, rowOrder) == ReleaseProducts(r.value, before, order, row, ps[1..], rowOrder)
  {
    hide ReleaseProduct;
  }

  lemma {:induction false} ProductsShape(t: Tables, before: seq<Reservation>, order: Id, row: Order, ps: seq<Id>, rowOrder: seq<nat>)
    requires InRange(rowOrder, |t.locations|) && Distinct(rowOrder) && Covered(t) && NoRepeats(ps)
    requires ReleaseProducts(t, before, order, row, ps, rowOrder).Ok?
    ensures var u := ReleaseProducts(t, before, order, row, ps, rowOrder).value;
      && SameShape(t.locations, u.locations) && Covered(u) && u.reservations == t.reservations
      && SameInventory(t.inventory, u.inventory)
    decreases |ps|
  {
    hide SumReserved, Ordered, ExplicitTotal, Covered, HasRows;
    if ps != [] {
      hide SameInventory;
      var p, quantity, explicit := ps[0], Ordered(row.items, ps[0]), ExplicitTotal(before, order, ps[0]);
      FirstProduct(t, before, order, row, ps, rowOrder);
      hide ReleaseProduct, ReleaseProducts;
      var u := ReleaseProduct(t, row.warehouse, p, quantity, explicit, rowOrder).value;
      ProductKeeps(t, row.warehouse, p, quantity, explicit, rowOrder);
      ProductsShape(u, before, order, row, ps[1..], rowOrder);
      SameInventoryJoins(t.inventory, u.inventory, ReleaseProducts(u, before, order, row, ps[1..], rowOrder).value.inventory);
    }
  }

  lemma {:induction false} ProductsReserved(t: Tables, before: seq<Reservation>, order: Id, row: Order, ps: seq<Id>, rowOrder: seq<nat>)
    requires InRange(rowOrder, |t.locations|) && Distinct(rowOrder) && Covered(t) && NoRepeats(ps)
    requires ReleaseProducts(t, before, order, row, ps, rowOrder).Ok?
    ensures var u := ReleaseProducts(t, before, order, row, ps, rowOrder).value;
      && u.inventory.Keys == t.inventory.Keys
      && (forall k <- t.inventory :: u.inventory[k].reserved == t.inventory[k].reserved - Given(row, ps, k.0, k.1))
      && (forall p <- ps :: ExplicitTotal(before, order, p) == 0 || ExplicitTotal(before, order, p) == Ordered(row.items, p))
    decreases |ps|
  {
    hide SumReserved, Ordered, ExplicitTotal, Covered, HasRows, SameShape, SameStock;
    if ps != [] {
      var p, quantity, explicit := ps[0], Ordered(row.items, ps[0]), ExplicitTotal(before, order, ps[0]);
      FirstProduct(t, before, order, row, ps, rowOrder);
      hide ReleaseProduct, ReleaseProducts;
      var u := ReleaseProduct(t, row.warehouse, p, quantity, explicit, rowOrder).value;
      ProductKeeps(t, row.warehouse, p, quantity, explicit, rowOrder);
      ProductsReserved(u, before, order, row, ps[1..], rowOrder);
      GivenTails(row, ps);
      hide Given;
      assert ps == [p] + ps[1..];
    }
  }

  lemma {:induction false} ProductsSums(t: Tables, before: seq<Reservation>, order: Id, row: Order, ps: seq<Id>, rowOrder: seq<nat>)
    requires InRange(rowOrder, |t.locations|) && Distinct(rowOrder) && Covered(t) && NoRepeats(ps)
    requires ReleaseProducts(t, before, order, row, ps, rowOrder).Ok?
    ensures var u := ReleaseProducts(t, before, order, row, ps, rowOrder).value;
      forall w: Id, p: Id :: HasRows(t.locations, w, p) ==>
        SumReserved(u.locations, w, p) == SumReserved(t.locations, w, p) - GivenLegacy(row, ps, before, order, w, p)
    decreases |ps|
  {
    hide SumReserved, Ordered, ExplicitTotal, Covered, SameInventory;
    if ps != [] {
      var p, quantity, explicit := ps[0], Ordered(row.items, ps[0]), ExplicitTotal(before, order, ps[0]);
      FirstProduct(t, before, order, row, ps, rowOrder);
      hide ReleaseProduct, ReleaseProducts;
      var u := ReleaseProduct(t, row.warehouse, p, quantity, explicit, rowOrder).value;
      ProductKeeps(t, row.warehouse, p, quantity, explicit, rowOrder);
      ProductsSums(u, before, order, row, ps[1..], rowOrder);
      GivenTails(row, ps);
      RowsMatchEverywhere(t.locations, u.locations);
      hide HasRows, Given, SameShape;
    }
  }

  lemma ProductsKeep(t: Tables, before: seq<Reservation>, order: Id, row: Order, ps: seq<Id>, rowOrder: seq<nat>)
    requires InRange(rowOrder, |t.locations|) && Distinct(rowOrder) && Covered(t) && NoRepeats(ps)
    requires ReleaseProducts(t, before, order, row, ps, rowOrder).Ok?
    ensures var u := ReleaseProducts(t, before, order, row, ps, rowOrder).value;
      && SameShape(t.locations, u.locations) && Covered(u) && u.reservations == t.reservations
      && SameInventory(t.inventory, u.inventory)
      && (forall k <- t.inventory :: u.inventory[k].reserved == t.inventory[k].reserved - Given(row, ps, k.0, k.1))
      && (forall p <- ps :: ExplicitTotal(before, order, p) == 0 || ExplicitTotal(before, order, p) == Ordered(row.items, p))
      && forall w: Id, p: Id :: HasRows(t.locations, w, p) ==>
           SumReserved(u.locations, w, p) == SumReserved(t.locations, w, p) - GivenLegacy(row, ps, before, order, w, p)
  {
    hide ReleaseProducts, SumReserved, Ordered, ExplicitTotal, Covered, HasRows, Given, GivenLegacy;
    ProductsShape(t, before, order, row, ps, rowOrder);
    ProductsReserved(t, before, order, row, ps, rowOrder);
    ProductsSums(t, before, order, row, ps, rowOrder);
  }

  /** What the stock tables keep. Quantity is reserved plus available at both levels; where a product has location
      rows their reservations add up to the warehouse's; and each location covers its explicit reservations. */
  ghost predicate Consistent(t: Tables) {
    && UniqueRows(t.locations) && Covered(t)
    && (forall i :: 0 <= i < |t.locations| ==> Whole(t.locations[i].stock))
    && (forall k <- t.inventory :: Whole(t.inventory[k]))
    && forall w: Id, p: Id :: HasRows(t.locations, w, p) ==> (w, p) in t.inventory && SumReserved(t.locations, w, p) == t.inventory[(w, p)].reserved
  }

  ghost predicate Whole(stock: Stock) {
    stock.quantity == stock.reserved + stock.available
  }

  /** What a committed release changes: the warehouse gives back the ordered quantities; the locations of every
      warehouse give back what the order holds there explicitly and, at its own, the legacy quantities. */
  lemma OrderReleases(t: Tables, order: Id, row: Order, rowOrder: seq<nat>)
    requires InRange(rowOrder, |t.locations|) && Distinct(rowOrder)
    requires UniqueRows(t.locations) && Covered(t) && ReleaseOrder(t, order, row, rowOrder).Ok?
    ensures var u := ReleaseOrder(t, order, row, rowOrder).value;
      && SameShape(t.locations, u.locations) && Covered(u) && SameInventory(t.inventory, u.inventory)
      && (forall k <- t.inventory :: u.inventory[k].reserved == t.inventory[k].reserved - Given(row, Products(row.items), k.0, k.1))
      && (forall p <- Products(row.items) ::
            ExplicitTotal(t.reservations, order, p) == 0 || ExplicitTotal(t.reservations, order, p) == Ordered(row.items, p))
      && forall w: Id, p: Id :: HasRows(t.locations, w, p) ==>
           SumReserved(u.locations, w, p) == SumReserved(t.locations, w, p)
             - GivenLegacy(row, Products(row.items), t.reservations, order, w, p)
             - ExplicitAt(t.locations, t.reservations, order, w, p)
  {
    var ps := Products(row.items);
    var m := ReleaseExplicit(t, order, 0).value;
    ExplicitKeeps(t, order, 0);
    ProductsKeep(m, t.reservations, order, row, ps, rowOrder);
    var u := ReleaseOrder(t, order, row, rowOrder).value;
    forall w: Id, p: Id | HasRows(t.locations, w, p)
      ensures SumReserved(u.locations, w, p) == SumReserved(t.locations, w, p)
        - GivenLegacy(row, ps, t.reservations, order, w, p) - ExplicitAt(t.locations, t.reservations, order, w, p)
    {
      RowsMatchShape(t.locations, m.locations, w, p);
      ExplicitSum(t, order, 0, w, p);
      assert t.reservations[0..] == t.reservations;
      hide SumReserved, ReleaseProducts, ReleaseExplicit, ExplicitTotal, ExplicitAt, GivenLegacy, Ordered, HasRows;
    }
    hide ReleaseProducts, ReleaseExplicit, SumReserved, ExplicitAt, GivenLegacy, Covered;
  }

  /** A release that goes through has found the row of every explicit reservation. */
  lemma {:induction false} ExplicitFound(t: Tables, order: Id, i: nat, j: nat)
    requires i <= j < |t.reservations| && ReleaseExplicit(t, order, i).Ok? && IsExplicit(t.reservations[j], order)
    ensures FindRow(t.locations, t.reservations[j].location, t.reservations[j].product).Some?
    decreases |t.reservations| - i
  {
    hide FindRow;
    var r := t.reservations[i];
    if i < j {
      if IsExplicit(r, order) {
        var rows := ReleaseAt(t.locations, r).value;
        ReleaseAtSum(t.locations, r, 0, 0);
        FindInSameShape(t.locations, rows, t.reservations[j].location, t.reservations[j].product);
        ExplicitFound(t.(locations := rows, reservations := t.reservations[i := r.(active := false)]), order, i + 1, j);
      } else {
        ExplicitFound(t, order, i + 1, j);
      }
    }
  }

  // ---- exactly when the tables stay consistent ----

  /** What a reservation counts for, in total and at its warehouse. */
  lemma {:induction false} CountedAt(rows: seq<LocationRow>, reservations: seq<Reservation>, order: Id, w: Id, j: nat)
    requires j < |reservations| && IsExplicit(reservations[j], order) && SitsAt(rows, reservations[j], w)
    ensures ExplicitAt(rows, reservations, order, w, reservations[j].product) >= reservations[j].quantity
    ensures ExplicitTotal(reservations, order, reservations[j].product) >= reservations[j].quantity
    decreases |reservations|
  {
    if j > 0 {
      CountedAt(rows, reservations[1..], order, w, j - 1);
    }
  }

  /** If every piece of a product lies in one warehouse, that warehouse holds them all and no other any. */
  lemma {:induction false} AllAt(rows: seq<LocationRow>, reservations: seq<Reservation>, order: Id, home: Id, w: Id, p: Id)
    requires forall j :: 0 <= j < |reservations| && IsExplicit(reservations[j], order) && reservations[j].quantity > 0 ==>
      SitsAt(rows, reservations[j], home)
    ensures ExplicitAt(rows, reservations, order, w, p) == if w == home then ExplicitTotal(reservations, order, p) else 0
    decreases |reservations|
  {
    if reservations != [] {
      assert forall j :: 0 <= j < |reservations[1..]| ==> reservations[1..][j] == reservations[j + 1];
      AllAt(rows, reservations[1..], order, home, w, p);
    }
  }

  lemma {:induction false} NoneOf(reservations: seq<Reservation>, order: Id, p: Id)
    requires forall j :: 0 <= j < |reservations| && IsExplicit(reservations[j], order) && reservations[j].quantity > 0 ==>
      reservations[j].product != p
    ensures ExplicitTotal(reservations, order, p) == 0
    decreases |reservations|
  {
    if reservations != [] {
      assert forall j :: 0 <= j < |reservations[1..]| ==> reservations[1..][j] == reservations[j + 1];
      NoneOf(reservations[1..], order, p);
    }
  }

  lemma OwnBalances(t: Tables, order: Id, row: Order, w: Id, p: Id)
    requires Own(t, order, row)
    requires p in Products(row.items) ==>
      ExplicitTotal(t.reservations, order, p) == 0 || ExplicitTotal(t.reservations, order, p) == Ordered(row.items, p)
    ensures GivenLegacy(row, Products(row.items), t.reservations, order, w, p) + ExplicitAt(t.locations, t.reservations, order, w, p)
      == Given(row, Products(row.items), w, p)
  {
    hide SitsAt, Ordered, Products;
    AllAt(t.locations, t.reservations, order, row.warehouse, w, p);
    if p !in Products(row.items) {
      NoneOf(t.reservations, order, p);
    }
  }

  /** A reservation that is not the order's own unbalances the row it is released from. */
  lemma ForeignUnbalances(t: Tables, order: Id, row: Order, j: nat)
    requires j < |t.reservations| && IsExplicit(t.reservations[j], order) && t.reservations[j].quantity > 0
    requires FindRow(t.locations, t.reservations[j].location, t.reservations[j].product).Some?
    requires !(t.reservations[j].product in Products(row.items) && SitsAt(t.locations, t.reservations[j], row.warehouse))
    ensures exists w: Id :: var p := t.reservations[j].product;
      && HasRows(t.locations, w, p)
      && GivenLegacy(row, Products(row.items), t.reservations, order, w, p) + ExplicitAt(t.locations, t.reservations, order, w, p)
         != Given(row, Products(row.items), w, p)
  {
    hide Products, Ordered;
    var r := t.reservations[j];
    var k := FindRow(t.locations, r.location, r.product).value;
    var w := t.locations[k].warehouse;
    assert AtProduct(t.locations[k], w, r.product);
    CountedAt(t.locations, t.reservations, order, w, j);
  }

  /** A committed release leaves consistent tables consistent if and only if every piece the order had reserved
      explicitly is of one of its items and lies in its own warehouse. */
  lemma ReleaseConsistentIff(t: Tables, order: Id, row: Order, rowOrder: seq<nat>)
    requires InRange(rowOrder, |t.locations|) && Distinct(rowOrder)
    requires Consistent(t) && ReleaseOrder(t, order, row, rowOrder).Ok?
    ensures Consistent(ReleaseOrder(t, order, row, rowOrder).value) <==> Own(t, order, row)
  {
    var u := ReleaseOrder(t, order, row, rowOrder).value;
    OrderReleases(t, order, row, rowOrder);
    ConsistentAfter(t, u, order, row);
    if Own(t, order, row) {
      forall w: Id, p: Id
        ensures GivenLegacy(row, Products(row.items), t.reservations, order, w, p) + ExplicitAt(t.locations, t.reservations, order, w, p)
          == Given(row, Products(row.items), w, p)
      {
        OwnBalances(t, order, row, w, p);
      }
    } else {
      var j: nat :| j < |t.reservations| && IsExplicit(t.reservations[j], order) && t.reservations[j].quantity > 0
        && !(t.reservations[j].product in Products(row.items) && SitsAt(t.locations, t.reservations[j], row.warehouse));
      ExplicitFound(t, order, 0, j);
      ForeignUnbalances(t, order, row, j);
    }
  }

  lemma ConsistentAfter(t: Tables, u: Tables, order: Id, row: Order)
    requires Consistent(t) && SameShape(t.locations, u.locations) && Covered(u) && SameInventory(t.inventory, u.inventory)
    requires forall k <- t.inventory :: u.inventory[k].reserved == t.inventory[k].reserved - Given(row, Products(row.items), k.0, k.1)
    requires forall w: Id, p: Id :: HasRows(t.locations, w, p) ==>
      SumReserved(u.locations, w, p) == SumReserved(t.locations, w, p)
        - GivenLegacy(row, Products(row.items), t.reservations, order, w, p)
        - ExplicitAt(t.locations, t.reservations, order, w, p)
    ensures Consistent(u) <==> forall w: Id, p: Id :: HasRows(t.locations, w, p) ==>
      GivenLegacy(row, Products(row.items), t.reservations, order, w, p) + ExplicitAt(t.locations, t.reservations, order, w, p)
        == Given(row, Products(row.items), w, p)
  {
    forall w: Id, p: Id ensures HasRows(t.locations, w, p) == HasRows(u.locations, w, p) {
      RowsMatchShape(t.locations, u.locations, w, p);
    }
    RowsMatchShape(t.locations, u.locations, 0, 0);
    hide Covered, SumReserved, ExplicitAt, GivenLegacy, Given, HasRows, UniqueRows, Products;
  }

  function OneReservation(home: Id, elsewhere: Id, order: Id, p: Id, location: Id, quantity: nat): Tables {
    var stock := Stock(quantity, quantity, 0);
    Tables([Reservation(location, p, Some(order), quantity, true)], [LocationRow(location, elsewhere, p, stock)],
      map[(home, p) := stock, (elsewhere, p) := stock])
  }

  /** Naming only its items is not enough: an order whose pieces lie in another warehouse is released, and leaves both
      warehouses with different figures on the two levels. */
  lemma ElsewhereBreaks(home: Id, elsewhere: Id, order: Id, p: Id, location: Id, quantity: nat)
    requires home != elsewhere && quantity > 0
    ensures var t := OneReservation(home, elsewhere, order, p, location, quantity);
      var row := Order(PENDING_PAYMENT, None, home, [Item(p, quantity)]);
      && Consistent(t) && t.reservations[0].product in Products(row.items)
      && ReleaseOrder(t, order, row, [0]).Ok?
      && !Consistent(ReleaseOrder(t, order, row, [0]).value)
  {
    var t := OneReservation(home, elsewhere, order, p, location, quantity);
    var items := [Item(p, quantity)];
    var row := Order(PENDING_PAYMENT, None, home, items);
    var r := t.reservations[0];
    var k := t.locations[0];
    assert t.locations == [k] && t.locations[..0] == [] && t.reservations[..0] == [] && t.reservations[1..] == [] && items[1..] == [];
    assert Tracked([], location, p) == 0 && Tracked(t.reservations, location, p) == quantity;
    assert FindRow(t.locations, location, p) == Some(0);
    OneRowConsistent(t, elsewhere, p, quantity);
    assert items[..0] == [] && Products([]) == [];
    assert Products(items) == [p];
    assert Ordered([], p) == 0 && Ordered(items, p) == quantity;
    assert ExplicitTotal([], order, p) == 0 && ExplicitTotal(t.reservations, order, p) == quantity;
    ReleasesElsewhere(t, order, row, quantity);
    assert !SitsAt(t.locations, r, home);
    ReleaseConsistentIff(t, order, row, [0]);
  }

  lemma OneRowConsistent(t: Tables, w: Id, p: Id, quantity: nat)
    requires |t.locations| == 1 && t.locations[0].warehouse == w && t.locations[0].product == p
    requires t.locations[0].stock == Stock(quantity, quantity, 0) && Covered(t)
    requires (w, p) in t.inventory && forall key <- t.inventory :: t.inventory[key] == Stock(quantity, quantity, 0)
    ensures Consistent(t)
  {
    assert t.locations[..0] == [];
    assert forall v: Id, q: Id :: SumReserved([], v, q) == 0;
    assert forall v: Id, q: Id :: SumReserved(t.locations, v, q) == if AtProduct(t.locations[0], v, q) then quantity else 0;
  }

  lemma ReleasesElsewhere(t: Tables, order: Id, row: Order, quantity: nat)
    requires |t.reservations| == 1 && IsExplicit(t.reservations[0], order) && |t.locations| == 1
    requires t.reservations[0].quantity == quantity > 0 && t.locations[0].stock.reserved == quantity
    requires FindRow(t.locations, t.reservations[0].location, t.reservations[0].product) == Some(0)
    requires Products(row.items) == [t.reservations[0].product]
    requires Ordered(row.items, t.reservations[0].product) == quantity
    requires ExplicitTotal(t.reservations, order, t.reservations[0].product) == quantity
    requires var key := (row.warehouse, t.reservations[0].product); key in t.inventory && t.inventory[key].reserved >= quantity
    ensures ReleaseOrder(t, order, row, [0]).Ok?
  {
    hide FindRow, Ordered, ExplicitTotal, Products;
    var r := t.reservations[0];
    var u := t.(locations := ReleaseAt(t.locations, r).value, reservations := t.reservations[0 := r.(active := false)]);
    assert ReleaseExplicit(u, order, 1) == Ok(u);
    assert ReleaseExplicit(t, order, 0) == Ok(u);
    var v := ReleaseProduct(u, row.warehouse, r.product, quantity, quantity, [0]);
    assert v.Ok?;
    assert [r.product][1..] == [];
    assert ReleaseProducts(v.value, t.reservations, order, row, [], [0]).Ok?;
  }

  /** The transaction keeps the tables consistent exactly when it does not commit or the reservations are the order's own. */
  lemma ExpireKeepsConsistent(db: Database, order: Id, now: int, rowOrder: seq<nat>)
    requires InRange(rowOrder, |db.tables.locations|) && Distinct(rowOrder) && Consistent(db.tables)
    ensures Consistent(Expire(db, order, now, rowOrder).tables) <==>
      (IsDue(db, order, now) && ReleaseOrder(db.tables, order, db.orders[order], rowOrder).Ok? ==>
         Own(db.tables, order, db.orders[order]))
  {
    if IsDue(db, order, now) && ReleaseOrder(db.tables, order, db.orders[order], rowOrder).Ok? {
      ReleaseConsistentIff(db.tables, order, db.orders[order], rowOrder);
    }
  }

  /** The untracked pieces of all location rows of a product. */
  function UntrackedSum(rows: seq<LocationRow>, reservations: seq<Reservation>, w: Id, p: Id): nat {
    if rows == [] then 0
    else
      var n := |rows| - 1;
      UntrackedSum(rows[..n], reservations, w, p) + if AtProduct(rows[n], w, p) then Untracked(rows[n], reservations) else 0
  }

  ghost predicate ListsAll(rowOrder: seq<nat>, n: nat) {
    InRange(rowOrder, n) && Distinct(rowOrder) && forall k :: 0 <= k < n ==> k in rowOrder
  }

  lemma {:induction false} TotalWithout(rows: seq<LocationRow>, reservations: seq<Reservation>, w: Id, p: Id, rowOrder: seq<nat>, i: nat)
    requires InRange(rowOrder, |rows|) && i < |rowOrder|
    ensures var row := rows[rowOrder[i]];
      UntrackedTotal(rows, reservations, w, p, rowOrder) ==
        UntrackedTotal(rows, reservations, w, p, rowOrder[..i] + rowOrder[i + 1..])
        + if AtProduct(row, w, p) then Untracked(row, reservations) else 0
    decreases i
  {
    hide Untracked;
    if i == 0 {
      assert rowOrder[..0] + rowOrder[1..] == rowOrder[1..];
    } else {
      TotalWithout(rows, reservations, w, p, rowOrder[1..], i - 1);
      var rest := rowOrder[..i] + rowOrder[i + 1..];
      assert rest[1..] == rowOrder[1..][..i - 1] + rowOrder[1..][i..];
    }
  }

  lemma ListsWithin(rowOrder: seq<nat>, n: nat)
    requires InRange(rowOrder, n)
    ensures rowOrder != [] ==> n > 0
  {
    if rowOrder != [] {
      assert rowOrder[0] < n;
    }
  }

  lemma WithoutLast(rowOrder: seq<nat>, n: nat, i: nat)
    requires ListsAll(rowOrder, n + 1) && i < |rowOrder| && rowOrder[i] == n
    ensures ListsAll(rowOrder[..i] + rowOrder[i + 1..], n)
  {
    var rest := rowOrder[..i] + rowOrder[i + 1..];
    assert forall j :: 0 <= j < |rest| ==> rest[j] == rowOrder[if j < i then j else j + 1];
    forall k | 0 <= k < n
      ensures k in rest
    {
      assert k in rowOrder;
      var j :| 0 <= j < |rowOrder| && rowOrder[j] == k;
      assert rest[if j < i then j else j - 1] == k;
    }
  }

  /** Whatever the order of the rows, as long as it lists them all, the untracked total is the same. */
  lemma {:induction false} TotalOfAll(rows: seq<LocationRow>, reservations: seq<Reservation>, w: Id, p: Id, rowOrder: seq<nat>)
    requires ListsAll(rowOrder, |rows|)
    ensures UntrackedTotal(rows, reservations, w, p, rowOrder) == UntrackedSum(rows, reservations, w, p)
    decreases |rows|
  {
    hide Untracked;
    if rows == [] {
      ListsWithin(rowOrder, 0);
    } else {
      var n := |rows| - 1;
      assert n in rowOrder;
      var i: nat :| i < |rowOrder| && rowOrder[i] == n;
      var rest: seq<nat> := rowOrder[..i] + rowOrder[i + 1..];
      TotalWithout(rows, reservations, w, p, rowOrder, i);
      WithoutLast(rowOrder, n, i);
      hide UntrackedTotal;
      assert forall j :: 0 <= j < |rest| ==> rest[j] < n;
      TotalOfAll(rows[..n], reservations, w, p, rest);
      UntrackedFrame(rows[..n], rows, reservations, w, p, rest);
    }
  }

  /** For a product without explicit reservations: exactly when does its release go through? */
  lemma LegacySucceedsIff(t: Tables, w: Id, p: Id, quantity: nat, rowOrder: seq<nat>)
    requires InRange(rowOrder, |t.locations|) && Distinct(rowOrder) && Covered(t)
    ensures ReleaseProduct(t, w, p, quantity, 0, rowOrder).Ok? <==>
      && (!HasRows(t.locations, w, p) || UntrackedTotal(t.locations, t.reservations, w, p, rowOrder) >= quantity)
      && (w, p) in t.inventory && t.inventory[(w, p)].reserved >= quantity
    ensures ListsAll(rowOrder, |t.locations|) ==>
      UntrackedTotal(t.locations, t.reservations, w, p, rowOrder) == UntrackedSum(t.locations, t.reservations, w, p)
  {
    LegacyKeeps(t.locations, t.reservations, w, p, rowOrder, quantity);
    if ListsAll(rowOrder, |t.locations|) {
      TotalOfAll(t.locations, t.reservations, w, p, rowOrder);
    }
  }

  // ---- any run of workers ----

  /** Another worker's or the shop's transaction may do anything that lets cancelled orders be. */
  datatype Step = ExpireOrder(order: Id, now: int, rowOrder: seq<nat>) | Other(next: Database)

  ghost predicate Allowed(db: Database, step: Step) {
    match step
    case ExpireOrder(order, now, rowOrder) => InRange(rowOrder, |db.tables.locations|) && Distinct(rowOrder)
    case Other(next) =>
      forall o <- db.orders :: db.orders[o].status == CANCELLED ==> o in next.orders && next.orders[o].status == CANCELLED
  }

  /** A step that leaves consistent tables consistent: a committed expiry of an order with its own reservations only. */
  ghost predicate Clean(db: Database, step: Step)
    requires Allowed(db, step)
  {
    match step
    case ExpireOrder(order, now, rowOrder) =>
      IsDue(db, order, now) && ReleaseOrder(db.tables, order, db.orders[order], rowOrder).Ok? ==>
        Own(db.tables, order, db.orders[order])
    case Other(next) => Consistent(next.tables)
  }

  function Apply(db: Database, step: Step): Database
    requires step.ExpireOrder? ==> InRange(step.rowOrder, |db.tables.locations|)
  {
    match step
    case ExpireOrder(order, now, rowOrder) => Expire(db, order, now, rowOrder)
    case Other(next) => next
  }

  ghost predicate Runs(db: Database, steps: seq<Step>)
    decreases |steps|
  {
    steps == [] || (Allowed(db, steps[0]) && Runs(Apply(db, steps[0]), steps[1..]))
  }

  ghost function After(db: Database, steps: seq<Step>): Database
    requires Runs(db, steps)
    decreases |steps|
  {
    if steps == [] then db else After(Apply(db, steps[0]), steps[1..])
  }

  predicate Releases(db: Database, step: Step, order: Id)
    requires step.ExpireOrder? ==> InRange(step.rowOrder, |db.tables.locations|)
  {
    && step.ExpireOrder? && step.order == order && IsDue(db, order, step.now)
    && ReleaseOrder(db.tables, order, db.orders[order], step.rowOrder).Ok?
  }

  ghost function ReleaseCount(db: Database, steps: seq<Step>, order: Id): nat
    requires Runs(db, steps)
    decreases |steps|
  {
    if steps == [] then 0
    else (if Releases(db, steps[0], order) then 1 else 0) + ReleaseCount(Apply(db, steps[0]), steps[1..], order)
  }

  predicate IsCancelled(db: Database, order: Id) {
    order in db.orders && db.orders[order].status == CANCELLED
  }

  ghost predicate CleanRun(db: Database, steps: seq<Step>)
    requires Runs(db, steps)
    decreases |steps|
  {
    steps == [] || (Clean(db, steps[0]) && CleanRun(Apply(db, steps[0]), steps[1..]))
  }

  /** Over any run, whatever the reservations name, no order gives back its stock twice. */
  lemma {:induction false} ReleasedAtMostOnce(db: Database, steps: seq<Step>, order: Id)
    requires Runs(db, steps)
    ensures ReleaseCount(db, steps, order) <= (if IsCancelled(db, order) then 0 else 1)
    decreases |steps|
  {
    if steps != [] {
      hide ReleaseOrder;
      ReleasedAtMostOnce(Apply(db, steps[0]), steps[1..], order);
    }
  }

  /** Over any run that commits only orders with their own reservations, the tables stay consistent. */
  lemma {:induction false} RunKeepsConsistent(db: Database, steps: seq<Step>)
    requires Runs(db, steps) && CleanRun(db, steps) && Consistent(db.tables)
    ensures Consistent(After(db, steps).tables)
    decreases |steps|
  {
    if steps != [] {
      if steps[0].ExpireOrder? {
        ExpireKeepsConsistent(db, steps[0].order, steps[0].now, steps[0].rowOrder);
      }
      hide ReleaseOrder, Consistent;
      RunKeepsConsistent(Apply(db, steps[0]), steps[1..]);
    }
  }

  // ---- the transaction as the worker runs it ----

  lemma {:induction false} NothingLeftToTake(rows: seq<LocationRow>, reservations: seq<Reservation>, w: Id, p: Id, rowOrder: seq<nat>)
    requires InRange(rowOrder, |rows|)
    ensures ReleaseLegacy(rows, reservations, w, p, rowOrder, 0) == Legacy(rows, 0)
    decreases |rowOrder|
  {
    if rowOrder != [] {
      var k := rowOrder[0];
      assert rows[k := rows[k].(stock := Release(rows[k].stock, 0))] == rows;
      NothingLeftToTake(rows, reservations, w, p, rowOrder[1..]);
    }
  }

  /** The loop over the balances of one product. Its conditional update always finds the row as it was read. */
  method TakeUntracked(before: seq<LocationRow>, reservations: seq<Reservation>, w: Id, p: Id, rowOrder: seq<nat>, quantity: nat)
    returns (rows: seq<LocationRow>, remaining: nat)
    requires InRange(rowOrder, |before|)
    ensures Legacy(rows, remaining) == ReleaseLegacy(before, reservations, w, p, rowOrder, quantity)
  {
    hide Tracked;
    rows, remaining := before, quantity;
    for i := 0 to |rowOrder|
      invariant |rows| == |before|
      invariant ReleaseLegacy(rows, reservations, w, p, rowOrder[i..], remaining) == ReleaseLegacy(before, reservations, w, p, rowOrder, quantity)
    {
      if remaining <= 0 {
        NothingLeftToTake(rows, reservations, w, p, rowOrder[i..]);
        return;
      }
      var k := rowOrder[i];
      assert rowOrder[i..][1..] == rowOrder[i + 1..];
      if !AtProduct(rows[k], w, p) || Untracked(rows[k], reservations) == 0 {
        assert rows[k := rows[k].(stock := Release(rows[k].stock, 0))] == rows;
        continue;
      }
      var take: nat := Min(Untracked(rows[k], reservations), remaining);
      assert rows[k].stock.reserved >= take + Tracked(reservations, rows[k].location, rows[k].product);
      rows := rows[k := rows[k].(stock := Release(rows[k].stock, take))];
      remaining := remaining - take;
    }
  }

  class OrderDatabase {
    var orders: map<Id, Order>
    var tables: Tables

    constructor (orders: map<Id, Order>, tables: Tables)
      ensures this.orders == orders && this.tables == tables
    {
      this.orders, this.tables := orders, tables;
    }

    /** The transaction: it writes nothing unless every update found what it expected. */
    method ExpireOrder(order: Id, now: int, rowOrder: seq<nat>)
      requires InRange(rowOrder, |tables.locations|)
      modifies this
      ensures Database(orders, tables) == Expire(old(Database(orders, tables)), order, now, rowOrder)
    {
      if !IsDue(Database(orders, tables), order, now) {
        return;
      }
      hide ReleaseAt, ReleaseLegacy, ExplicitTotal, Ordered;
      var row := orders[order];
      var t := tables;
      for i := 0 to |tables.reservations|
        invariant unchanged(this) && |t.locations| == |tables.locations| && |t.reservations| == |tables.reservations|
        invariant ReleaseExplicit(t, order, i) == ReleaseExplicit(tables, order, 0)
      {
        if IsExplicit(t.reservations[i], order) {
          var released := ReleaseAt(t.locations, t.reservations[i]);
          if released.Inconsistent? {
            return;
          }
          assert |released.value| == |t.locations| by {
            ReleaseAtLength(t.locations, t.reservations[i]);
          }
          t := t.(locations := released.value, reservations := t.reservations[i := t.reservations[i].(active := false)]);
        }
      }
      var ps := Products(row.items);
      for j := 0 to |ps|
        invariant unchanged(this) && |t.locations| == |tables.locations|
        invariant ReleaseProducts(t, tables.reservations, order, row, ps[j..], rowOrder)
          == ReleaseOrder(tables, order, row, rowOrder)
      {
        assert ps[j..][1..] == ps[j + 1..];
        var quantity, explicit := Ordered(row.items, ps[j]), ExplicitTotal(tables.reservations, order, ps[j]);
        if explicit != 0 && explicit != quantity {
          return;
        }
        var rows, remaining := t.locations, 0;
        if explicit == 0 {
          rows, remaining := TakeUntracked(t.locations, t.reservations, row.warehouse, ps[j], rowOrder, quantity);
          if remaining > 0 && HasRows(t.locations, row.warehouse, ps[j]) {
            return;
          }
        }
        var key := (row.warehouse, ps[j]);
        if key !in t.inventory || t.inventory[key].reserved < quantity {
          return;
        }
        t := t.(locations := rows, inventory := t.inventory[key := Release(t.inventory[key], quantity)]);
      }
      orders := orders[order := row.(status := CANCELLED)];
      tables := t;
    }
  }

  lemma ReleaseAtLength(rows: seq<LocationRow>, r: Reservation)
    ensures ReleaseAt(rows, r).Ok? ==> |ReleaseAt(rows, r).value| == |rows|
  {
  }
}
