/** Paying at the register as a protocol: the idempotency key remembered for an unanswered payment, replies that get
    lost, sales queued for later, and a synchronisation that works on its own copy of the queue.

    The server is any that makes at most one sale per key, and reports a queued sale applied only when it has made
    it. */
module PosPayment {
  import opened Common
  import opened PosQueue

  /** The text of everything the sale depends on: JSON.stringify(basePayload). */
  type Fingerprint = nat
  type Key = nat

  datatype Pending = PendingPayment(fingerprint: Fingerprint, key: Key)

  /** A key when it was drawn: in which cart, and for what. */
  datatype Issue = Issue(cart: nat, fingerprint: Fingerprint)
  datatype Attempt = Attempt(cart: nat, fingerprint: Fingerprint, key: Key)
  datatype Checkout = Checkout(cart: nat, key: Key)

  datatype State = State(
    cart: nat,                      // how many carts came before this one
    fingerprint: Fingerprint,       // what is in it
    pending: Option<Pending>,       // pendingPaymentRef
    paying: Option<Attempt>,        // the request in flight
    issued: seq<Issue>,             // the keys drawn so far: key k is entry k
    attempts: seq<Attempt>,         // every pay so far
    wire: set<Key>,                 // keys of requests that may still reach the server
    sales: seq<Key>,                // the sales the server made
    stored: seq<Item>, shown: seq<Item>,  // the queue in storage and on the screen
    working: Option<seq<Item>>,     // the copy a synchronisation works on
    captured: seq<Item>,            // the queue as it was when the request in flight left
    queued: seq<Item>,              // every sale ever queued
    reported: set<Key>,             // the sales a synchronisation has been told are applied
    checkouts: seq<Checkout>)       // every cart cleared as paid or queued

  datatype Step =
    | Edit(fingerprint: Fingerprint)          // the cashier changes the cart
    | Hold(fingerprint: Fingerprint)          // another cart, the same pending payment: the cart is held (HOLD), emptied
                                              // (Kosongkan) or dropped for another warehouse, or a held one is recalled
    | Logout
    | Reload                                  // the page starts afresh, with the queue from storage; a request in flight
                                              // may still arrive
    | PayRefused                              // a key is drawn, then the sale is neither sent nor queued: offline mode is
                                              // off, the device is unknown, or storage refused it
    | PayOnline
    | ReachServer(key: Key)                   // a request arrives, late or not, and the sale is made
    | ReplyOk
    | ReplyFailed                             // an error the sale is not queued for
    | ReplyLostQueued(localId: string, sequence: int)
    | PayOffline(localId: string, sequence: int)
    | SyncStart
    | SyncSend(key: Key)
    | SyncReply(results: seq<Row>)
    | SyncEnd

  const START := State(0, 0, None, None, [], [], {}, [], [], [], None, [], [], {}, [])

  predicate Reuses(s: State) {
    s.pending.Some? && s.pending.value.fingerprint == s.fingerprint
  }

  function DrawnKey(s: State): Key {
    if Reuses(s) then s.pending.value.key else |s.issued|
  }

  /** The pending key for an unchanged payment, a new one otherwise. */
  function Drawn(s: State): State {
    var key := DrawnKey(s);
    s.(issued := if Reuses(s) then s.issued else s.issued + [Issue(s.cart, s.fingerprint)],
       attempts := s.attempts + [Attempt(s.cart, s.fingerprint, key)],
       pending := Some(PendingPayment(s.fingerprint, key)))
  }

  predicate Pays(step: Step) {
    step.PayRefused? || step.PayOnline? || step.PayOffline?
  }

  function Cleared(s: State, checkout: Checkout): State {
    s.(cart := s.cart + 1, fingerprint := 0, pending := None, paying := None, checkouts := s.checkouts + [checkout])
  }

  /** persistOfflineQueue of the queue the code sees, with the sale at its end. */
  function Queued(s: State, seen: seq<Item>, item: Item): State {
    s.(stored := SortBySequence(seen + [item]), shown := seen + [item], queued := s.queued + [item])
  }

  function QueueItem(localId: string, sequence: int, key: Key): Item {
    Item(localId, sequence, "", key, PosQueue.Pending, "")
  }

  /** The keys of the sales a reply reports applied. */
  function AppliedKeys(queue: seq<Item>, results: seq<Row>): set<Key> {
    set i | 0 <= i < |queue| && SaysApplied(results, queue[i].localId) :: queue[i].key
  }

  predicate Enabled(s: State, step: Step) {
    match step
    case Edit(_) => true
    case Hold(_) => true
    case Logout => true
    case Reload => true
    case PayRefused => s.paying.None?
    case PayOnline => s.paying.None?
    case ReachServer(key) => key in s.wire && key !in s.sales
    case ReplyOk => s.paying.Some? && s.paying.value.key in s.sales
    case ReplyFailed => s.paying.Some?
    case ReplyLostQueued(_, _) => s.paying.Some?
    case PayOffline(_, _) => s.paying.None?
    case SyncStart => s.working.None?
    case SyncSend(key) => s.working.Some? && exists i :: 0 <= i < |s.working.value| && s.working.value[i].key == key
    case SyncReply(results) => s.working.Some? &&
      forall i :: 0 <= i < |s.working.value| && SaysApplied(results, s.working.value[i].localId) ==>
        s.working.value[i].key in s.sales
    case SyncEnd => s.working.Some?
  }

  function Next(s: State, step: Step): State
    requires Enabled(s, step)
  {
    match step
    case Edit(fingerprint) => s.(fingerprint := fingerprint)
    case Hold(fingerprint) => s.(cart := s.cart + 1, fingerprint := fingerprint)
    case Logout => s.(cart := s.cart + 1, fingerprint := 0, pending := None)
    case Reload =>
      s.(cart := s.cart + 1, fingerprint := 0, pending := None, paying := None, working := None, shown := s.stored)
    case PayRefused => Drawn(s)
    case PayOnline =>
      var drawn := Drawn(s);
      drawn.(paying := Some(Attempt(s.cart, s.fingerprint, DrawnKey(s))), wire := s.wire + {DrawnKey(s)}, captured := s.shown)
    case ReachServer(key) => s.(sales := s.sales + [key])
    case ReplyOk => Cleared(s, Checkout(s.paying.value.cart, s.paying.value.key))
    case ReplyFailed => s.(paying := None)
    case ReplyLostQueued(localId, sequence) =>
      Cleared(Queued(s, s.captured, QueueItem(localId, sequence, s.paying.value.key)), Checkout(s.paying.value.cart, s.paying.value.key))
    case PayOffline(localId, sequence) =>
      Cleared(Queued(Drawn(s), s.shown, QueueItem(localId, sequence, DrawnKey(s))), Checkout(s.cart, DrawnKey(s)))
    case SyncStart => s.(working := Some(s.shown))
    case SyncSend(key) => s.(wire := s.wire + {key})
    case SyncReply(results) =>
      var next := ApplyResults(s.working.value, results);
      s.(working := Some(next), stored := SortBySequence(next), shown := next,
         reported := s.reported + AppliedKeys(s.working.value, results))
    case SyncEnd => s.(working := None)
  }

  /** Where a run of steps from the start ends, if every step is enabled when its turn comes. */
  function StateAfter(steps: seq<Step>): Option<State>
    decreases |steps|
  {
    if steps == [] then Some(START)
    else
      var n := |steps| - 1;
      match StateAfter(steps[..n])
      case None => None
      case Some(s) => if Enabled(s, steps[n]) then Some(Next(s, steps[n])) else None
  }

  lemma Extend(steps: seq<Step>, s: State, step: Step)
    requires StateAfter(steps) == Some(s) && Enabled(s, step)
    ensures StateAfter(steps + [step]) == Some(Next(s, step))
  {
    assert (steps + [step])[..|steps|] == steps;
  }

  // ---- at most one sale for an unchanged payment ----

  /** How often a payment of the cart was new: its first attempt, or one that differs from the attempt before. */
  function Changes(attempts: seq<Attempt>, cart: nat): nat {
    if attempts == [] then 0
    else
      var n := |attempts| - 1;
      var a := attempts[n];
      Changes(attempts[..n], cart)
        + if a.cart == cart && (n == 0 || attempts[n - 1].cart != cart || attempts[n - 1].fingerprint != a.fingerprint)
          then 1 else 0
  }

  function KeysOf(issued: seq<Issue>, cart: nat): set<Key> {
    set k | 0 <= k < |issued| && issued[k].cart == cart
  }

  /** The sales made under keys drawn for a cart. */
  function SalesOf(sales: seq<Key>, issued: seq<Issue>, cart: nat): nat {
    if sales == [] then 0
    else
      var k := sales[|sales| - 1];
      SalesOf(sales[..|sales| - 1], issued, cart) + if k < |issued| && issued[k].cart == cart then 1 else 0
  }

  ghost predicate Distinct(keys: seq<Key>) {
    forall i, j :: 0 <= i < j < |keys| ==> keys[i] != keys[j]
  }

  ghost predicate CartsInOrder(attempts: seq<Attempt>) {
    forall i, j :: 0 <= i < j < |attempts| ==> attempts[i].cart <= attempts[j].cart
  }

  ghost predicate KeysBounded(s: State) {
    forall cart :: |KeysOf(s.issued, cart)| <= Changes(s.attempts, cart)
  }

  ghost predicate PendingIsLast(s: State) {
    var n := |s.attempts|;
    && (forall i :: 0 <= i < n ==> s.attempts[i].cart <= s.cart)
    && CartsInOrder(s.attempts)
    && (n > 0 && s.attempts[n - 1].cart == s.cart ==>
          s.pending.Some? && s.pending.value.fingerprint == s.attempts[n - 1].fingerprint)
  }

  /** A key is only ever used with the payload it was drawn for. */
  ghost predicate OnePayloadPerKey(s: State) {
    && (forall i :: 0 <= i < |s.attempts| ==>
          s.attempts[i].key < |s.issued| && s.issued[s.attempts[i].key].fingerprint == s.attempts[i].fingerprint)
    && (s.pending.Some? ==>
          s.pending.value.key < |s.issued| && s.issued[s.pending.value.key].fingerprint == s.pending.value.fingerprint)
    && (s.paying.Some? ==> s.paying.value.key < |s.issued|)
  }

  ghost predicate CheckoutsDistinct(s: State) {
    && (forall i, j :: 0 <= i < j < |s.checkouts| ==> s.checkouts[i].key != s.checkouts[j].key)
    && (forall i :: 0 <= i < |s.checkouts| ==> s.checkouts[i].key < |s.issued|)
    && (forall i :: 0 <= i < |s.checkouts| && s.pending.Some? ==> s.checkouts[i].key != s.pending.value.key)
    && (forall i :: 0 <= i < |s.checkouts| && s.paying.Some? ==> s.checkouts[i].key != s.paying.value.key)
  }

  ghost predicate Inv(s: State) {
    KeysBounded(s) && PendingIsLast(s) && OnePayloadPerKey(s) && CheckoutsDistinct(s) && Distinct(s.sales)
  }

  lemma StartHolds()
    ensures Inv(START)
  {
    forall cart
      ensures KeysOf([], cart) == {}
    {
    }
  }

  lemma KeysAppend(issued: seq<Issue>, issue: Issue, cart: nat)
    ensures |KeysOf(issued + [issue], cart)| == |KeysOf(issued, cart)| + if issue.cart == cart then 1 else 0
  {
    var all := issued + [issue];
    assert forall k :: 0 <= k < |issued| ==> all[k] == issued[k];
    if issue.cart == cart {
      assert KeysOf(all, cart) == KeysOf(issued, cart) + {|issued|};
    } else {
      assert KeysOf(all, cart) == KeysOf(issued, cart);
    }
  }

  lemma DrawKeepsInv(s: State)
    requires Inv(s) && s.paying.None?
    ensures Inv(Drawn(s))
    ensures DrawnKey(s) < |Drawn(s).issued|
    ensures forall i :: 0 <= i < |s.checkouts| ==> s.checkouts[i].key != DrawnKey(s)
  {
    hide KeysOf;
    var t := Drawn(s);
    var n := |s.attempts|;
    assert t.attempts[..n] == s.attempts;
    forall cart
      ensures |KeysOf(t.issued, cart)| <= Changes(t.attempts, cart)
    {
      KeysAppend(s.issued, Issue(s.cart, s.fingerprint), cart);
      assert |KeysOf(s.issued, cart)| <= Changes(s.attempts, cart);
    }
  }

  lemma OtherStepKeepsKeys(s: State, step: Step)
    requires KeysBounded(s) && OnePayloadPerKey(s) && Enabled(s, step) && !Pays(step)
    ensures KeysBounded(Next(s, step)) && OnePayloadPerKey(Next(s, step))
  {
    hide KeysOf, Changes, Drawn, DrawnKey, SortBySequence, ApplyResults, SaysApplied, AppliedKeys;
  }

  lemma OtherStepKeepsPending(s: State, step: Step)
    requires PendingIsLast(s) && Enabled(s, step) && !Pays(step)
    ensures PendingIsLast(Next(s, step))
  {
    hide CartsInOrder, Drawn, DrawnKey, SortBySequence, ApplyResults, SaysApplied, AppliedKeys;
  }

  lemma OtherStepKeepsCheckouts(s: State, step: Step)
    requires CheckoutsDistinct(s) && OnePayloadPerKey(s) && Enabled(s, step) && !Pays(step)
    ensures CheckoutsDistinct(Next(s, step))
  {
    hide Drawn, DrawnKey, SortBySequence, ApplyResults, SaysApplied, AppliedKeys;
  }

  lemma StepKeepsSalesDistinct(s: State, step: Step)
    requires Distinct(s.sales) && Enabled(s, step)
    ensures Distinct(Next(s, step).sales)
  {
    hide SortBySequence, ApplyResults, SaysApplied, AppliedKeys;
  }

  lemma PayKeepsInv(s: State, step: Step)
    requires Inv(s) && Enabled(s, step) && Pays(step)
    ensures Inv(Next(s, step))
  {
    DrawKeepsInv(s);
    DrawnFrame(s);
    hide KeysOf, Changes, CartsInOrder, Drawn, DrawnKey, SortBySequence, ApplyResults, SaysApplied;
  }

  lemma StepKeepsInv(s: State, step: Step)
    requires Inv(s) && Enabled(s, step)
    ensures Inv(Next(s, step))
  {
    if Pays(step) {
      PayKeepsInv(s, step);
    } else {
      hide KeysBounded, PendingIsLast, OnePayloadPerKey, CheckoutsDistinct, Distinct, Enabled, Next;
      OtherStepKeepsKeys(s, step);
      OtherStepKeepsPending(s, step);
      OtherStepKeepsCheckouts(s, step);
      StepKeepsSalesDistinct(s, step);
    }
  }

  lemma DrawnFrame(s: State)
    ensures var t := Drawn(s);
      && t.checkouts == s.checkouts && t.sales == s.sales && t.paying == s.paying && t.cart == s.cart
      && t.shown == s.shown && t.queued == s.queued && t.working == s.working && t.stored == s.stored
      && t.reported == s.reported && t.captured == s.captured
      && t.pending == Some(PendingPayment(s.fingerprint, DrawnKey(s)))
  {
  }

  lemma {:induction false} RunKeepsInv(steps: seq<Step>)
    requires StateAfter(steps).Some?
    ensures Inv(StateAfter(steps).value)
    decreases |steps|
  {
    hide Inv, Next, Enabled;
    if steps == [] {
      StartHolds();
    } else {
      var n := |steps| - 1;
      RunKeepsInv(steps[..n]);
      StepKeepsInv(StateAfter(steps[..n]).value, steps[n]);
    }
  }

  function SaleSet(sales: seq<Key>, issued: seq<Issue>, cart: nat): set<Key> {
    set k | k in sales && k < |issued| && issued[k].cart == cart
  }

  lemma {:induction false} SalesOfIsSize(sales: seq<Key>, issued: seq<Issue>, cart: nat)
    requires Distinct(sales)
    ensures SalesOf(sales, issued, cart) == |SaleSet(sales, issued, cart)|
    decreases |sales|
  {
    if sales != [] {
      var n := |sales| - 1;
      var init, k := sales[..n], sales[n];
      SalesOfIsSize(init, issued, cart);
      assert sales == init + [k];
      if k < |issued| && issued[k].cart == cart {
        assert SaleSet(sales, issued, cart) == SaleSet(init, issued, cart) + {k};
      } else {
        assert SaleSet(sales, issued, cart) == SaleSet(init, issued, cart);
      }
    }
  }

  /** In every run the server makes at most as many sales for a cart as its payment was changed between attempts. */
  lemma SalesAtMostChanges(steps: seq<Step>, cart: nat)
    requires StateAfter(steps).Some?
    ensures var s := StateAfter(steps).value;
      SalesOf(s.sales, s.issued, cart) <= Changes(s.attempts, cart)
  {
    hide StateAfter, Changes;
    RunKeepsInv(steps);
    var s := StateAfter(steps).value;
    SalesOfIsSize(s.sales, s.issued, cart);
    assert SaleSet(s.sales, s.issued, cart) <= KeysOf(s.issued, cart);
    SubsetSize(SaleSet(s.sales, s.issued, cart), KeysOf(s.issued, cart));
    assert |KeysOf(s.issued, cart)| <= Changes(s.attempts, cart);
  }

  lemma {:induction false} NoAttemptNoChange(attempts: seq<Attempt>, cart: nat)
    requires forall i :: 0 <= i < |attempts| ==> attempts[i].cart != cart
    ensures Changes(attempts, cart) == 0
    decreases |attempts|
  {
    if attempts != [] {
      NoAttemptNoChange(attempts[..|attempts| - 1], cart);
    }
  }

  lemma {:induction false} UnchangedOnce(attempts: seq<Attempt>, cart: nat)
    requires CartsInOrder(attempts)
    requires forall i, j :: 0 <= i < j < |attempts| && attempts[i].cart == attempts[j].cart == cart ==>
      attempts[i].fingerprint == attempts[j].fingerprint
    ensures Changes(attempts, cart) <= 1
    decreases |attempts|
  {
    if attempts != [] {
      var n := |attempts| - 1;
      var init := attempts[..n];
      if attempts[n].cart == cart && n > 0 && attempts[n - 1].cart != cart {
        NoAttemptNoChange(init, cart);
      } else {
        UnchangedOnce(init, cart);
      }
    }
  }

  /** Retrying an unchanged payment: however often replies are lost, requests arrive late, and the sale is queued and
      replayed, at most one sale is made. */
  lemma UnchangedPaymentSoldOnce(steps: seq<Step>, cart: nat)
    requires StateAfter(steps).Some?
    requires var attempts := StateAfter(steps).value.attempts;
      forall i, j :: 0 <= i < j < |attempts| && attempts[i].cart == attempts[j].cart == cart ==>
        attempts[i].fingerprint == attempts[j].fingerprint
    ensures var s := StateAfter(steps).value; SalesOf(s.sales, s.issued, cart) <= 1
  {
    hide StateAfter, Changes;
    RunKeepsInv(steps);
    SalesAtMostChanges(steps, cart);
    UnchangedOnce(StateAfter(steps).value.attempts, cart);
  }

  // ---- exactly how many keys, and when two ----

  /** Keys are drawn in order; within a cart a key changes exactly when the payment does. */
  ghost predicate KeysFollow(s: State) {
    var n := |s.attempts|;
    && (s.pending.Some? ==> s.pending.value.key + 1 == |s.issued|)
    && (forall i :: 0 <= i < n ==> s.attempts[i].key < |s.issued|)
    && (forall i, j :: 0 <= i < j < n ==> s.attempts[i].key <= s.attempts[j].key)
    && (forall i :: 0 < i < n && s.attempts[i - 1].cart == s.attempts[i].cart ==>
          (s.attempts[i - 1].key == s.attempts[i].key <==> s.attempts[i - 1].fingerprint == s.attempts[i].fingerprint))
    && (n > 0 && s.attempts[n - 1].cart == s.cart ==>
          s.pending == Some(PendingPayment(s.attempts[n - 1].fingerprint, s.attempts[n - 1].key)))
  }

  lemma DrawKeepsFollow(s: State)
    requires KeysFollow(s)
    ensures KeysFollow(Drawn(s))
  {
    var t, n := Drawn(s), |s.attempts|;
    assert t.attempts[n] == Attempt(s.cart, s.fingerprint, DrawnKey(s));
    assert forall i :: 0 <= i < n ==> t.attempts[i] == s.attempts[i];
  }

  /** The same attempts in the same cart, or in a new one with nothing pending but what was. */
  lemma SameAttemptsFollow(s: State, t: State)
    requires KeysFollow(s) && t.attempts == s.attempts && t.issued == s.issued
    requires t.pending.None? || t.pending == s.pending
    requires (t.cart == s.cart && t.pending == s.pending) || forall i :: 0 <= i < |s.attempts| ==> s.attempts[i].cart < t.cart
    ensures KeysFollow(t)
  {
  }

  lemma EarlierCarts(s: State)
    requires PendingIsLast(s)
    ensures forall i :: 0 <= i < |s.attempts| ==> s.attempts[i].cart < s.cart + 1
  {
  }

  lemma StepKeepsFollow(s: State, step: Step)
    requires KeysFollow(s) && PendingIsLast(s) && Enabled(s, step)
    ensures KeysFollow(Next(s, step))
  {
    hide KeysFollow, PendingIsLast, Drawn, DrawnKey, SortBySequence, ApplyResults, SaysApplied, AppliedKeys;
    if Pays(step) {
      DrawKeepsFollow(s);
      DrawnFrame(s);
      DrawnInOrder(s);
      SameAttemptsFollow(Drawn(s), Next(s, step));
    } else {
      EarlierCarts(s);
      SameAttemptsFollow(s, Next(s, step));
    }
  }

  lemma DrawnInOrder(s: State)
    requires PendingIsLast(s)
    ensures forall i :: 0 <= i < |Drawn(s).attempts| ==> Drawn(s).attempts[i].cart < s.cart + 1
  {
  }

  lemma {:induction false} RunKeepsFollow(steps: seq<Step>)
    requires StateAfter(steps).Some?
    ensures KeysFollow(StateAfter(steps).value)
    decreases |steps|
  {
    hide KeysFollow, Next, Enabled;
    if steps == [] {
      StartFollows();
    } else {
      var n := |steps| - 1;
      RunKeepsFollow(steps[..n]);
      RunKeepsInv(steps[..n]);
      StepKeepsFollow(StateAfter(steps[..n]).value, steps[n]);
    }
  }

  lemma StartFollows()
    ensures KeysFollow(START)
  {
  }

  lemma {:induction false} SameAllAlong(s: State, i: nat, j: nat)
    requires KeysFollow(s) && CartsInOrder(s.attempts) && i <= j < |s.attempts| && s.attempts[i].cart == s.attempts[j].cart
    requires forall m :: i <= m <= j ==> s.attempts[m].fingerprint == s.attempts[i].fingerprint
    ensures s.attempts[i].key == s.attempts[j].key
    decreases j - i
  {
    if i < j {
      assert s.attempts[i].cart <= s.attempts[j - 1].cart <= s.attempts[j].cart;
      SameAllAlong(s, i, j - 1);
    }
  }

  lemma {:induction false} ChangeDrawsAnew(s: State, i: nat, m: nat)
    requires KeysFollow(s) && CartsInOrder(s.attempts) && i < m < |s.attempts| && s.attempts[i].cart == s.attempts[m].cart
    requires s.attempts[m].fingerprint != s.attempts[i].fingerprint
    ensures s.attempts[i].key < s.attempts[m].key
    decreases m - i
  {
    assert s.attempts[i].cart <= s.attempts[m - 1].cart <= s.attempts[m].cart;
    if s.attempts[m - 1].fingerprint != s.attempts[i].fingerprint {
      ChangeDrawsAnew(s, i, m - 1);
    }
  }

  /** Two attempts of one cart for the same thing use two keys if and only if an attempt for something else stood
      between them. */
  lemma TwoKeysIff(steps: seq<Step>, i: nat, j: nat)
    requires StateAfter(steps).Some?
    requires var attempts := StateAfter(steps).value.attempts;
      i < j < |attempts| && attempts[i].cart == attempts[j].cart && attempts[i].fingerprint == attempts[j].fingerprint
    ensures var attempts := StateAfter(steps).value.attempts;
      attempts[i].key != attempts[j].key <==>
        exists m :: i < m < j && attempts[m].fingerprint != attempts[i].fingerprint
  {
    hide StateAfter, Changes, KeysFollow;
    RunKeepsInv(steps);
    RunKeepsFollow(steps);
    var s := StateAfter(steps).value;
    if m: nat :| i < m < j && s.attempts[m].fingerprint != s.attempts[i].fingerprint {
      assert s.attempts[i].cart <= s.attempts[m].cart <= s.attempts[j].cart;
      ChangeDrawsAnew(s, i, m);
      ChangeDrawsAnew(s, m, j);
    } else {
      SameAllAlong(s, i, j);
    }
  }

  /** A cart has pending payments of its own only. */
  ghost predicate PendingHere(s: State) {
    s.pending.Some? ==> s.attempts != [] && s.attempts[|s.attempts| - 1].cart == s.cart
  }

  ghost predicate ExactKeys(s: State) {
    forall cart :: |KeysOf(s.issued, cart)| == Changes(s.attempts, cart)
  }

  lemma DrawKeepsExact(s: State)
    requires ExactKeys(s) && PendingHere(s) && PendingIsLast(s)
    ensures ExactKeys(Drawn(s)) && PendingHere(Drawn(s))
  {
    hide KeysOf;
    var t, n := Drawn(s), |s.attempts|;
    assert t.attempts[..n] == s.attempts;
    forall cart
      ensures |KeysOf(t.issued, cart)| == Changes(t.attempts, cart)
    {
      KeysAppend(s.issued, Issue(s.cart, s.fingerprint), cart);
      assert |KeysOf(s.issued, cart)| == Changes(s.attempts, cart);
    }
  }

  lemma StepKeepsExact(s: State, step: Step)
    requires ExactKeys(s) && PendingHere(s) && PendingIsLast(s) && Enabled(s, step) && (step.Hold? ==> s.pending.None?)
    ensures ExactKeys(Next(s, step)) && PendingHere(Next(s, step))
  {
    hide KeysOf, Changes, Drawn, DrawnKey, SortBySequence, ApplyResults, SaysApplied, AppliedKeys;
    match step {
      case PayRefused => DrawKeepsExact(s);
      case PayOnline => DrawKeepsExact(s); DrawnFrame(s);
      case PayOffline(_, _) => DrawKeepsExact(s); DrawnFrame(s);
      case _ =>
    }
  }

  /** When carts are put aside only without a pending payment, a cart has exactly as many keys as its payment had
      changes. */
  lemma {:induction false} KeysAreChanges(steps: seq<Step>)
    requires StateAfter(steps).Some? && HoldsAreSettled(steps)
    ensures ExactKeys(StateAfter(steps).value) && PendingHere(StateAfter(steps).value)
    decreases |steps|
  {
    hide ExactKeys, PendingHere, Next, Enabled, HoldsAreSettled, Changes;
    if steps == [] {
      StartIsExact();
    } else {
      var n := |steps| - 1;
      SettledBefore(steps);
      KeysAreChanges(steps[..n]);
      RunKeepsInv(steps[..n]);
      StepKeepsExact(StateAfter(steps[..n]).value, steps[n]);
    }
  }

  lemma StartIsExact()
    ensures ExactKeys(START) && PendingHere(START)
  {
    forall cart
      ensures KeysOf([], cart) == {}
    {
    }
  }

  /** Every request under one key carries one payload, and no two carts are checked out under one key. */
  lemma KeysAreConsistent(steps: seq<Step>)
    requires StateAfter(steps).Some?
    ensures var s := StateAfter(steps).value;
      && (forall i, j :: 0 <= i < j < |s.attempts| && s.attempts[i].key == s.attempts[j].key ==>
            s.attempts[i].fingerprint == s.attempts[j].fingerprint)
      && (forall i, j :: 0 <= i < j < |s.checkouts| ==> s.checkouts[i].key != s.checkouts[j].key)
  {
    hide StateAfter;
    RunKeepsInv(steps);
  }

  /** Changing the cart and changing it back draws a second key for the first payment: it can be sold twice. */
  lemma RevertDuplicates()
    ensures exists steps, s: State ::
      && StateAfter(steps) == Some(s)
      && |s.attempts| == 3 && s.attempts[0].fingerprint == s.attempts[2].fingerprint
      && s.sales == [s.attempts[0].key, s.attempts[2].key] && SalesOf(s.sales, s.issued, 0) == 2
  {
    hide StateAfter, SortBySequence, ApplyResults, SaysApplied;
    var r4, s4 := SoldThenEdited();
    var r5, s5 := TakeStep(r4, s4, PayOnline);
    var r6, s6 := TakeStep(r5, s5, ReplyFailed);
    var r7, s7 := TakeStep(r6, s6, Edit(0));
    var r8, s8 := TakeStep(r7, s7, PayOnline);
    var r9, s9 := TakeStep(r8, s8, ReachServer(2));
    assert s9.sales == [0, 2] && s9.issued == [Issue(0, 0), Issue(0, 1), Issue(0, 0)];
    assert SalesOf([0], s9.issued, 0) == 1;
    assert [0, 2][..1] == [0];
  }

  /** The first payment was made, its reply was lost, and the cart was changed. */
  lemma SoldThenEdited() returns (steps: seq<Step>, s: State)
    ensures StateAfter(steps) == Some(s)
    ensures s.attempts == [Attempt(0, 0, 0)] && s.issued == [Issue(0, 0)] && s.sales == [0] && s.fingerprint == 1 && s.cart == 0
    ensures s.pending == Some(PendingPayment(0, 0)) && s.paying.None?
  {
    hide StateAfter, SortBySequence, ApplyResults, SaysApplied;
    var r, u := SoldUnanswered();
    steps, s := TakeStep(r, u, Edit(1));
  }

  /** The first payment was made and its reply was lost. */
  lemma SoldUnanswered() returns (steps: seq<Step>, s: State)
    ensures StateAfter(steps) == Some(s)
    ensures s.attempts == [Attempt(0, 0, 0)] && s.issued == [Issue(0, 0)] && s.sales == [0] && s.fingerprint == 0 && s.cart == 0
    ensures s.pending == Some(PendingPayment(0, 0)) && s.paying.None? && s.checkouts == []
  {
    hide StateAfter, SortBySequence, ApplyResults, SaysApplied;
    EmptyRun();
    var r1, s1 := TakeStep([], START, PayOnline);
    var r2, s2 := TakeStep(r1, s1, ReachServer(0));
    steps, s := TakeStep(r2, s2, ReplyFailed);
  }

  lemma EmptyRun()
    ensures StateAfter([]) == Some(START)
  {
  }

  lemma TakeStep(steps: seq<Step>, s: State, step: Step) returns (longer: seq<Step>, t: State)
    requires StateAfter(steps) == Some(s) && Enabled(s, step)
    ensures longer == steps + [step] && t == Next(s, step) && StateAfter(longer) == Some(t)
  {
    Extend(steps, s, step);
    longer, t := steps + [step], Next(s, step);
  }

  // ---- a cart is checked out by its own sale ----

  ghost predicate OwnKeys(s: State) {
    && (forall i :: 0 <= i < |s.attempts| ==> s.attempts[i].key < |s.issued| && s.issued[s.attempts[i].key].cart == s.attempts[i].cart)
    && (s.pending.Some? ==> s.pending.value.key < |s.issued| && s.issued[s.pending.value.key].cart == s.cart)
    && (s.paying.Some? ==> s.paying.value.key < |s.issued| && s.issued[s.paying.value.key].cart == s.paying.value.cart)
    && (forall i :: 0 <= i < |s.checkouts| ==>
          s.checkouts[i].key < |s.issued| && s.issued[s.checkouts[i].key].cart == s.checkouts[i].cart)
  }

  lemma StepKeepsOwn(s: State, step: Step)
    requires OwnKeys(s) && Enabled(s, step) && (step.Hold? ==> s.pending.None?)
    ensures OwnKeys(Next(s, step))
  {
    hide SortBySequence, ApplyResults, SaysApplied;
  }

  /** Carts are put aside only when no payment is pending. */
  ghost predicate HoldsAreSettled(steps: seq<Step>) {
    forall i :: 0 <= i < |steps| && steps[i].Hold? && StateAfter(steps[..i]).Some? ==>
      StateAfter(steps[..i]).value.pending.None?
  }

  lemma SettledBefore(steps: seq<Step>)
    requires steps != [] && HoldsAreSettled(steps)
    ensures HoldsAreSettled(steps[..|steps| - 1])
    ensures var before := StateAfter(steps[..|steps| - 1]);
      steps[|steps| - 1].Hold? && before.Some? ==> before.value.pending.None?
  {
    var n := |steps| - 1;
    assert forall i :: 0 <= i <= n ==> steps[..n][..i] == steps[..i];
  }

  /** Unless a cart is put aside while its payment is unanswered, every checkout is answered by a key drawn for that
      very cart. */
  lemma {:induction false} OwnSale(steps: seq<Step>)
    requires StateAfter(steps).Some? && HoldsAreSettled(steps)
    ensures OwnKeys(StateAfter(steps).value)
    decreases |steps|
  {
    hide OwnKeys, Next, Enabled, HoldsAreSettled;
    if steps == [] {
      StartOwns();
    } else {
      var n := |steps| - 1;
      SettledBefore(steps);
      OwnSale(steps[..n]);
      StepKeepsOwn(StateAfter(steps[..n]).value, steps[n]);
    }
  }

  /** Exactly when a pay draws the key of an earlier cart: its payment is still pending, and is for the same thing. */
  lemma DrawnFromEarlierIff(s: State, cart: nat)
    requires Inv(s) && cart != s.cart
    ensures Drawn(s).issued[DrawnKey(s)].cart == cart <==>
      s.pending.Some? && s.pending.value.fingerprint == s.fingerprint && s.issued[s.pending.value.key].cart == cart
  {
    hide KeysOf, Changes;
  }

  /** A pay would now draw a key that another cart left pending. */
  ghost predicate Crosses(s: State) {
    Reuses(s) && s.pending.value.key < |s.issued| && s.issued[s.pending.value.key].cart != s.cart
  }

  ghost predicate OwnAttempts(s: State) {
    forall i :: 0 <= i < |s.attempts| ==>
      s.attempts[i].key < |s.issued| && s.issued[s.attempts[i].key].cart == s.attempts[i].cart
  }

  lemma StepOwnIff(s: State, step: Step)
    requires Inv(s) && Enabled(s, step)
    ensures OwnAttempts(Next(s, step)) <==> OwnAttempts(s) && !(Pays(step) && Crosses(s))
  {
    hide KeysOf, Changes, SortBySequence, ApplyResults, SaysApplied, CheckoutsDistinct, KeysBounded, PendingIsLast;
    if Pays(step) {
      DrawOwnIff(s);
    }
  }

  lemma DrawOwnIff(s: State)
    requires OnePayloadPerKey(s)
    ensures OwnAttempts(Drawn(s)) <==> OwnAttempts(s) && !Crosses(s)
  {
    var t, n := Drawn(s), |s.attempts|;
    assert forall i :: 0 <= i < n ==> s.attempts[i].key < |s.issued|;
    assert forall i :: 0 <= i < n ==> t.attempts[i] == s.attempts[i];
    assert forall i :: 0 <= i < n ==> t.issued[s.attempts[i].key] == s.issued[s.attempts[i].key];
    assert t.attempts[n] == Attempt(s.cart, s.fingerprint, DrawnKey(s));
  }

  /** Over every run: each attempt used a key drawn for its own cart if and only if no pay met the pending payment of
      another cart for the same thing. */
  lemma {:induction false} OwnAttemptsIff(steps: seq<Step>)
    requires StateAfter(steps).Some?
    ensures OwnAttempts(StateAfter(steps).value) <==>
      forall i :: 0 <= i < |steps| && Pays(steps[i]) && StateAfter(steps[..i]).Some? ==> !Crosses(StateAfter(steps[..i]).value)
    decreases |steps|
  {
    hide OwnAttempts, Next, Enabled, Crosses, Inv;
    if steps == [] {
      StartOwnAttempts();
    } else {
      var n := |steps| - 1;
      var before := steps[..n];
      RunKeepsInv(before);
      OwnAttemptsIff(before);
      StepOwnIff(StateAfter(before).value, steps[n]);
      assert forall i :: 0 <= i <= n ==> before[..i] == steps[..i];
    }
  }

  lemma StartOwnAttempts()
    ensures OwnAttempts(START)
  {
  }

  lemma StartOwns()
    ensures OwnKeys(START)
  {
  }

  /** Putting a cart aside keeps its pending key: an equal cart of the next customer is checked out by the sale the
      first one already made. */
  lemma HoldSwallowsNextSale()
    ensures exists steps, s: State ::
      && StateAfter(steps) == Some(s)
      && s.sales == [0] && s.issued == [Issue(0, 0)]
      && s.checkouts == [Checkout(1, 0)]
  {
    hide StateAfter, SortBySequence, ApplyResults, SaysApplied;
    var r3, s3 := SoldUnanswered();
    var r4, s4 := TakeStep(r3, s3, Hold(0));
    var r5, s5 := TakeStep(r4, s4, PayOnline);
    var r6, s6 := TakeStep(r5, s5, ReplyOk);
    assert s6.sales == [0] && s6.issued == [Issue(0, 0)] && s6.checkouts == [Checkout(1, 0)];
  }

  // ---- the queue ----

  ghost predicate SaleIn(queue: seq<Item>, sale: Item) {
    exists i :: 0 <= i < |queue| && queue[i].localId == sale.localId && queue[i].key == sale.key
  }

  ghost predicate HoldsAll(queue: seq<Item>, s: State) {
    forall i :: 0 <= i < |s.queued| ==> SaleIn(queue, s.queued[i]) || s.queued[i].key in s.reported
  }

  /** Every sale ever queued has been reported applied, and is made, or stands in each copy of the queue: storage,
      screen, synchronisation, and the one the payment in flight would write back. */
  ghost predicate Kept(s: State) {
    && (forall k <- s.reported :: k in s.sales)
    && HoldsAll(s.stored, s) && HoldsAll(s.shown, s)
    && (s.working.Some? ==> s.working.value == s.shown)
    && (s.paying.Some? ==> HoldsAll(s.captured, s))
  }

  predicate Queues(step: Step) {
    step.ReplyLostQueued? || step.PayOffline?
  }

  /** No sale is queued between the start and the end of a synchronisation. */
  ghost predicate NoOverlap(steps: seq<Step>) {
    forall i :: 0 <= i < |steps| && Queues(steps[i]) && StateAfter(steps[..i]).Some? ==>
      StateAfter(steps[..i]).value.working.None?
  }

  lemma SaleInSorted(queue: seq<Item>, sale: Item)
    ensures SaleIn(SortBySequence(queue), sale) <==> SaleIn(queue, sale)
  {
    hide SortBySequence;
    var sorted := SortBySequence(queue);
    SavedInOrder(queue);
    if SaleIn(queue, sale) {
      var i :| 0 <= i < |queue| && queue[i].localId == sale.localId && queue[i].key == sale.key;
      assert queue[i] in multiset(queue);
      assert queue[i] in sorted;
    }
    if SaleIn(sorted, sale) {
      var i :| 0 <= i < |sorted| && sorted[i].localId == sale.localId && sorted[i].key == sale.key;
      assert sorted[i] in multiset(sorted);
      assert sorted[i] in queue;
    }
  }

  lemma SaleInAppend(a: seq<Item>, b: seq<Item>, sale: Item)
    ensures SaleIn(a + b, sale) <==> SaleIn(a, sale) || SaleIn(b, sale)
  {
    assert forall i :: 0 <= i < |a| ==> (a + b)[i] == a[i];
    assert forall i :: 0 <= i < |b| ==> (a + b)[|a| + i] == b[i];
    if SaleIn(a + b, sale) {
      var i :| 0 <= i < |a + b| && (a + b)[i].localId == sale.localId && (a + b)[i].key == sale.key;
      if i >= |a| {
        assert b[i - |a|].localId == sale.localId;
      } else {
        assert a[i].localId == sale.localId;
      }
    }
  }

  lemma {:induction false} RoundKeepsSale(queue: seq<Item>, results: seq<Row>, sale: Item)
    ensures SaleIn(ApplyResults(queue, results), sale) <==> SaleIn(queue, sale) && !SaysApplied(results, sale.localId)
    decreases |queue|
  {
    hide Lookup;
    if queue != [] {
      var head, rest := Updated(queue[0], results), ApplyResults(queue[1..], results);
      RoundKeepsSale(queue[1..], results, sale);
      SaleInAppend(head, rest, sale);
      SaleInAppend([queue[0]], queue[1..], sale);
      assert queue == [queue[0]] + queue[1..];
      assert SaleIn([queue[0]], sale) <==> queue[0].localId == sale.localId && queue[0].key == sale.key by {
        assert [queue[0]][0] == queue[0];
      }
      if head != [] {
        assert SaleIn(head, sale) <==> queue[0].localId == sale.localId && queue[0].key == sale.key by {
          assert head[0].localId == queue[0].localId && head[0].key == queue[0].key;
        }
      }
    }
  }

  lemma QueuedKeeps(s: State, seen: seq<Item>, item: Item)
    requires HoldsAll(seen, s)
    ensures var t := Queued(s, seen, item);
      && HoldsAll(t.stored, t) && HoldsAll(t.shown, t)
      && t.working == s.working && t.paying == s.paying && t.reported == s.reported && t.sales == s.sales
  {
    hide SortBySequence, SaleIn;
    var t := Queued(s, seen, item);
    ItsOwnSale(item);
    forall i | 0 <= i < |t.queued|
      ensures SaleIn(t.stored, t.queued[i]) || t.queued[i].key in t.reported
      ensures SaleIn(t.shown, t.queued[i]) || t.queued[i].key in t.reported
    {
      SaleInSorted(seen + [item], t.queued[i]);
      SaleInAppend(seen, [item], t.queued[i]);
    }
  }

  lemma ItsOwnSale(item: Item)
    ensures SaleIn([item], item)
  {
    assert [item][0] == item;
  }

  lemma AppliedKeyIn(queue: seq<Item>, results: seq<Row>, sale: Item)
    requires SaleIn(queue, sale) && SaysApplied(results, sale.localId)
    ensures sale.key in AppliedKeys(queue, results)
  {
    hide SaysApplied;
    var i :| 0 <= i < |queue| && queue[i].localId == sale.localId && queue[i].key == sale.key;
  }

  lemma ReplyKeeps(s: State, results: seq<Row>)
    requires Kept(s) && Enabled(s, SyncReply(results))
    ensures Kept(Next(s, SyncReply(results)))
  {
    hide SortBySequence, ApplyResults, SaysApplied, SaleIn;
    var t := Next(s, SyncReply(results));
    forall k <- t.reported
      ensures k in t.sales
    {
    }
    forall i | 0 <= i < |t.queued|
      ensures SaleIn(t.stored, t.queued[i]) || t.queued[i].key in t.reported
      ensures SaleIn(t.shown, t.queued[i]) || t.queued[i].key in t.reported
    {
      RoundKeepsSale(s.shown, results, t.queued[i]);
      SaleInSorted(t.shown, t.queued[i]);
      if SaleIn(s.shown, t.queued[i]) && SaysApplied(results, t.queued[i].localId) {
        AppliedKeyIn(s.shown, results, t.queued[i]);
      }
    }
  }

  lemma StepKeepsQueue(s: State, step: Step)
    requires Kept(s) && Enabled(s, step) && (Queues(step) ==> s.working.None?)
    ensures Kept(Next(s, step))
  {
    hide SortBySequence, ApplyResults, SaysApplied, Queued, SaleIn, Drawn, DrawnKey;
    match step {
      case PayRefused => DrawnFrame(s);
      case PayOnline => DrawnFrame(s);
      case ReplyLostQueued(localId, sequence) =>
        QueuedKeeps(s, s.captured, QueueItem(localId, sequence, s.paying.value.key));
      case PayOffline(localId, sequence) =>
        DrawnFrame(s);
        QueuedKeeps(Drawn(s), s.shown, QueueItem(localId, sequence, DrawnKey(s)));
      case SyncReply(results) => ReplyKeeps(s, results);
      case _ =>
    }
  }

  /** When no sale is queued during a synchronisation, every sale ever queued stays in storage until it is reported
      applied. */
  lemma {:induction false} QueuedStaysUntilSold(steps: seq<Step>)
    requires StateAfter(steps).Some? && NoOverlap(steps)
    ensures Kept(StateAfter(steps).value)
    decreases |steps|
  {
    hide Kept, Next, Enabled;
    if steps == [] {
      assert Kept(START) by { StartKeeps(); }
    } else {
      var n := |steps| - 1;
      assert forall i :: 0 <= i <= n ==> steps[..n][..i] == steps[..i];
      assert NoOverlap(steps[..n]);
      QueuedStaysUntilSold(steps[..n]);
      StepKeepsQueue(StateAfter(steps[..n]).value, steps[n]);
    }
  }

  lemma StartKeeps()
    ensures Kept(START)
  {
  }

  /** What is in storage and on the screen after a reply: exactly the sales of the synchronisation's own copy that the
      reply does not report applied. A sale queued since the copy was made is gone, whatever the reply says. */
  lemma NextReplyKeepsIff(s: State, results: seq<Row>, sale: Item)
    requires Enabled(s, SyncReply(results))
    ensures var t := Next(s, SyncReply(results));
      && (SaleIn(t.stored, sale) <==> SaleIn(s.working.value, sale) && !SaysApplied(results, sale.localId))
      && (SaleIn(t.shown, sale) <==> SaleIn(t.stored, sale))
  {
    hide SortBySequence, ApplyResults, SaysApplied;
    var next := ApplyResults(s.working.value, results);
    RoundKeepsSale(s.working.value, results, sale);
    SaleInSorted(next, sale);
  }

  /** It happens: the cart was cleared as queued, the sale is nowhere, and no request under its key was ever sent. */
  lemma OverlapLosesSale()
    ensures exists steps, s: State ::
      && StateAfter(steps) == Some(s)
      && |s.queued| == 2 && s.checkouts == [Checkout(0, 0), Checkout(1, 1)] && s.queued[1].key == 1
      && !SaleIn(s.stored, s.queued[1]) && !SaleIn(s.shown, s.queued[1])
      && 1 !in s.sales && 1 !in s.wire && s.working.None?
  {
    hide StateAfter, SaysApplied, ApplyResults, SortBySequence, SaleIn, Drawn, Queued;
    var r3, s3 := QueuedDuringSync();
    NoRowsSayNothing();
    var r4, s4 := TakeStep(r3, s3, SyncReply([]));
    OtherSale(QueueItem("a", 1, 0), s3.queued[1]);
    NextReplyKeepsIff(s3, [], s3.queued[1]);
    var r5, s5 := TakeStep(r4, s4, SyncEnd);
  }

  lemma QueuedDuringSync() returns (steps: seq<Step>, s: State)
    ensures StateAfter(steps) == Some(s)
    ensures s.working == Some([QueueItem("a", 1, 0)]) && s.queued == [QueueItem("a", 1, 0), QueueItem("b", 2, 1)]
    ensures s.checkouts == [Checkout(0, 0), Checkout(1, 1)] && s.sales == [] && s.wire == {}
  {
    hide StateAfter, SaysApplied, ApplyResults, SortBySequence, SaleIn;
    var r1, s1 := FirstQueued();
    var r2, s2 := TakeStep(r1, s1, SyncStart);
    var r3, s3 := TakeStep(r2, s2, PayOffline("b", 2));
    steps, s := r3, s3;
  }

  /** One sale, queued while offline. */
  lemma FirstQueued() returns (steps: seq<Step>, s: State)
    ensures StateAfter(steps) == Some(s)
    ensures var a := QueueItem("a", 1, 0);
      && s.shown == [a] && s.queued == [a] && s.issued == [Issue(0, 0)] && s.checkouts == [Checkout(0, 0)]
    ensures s.sales == [] && s.wire == {} && s.paying.None? && s.pending.None? && s.working.None? && s.cart == 1
  {
    hide StateAfter, SaysApplied, ApplyResults, SortBySequence;
    EmptyRun();
    steps, s := TakeStep([], START, PayOffline("a", 1));
  }

  lemma NoRowsSayNothing()
    ensures forall localId: string :: !SaysApplied([], localId)
  {
  }

  lemma OtherSale(a: Item, b: Item)
    requires a.key != b.key
    ensures !SaleIn([a], b)
  {
  }

  /** What is in storage after a lost reply: exactly the queue the payment saw when it left, and its own sale. */
  lemma LostReplyKeepsIff(s: State, localId: string, sequence: int, sale: Item)
    requires Enabled(s, ReplyLostQueued(localId, sequence))
    ensures SaleIn(Next(s, ReplyLostQueued(localId, sequence)).stored, sale) <==>
      SaleIn(s.captured, sale) || (sale.localId == localId && sale.key == s.paying.value.key)
  {
    hide SortBySequence;
    var item := QueueItem(localId, sequence, s.paying.value.key);
    SaleInSorted(s.captured + [item], sale);
    SaleInAppend(s.captured, [item], sale);
    assert [item][0] == item;
  }

  /** So a sale applied meanwhile is queued again. It is not made again, since no key is sold twice. */
  lemma LostReplyRequeuesAppliedSale()
    ensures exists steps, s: State ::
      && StateAfter(steps) == Some(s) && SyncReply(APPLIED_A) in steps
      && s.sales == [0] && |s.queued| == 2 && s.queued[0].key == 0 && SaleIn(s.stored, s.queued[0])
  {
    hide StateAfter, SaysApplied, ApplyResults, SortBySequence, SaleIn;
    var a, b := QueueItem("a", 1, 0), QueueItem("b", 2, 1);
    var r5, s5 := AppliedDuringPayment();
    var r6, s6 := TakeStep(r5, s5, SyncReply(APPLIED_A));
    assert r6[|r5|] == SyncReply(APPLIED_A);
    var r7, s7 := TakeStep(r6, s6, ReplyLostQueued("b", 2));
    assert r7[|r5|] == SyncReply(APPLIED_A);
    SaleInSorted([a] + [b], a);
    SaleInAppend([a], [b], a);
    ItsOwnSale(a);
  }

  lemma AppliedDuringPayment() returns (steps: seq<Step>, s: State)
    ensures StateAfter(steps) == Some(s)
    ensures var a := QueueItem("a", 1, 0);
      && s.working == Some([a]) && s.captured == [a] && s.queued == [a] && s.sales == [0]
      && s.paying.Some? && s.paying.value.key == 1
  {
    hide StateAfter, SaysApplied, ApplyResults, SortBySequence;
    var r1, s1 := FirstQueued();
    var r2, s2 := TakeStep(r1, s1, PayOnline);
    var r3, s3 := TakeStep(r2, s2, SyncStart);
    assert s3.working.value[0].key == 0;
    var r4, s4 := TakeStep(r3, s3, SyncSend(0));
    var r5, s5 := TakeStep(r4, s4, ReachServer(0));
    steps, s := r5, s5;
  }

  const APPLIED_A := [Row("a", Applied, None)]

  // ---- which keys can still be sold ----

  ghost predicate KeyIn(queue: seq<Item>, key: Key) {
    exists i :: 0 <= i < |queue| && queue[i].key == key
  }

  /** The key was sold or sent, or a copy of the queue that can still be sent or written back holds a sale under it. A
      pay that was refused leaves a key that is none of these. */
  ghost predicate Sendable(s: State, key: Key) {
    || key in s.sales || key in s.wire || KeyIn(s.shown, key)
    || (s.working.Some? && KeyIn(s.working.value, key))
    || (s.paying.Some? && KeyIn(s.captured, key))
  }

  /** Storage holds the keys of the screen, and the payment in flight was sent. */
  ghost predicate Mirrored(s: State) {
    && (s.paying.Some? ==> s.paying.value.key in s.wire)
    && forall key :: KeyIn(s.stored, key) <==> KeyIn(s.shown, key)
  }

  lemma KeysSorted(queue: seq<Item>, key: Key)
    ensures KeyIn(SortBySequence(queue), key) <==> KeyIn(queue, key)
  {
    hide SortBySequence;
    var sorted := SortBySequence(queue);
    SavedInOrder(queue);
    if i :| 0 <= i < |queue| && queue[i].key == key {
      assert queue[i] in multiset(queue);
      assert queue[i] in sorted;
    }
    if i :| 0 <= i < |sorted| && sorted[i].key == key {
      assert sorted[i] in multiset(sorted);
      assert sorted[i] in queue;
    }
  }

  lemma KeysAppended(queue: seq<Item>, item: Item, key: Key)
    ensures KeyIn(queue + [item], key) <==> KeyIn(queue, key) || item.key == key
  {
    var all := queue + [item];
    assert all[|queue|] == item;
    assert forall i :: 0 <= i < |queue| ==> all[i] == queue[i];
  }

  lemma {:induction false} RoundAddsNoKey(queue: seq<Item>, results: seq<Row>, key: Key)
    requires KeyIn(ApplyResults(queue, results), key)
    ensures KeyIn(queue, key)
  {
    var next := ApplyResults(queue, results);
    var i :| 0 <= i < |next| && next[i].key == key;
    assert SaleIn(next, next[i]);
    RoundKeepsSale(queue, results, next[i]);
    var j :| 0 <= j < |queue| && queue[j].localId == next[i].localId && queue[j].key == next[i].key;
    assert queue[j].key == key;
  }

  lemma QueuedMirrors(s: State, seen: seq<Item>, item: Item)
    ensures var t := Queued(s, seen, item);
      && (forall key :: KeyIn(t.stored, key) <==> KeyIn(t.shown, key))
      && (forall key :: KeyIn(t.shown, key) <==> KeyIn(seen, key) || item.key == key)
      && t.wire == s.wire && t.sales == s.sales && t.working == s.working && t.attempts == s.attempts
  {
    hide SortBySequence, KeyIn;
    forall key
      ensures KeyIn(SortBySequence(seen + [item]), key) <==> KeyIn(seen + [item], key)
      ensures KeyIn(seen + [item], key) <==> KeyIn(seen, key) || item.key == key
    {
      KeysSorted(seen + [item], key);
      KeysAppended(seen, item, key);
    }
  }

  lemma StepMirrors(s: State, step: Step)
    requires Mirrored(s) && Enabled(s, step)
    ensures Mirrored(Next(s, step))
  {
    hide SortBySequence, ApplyResults, SaysApplied, AppliedKeys, KeyIn, Drawn, DrawnKey, Queued;
    match step {
      case PayRefused => DrawnFrame(s);
      case PayOnline => DrawnFrame(s);
      case PayOffline(localId, sequence) =>
        QueuedMirrors(Drawn(s), s.shown, QueueItem(localId, sequence, DrawnKey(s)));
      case ReplyLostQueued(localId, sequence) =>
        QueuedMirrors(s, s.captured, QueueItem(localId, sequence, s.paying.value.key));
      case SyncReply(results) =>
        var next := ApplyResults(s.working.value, results);
        forall key
          ensures KeyIn(SortBySequence(next), key) <==> KeyIn(next, key)
        {
          KeysSorted(next, key);
        }
      case _ =>
    }
  }

  lemma {:induction false} RunMirrors(steps: seq<Step>)
    requires StateAfter(steps).Some?
    ensures Mirrored(StateAfter(steps).value)
    decreases |steps|
  {
    hide Mirrored, Next, Enabled;
    if steps == [] {
      StartMirrors();
    } else {
      RunMirrors(steps[..|steps| - 1]);
      StepMirrors(StateAfter(steps[..|steps| - 1]).value, steps[|steps| - 1]);
    }
  }

  lemma StartMirrors()
    ensures Mirrored(START)
  {
  }

  /** Without a new pay no key becomes sendable. */
  lemma StepSendsNoOther(s: State, step: Step, key: Key)
    requires Mirrored(s) && Enabled(s, step) && !Pays(step) && !Sendable(s, key)
    ensures !Sendable(Next(s, step), key) && Next(s, step).attempts == s.attempts
  {
    hide SortBySequence, ApplyResults, SaysApplied, AppliedKeys, Queued;
    match step {
      case ReplyLostQueued(localId, sequence) =>
        hide KeyIn;
        QueuedMirrors(s, s.captured, QueueItem(localId, sequence, s.paying.value.key));
      case SyncReply(results) =>
        var next := ApplyResults(s.working.value, results);
        if KeyIn(next, key) {
          RoundAddsNoKey(s.working.value, results, key);
        }
      case _ =>
    }
  }

  lemma {:induction false} NeverSent(steps: seq<Step>, more: seq<Step>, key: Key)
    requires StateAfter(steps).Some? && !Sendable(StateAfter(steps).value, key) && StateAfter(steps + more).Some?
    ensures var s, t := StateAfter(steps).value, StateAfter(steps + more).value;
      && |t.attempts| >= |s.attempts|
      && (|t.attempts| == |s.attempts| ==> !Sendable(t, key))
    decreases |more|
  {
    hide Sendable, Next, Enabled;
    if more == [] {
      assert steps + more == steps;
    } else {
      var n := |more| - 1;
      assert (steps + more)[..|steps + more| - 1] == steps + more[..n];
      NeverSent(steps, more[..n], key);
      RunMirrors(steps + more[..n]);
      var u := StateAfter(steps + more[..n]).value;
      if Pays(more[n]) {
        PayAttempts(u, more[n]);
      } else if |u.attempts| == |StateAfter(steps).value.attempts| {
        StepSendsNoOther(u, more[n], key);
      } else {
        OtherAttempts(u, more[n]);
      }
    }
  }

  lemma PayAttempts(s: State, step: Step)
    requires Enabled(s, step) && Pays(step)
    ensures |Next(s, step).attempts| == |s.attempts| + 1
  {
    hide SortBySequence;
  }

  lemma OtherAttempts(s: State, step: Step)
    requires Enabled(s, step) && !Pays(step)
    ensures Next(s, step).attempts == s.attempts
  {
    hide SortBySequence, ApplyResults;
  }

  lemma {:induction false} SendWorking(steps: seq<Step>, s: State, n: nat) returns (longer: seq<Step>, t: State)
    requires StateAfter(steps) == Some(s) && s.working.Some? && n <= |s.working.value|
    ensures StateAfter(longer) == Some(t) && steps <= longer
    ensures t == s.(wire := t.wire) && s.wire <= t.wire
    ensures forall i :: 0 <= i < n ==> s.working.value[i].key in t.wire
  {
    hide StateAfter;
    if n == 0 {
      longer, t := steps, s;
    } else {
      var l, u := SendWorking(steps, s, n - 1);
      longer, t := TakeStep(l, u, SyncSend(s.working.value[n - 1].key));
    }
  }

  /** A synchronisation sends all that is on the screen. */
  lemma SendShown(steps: seq<Step>, s: State) returns (longer: seq<Step>, t: State)
    requires StateAfter(steps) == Some(s) && s.working.None?
    ensures StateAfter(longer) == Some(t) && steps <= longer
    ensures t == s.(wire := t.wire) && s.wire <= t.wire
    ensures forall key :: KeyIn(s.shown, key) ==> key in t.wire
  {
    hide StateAfter;
    var l1, s1 := TakeStep(steps, s, SyncStart);
    var l2, s2 := SendWorking(l1, s1, |s.shown|);
    longer, t := TakeStep(l2, s2, SyncEnd);
  }

  /** Everything sendable can be sent: the synchronisation under way goes on, another follows, the payment in flight
      loses its reply, and the queue it writes back is sent too. */
  lemma SendAll(steps: seq<Step>, s: State) returns (longer: seq<Step>, t: State)
    requires StateAfter(steps) == Some(s)
    ensures StateAfter(longer) == Some(t) && steps <= longer
    ensures t.attempts == s.attempts
    ensures forall key :: Sendable(s, key) ==> key in t.sales || key in t.wire
  {
    hide StateAfter, SortBySequence, KeyIn;
    longer, t := steps, s;
    if s.working.Some? {
      var l1, s1 := SendWorking(longer, t, |s.working.value|);
      longer, t := TakeStep(l1, s1, SyncEnd);
      AllSent(s.working.value, s1.wire);
    }
    var l2, s2 := SendShown(longer, t);
    longer, t := l2, s2;
    if s.paying.Some? {
      QueuedMirrors(t, t.captured, QueueItem("", 0, t.paying.value.key));
      var l3, s3 := TakeStep(longer, t, ReplyLostQueued("", 0));
      longer, t := SendShown(l3, s3);
    }
  }

  lemma AllSent(queue: seq<Item>, wire: set<Key>)
    requires forall i :: 0 <= i < |queue| ==> queue[i].key in wire
    ensures forall key :: KeyIn(queue, key) ==> key in wire
  {
  }

  /** A request under way can become a sale. */
  lemma Sell(steps: seq<Step>, s: State, key: Key) returns (longer: seq<Step>, t: State)
    requires StateAfter(steps) == Some(s) && (key in s.sales || key in s.wire)
    ensures StateAfter(longer) == Some(t) && steps <= longer
    ensures t.attempts == s.attempts && t.wire == s.wire && key in t.sales && forall k <- s.sales :: k in t.sales
  {
    hide StateAfter;
    if key in s.sales {
      longer, t := steps, s;
    } else {
      longer, t := TakeStep(steps, s, ReachServer(key));
    }
  }

  /** Without a further pay the run can go on to one in which both keys are sold. */
  ghost predicate CanSellBoth(steps: seq<Step>, a: Key, b: Key)
    requires StateAfter(steps).Some?
  {
    exists more, t: State ::
      && StateAfter(steps + more) == Some(t) && |t.attempts| == |StateAfter(steps).value.attempts|
      && a in t.sales && b in t.sales
  }

  lemma CanSellBothIff(steps: seq<Step>, a: Key, b: Key)
    requires StateAfter(steps).Some?
    ensures var s := StateAfter(steps).value;
      CanSellBoth(steps, a, b) <==> Sendable(s, a) && Sendable(s, b)
  {
    hide StateAfter;
    var s := StateAfter(steps).value;
    if Sendable(s, a) && Sendable(s, b) {
      var l1, s1 := SendAll(steps, s);
      var l2, s2 := Sell(l1, s1, a);
      var l3, s3 := Sell(l2, s2, b);
      assert l3 == steps + l3[|steps|..];
    }
    if more, t: State :|
      && StateAfter(steps + more) == Some(t) && |t.attempts| == |s.attempts| && a in t.sales && b in t.sales
    {
      if !Sendable(s, a) {
        NeverSent(steps, more, a);
      }
      if !Sendable(s, b) {
        NeverSent(steps, more, b);
      }
    }
  }

  /** The same payment of one cart can be sold under two keys if and only if both were sent or queued, and the cart was
      paid for something else in between. */
  lemma SoldTwiceIff(steps: seq<Step>, i: nat, j: nat)
    requires StateAfter(steps).Some?
    requires var attempts := StateAfter(steps).value.attempts;
      i < j < |attempts| && attempts[i].cart == attempts[j].cart && attempts[i].fingerprint == attempts[j].fingerprint
    ensures var s := StateAfter(steps).value; var a, b := s.attempts[i].key, s.attempts[j].key;
      a != b && CanSellBoth(steps, a, b) <==>
        && Sendable(s, a) && Sendable(s, b)
        && exists m :: i < m < j && s.attempts[m].fingerprint != s.attempts[i].fingerprint
  {
    hide StateAfter, Sendable, CanSellBoth;
    TwoKeysIff(steps, i, j);
    CanSellBothIff(steps, StateAfter(steps).value.attempts[i].key, StateAfter(steps).value.attempts[j].key);
  }

  /** It takes both: a payment refused, changed, refused, changed back and sent has two keys, and the first is never
      sold however the run goes on without another pay. */
  lemma RefusedIsNotSold()
    ensures exists steps, s: State ::
      && StateAfter(steps) == Some(s)
      && s.attempts == [Attempt(0, 0, 0), Attempt(0, 1, 1), Attempt(0, 0, 2)] && 2 in s.wire && !CanSellBoth(steps, 0, 2)
  {
    hide StateAfter, CanSellBoth;
    EmptyRun();
    var r1, s1 := TakeStep([], START, PayRefused);
    var r2, s2 := TakeStep(r1, s1, Edit(1));
    var r3, s3 := TakeStep(r2, s2, PayRefused);
    assert s3.attempts == [Attempt(0, 0, 0), Attempt(0, 1, 1)];
    var r4, s4 := TakeStep(r3, s3, Edit(0));
    var r5, s5 := TakeStep(r4, s4, PayOnline);
    CanSellBothIff(r5, 0, 2);
  }
}
