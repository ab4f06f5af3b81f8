/** Expiry of loyalty points: the ledger is replayed first in, first out, and what is left of due earnings is debited.

    The debit is itself replayed first in, first out, so it lands on the oldest points, not on the ones that
    expired. The results say exactly when that matters and what repeated runs burn. */
module LoyaltyExpiry {
  import opened Common

  /** A ledger row: an earning when positive, a debit otherwise. */
  datatype Row = Row(points: int, expiresAt: Option<int>)

  datatype Bucket = Bucket(remaining: nat, expiresAt: Option<int>)

  // ---- the replay ----

  /** Takes d points from the oldest buckets; what they cannot cover is dropped. */
  function Debit(buckets: seq<Bucket>, d: nat): (left: seq<Bucket>)
    ensures |left| == |buckets|
    ensures forall i :: 0 <= i < |left| ==> left[i].expiresAt == buckets[i].expiresAt && left[i].remaining <= buckets[i].remaining
  {
    if buckets == [] then []
    else
      var used := Min(buckets[0].remaining, d);
      [Bucket(buckets[0].remaining - used, buckets[0].expiresAt)] + Debit(buckets[1..], d - used)
  }

  function Buckets(ledger: seq<Row>): seq<Bucket> {
    if ledger == [] then []
    else
      var row := ledger[|ledger| - 1];
      var older := Buckets(ledger[..|ledger| - 1]);
      if row.points > 0 then older + [Bucket(row.points, row.expiresAt)] else Debit(older, -row.points)
  }

  predicate Due(b: Bucket, now: int) {
    b.remaining > 0 && b.expiresAt.Some? && b.expiresAt.value <= now
  }

  function DueTotal(buckets: seq<Bucket>, now: int): nat {
    if buckets == [] then 0
    else
      var expiry := buckets[0].expiresAt;
      (if expiry.Some? && expiry.value <= now then buckets[0].remaining else 0) + DueTotal(buckets[1..], now)
  }

  function Sum(ledger: seq<Row>): int {
    if ledger == [] then 0 else Sum(ledger[..|ledger| - 1]) + ledger[|ledger| - 1].points
  }

  /** What one run takes off an account. */
  function Expiring(points: int, ledger: seq<Row>, now: int): nat {
    if points <= 0 then 0 else Min(DueTotal(Buckets(ledger), now), points)
  }

  function Expired(ledger: seq<Row>, points: nat): seq<Row> {
    if points == 0 then ledger else ledger + [Row(0 - points, None)]
  }

  // ---- the account row and its ledger ----

  /** The buckets once the rest of a debit is taken from the j-th on. */
  ghost function Debited(buckets: seq<Bucket>, j: nat, debit: nat): seq<Bucket>
    requires j <= |buckets|
  {
    buckets[..j] + Debit(buckets[j..], debit)
  }

  method DebitOldest(older: seq<Bucket>, amount: nat) returns (buckets: seq<Bucket>)
    ensures buckets == Debit(older, amount)
  {
    hide Debit, Debited;
    buckets := older;
    var debit: nat := amount;
    var j := 0;
    AllToDebit(buckets, debit);
    while j < |buckets| && debit > 0
      invariant j <= |buckets|
      invariant Debited(buckets, j, debit) == Debit(older, amount)
    {
      DebitOne(buckets, j, debit);
      var used: nat := Min(buckets[j].remaining, debit);
      buckets := buckets[j := Bucket(buckets[j].remaining - used, buckets[j].expiresAt)];
      debit := debit - used;
      j := j + 1;
    }
    NothingLeftToDebit(buckets, j, debit);
  }

  lemma AllToDebit(buckets: seq<Bucket>, debit: nat)
    ensures Debited(buckets, 0, debit) == Debit(buckets, debit)
  {
    hide Debit;
    assert buckets[0..] == buckets && [] + Debit(buckets, debit) == Debit(buckets, debit);
  }

  lemma NothingLeftToDebit(buckets: seq<Bucket>, j: nat, debit: nat)
    requires j <= |buckets| && (j == |buckets| || debit == 0)
    ensures Debited(buckets, j, debit) == buckets
  {
    if debit == 0 {
      DebitNothing(buckets[j..]);
    }
    assert buckets == buckets[..j] + buckets[j..];
  }

  lemma Splice(buckets: seq<Bucket>, j: nat, bucket: Bucket, rest: seq<Bucket>)
    requires j < |buckets|
    ensures buckets[..j] + ([bucket] + rest) == buckets[j := bucket][..j + 1] + rest
  {
    assert buckets[j := bucket][..j + 1] == buckets[..j] + [bucket];
  }

  lemma DebitOne(buckets: seq<Bucket>, j: nat, debit: nat)
    requires j < |buckets|
    ensures var used := Min(buckets[j].remaining, debit);
      var next := buckets[j := Bucket(buckets[j].remaining - used, buckets[j].expiresAt)];
      Debited(buckets, j, debit) == Debited(next, j + 1, debit - used)
  {
    hide Debit;
    var used := Min(buckets[j].remaining, debit);
    var bucket := Bucket(buckets[j].remaining - used, buckets[j].expiresAt);
    DebitFirst(buckets[j..], debit);
    assert buckets[j..][1..] == buckets[j + 1..] == buckets[j := bucket][j + 1..];
    Splice(buckets, j, bucket, Debit(buckets[j + 1..], debit - used));
  }

  lemma DebitFirst(buckets: seq<Bucket>, debit: nat)
    requires buckets != []
    ensures var used := Min(buckets[0].remaining, debit);
      Debit(buckets, debit) == [Bucket(buckets[0].remaining - used, buckets[0].expiresAt)] + Debit(buckets[1..], debit - used)
  {
  }

  class LoyaltyAccount {
    var points: int
    var ledger: seq<Row>

    ghost predicate Valid()
      reads this
    {
      points == Sum(ledger) && points >= 0
    }

    constructor ()
      ensures Valid() && ledger == []
    {
      points, ledger := 0, [];
    }

    method ReplayLedger() returns (buckets: seq<Bucket>)
      ensures buckets == Buckets(ledger)
    {
      buckets := [];
      for i := 0 to |ledger|
        invariant buckets == Buckets(ledger[..i])
      {
        var row := ledger[i];
        assert ledger[..i + 1][..i] == ledger[..i];
        if row.points > 0 {
          buckets := buckets + [Bucket(row.points, row.expiresAt)];
          continue;
        }
        buckets := DebitOldest(buckets, -row.points);
      }
      assert ledger[..|ledger|] == ledger;
    }

    /** One account's transaction. */
    method ExpirePoints(now: int) returns (expiring: nat)
      requires Valid()
      modifies this
      ensures Valid()
      ensures expiring == Expiring(old(points), old(ledger), now)
      ensures points == old(points) - expiring && ledger == Expired(old(ledger), expiring)
    {
      if points <= 0 {
        return 0;
      }
      var buckets := ReplayLedger();
      var calculated: nat := 0;
      for i := 0 to |buckets|
        invariant calculated + DueTotal(buckets[i..], now) == DueTotal(buckets, now)
      {
        assert buckets[i..][1..] == buckets[i + 1..];
        if Due(buckets[i], now) {
          calculated := calculated + buckets[i].remaining;
        }
      }
      expiring := Min(calculated, points);
      if expiring <= 0 {
        return 0;
      }
      points := points - expiring;
      ledger := ledger + [Row(0 - expiring, None)];
    }
  }

  /** Points last until their expiry and no longer. */
  lemma ExpiresOnTime(points: nat, expiry: int, now: int)
    requires points > 0
    ensures Expiring(points, [Row(points, Some(expiry))], now) == if now < expiry then 0 else points
    ensures Expiring(points, [Row(points, None)], now) == 0
  {
    OneEarning(Row(points, Some(expiry)));
    OneEarning(Row(points, None));
    assert [Bucket(points, Some(expiry))][1..] == [] && [Bucket(points, None)][1..] == [];
    assert DueTotal([], now) == 0;
  }

  lemma OneEarning(row: Row)
    requires row.points > 0
    ensures Buckets([row]) == [Bucket(row.points, row.expiresAt)]
  {
    assert [row][..0] == [] && Buckets([]) == [];
  }

  lemma {:induction false} DebitNothing(buckets: seq<Bucket>)
    ensures Debit(buckets, 0) == buckets
  {
    if buckets != [] {
      DebitNothing(buckets[1..]);
      assert buckets == [buckets[0]] + buckets[1..];
    }
  }

  lemma BucketsAfterExpiry(ledger: seq<Row>, points: nat)
    ensures Buckets(Expired(ledger, points)) == Debit(Buckets(ledger), points)
  {
    if points == 0 {
      DebitNothing(Buckets(ledger));
    } else {
      assert Expired(ledger, points)[..|ledger|] == ledger;
    }
  }

  function Total(buckets: seq<Bucket>): nat {
    if buckets == [] then 0 else buckets[0].remaining + Total(buckets[1..])
  }

  lemma {:induction false} TotalAfterDebit(buckets: seq<Bucket>, d: nat)
    ensures Total(Debit(buckets, d)) == Total(buckets) - Min(d, Total(buckets))
  {
    if buckets != [] {
      var used := Min(buckets[0].remaining, d);
      TotalAfterDebit(buckets[1..], d - used);
      assert Debit(buckets, d)[1..] == Debit(buckets[1..], d - used);
    }
  }

  lemma {:induction false} TotalAppend(buckets: seq<Bucket>, b: Bucket)
    ensures Total(buckets + [b]) == Total(buckets) + b.remaining
  {
    if buckets != [] {
      TotalAppend(buckets[1..], b);
      assert (buckets + [b])[1..] == buckets[1..] + [b];
    }
  }

  /** No debit ever exceeded the balance of its time. */
  ghost predicate NeverOverdrawn(ledger: seq<Row>) {
    ledger == [] || (NeverOverdrawn(ledger[..|ledger| - 1]) && Sum(ledger) >= 0)
  }

  /** The replay conserves the balance exactly for ledgers that were never overdrawn. */
  lemma {:induction false} ReplayConserves(ledger: seq<Row>)
    ensures Total(Buckets(ledger)) >= Sum(ledger)
    ensures Total(Buckets(ledger)) == Sum(ledger) <==> NeverOverdrawn(ledger)
  {
    if ledger != [] {
      var init, row := ledger[..|ledger| - 1], ledger[|ledger| - 1];
      ReplayConserves(init);
      if row.points > 0 {
        TotalAppend(Buckets(init), Bucket(row.points, row.expiresAt));
      } else {
        TotalAfterDebit(Buckets(init), -row.points);
      }
    }
  }

  // ---- which points a debit hits ----

  /** No live bucket that is not due is older than a due one. */
  ghost predicate DueFirst(buckets: seq<Bucket>, now: int) {
    forall i, j :: 0 <= i < j < |buckets| && buckets[i].remaining > 0 && !Due(buckets[i], now) ==> !Due(buckets[j], now)
  }

  /** The points up to and including the last due bucket. */
  function ThroughLastDue(buckets: seq<Bucket>, now: int): nat {
    if buckets == [] then 0
    else
      var newer := ThroughLastDue(buckets[1..], now);
      if newer > 0 || Due(buckets[0], now) then buckets[0].remaining + newer else 0
  }

  /** A debit always comes off the front of that stretch. */
  lemma {:induction false} DebitShortens(buckets: seq<Bucket>, d: nat, now: int)
    ensures ThroughLastDue(Debit(buckets, d), now) == ThroughLastDue(buckets, now) - Min(d, ThroughLastDue(buckets, now))
  {
    if buckets != [] {
      var used := Min(buckets[0].remaining, d);
      DebitShortens(buckets[1..], d - used, now);
      assert Debit(buckets, d)[1..] == Debit(buckets[1..], d - used);
    }
  }

  lemma DueFirstTail(buckets: seq<Bucket>, now: int)
    requires buckets != []
    ensures DueFirst(buckets, now)
      <==> DueFirst(buckets[1..], now) && (buckets[0].remaining > 0 && !Due(buckets[0], now) ==> DueTotal(buckets[1..], now) == 0)
  {
    NoneDue(buckets[1..], now);
    assert forall j :: 1 <= j < |buckets| ==> buckets[j] == buckets[1..][j - 1];
    assert forall j :: 0 <= j < |buckets| - 1 ==> buckets[1..][j] == buckets[j + 1];
  }

  lemma {:induction false} NoneDue(buckets: seq<Bucket>, now: int)
    ensures DueTotal(buckets, now) == 0 <==> forall j :: 0 <= j < |buckets| ==> !Due(buckets[j], now)
    ensures DueTotal(buckets, now) == 0 <==> ThroughLastDue(buckets, now) == 0
  {
    if buckets != [] {
      NoneDue(buckets[1..], now);
      assert forall j :: 1 <= j < |buckets| ==> buckets[j] == buckets[1..][j - 1];
      assert forall j :: 0 <= j < |buckets| - 1 ==> buckets[1..][j] == buckets[j + 1];
    }
  }

  /** The stretch holds nothing but due points exactly when the due buckets come first. */
  lemma {:induction false} StretchIsDue(buckets: seq<Bucket>, now: int)
    ensures DueTotal(buckets, now) <= ThroughLastDue(buckets, now)
    ensures DueTotal(buckets, now) == ThroughLastDue(buckets, now) <==> DueFirst(buckets, now)
  {
    if buckets != [] {
      StretchIsDue(buckets[1..], now);
      DueFirstTail(buckets, now);
      NoneDue(buckets[1..], now);
    }
  }

  /** When due buckets come first, no debit up to their total touches a bucket that is not due. */
  lemma {:induction false} OnlyDuePointsGo(buckets: seq<Bucket>, d: nat, now: int)
    requires DueFirst(buckets, now) && d <= DueTotal(buckets, now)
    ensures forall i :: 0 <= i < |buckets| && !Due(buckets[i], now) ==> Debit(buckets, d)[i] == buckets[i]
  {
    if buckets != [] {
      var used := Min(buckets[0].remaining, d);
      DueFirstTail(buckets, now);
      OnlyDuePointsGo(buckets[1..], d - used, now);
      assert forall i :: 1 <= i < |buckets| ==> buckets[i] == buckets[1..][i - 1];
    }
  }

  // ---- repeated runs ----

  /** Everything that runs repeated at one instant take, until one takes nothing. */
  function BurnAll(points: int, ledger: seq<Row>, now: int): nat
    decreases points
  {
    var e := Expiring(points, ledger, now);
    if e == 0 then 0 else e + BurnAll(points - e, Expired(ledger, e), now)
  }

  /** Repeated runs burn all points up to the last due bucket, due or not. */
  lemma {:induction false} RepeatedRunsBurn(points: nat, ledger: seq<Row>, now: int)
    ensures BurnAll(points, ledger, now) == Min(points, ThroughLastDue(Buckets(ledger), now))
    decreases points
  {
    hide Buckets, Debit, DueTotal, ThroughLastDue;
    var buckets := Buckets(ledger);
    var e := Expiring(points, ledger, now);
    StretchIsDue(buckets, now);
    NoneDue(buckets, now);
    if e > 0 {
      RepeatedRunsBurn(points - e, Expired(ledger, e), now);
      BucketsAfterExpiry(ledger, e);
      DebitShortens(buckets, e, now);
    }
  }

  /** A second run at the same instant takes nothing exactly when the balance is used up or the due buckets came first. */
  lemma SecondRunIdle(points: nat, ledger: seq<Row>, now: int)
    ensures var e := Expiring(points, ledger, now);
      Expiring(points - e, Expired(ledger, e), now) == 0 <==> points == e || DueFirst(Buckets(ledger), now)
  {
    var buckets := Buckets(ledger);
    var e := Expiring(points, ledger, now);
    BucketsAfterExpiry(ledger, e);
    DebitShortens(buckets, e, now);
    StretchIsDue(buckets, now);
    NoneDue(Debit(buckets, e), now);
  }

  // ---- when earnings expire in the order they were made ----

  predicate NoLater(a: Option<int>, b: Option<int>) {
    b.None? || (a.Some? && a.value <= b.value)
  }

  /** Of two earnings the older never expires after the newer; points that never expire come last. */
  ghost predicate ExpiryFollowsEarning(ledger: seq<Row>) {
    forall i, j :: 0 <= i < j < |ledger| && ledger[i].points > 0 && ledger[j].points > 0 ==> NoLater(ledger[i].expiresAt, ledger[j].expiresAt)
  }

  ghost predicate Ordered(buckets: seq<Bucket>) {
    forall i, j :: 0 <= i < j < |buckets| ==> NoLater(buckets[i].expiresAt, buckets[j].expiresAt)
  }

  /** A bucket keeps the expiry of the earning it came from. */
  ghost predicate FromEarning(ledger: seq<Row>, b: Bucket) {
    exists i :: 0 <= i < |ledger| && ledger[i].points > 0 && ledger[i].expiresAt == b.expiresAt
  }

  lemma FromEarlier(init: seq<Row>, row: Row, a: Bucket, b: Bucket)
    requires FromEarning(init, a) && a.expiresAt == b.expiresAt
    ensures FromEarning(init + [row], b)
  {
    var i :| 0 <= i < |init| && init[i].points > 0 && init[i].expiresAt == a.expiresAt;
    assert (init + [row])[i] == init[i];
  }

  lemma EarnedLast(init: seq<Row>, row: Row, buckets: seq<Bucket>)
    requires ExpiryFollowsEarning(init + [row]) && row.points > 0
    requires Ordered(buckets) && forall k :: 0 <= k < |buckets| ==> FromEarning(init, buckets[k])
    ensures Ordered(buckets + [Bucket(row.points, row.expiresAt)])
  {
    var ledger := init + [row];
    forall k | 0 <= k < |buckets|
      ensures NoLater(buckets[k].expiresAt, row.expiresAt)
    {
      assert FromEarning(init, buckets[k]);
      var i :| 0 <= i < |init| && init[i].points > 0 && init[i].expiresAt == buckets[k].expiresAt;
      assert ledger[i] == init[i] && ledger[|init|] == row;
    }
  }

  lemma BucketsSnoc(ledger: seq<Row>)
    requires ledger != []
    ensures var row, older := ledger[|ledger| - 1], Buckets(ledger[..|ledger| - 1]);
      Buckets(ledger) == if row.points > 0 then older + [Bucket(row.points, row.expiresAt)] else Debit(older, -row.points)
  {
  }

  lemma {:induction false} BucketsOrdered(ledger: seq<Row>)
    requires ExpiryFollowsEarning(ledger)
    ensures Ordered(Buckets(ledger))
    ensures forall k :: 0 <= k < |Buckets(ledger)| ==> FromEarning(ledger, Buckets(ledger)[k])
    decreases |ledger|
  {
    if ledger != [] {
      var n := |ledger| - 1;
      var init, row := ledger[..n], ledger[n];
      BucketsOrdered(init);
      BucketsSnoc(ledger);
      hide Buckets, Debit, FromEarning;
      var older, buckets := Buckets(init), Buckets(ledger);
      assert ledger == init + [row];
      forall k | 0 <= k < |buckets|
        ensures FromEarning(ledger, buckets[k])
      {
        if k < |older| {
          FromEarlier(init, row, older[k], buckets[k]);
        } else {
          EarnedHere(ledger, n, buckets[k]);
        }
      }
      if row.points > 0 {
        EarnedLast(init, row, older);
      }
    }
  }

  lemma EarnedHere(ledger: seq<Row>, n: nat, b: Bucket)
    requires n < |ledger| && ledger[n].points > 0 && ledger[n].expiresAt == b.expiresAt
    ensures FromEarning(ledger, b)
  {
  }

  /** Then one run is enough, at any instant and for any history of debits, and it takes due points only. */
  lemma OrderedExpiryIsExact(points: nat, ledger: seq<Row>, now: int)
    requires ExpiryFollowsEarning(ledger)
    ensures var e := Expiring(points, ledger, now);
      && Expiring(points - e, Expired(ledger, e), now) == 0
      && BurnAll(points, ledger, now) == e
      && forall i :: 0 <= i < |Buckets(ledger)| && !Due(Buckets(ledger)[i], now) ==> Buckets(Expired(ledger, e))[i] == Buckets(ledger)[i]
  {
    var e := Expiring(points, ledger, now);
    BucketsOrdered(ledger);
    assert DueFirst(Buckets(ledger), now);
    SecondRunIdle(points, ledger, now);
    RepeatedRunsBurn(points, ledger, now);
    StretchIsDue(Buckets(ledger), now);
    OnlyDuePointsGo(Buckets(ledger), e, now);
    BucketsAfterExpiry(ledger, e);
  }

  /** Otherwise customers lose points: 100 that never expire, then 100 due; the second run takes the first hundred's replacement. */
  lemma OlderUnexpiringPointsBurn()
    ensures var ledger := [Row(100, None), Row(100, Some(0))];
      && Expiring(200, ledger, 0) == 100
      && Expiring(100, Expired(ledger, 100), 0) == 100
      && BurnAll(200, ledger, 0) == 200
  {
    var ledger := [Row(100, None), Row(100, Some(0))];
    var never, due := Bucket(100, None), Bucket(100, Some(0));
    assert ledger[..1] == [Row(100, None)] && ledger[..1][..0] == [];
    assert Buckets(ledger[..1]) == [never];
    assert Buckets(ledger) == [never, due];
    assert [never, due][1..] == [due];
    assert DueTotal([due], 0) == 100 == ThroughLastDue([due], 0);
    RepeatedRunsBurn(200, ledger, 0);
    BucketsAfterExpiry(ledger, 100);
    assert Debit([never, due], 100) == [Bucket(0, None), due];
    assert [Bucket(0, None), due][1..] == [due];
  }
}
