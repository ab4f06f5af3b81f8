/** The register's offline queue: numbered sales kept in local storage and replayed to the server in batches. */
module PosQueue {
  import opened Common

  datatype Status = Pending | Conflict | Failed

  /** A queued sale; `key` is the idempotency key inside its payload. */
  datatype Item = Item(localId: string, sequence: int, cashier: string, key: nat, status: Status, error: string)

  datatype RowStatus = Applied | InConflict | HasFailed | Other
  datatype Row = Row(localId: string, status: RowStatus, reason: Option<string>)
  datatype Reply = Reply(results: seq<Row>, applied: int, conflicts: int, failed: int)

  /** A replay request ends in an answer, or in an exception, or in an answer after which saving the queue throws. */
  datatype Response = Answer(reply: Reply) | NoReply | Unsaved(reply: Reply)

  /** What the server says in each round to each batch. */
  type Server = (nat, seq<Item>) -> Response

  const BATCH := 50

  // ---- one round ----

  predicate Eligible(item: Item, cashier: string, includeConflicts: bool) {
    item.cashier == cashier && (includeConflicts || item.status != Conflict)
  }

  function AllCandidates(queue: seq<Item>, cashier: string, includeConflicts: bool): seq<Item> {
    if queue == [] then []
    else
      (if Eligible(queue[0], cashier, includeConflicts) then [queue[0]] else [])
        + AllCandidates(queue[1..], cashier, includeConflicts)
  }

  function Candidates(queue: seq<Item>, cashier: string, includeConflicts: bool): (sent: seq<Item>)
    ensures |sent| <= BATCH
  {
    var all := AllCandidates(queue, cashier, includeConflicts);
    if |all| > BATCH then all[..BATCH] else all
  }

  /** new Map(results by localId): a later row replaces an earlier one. */
  function Lookup(results: seq<Row>, localId: string): Option<Row> {
    if results == [] then None
    else if results[|results| - 1].localId == localId then Some(results[|results| - 1])
    else Lookup(results[..|results| - 1], localId)
  }

  function Reason(row: Row, otherwise: string): string {
    if row.reason.Some? then row.reason.value else otherwise
  }

  const CONFLICT_TEXT := "Transaksi membutuhkan penyelesaian konflik."
  const FAILED_TEXT := "Sinkronisasi gagal dan akan dicoba kembali."

  function Updated(item: Item, results: seq<Row>): seq<Item> {
    match Lookup(results, item.localId)
    case None => [item]
    case Some(row) =>
      match row.status
      case Applied => []
      case InConflict => [item.(status := Conflict, error := Reason(row, CONFLICT_TEXT))]
      case HasFailed => [item.(status := Failed, error := Reason(row, FAILED_TEXT))]
      case Other => [item.(status := Pending)]
  }

  function ApplyResults(queue: seq<Item>, results: seq<Row>): seq<Item> {
    if queue == [] then [] else Updated(queue[0], results) + ApplyResults(queue[1..], results)
  }

  predicate Stops(sent: seq<Item>, reply: Reply) {
    reply.conflicts > 0 || reply.failed > 0 || reply.applied == 0 || |sent| < BATCH
  }

  // ---- the server's contract ----

  function CountApplied(results: seq<Row>): nat {
    if results == [] then 0 else (if results[0].status == Applied then 1 else 0) + CountApplied(results[1..])
  }

  ghost predicate Mentions(items: seq<Item>, localId: string) {
    exists i :: 0 <= i < |items| && items[i].localId == localId
  }

  /** One row at most for each sent item and none for others, and the applied count is the number of APPLIED rows. */
  ghost predicate Fair(sent: seq<Item>, reply: Reply) {
    && (forall i, j :: 0 <= i < j < |reply.results| ==> reply.results[i].localId != reply.results[j].localId)
    && (forall i :: 0 <= i < |reply.results| ==> Mentions(sent, reply.results[i].localId))
    && reply.applied == CountApplied(reply.results)
  }

  ghost predicate FairServer(server: Server) {
    forall round, sent :: server(round, sent).Answer? ==> Fair(sent, server(round, sent).reply)
  }

  // ---- a whole synchronisation ----

  datatype Outcome = Outcome(queue: seq<Item>, applied: int, conflicts: int, failed: int)

  /** The rounds from one on: stop when nothing is eligible, when a request or saving its answer throws, or when a
      reply says so. */
  ghost function Sync(server: Server, round: nat, queue: seq<Item>, cashier: string, includeConflicts: bool): Outcome
    requires FairServer(server)
    decreases |queue|
  {
    var sent := Candidates(queue, cashier, includeConflicts);
    if sent == [] || !server(round, sent).Answer? then Outcome(queue, 0, 0, 0)
    else
      var reply := server(round, sent).reply;
      var next := ApplyResults(queue, reply.results);
      RoundShrinks(queue, cashier, includeConflicts, reply);
      if Stops(sent, reply) then Outcome(next, reply.applied, reply.conflicts, reply.failed)
      else
        var rest := Sync(server, round + 1, next, cashier, includeConflicts);
        Outcome(rest.queue, reply.applied + rest.applied, reply.conflicts + rest.conflicts, reply.failed + rest.failed)
  }

  /** A round that goes on has taken at least one sale off the queue. */
  lemma RoundShrinks(queue: seq<Item>, cashier: string, includeConflicts: bool, reply: Reply)
    requires Fair(Candidates(queue, cashier, includeConflicts), reply)
    ensures |ApplyResults(queue, reply.results)| <= |queue|
    ensures !Stops(Candidates(queue, cashier, includeConflicts), reply) ==> |ApplyResults(queue, reply.results)| < |queue|
  {
    hide Candidates, Updated;
    NeverLonger(queue, reply.results);
    if reply.applied != 0 {
      var k := SomeApplied(reply.results);
      CandidatesAreQueued(queue, cashier, includeConflicts);
      var sent := Candidates(queue, cashier, includeConflicts);
      var i :| 0 <= i < |sent| && sent[i].localId == reply.results[k].localId;
      assert sent[i] in queue;
      LookupUnique(reply.results, k);
      AppliedGoes(sent[i], reply.results);
      Shorter(queue, reply.results, sent[i]);
    }
  }

  lemma AppliedGoes(item: Item, results: seq<Row>)
    requires Lookup(results, item.localId).Some? && Lookup(results, item.localId).value.status == Applied
    ensures Updated(item, results) == []
  {
  }

  lemma {:induction false} SomeApplied(results: seq<Row>) returns (k: nat)
    requires CountApplied(results) != 0
    ensures k < |results| && results[k].status == Applied
    decreases |results|
  {
    if results[0].status == Applied {
      k := 0;
    } else {
      k := SomeApplied(results[1..]);
      k := k + 1;
    }
  }

  lemma {:induction false} LookupUnique(results: seq<Row>, k: nat)
    requires k < |results|
    requires forall i, j :: 0 <= i < j < |results| ==> results[i].localId != results[j].localId
    ensures Lookup(results, results[k].localId) == Some(results[k])
    decreases |results|
  {
    if k < |results| - 1 {
      LookupUnique(results[..|results| - 1], k);
    }
  }

  lemma {:induction false} AllCandidatesAreQueued(queue: seq<Item>, cashier: string, includeConflicts: bool)
    ensures forall item :: item in AllCandidates(queue, cashier, includeConflicts) ==>
      item in queue && Eligible(item, cashier, includeConflicts)
    decreases |queue|
  {
    if queue != [] {
      AllCandidatesAreQueued(queue[1..], cashier, includeConflicts);
    }
  }

  lemma CandidatesAreQueued(queue: seq<Item>, cashier: string, includeConflicts: bool)
    ensures forall item :: item in Candidates(queue, cashier, includeConflicts) ==>
      item in queue && Eligible(item, cashier, includeConflicts)
  {
    AllCandidatesAreQueued(queue, cashier, includeConflicts);
  }

  lemma {:induction false} NeverLonger(queue: seq<Item>, results: seq<Row>)
    ensures |ApplyResults(queue, results)| <= |queue|
    decreases |queue|
  {
    if queue != [] {
      NeverLonger(queue[1..], results);
    }
  }

  lemma {:induction false} Shorter(queue: seq<Item>, results: seq<Row>, item: Item)
    requires item in queue && Updated(item, results) == []
    ensures |ApplyResults(queue, results)| < |queue|
    decreases |queue|
  {
    NeverLonger(queue[1..], results);
    if queue[0] != item {
      Shorter(queue[1..], results, item);
    }
  }

  // ---- exactly when the loop makes progress ----

  lemma {:induction false} NoneLeaves(queue: seq<Item>, results: seq<Row>)
    requires forall i :: 0 <= i < |queue| ==> !SaysApplied(results, queue[i].localId)
    ensures |ApplyResults(queue, results)| == |queue|
    decreases |queue|
  {
    if queue != [] {
      NoneLeaves(queue[1..], results);
    }
  }

  /** A round shortens the queue if and only if some queued sale is reported APPLIED. */
  lemma RoundShrinksIff(queue: seq<Item>, results: seq<Row>)
    ensures |ApplyResults(queue, results)| < |queue| <==>
      exists i :: 0 <= i < |queue| && SaysApplied(results, queue[i].localId)
  {
    if i :| 0 <= i < |queue| && SaysApplied(results, queue[i].localId) {
      AppliedGoes(queue[i], results);
      Shorter(queue, results, queue[i]);
    } else {
      NoneLeaves(queue, results);
    }
  }

  /** The queue after n rounds, if the loop is still going; nothing is assumed of the server. */
  function RoundsOn(server: Server, n: nat, queue: seq<Item>, cashier: string, includeConflicts: bool): Option<seq<Item>> {
    if n == 0 then Some(queue)
    else
      match RoundsOn(server, n - 1, queue, cashier, includeConflicts)
      case None => None
      case Some(now) =>
        var sent := Candidates(now, cashier, includeConflicts);
        var response := server(n - 1, sent);
        if sent == [] || !response.Answer? || Stops(sent, response.reply) then None
        else Some(ApplyResults(now, response.reply.results))
  }

  /** How many of the first n rounds report no queued sale applied. */
  ghost function IdleRounds(server: Server, n: nat, queue: seq<Item>, cashier: string, includeConflicts: bool): nat
    requires RoundsOn(server, n, queue, cashier, includeConflicts).Some?
  {
    if n == 0 then 0
    else
      var now := RoundsOn(server, n - 1, queue, cashier, includeConflicts).value;
      var results := server(n - 1, Candidates(now, cashier, includeConflicts)).reply.results;
      IdleRounds(server, n - 1, queue, cashier, includeConflicts)
        + if exists i :: 0 <= i < |now| && SaysApplied(results, now[i].localId) then 0 else 1
  }

  /** Every round but the idle ones takes at least one sale off: without idle rounds the loop ends within as many
      rounds as there are sales. */
  lemma {:induction false} OnlyIdleRoundsGoOn(server: Server, n: nat, queue: seq<Item>, cashier: string, includeConflicts: bool)
    requires RoundsOn(server, n, queue, cashier, includeConflicts).Some?
    ensures n + |RoundsOn(server, n, queue, cashier, includeConflicts).value|
      <= |queue| + IdleRounds(server, n, queue, cashier, includeConflicts)
  {
    hide ApplyResults, Candidates, SaysApplied, Stops;
    if n > 0 {
      OnlyIdleRoundsGoOn(server, n - 1, queue, cashier, includeConflicts);
      var now := RoundsOn(server, n - 1, queue, cashier, includeConflicts).value;
      var results := server(n - 1, Candidates(now, cashier, includeConflicts)).reply.results;
      RoundShrinksIff(now, results);
      NeverLonger(now, results);
    }
  }

  /** Counts sales applied but reports none of the queue applied, in conflict or failed. */
  ghost predicate Miscounts(server: Server, queue: seq<Item>) {
    forall round, sent :: |sent| == BATCH ==>
      var response := server(round, sent);
      && response.Answer? && response.reply.applied != 0 && response.reply.conflicts <= 0 && response.reply.failed <= 0
      && OnlyOther(queue, response.reply.results)
  }

  ghost predicate OnlyOther(queue: seq<Item>, results: seq<Row>) {
    forall i :: 0 <= i < |queue| && Lookup(results, queue[i].localId).Some? ==>
      Lookup(results, queue[i].localId).value.status == Other
  }

  ghost predicate SameSales(a: seq<Item>, b: seq<Item>) {
    |a| == |b| && forall i :: 0 <= i < |a| ==> SameSale(a[i], b[i])
  }

  lemma {:induction false} OtherKeeps(queue: seq<Item>, results: seq<Row>, cashier: string, includeConflicts: bool)
    requires OnlyOther(queue, results)
    ensures SameSales(queue, ApplyResults(queue, results))
    ensures |AllCandidates(ApplyResults(queue, results), cashier, includeConflicts)| >= |AllCandidates(queue, cashier, includeConflicts)|
    decreases |queue|
  {
    hide Lookup;
    if queue != [] {
      assert forall i :: 0 <= i < |queue[1..]| ==> queue[1..][i] == queue[i + 1];
      OtherKeeps(queue[1..], results, cashier, includeConflicts);
      var head := Updated(queue[0], results);
      assert |head| == 1 && SameSale(queue[0], head[0]);
      assert (head + ApplyResults(queue[1..], results))[1..] == ApplyResults(queue[1..], results);
    }
  }

  /** Such a server keeps the loop going for ever on a full batch: after any number of rounds it still holds all its
      sales and has not stopped. */
  lemma {:induction false} MiscountNeverStops(server: Server, n: nat, queue: seq<Item>, cashier: string, includeConflicts: bool)
    requires Miscounts(server, queue) && |Candidates(queue, cashier, includeConflicts)| == BATCH
    ensures var now := RoundsOn(server, n, queue, cashier, includeConflicts);
      now.Some? && SameSales(queue, now.value) && |Candidates(now.value, cashier, includeConflicts)| == BATCH
  {
    hide Lookup, ApplyResults, AllCandidates;
    if n > 0 {
      MiscountNeverStops(server, n - 1, queue, cashier, includeConflicts);
      var now := RoundsOn(server, n - 1, queue, cashier, includeConflicts).value;
      var sent := Candidates(now, cashier, includeConflicts);
      var results := server(n - 1, sent).reply.results;
      assert OnlyOther(now, results);
      OtherKeeps(now, results, cashier, includeConflicts);
    }
  }

  // ---- order ----

  ghost predicate StrictlyOrdered(queue: seq<Item>) {
    forall i, j :: 0 <= i < j < |queue| ==> queue[i].sequence < queue[j].sequence
  }

  ghost predicate SameSale(a: Item, b: Item) {
    a.localId == b.localId && a.sequence == b.sequence && a.cashier == b.cashier && a.key == b.key
  }

  ghost predicate Has(queue: seq<Item>, item: Item) {
    exists i :: 0 <= i < |queue| && SameSale(queue[i], item)
  }

  /** Whatever the rows say, what stays was there before. */
  lemma {:induction false} NothingNew(queue: seq<Item>, results: seq<Row>)
    ensures forall i :: 0 <= i < |ApplyResults(queue, results)| ==> Has(queue, ApplyResults(queue, results)[i])
    decreases |queue|
  {
    if queue != [] {
      var rest := ApplyResults(queue[1..], results);
      NothingNew(queue[1..], results);
      forall i | 0 <= i < |ApplyResults(queue, results)|
        ensures Has(queue, ApplyResults(queue, results)[i])
      {
        var item := ApplyResults(queue, results)[i];
        if i < |Updated(queue[0], results)| {
          assert SameSale(queue[0], item);
        } else {
          assert item == rest[i - |Updated(queue[0], results)|];
          var j :| 0 <= j < |queue[1..]| && SameSale(queue[1..][j], item);
          assert SameSale(queue[j + 1], item);
        }
      }
    }
  }

  lemma {:induction false} RoundKeepsOrder(queue: seq<Item>, results: seq<Row>)
    requires StrictlyOrdered(queue)
    ensures StrictlyOrdered(ApplyResults(queue, results))
    decreases |queue|
  {
    hide Lookup;
    if queue != [] {
      var rest := ApplyResults(queue[1..], results);
      RoundKeepsOrder(queue[1..], results);
      NothingNew(queue[1..], results);
      forall i | 0 <= i < |rest|
        ensures rest[i].sequence > queue[0].sequence
      {
        var j :| 0 <= j < |queue[1..]| && SameSale(queue[1..][j], rest[i]);
        assert queue[1..][j] == queue[j + 1];
      }
    }
  }

  /** Every synchronisation leaves the queue strictly ordered by sequence number. */
  lemma {:induction false} SyncKeepsOrder(server: Server, round: nat, queue: seq<Item>, cashier: string, includeConflicts: bool)
    requires FairServer(server) && StrictlyOrdered(queue)
    ensures StrictlyOrdered(Sync(server, round, queue, cashier, includeConflicts).queue)
    decreases |queue|
  {
    hide StrictlyOrdered, ApplyResults, Candidates, FairServer, Fair, Stops;
    var sent := Candidates(queue, cashier, includeConflicts);
    if sent != [] && server(round, sent).Answer? {
      var reply := server(round, sent).reply;
      FairReply(server, round, sent);
      RoundShrinks(queue, cashier, includeConflicts, reply);
      RoundKeepsOrder(queue, reply.results);
      if !Stops(sent, reply) {
        SyncKeepsOrder(server, round + 1, ApplyResults(queue, reply.results), cashier, includeConflicts);
      }
    }
  }

  lemma FairReply(server: Server, round: nat, sent: seq<Item>)
    requires FairServer(server) && server(round, sent).Answer?
    ensures Fair(sent, server(round, sent).reply)
  {
  }

  // ---- nothing is lost ----

  predicate SaysApplied(results: seq<Row>, localId: string) {
    Lookup(results, localId).Some? && Lookup(results, localId).value.status == Applied
  }

  /** The replies one synchronisation receives. */
  ghost function Replies(server: Server, round: nat, queue: seq<Item>, cashier: string, includeConflicts: bool): seq<Reply>
    requires FairServer(server)
    decreases |queue|
  {
    var sent := Candidates(queue, cashier, includeConflicts);
    if sent == [] || !server(round, sent).Answer? then []
    else
      var reply := server(round, sent).reply;
      var next := ApplyResults(queue, reply.results);
      RoundShrinks(queue, cashier, includeConflicts, reply);
      [reply] + if Stops(sent, reply) then [] else Replies(server, round + 1, next, cashier, includeConflicts)
  }

  ghost predicate ReportedApplied(replies: seq<Reply>, localId: string) {
    exists k :: 0 <= k < |replies| && SaysApplied(replies[k].results, localId)
  }

  lemma {:induction false} RoundKeepsIff(queue: seq<Item>, results: seq<Row>, localId: string)
    ensures Mentions(ApplyResults(queue, results), localId) <==> Mentions(queue, localId) && !SaysApplied(results, localId)
    decreases |queue|
  {
    hide Lookup;
    if queue != [] {
      var head, rest := Updated(queue[0], results), ApplyResults(queue[1..], results);
      RoundKeepsIff(queue[1..], results, localId);
      MentionsAppend([queue[0]], queue[1..], localId);
      MentionsAppend(head, rest, localId);
      assert queue == [queue[0]] + queue[1..];
      assert Mentions([queue[0]], localId) <==> queue[0].localId == localId by {
        assert [queue[0]][0] == queue[0];
      }
      if head != [] {
        assert Mentions(head, localId) <==> queue[0].localId == localId by {
          assert head[0].localId == queue[0].localId;
        }
      }
    }
  }

  lemma MentionsAppend(a: seq<Item>, b: seq<Item>, localId: string)
    ensures Mentions(a + b, localId) <==> Mentions(a, localId) || Mentions(b, localId)
  {
    assert forall i :: 0 <= i < |a| ==> (a + b)[i] == a[i];
    assert forall i :: 0 <= i < |b| ==> (a + b)[|a| + i] == b[i];
    if Mentions(a + b, localId) {
      var i :| 0 <= i < |a + b| && (a + b)[i].localId == localId;
      if i >= |a| {
        assert b[i - |a|].localId == localId;
      } else {
        assert a[i].localId == localId;
      }
    }
  }

  lemma ReportedCons(reply: Reply, rest: seq<Reply>, localId: string)
    ensures ReportedApplied([reply] + rest, localId) <==> SaysApplied(reply.results, localId) || ReportedApplied(rest, localId)
  {
    var all := [reply] + rest;
    assert all[0] == reply && forall k :: 0 <= k < |rest| ==> all[k + 1] == rest[k];
    if ReportedApplied(all, localId) {
      var k :| 0 <= k < |all| && SaysApplied(all[k].results, localId);
      if k > 0 {
        assert SaysApplied(rest[k - 1].results, localId);
      }
    }
  }

  /** A queued sale leaves the queue if and only if the server reported it applied. */
  lemma {:induction false} StaysUntilApplied(server: Server, round: nat, queue: seq<Item>, cashier: string,
      includeConflicts: bool, localId: string)
    requires FairServer(server)
    ensures Mentions(Sync(server, round, queue, cashier, includeConflicts).queue, localId) <==>
      Mentions(queue, localId)
      && !ReportedApplied(Replies(server, round, queue, cashier, includeConflicts), localId)
    decreases |queue|
  {
    hide ApplyResults, Candidates, FairServer, Fair, Stops, Mentions, SaysApplied, ReportedApplied;
    var sent := Candidates(queue, cashier, includeConflicts);
    if sent != [] && server(round, sent).Answer? {
      var reply := server(round, sent).reply;
      var next := ApplyResults(queue, reply.results);
      FairReply(server, round, sent);
      RoundShrinks(queue, cashier, includeConflicts, reply);
      RoundKeepsIff(queue, reply.results, localId);
      if Stops(sent, reply) {
        ReportedCons(reply, [], localId);
        NoneReported(localId);
      } else {
        StaysUntilApplied(server, round + 1, next, cashier, includeConflicts, localId);
        ReportedCons(reply, Replies(server, round + 1, next, cashier, includeConflicts), localId);
      }
    } else {
      NoneReported(localId);
    }
  }

  lemma NoneReported(localId: string)
    ensures !ReportedApplied([], localId)
  {
  }

  // ---- other cashiers ----

  ghost predicate DistinctIds(queue: seq<Item>) {
    forall i, j :: 0 <= i < j < |queue| ==> queue[i].localId != queue[j].localId
  }

  function OthersOf(queue: seq<Item>, cashier: string): seq<Item> {
    if queue == [] then []
    else (if queue[0].cashier != cashier then [queue[0]] else []) + OthersOf(queue[1..], cashier)
  }

  /** Rows are only about eligible items of this queue. */
  ghost predicate OnlyEligible(queue: seq<Item>, cashier: string, includeConflicts: bool, results: seq<Row>) {
    forall i :: 0 <= i < |queue| && Lookup(results, queue[i].localId).Some? ==> Eligible(queue[i], cashier, includeConflicts)
  }

  lemma {:induction false} LookupIsRow(results: seq<Row>, localId: string)
    ensures Lookup(results, localId).Some? ==>
      exists i :: 0 <= i < |results| && results[i] == Lookup(results, localId).value && results[i].localId == localId
    ensures Lookup(results, localId).None? ==> forall i :: 0 <= i < |results| ==> results[i].localId != localId
    decreases |results|
  {
    if results != [] && results[|results| - 1].localId != localId {
      LookupIsRow(results[..|results| - 1], localId);
    }
  }

  lemma FairIsOnlyEligible(queue: seq<Item>, cashier: string, includeConflicts: bool, reply: Reply)
    requires DistinctIds(queue) && Fair(Candidates(queue, cashier, includeConflicts), reply)
    ensures OnlyEligible(queue, cashier, includeConflicts, reply.results)
  {
    hide Candidates, Lookup, Eligible;
    var sent := Candidates(queue, cashier, includeConflicts);
    forall i | 0 <= i < |queue| && Lookup(reply.results, queue[i].localId).Some?
      ensures Eligible(queue[i], cashier, includeConflicts)
    {
      LookupIsRow(reply.results, queue[i].localId);
      CandidatesAreQueued(queue, cashier, includeConflicts);
      var k :| 0 <= k < |sent| && sent[k].localId == queue[i].localId;
      assert sent[k] in queue;
    }
  }

  lemma {:induction false} RoundKeepsOthers(queue: seq<Item>, cashier: string, includeConflicts: bool, results: seq<Row>)
    requires OnlyEligible(queue, cashier, includeConflicts, results)
    ensures OthersOf(ApplyResults(queue, results), cashier) == OthersOf(queue, cashier)
    decreases |queue|
  {
    hide Lookup;
    if queue != [] {
      assert forall i :: 0 <= i < |queue[1..]| ==> queue[1..][i] == queue[i + 1];
      RoundKeepsOthers(queue[1..], cashier, includeConflicts, results);
      var head, rest := Updated(queue[0], results), ApplyResults(queue[1..], results);
      if head == [] {
        assert head + rest == rest;
      } else {
        assert (head + rest)[1..] == rest;
      }
    }
  }

  lemma {:induction false} RoundKeepsDistinct(queue: seq<Item>, results: seq<Row>)
    requires DistinctIds(queue)
    ensures DistinctIds(ApplyResults(queue, results))
    decreases |queue|
  {
    hide Lookup;
    if queue != [] {
      var rest := ApplyResults(queue[1..], results);
      RoundKeepsDistinct(queue[1..], results);
      NothingNew(queue[1..], results);
      forall i | 0 <= i < |rest|
        ensures rest[i].localId != queue[0].localId
      {
        var j :| 0 <= j < |queue[1..]| && SameSale(queue[1..][j], rest[i]);
        assert queue[1..][j] == queue[j + 1];
      }
    }
  }

  /** The sales of other cashiers stay exactly as they were: same sales, same status, same order. */
  lemma {:induction false} SyncKeepsOthers(server: Server, round: nat, queue: seq<Item>, cashier: string, includeConflicts: bool)
    requires FairServer(server) && DistinctIds(queue)
    ensures var after := Sync(server, round, queue, cashier, includeConflicts).queue;
      OthersOf(after, cashier) == OthersOf(queue, cashier) && DistinctIds(after)
    decreases |queue|
  {
    hide ApplyResults, Candidates, FairServer, Fair, Stops, DistinctIds, OthersOf, OnlyEligible;
    var sent := Candidates(queue, cashier, includeConflicts);
    if sent != [] && server(round, sent).Answer? {
      var reply := server(round, sent).reply;
      FairReply(server, round, sent);
      RoundShrinks(queue, cashier, includeConflicts, reply);
      FairIsOnlyEligible(queue, cashier, includeConflicts, reply);
      RoundKeepsOthers(queue, cashier, includeConflicts, reply.results);
      RoundKeepsDistinct(queue, reply.results);
      if !Stops(sent, reply) {
        SyncKeepsOthers(server, round + 1, ApplyResults(queue, reply.results), cashier, includeConflicts);
      }
    }
  }

  // ---- the applied total is the number of sales taken off ----

  function IdSet(queue: seq<Item>): set<string> {
    if queue == [] then {} else {queue[0].localId} + IdSet(queue[1..])
  }

  lemma MentionsCons(item: Item, rest: seq<Item>, localId: string)
    ensures Mentions([item] + rest, localId) <==> item.localId == localId || Mentions(rest, localId)
  {
    MentionsAppend([item], rest, localId);
    assert [item][0] == item;
  }

  lemma {:induction false} IdSetHas(queue: seq<Item>, localId: string)
    ensures localId in IdSet(queue) <==> Mentions(queue, localId)
    decreases |queue|
  {
    if queue != [] {
      IdSetHas(queue[1..], localId);
      MentionsCons(queue[0], queue[1..], localId);
      assert queue == [queue[0]] + queue[1..];
    }
  }

  lemma {:induction false} IdSetSize(queue: seq<Item>)
    requires DistinctIds(queue)
    ensures |IdSet(queue)| == |queue|
    decreases |queue|
  {
    if queue != [] {
      var rest := queue[1..];
      assert forall i :: 0 <= i < |rest| ==> rest[i] == queue[i + 1];
      IdSetSize(rest);
      IdSetHas(rest, queue[0].localId);
    }
  }

  lemma IdSetMeaning(queue: seq<Item>)
    ensures forall localId :: localId in IdSet(queue) <==> Mentions(queue, localId)
    ensures DistinctIds(queue) ==> |IdSet(queue)| == |queue|
  {
    hide Mentions, DistinctIds, IdSet;
    forall localId
      ensures localId in IdSet(queue) <==> Mentions(queue, localId)
    {
      IdSetHas(queue, localId);
    }
    if DistinctIds(queue) {
      IdSetSize(queue);
    }
  }

  function AppliedIds(results: seq<Row>): set<string> {
    if results == [] then {}
    else
      var last := results[|results| - 1];
      (if last.status == Applied then {last.localId} else {}) + AppliedIds(results[..|results| - 1])
  }

  ghost predicate DistinctRows(results: seq<Row>) {
    forall i, j :: 0 <= i < j < |results| ==> results[i].localId != results[j].localId
  }

  lemma {:induction false} CountAppliedLast(results: seq<Row>)
    requires results != []
    ensures CountApplied(results) ==
      CountApplied(results[..|results| - 1]) + if results[|results| - 1].status == Applied then 1 else 0
    decreases |results|
  {
    if |results| > 1 {
      CountAppliedLast(results[1..]);
      assert results[1..][..|results| - 2] == results[..|results| - 1][1..];
    }
  }

  lemma {:induction false} AppliedIdsMeaning(results: seq<Row>)
    requires DistinctRows(results)
    ensures forall localId :: localId in AppliedIds(results) <==> SaysApplied(results, localId)
    ensures |AppliedIds(results)| == CountApplied(results)
    decreases |results|
  {
    if results != [] {
      var n := |results| - 1;
      var init := results[..n];
      AppliedIdsMeaning(init);
      CountAppliedLast(results);
      hide CountApplied;
      LookupIsRow(init, results[n].localId);
      assert results[n].localId !in AppliedIds(init);
    }
  }

  lemma RoundCounts(queue: seq<Item>, sent: seq<Item>, reply: Reply)
    requires DistinctIds(queue) && Fair(sent, reply)
    requires forall i :: 0 <= i < |sent| ==> sent[i] in queue
    ensures |ApplyResults(queue, reply.results)| + reply.applied == |queue|
  {
    hide ApplyResults, Lookup, CountApplied, SaysApplied, IdSet, AppliedIds;
    var next, gone := ApplyResults(queue, reply.results), AppliedIds(reply.results);
    RoundKeepsDistinct(queue, reply.results);
    IdSetMeaning(queue);
    IdSetMeaning(next);
    AppliedIdsMeaning(reply.results);
    forall localId
      ensures localId in IdSet(next) <==> localId in IdSet(queue) - gone
      ensures localId in gone ==> localId in IdSet(queue)
    {
      RoundKeepsIff(queue, reply.results, localId);
      AppliedIsQueued(queue, sent, reply, localId);
    }
    assert IdSet(next) == IdSet(queue) - gone;
    assert gone <= IdSet(queue);
  }

  lemma AppliedIsQueued(queue: seq<Item>, sent: seq<Item>, reply: Reply, localId: string)
    requires Fair(sent, reply)
    requires forall i :: 0 <= i < |sent| ==> sent[i] in queue
    ensures SaysApplied(reply.results, localId) ==> Mentions(queue, localId)
  {
    hide Lookup;
    LookupIsRow(reply.results, localId);
    if SaysApplied(reply.results, localId) {
      var i :| 0 <= i < |sent| && sent[i].localId == localId;
      assert sent[i] in queue;
    }
  }

  /** The total the cashier is told is the number of sales that left the queue. */
  lemma {:induction false} AppliedTotalIsExact(server: Server, round: nat, queue: seq<Item>, cashier: string, includeConflicts: bool)
    requires FairServer(server) && DistinctIds(queue)
    ensures var outcome := Sync(server, round, queue, cashier, includeConflicts);
      |outcome.queue| + outcome.applied == |queue|
    decreases |queue|
  {
    hide ApplyResults, Candidates, FairServer, Fair, Stops, DistinctIds;
    var sent := Candidates(queue, cashier, includeConflicts);
    if sent != [] && server(round, sent).Answer? {
      var reply := server(round, sent).reply;
      FairReply(server, round, sent);
      RoundShrinks(queue, cashier, includeConflicts, reply);
      CandidatesAreQueued(queue, cashier, includeConflicts);
      RoundCounts(queue, sent, reply);
      RoundKeepsDistinct(queue, reply.results);
      if !Stops(sent, reply) {
        AppliedTotalIsExact(server, round + 1, ApplyResults(queue, reply.results), cashier, includeConflicts);
      }
    }
  }

  // ---- oldest first ----

  /** The server works through a batch in order and stops at the first sale it cannot apply; when it counts neither
      a conflict nor a failure, no row is one. */
  ghost predicate InOrder(sent: seq<Item>, reply: Reply) {
    && (forall i, j :: 0 <= i < j < |sent| && SaysApplied(reply.results, sent[j].localId) ==>
          SaysApplied(reply.results, sent[i].localId))
    && (reply.conflicts <= 0 && reply.failed <= 0 ==>
          forall k :: 0 <= k < |reply.results| ==> reply.results[k].status in {Applied, Other})
  }

  ghost predicate InOrderServer(server: Server) {
    forall round, sent :: server(round, sent).Answer? ==> InOrder(sent, server(round, sent).reply)
  }

  function Ids(items: seq<Item>): seq<string> {
    if items == [] then [] else [items[0].localId] + Ids(items[1..])
  }

  function NotApplied(ids: seq<string>, results: seq<Row>): seq<string> {
    if ids == [] then [] else (if SaysApplied(results, ids[0]) then [] else [ids[0]]) + NotApplied(ids[1..], results)
  }

  lemma {:induction false} IdsAt(items: seq<Item>)
    ensures |Ids(items)| == |items|
    ensures forall i :: 0 <= i < |items| ==> Ids(items)[i] == items[i].localId
    decreases |items|
  {
    if items != [] {
      IdsAt(items[1..]);
    }
  }

  lemma {:induction false} IdsAppend(a: seq<Item>, b: seq<Item>)
    ensures Ids(a + b) == Ids(a) + Ids(b)
    decreases |a|
  {
    if a == [] {
      assert a + b == b;
    } else {
      IdsAppend(a[1..], b);
      assert (a + b)[1..] == a[1..] + b;
    }
  }

  /** After a round without conflict or failure the eligible sales are the old ones, less those applied. */
  lemma {:induction false} EligibleAfterRound(queue: seq<Item>, cashier: string, includeConflicts: bool, results: seq<Row>)
    requires OnlyEligible(queue, cashier, includeConflicts, results)
    requires forall k :: 0 <= k < |results| ==> results[k].status in {Applied, Other}
    ensures Ids(AllCandidates(ApplyResults(queue, results), cashier, includeConflicts)) ==
      NotApplied(Ids(AllCandidates(queue, cashier, includeConflicts)), results)
    decreases |queue|
  {
    hide Lookup, AllCandidates;
    if queue == [] {
      NoCandidates(cashier, includeConflicts);
    } else {
      assert forall i :: 0 <= i < |queue[1..]| ==> queue[1..][i] == queue[i + 1];
      EligibleAfterRound(queue[1..], cashier, includeConflicts, results);
      var head, rest := Updated(queue[0], results), ApplyResults(queue[1..], results);
      LookupIsRow(results, queue[0].localId);
      CandidatesCons(queue[0], queue[1..], cashier, includeConflicts);
      assert queue == [queue[0]] + queue[1..];
      if head == [] {
        assert head + rest == rest;
      } else {
        assert head == [head[0]] && head[0].localId == queue[0].localId;
        assert !SaysApplied(results, queue[0].localId);
        assert Eligible(head[0], cashier, includeConflicts) <==> Eligible(queue[0], cashier, includeConflicts);
        CandidatesCons(head[0], rest, cashier, includeConflicts);
        var ids := Ids(AllCandidates(queue[1..], cashier, includeConflicts));
        assert ([queue[0].localId] + ids)[1..] == ids && [] + ids == ids;
      }
    }
  }

  lemma NoCandidates(cashier: string, includeConflicts: bool)
    ensures AllCandidates([], cashier, includeConflicts) == []
  {
  }

  lemma {:induction false} CandidatesCons(item: Item, rest: seq<Item>, cashier: string, includeConflicts: bool)
    ensures Ids(AllCandidates([item] + rest, cashier, includeConflicts)) ==
      (if Eligible(item, cashier, includeConflicts) then [item.localId] else []) + Ids(AllCandidates(rest, cashier, includeConflicts))
  {
    var tail := AllCandidates(rest, cashier, includeConflicts);
    assert ([item] + rest)[1..] == rest;
    if Eligible(item, cashier, includeConflicts) {
      assert ([item] + tail)[1..] == tail;
    } else {
      assert [] + tail == tail && [] + Ids(tail) == Ids(tail);
    }
  }

  lemma {:induction false} NotAppliedDrops(ids: seq<string>, results: seq<Row>, k: nat)
    requires k <= |ids|
    requires forall i :: 0 <= i < |ids| ==> (SaysApplied(results, ids[i]) <==> i < k)
    ensures NotApplied(ids, results) == ids[k..]
    decreases |ids|
  {
    hide SaysApplied;
    if ids != [] {
      NotAppliedDrops(ids[1..], results, if k > 0 then k - 1 else 0);
      if k == 0 {
        assert ids[0..] == ids && ids[1..][0..] == ids[1..];
      }
    }
  }

  lemma {:induction false} AllCandidatesDistinct(queue: seq<Item>, cashier: string, includeConflicts: bool)
    requires DistinctIds(queue)
    ensures DistinctIds(AllCandidates(queue, cashier, includeConflicts))
    decreases |queue|
  {
    if queue != [] {
      var rest := AllCandidates(queue[1..], cashier, includeConflicts);
      AllCandidatesDistinct(queue[1..], cashier, includeConflicts);
      AllCandidatesAreQueued(queue[1..], cashier, includeConflicts);
      forall i | 0 <= i < |rest|
        ensures rest[i].localId != queue[0].localId
      {
        assert rest[i] in queue[1..];
      }
    }
  }

  lemma {:induction false} PrefixLength(sent: seq<Item>, results: seq<Row>) returns (k: nat)
    requires forall i, j :: 0 <= i < j < |sent| && SaysApplied(results, sent[j].localId) ==> SaysApplied(results, sent[i].localId)
    ensures k <= |sent|
    ensures forall i :: 0 <= i < |sent| ==> (SaysApplied(results, sent[i].localId) <==> i < k)
    decreases |sent|
  {
    hide SaysApplied;
    var n := |sent| - 1;
    if n < 0 || SaysApplied(results, sent[n].localId) {
      k := |sent|;
    } else {
      k := PrefixLength(sent[..n], results);
    }
  }

  /** The applied sales of a round are the oldest ones of its batch, as many as the reply counts. */
  lemma RoundIsPrefix(queue: seq<Item>, cashier: string, includeConflicts: bool, reply: Reply)
    requires DistinctIds(queue)
    requires Fair(Candidates(queue, cashier, includeConflicts), reply) && InOrder(Candidates(queue, cashier, includeConflicts), reply)
    ensures var all := AllCandidates(queue, cashier, includeConflicts);
      && 0 <= reply.applied <= |all|
      && forall i :: 0 <= i < |all| ==> (SaysApplied(reply.results, all[i].localId) <==> i < reply.applied)
  {
    hide SaysApplied, AllCandidates, Lookup, CountApplied, AppliedIds, Ids, IdSet;
    var all, sent := AllCandidates(queue, cashier, includeConflicts), Candidates(queue, cashier, includeConflicts);
    AllCandidatesDistinct(queue, cashier, includeConflicts);
    var k := PrefixLength(sent, reply.results);
    forall i | 0 <= i < |all|
      ensures SaysApplied(reply.results, all[i].localId) <==> i < k
    {
      AppliedIsQueued(sent, sent, reply, all[i].localId);
    }
    AppliedIdsMeaning(reply.results);
    IdSetMeaning(all[..k]);
    assert AppliedIds(reply.results) == IdSet(all[..k]) by {
      forall localId
        ensures localId in AppliedIds(reply.results) <==> localId in IdSet(all[..k])
      {
        AppliedIsQueued(all, sent, reply, localId);
        assert forall i :: 0 <= i < k ==> all[..k][i] == all[i];
      }
    }
  }

  /** The ids reported applied, in the order of the batches. */
  ghost function AppliedLog(server: Server, round: nat, queue: seq<Item>, cashier: string, includeConflicts: bool): seq<string>
    requires FairServer(server)
    decreases |queue|
  {
    var sent := Candidates(queue, cashier, includeConflicts);
    if sent == [] || !server(round, sent).Answer? then []
    else
      var reply := server(round, sent).reply;
      var next := ApplyResults(queue, reply.results);
      RoundShrinks(queue, cashier, includeConflicts, reply);
      AppliedOf(sent, reply.results)
        + if Stops(sent, reply) then [] else AppliedLog(server, round + 1, next, cashier, includeConflicts)
  }

  function AppliedOf(sent: seq<Item>, results: seq<Row>): seq<string> {
    if sent == [] then []
    else (if SaysApplied(results, sent[0].localId) then [sent[0].localId] else []) + AppliedOf(sent[1..], results)
  }

  lemma {:induction false} AppliedOfPrefix(sent: seq<Item>, results: seq<Row>, k: nat)
    requires k <= |sent|
    requires forall i :: 0 <= i < |sent| ==> (SaysApplied(results, sent[i].localId) <==> i < k)
    ensures AppliedOf(sent, results) == Ids(sent)[..if k <= |Ids(sent)| then k else 0] && |Ids(sent)| == |sent|
    decreases |sent|
  {
    hide SaysApplied;
    IdsAt(sent);
    if sent != [] {
      AppliedOfPrefix(sent[1..], results, if k > 0 then k - 1 else 0);
    }
  }

  /** A synchronisation applies exactly the oldest sales of the cashier that may be sent, in their order. */
  lemma {:induction false} OldestFirst(server: Server, round: nat, queue: seq<Item>, cashier: string, includeConflicts: bool)
    requires FairServer(server) && InOrderServer(server) && DistinctIds(queue)
    ensures var ids, n := Ids(AllCandidates(queue, cashier, includeConflicts)), Sync(server, round, queue, cashier, includeConflicts).applied;
      0 <= n <= |ids| && AppliedLog(server, round, queue, cashier, includeConflicts) == ids[..n]
    decreases |queue|
  {
    hide ApplyResults, FairServer, InOrderServer, Fair, InOrder, DistinctIds, OnlyEligible, AllCandidates, SaysApplied, Ids,
      AppliedOf, NotApplied, Eligible;
    var all, sent := AllCandidates(queue, cashier, includeConflicts), Candidates(queue, cashier, includeConflicts);
    IdsAt(all);
    if sent != [] && server(round, sent).Answer? {
      var reply := server(round, sent).reply;
      var next := ApplyResults(queue, reply.results);
      FairReply(server, round, sent);
      InOrderReply(server, round, sent);
      RoundShrinks(queue, cashier, includeConflicts, reply);
      RoundIsPrefix(queue, cashier, includeConflicts, reply);
      BatchLog(queue, cashier, includeConflicts, reply);
      RoundKeepsDistinct(queue, reply.results);
      if !Stops(sent, reply) {
        OldestFirst(server, round + 1, next, cashier, includeConflicts);
        FairIsOnlyEligible(queue, cashier, includeConflicts, reply);
        NoTrouble(sent, reply);
        EligibleAfterRound(queue, cashier, includeConflicts, reply.results);
        NotAppliedDrops(Ids(all), reply.results, reply.applied);
        PrefixJoins(Ids(all), reply.applied, Sync(server, round + 1, next, cashier, includeConflicts).applied);
      }
    }
  }

  lemma PrefixJoins(ids: seq<string>, k: int, m: int)
    requires 0 <= k <= |ids| && 0 <= m <= |ids[k..]|
    ensures ids[..k] + ids[k..][..m] == ids[..k + m]
  {
  }

  lemma InOrderReply(server: Server, round: nat, sent: seq<Item>)
    requires InOrderServer(server) && server(round, sent).Answer?
    ensures InOrder(sent, server(round, sent).reply)
  {
  }

  lemma NoTrouble(sent: seq<Item>, reply: Reply)
    requires InOrder(sent, reply) && !Stops(sent, reply)
    ensures forall k :: 0 <= k < |reply.results| ==> reply.results[k].status in {Applied, Other}
  {
  }

  lemma BatchLog(queue: seq<Item>, cashier: string, includeConflicts: bool, reply: Reply)
    requires DistinctIds(queue)
    requires Fair(Candidates(queue, cashier, includeConflicts), reply) && InOrder(Candidates(queue, cashier, includeConflicts), reply)
    ensures var ids := Ids(AllCandidates(queue, cashier, includeConflicts));
      0 <= reply.applied <= |ids| && AppliedOf(Candidates(queue, cashier, includeConflicts), reply.results) == ids[..reply.applied]
  {
    hide SaysApplied, AllCandidates, Lookup, CountApplied, AppliedIds, Ids, IdSet, AppliedOf;
    var all, sent := AllCandidates(queue, cashier, includeConflicts), Candidates(queue, cashier, includeConflicts);
    RoundIsPrefix(queue, cashier, includeConflicts, reply);
    IdsAt(all);
    IdsAt(sent);
    if reply.applied > |sent| {
      AppliedIsQueued(sent, sent, reply, all[|sent|].localId);
      AllCandidatesDistinct(queue, cashier, includeConflicts);
      assert false;
    }
    AppliedOfPrefix(sent, reply.results, reply.applied);
  }

  // ---- what stays, and in which state ----

  /** The row that counts for a sale is the last of its id. */
  ghost predicate LastRow(rows: seq<Row>, localId: string, row: Row) {
    exists k :: 0 <= k < |rows| && rows[k] == row && row.localId == localId && forall j :: k < j < |rows| ==> rows[j].localId != localId
  }

  ghost predicate NoRow(rows: seq<Row>, localId: string) {
    forall k :: 0 <= k < |rows| ==> rows[k].localId != localId
  }

  lemma {:induction false} LookupIsLast(rows: seq<Row>, localId: string)
    ensures Lookup(rows, localId).None? <==> NoRow(rows, localId)
    ensures forall row :: Lookup(rows, localId) == Some(row) <==> LastRow(rows, localId, row)
    decreases |rows|
  {
    if rows != [] {
      var n := |rows| - 1;
      var init := rows[..n];
      LookupIsLast(init, localId);
      assert forall k :: 0 <= k < n ==> init[k] == rows[k];
      forall row
        ensures Lookup(rows, localId) == Some(row) <==> LastRow(rows, localId, row)
      {
        if rows[n].localId != localId && LastRow(init, localId, row) {
          var k :| 0 <= k < n && init[k] == row && row.localId == localId && forall j :: k < j < n ==> init[j].localId != localId;
          assert forall j :: k < j < |rows| ==> rows[j].localId != localId;
        }
      }
    }
  }

  /** A sale that stays, as the rows leave it: unchanged without a row; in conflict, failed or pending as its last row
      says, with the reason the row gives. */
  ghost predicate LeftBy(rows: seq<Row>, was: Item, left: Item) {
    && SameSale(was, left)
    && (NoRow(rows, was.localId) ==> left == was)
    && forall row :: LastRow(rows, was.localId, row) ==>
         match row.status
         case Applied => false
         case InConflict =>
           left.status == Conflict
           && left.error == if row.reason.Some? then row.reason.value else "Transaksi membutuhkan penyelesaian konflik."
         case HasFailed =>
           left.status == Failed
           && left.error == if row.reason.Some? then row.reason.value else "Sinkronisasi gagal dan akan dicoba kembali."
         case Other => left.status == Pending && left.error == was.error
  }

  lemma UpdatedIsLeft(item: Item, rows: seq<Row>)
    ensures forall left :: left in Updated(item, rows) ==> LeftBy(rows, item, left)
    ensures Updated(item, rows) == [] <==> exists row :: LastRow(rows, item.localId, row) && row.status == Applied
  {
    hide Lookup, LastRow, NoRow;
    LookupIsLast(rows, item.localId);
    var row := Lookup(rows, item.localId);
    if row.Some? {
      assert LastRow(rows, item.localId, row.value);
    }
  }

  ghost predicate Comes(queue: seq<Item>, rows: seq<Row>, left: Item) {
    exists was :: was in queue && LeftBy(rows, was, left)
  }

  /** The sale stays in some state its rows allow, or its row says APPLIED. */
  ghost predicate GoesOn(next: seq<Item>, rows: seq<Row>, was: Item) {
    || (exists left :: left in next && LeftBy(rows, was, left))
    || (exists row :: LastRow(rows, was.localId, row) && row.status == Applied)
  }

  /** Every sale of the queue stays as its row leaves it, unless that row says APPLIED; and nothing else stays. */
  lemma {:induction false} RoundLeaves(queue: seq<Item>, rows: seq<Row>)
    ensures forall left :: left in ApplyResults(queue, rows) ==> Comes(queue, rows, left)
    ensures forall was :: was in queue ==> GoesOn(ApplyResults(queue, rows), rows, was)
    decreases |queue|
  {
    hide Comes, GoesOn, Updated;
    if queue != [] {
      RoundLeaves(queue[1..], rows);
      var head, rest := Updated(queue[0], rows), ApplyResults(queue[1..], rows);
      forall left | left in head + rest
        ensures Comes(queue, rows, left)
      {
        ComesFrom(queue, rows, left);
      }
      forall was | was in queue
        ensures GoesOn(head + rest, rows, was)
      {
        GoesOnIn(queue, rows, was);
      }
    }
  }

  lemma ComesFrom(queue: seq<Item>, rows: seq<Row>, left: Item)
    requires queue != [] && (left in Updated(queue[0], rows) || Comes(queue[1..], rows, left))
    ensures Comes(queue, rows, left)
  {
    hide LeftBy, Updated;
    UpdatedIsLeft(queue[0], rows);
    if left in Updated(queue[0], rows) {
      assert queue[0] in queue && LeftBy(rows, queue[0], left);
    } else {
      var was :| was in queue[1..] && LeftBy(rows, was, left);
      assert was in queue;
    }
  }

  lemma GoesOnIn(queue: seq<Item>, rows: seq<Row>, was: Item)
    requires queue != [] && (was == queue[0] || GoesOn(ApplyResults(queue[1..], rows), rows, was))
    ensures GoesOn(Updated(queue[0], rows) + ApplyResults(queue[1..], rows), rows, was)
  {
    hide LeftBy, LastRow, Updated, ApplyResults;
    UpdatedIsLeft(queue[0], rows);
    var head, rest := Updated(queue[0], rows), ApplyResults(queue[1..], rows);
    if was == queue[0] {
      if head != [] {
        assert head[0] in head + rest && LeftBy(rows, was, head[0]);
      }
    } else if left :| left in rest && LeftBy(rows, was, left) {
      assert left in head + rest;
    }
  }

  /** Which sales a synchronisation may send, in plain words; a batch is the first fifty of them. */
  lemma {:induction false} SentAre(queue: seq<Item>, cashier: string, includeConflicts: bool)
    ensures forall item :: item in AllCandidates(queue, cashier, includeConflicts) <==>
      item in queue && item.cashier == cashier && (includeConflicts || item.status == Pending || item.status == Failed)
    ensures var all := AllCandidates(queue, cashier, includeConflicts);
      Candidates(queue, cashier, includeConflicts) == all[..Min(50, |all|)]
    decreases |queue|
  {
    if queue != [] {
      SentAre(queue[1..], cashier, includeConflicts);
    }
  }

  /** A sale that stays after a round is sent by a later synchronisation of its cashier without conflicts if and only if
      its row is not CONFLICT or, without a row, it was sendable before; one that includes conflicts sends it anyway. */
  lemma SentLaterIff(queue: seq<Item>, rows: seq<Row>, was: Item, left: Item)
    requires was in queue && left in ApplyResults(queue, rows) && LeftBy(rows, was, left)
    ensures left in AllCandidates(ApplyResults(queue, rows), was.cashier, true)
    ensures left in AllCandidates(ApplyResults(queue, rows), was.cashier, false) <==>
      if NoRow(rows, was.localId) then was in AllCandidates(queue, was.cashier, false)
      else forall row :: LastRow(rows, was.localId, row) ==> row.status != InConflict
  {
    hide Lookup, LastRow, NoRow, AllCandidates, ApplyResults;
    SentAre(queue, was.cashier, false);
    SentAre(ApplyResults(queue, rows), was.cashier, false);
    SentAre(ApplyResults(queue, rows), was.cashier, true);
    LookupIsLast(rows, was.localId);
    if Lookup(rows, was.localId).Some? {
      assert LastRow(rows, was.localId, Lookup(rows, was.localId).value);
    }
  }

  // ---- the state a whole synchronisation leaves ----

  /** The rows of all replies, one after another. */
  function RowsOf(replies: seq<Reply>): seq<Row> {
    if replies == [] then [] else replies[0].results + RowsOf(replies[1..])
  }

  lemma {:induction false} LookupAppend(a: seq<Row>, b: seq<Row>, localId: string)
    ensures Lookup(a + b, localId) == if Lookup(b, localId).Some? then Lookup(b, localId) else Lookup(a, localId)
    decreases |b|
  {
    if b == [] {
      assert a + b == a;
    } else {
      assert (a + b)[..|a + b| - 1] == a + b[..|b| - 1];
      LookupAppend(a, b[..|b| - 1], localId);
    }
  }

  function StatusBy(rows: seq<Row>, was: Item): Status {
    match Lookup(rows, was.localId)
    case None => was.status
    case Some(row) => if row.status == InConflict then Conflict else if row.status == HasFailed then Failed else Pending
  }

  ghost predicate Stands(queue: seq<Item>, rows: seq<Row>, left: Item) {
    exists was :: was in queue && SameSale(was, left) && left.status == StatusBy(rows, was)
  }

  lemma LeftHasStatus(rows: seq<Row>, was: Item, left: Item)
    requires LeftBy(rows, was, left)
    ensures SameSale(was, left) && left.status == StatusBy(rows, was)
  {
    hide Lookup, LastRow, NoRow;
    LookupIsLast(rows, was.localId);
    if Lookup(rows, was.localId).Some? {
      assert LastRow(rows, was.localId, Lookup(rows, was.localId).value);
    }
  }

  lemma RoundStands(queue: seq<Item>, rows: seq<Row>, left: Item)
    requires left in ApplyResults(queue, rows)
    ensures Stands(queue, rows, left)
  {
    hide LeftBy, StatusBy, ApplyResults;
    RoundLeaves(queue, rows);
    assert Comes(queue, rows, left);
    var was :| was in queue && LeftBy(rows, was, left);
    LeftHasStatus(rows, was, left);
  }

  lemma StandsLater(queue: seq<Item>, first: seq<Row>, later: seq<Row>, middle: Item, left: Item)
    requires Stands(queue, first, middle) && SameSale(middle, left) && left.status == StatusBy(later, middle)
    ensures Stands(queue, first + later, left)
  {
    hide Lookup;
    var was :| was in queue && SameSale(was, middle) && middle.status == StatusBy(first, was);
    LookupAppend(first, later, was.localId);
  }

  lemma {:induction false} SyncStands(server: Server, round: nat, queue: seq<Item>, cashier: string, includeConflicts: bool)
    requires FairServer(server)
    ensures var rows := RowsOf(Replies(server, round, queue, cashier, includeConflicts));
      forall left :: left in Sync(server, round, queue, cashier, includeConflicts).queue ==> Stands(queue, rows, left)
    decreases |queue|
  {
    hide ApplyResults, FairServer, Fair, Candidates, Lookup, Stops, StatusBy, Stands;
    var sent := Candidates(queue, cashier, includeConflicts);
    var rows := RowsOf(Replies(server, round, queue, cashier, includeConflicts));
    if sent == [] || !server(round, sent).Answer? {
      forall left | left in queue
        ensures Stands(queue, [], left)
      {
        Unmoved(queue, left);
      }
    } else {
      var reply := server(round, sent).reply;
      var next := ApplyResults(queue, reply.results);
      FairReply(server, round, sent);
      RoundShrinks(queue, cashier, includeConflicts, reply);
      if Stops(sent, reply) {
        OneReply(reply);
        forall left | left in next
          ensures Stands(queue, reply.results, left)
        {
          RoundStands(queue, reply.results, left);
        }
      } else {
        var replies := Replies(server, round + 1, next, cashier, includeConflicts);
        SyncStands(server, round + 1, next, cashier, includeConflicts);
        assert ([reply] + replies)[1..] == replies;
        forall left | left in Sync(server, round + 1, next, cashier, includeConflicts).queue
          ensures Stands(queue, reply.results + RowsOf(replies), left)
        {
          var middle := Middle(next, RowsOf(replies), left);
          RoundStands(queue, reply.results, middle);
          StandsLater(queue, reply.results, RowsOf(replies), middle, left);
        }
      }
    }
  }

  lemma OneReply(reply: Reply)
    ensures [reply] + [] == [reply] && RowsOf([reply]) == reply.results
  {
    assert [reply][1..] == [] && RowsOf([]) == [] && reply.results + [] == reply.results;
  }

  lemma Unmoved(queue: seq<Item>, left: Item)
    requires left in queue
    ensures Stands(queue, [], left)
  {
  }

  lemma Middle(queue: seq<Item>, rows: seq<Row>, left: Item) returns (middle: Item)
    requires Stands(queue, rows, left)
    ensures middle in queue && SameSale(middle, left) && left.status == StatusBy(rows, middle)
  {
    middle :| middle in queue && SameSale(middle, left) && left.status == StatusBy(rows, middle);
  }

  /** What a sale came to: the last of all its rows gives its state, and without one it keeps its own. */
  ghost predicate SettledBy(rows: seq<Row>, was: Item, left: Item) {
    && SameSale(was, left)
    && (NoRow(rows, was.localId) ==> left.status == was.status)
    && forall row :: LastRow(rows, was.localId, row) ==>
         && (left.status == Conflict <==> row.status == InConflict)
         && (left.status == Failed <==> row.status == HasFailed)
  }

  ghost predicate Settled(before: seq<Item>, rows: seq<Row>, after: seq<Item>) {
    forall left :: left in after ==> exists was :: was in before && SettledBy(rows, was, left)
  }

  lemma SyncSettles(server: Server, queue: seq<Item>, cashier: string, includeConflicts: bool)
    requires FairServer(server)
    ensures Settled(queue, RowsOf(Replies(server, 0, queue, cashier, includeConflicts)),
                    Sync(server, 0, queue, cashier, includeConflicts).queue)
  {
    hide Replies, Sync, RowsOf, Lookup, LastRow, NoRow, FairServer;
    var rows, after := RowsOf(Replies(server, 0, queue, cashier, includeConflicts)), Sync(server, 0, queue, cashier, includeConflicts).queue;
    SyncStands(server, 0, queue, cashier, includeConflicts);
    forall left | left in after
      ensures exists was :: was in queue && SettledBy(rows, was, left)
    {
      assert Stands(queue, rows, left);
      var was := Middle(queue, rows, left);
      LookupIsLast(rows, was.localId);
      assert SettledBy(rows, was, left);
    }
  }

  // ---- storage ----

  /** sort by sequence; the sort is stable. */
  function SortedInsert(item: Item, queue: seq<Item>): seq<Item> {
    if queue == [] || item.sequence <= queue[0].sequence then [item] + queue
    else [queue[0]] + SortedInsert(item, queue[1..])
  }

  function SortBySequence(queue: seq<Item>): seq<Item> {
    if queue == [] then [] else SortedInsert(queue[0], SortBySequence(queue[1..]))
  }

  ghost predicate Ordered(queue: seq<Item>) {
    forall i, j :: 0 <= i < j < |queue| ==> queue[i].sequence <= queue[j].sequence
  }

  lemma {:induction false} InsertAdds(item: Item, queue: seq<Item>)
    ensures multiset(SortedInsert(item, queue)) == multiset([item]) + multiset(queue)
    decreases |queue|
  {
    if queue != [] && item.sequence > queue[0].sequence {
      InsertAdds(item, queue[1..]);
      assert queue == [queue[0]] + queue[1..];
    }
  }

  lemma {:induction false} InsertSorts(item: Item, queue: seq<Item>, least: int)
    requires Ordered(queue) && least <= item.sequence
    requires forall i :: 0 <= i < |queue| ==> least <= queue[i].sequence
    ensures Ordered(SortedInsert(item, queue))
    ensures forall i :: 0 <= i < |SortedInsert(item, queue)| ==> least <= SortedInsert(item, queue)[i].sequence
    decreases |queue|
  {
    if queue != [] && item.sequence > queue[0].sequence {
      InsertSorts(item, queue[1..], queue[0].sequence);
    }
  }

  /** What is saved is the same sales, in order. */
  lemma {:induction false} SavedInOrder(queue: seq<Item>)
    ensures Ordered(SortBySequence(queue)) && multiset(SortBySequence(queue)) == multiset(queue)
    decreases |queue|
  {
    hide SortedInsert;
    if queue != [] {
      var rest := SortBySequence(queue[1..]);
      SavedInOrder(queue[1..]);
      InsertSorts(queue[0], rest, if rest == [] || queue[0].sequence < rest[0].sequence then queue[0].sequence else rest[0].sequence);
      InsertAdds(queue[0], rest);
      assert queue == [queue[0]] + queue[1..];
    }
  }

  lemma {:induction false} OrderedIsSaved(queue: seq<Item>)
    requires Ordered(queue)
    ensures SortBySequence(queue) == queue
    decreases |queue|
  {
    if queue != [] {
      OrderedIsSaved(queue[1..]);
    }
  }

  /** What loadOfflineQueue keeps of the stored items. */
  predicate Readable(item: Item) {
    item.sequence > 0 && item.cashier != ""
  }

  function ReadableOnly(items: seq<Item>): seq<Item> {
    if items == [] then [] else (if Readable(items[0]) then [items[0]] else []) + ReadableOnly(items[1..])
  }

  function LoadOfflineQueue(stored: seq<Item>): seq<Item> {
    SortBySequence(ReadableOnly(stored))
  }

  lemma {:induction false} AllReadable(items: seq<Item>)
    requires forall item :: item in items ==> Readable(item)
    ensures ReadableOnly(items) == items
    decreases |items|
  {
    if items != [] {
      assert items[0] in items;
      AllReadable(items[1..]);
    }
  }

  lemma {:induction false} OnlyReadableStay(items: seq<Item>)
    ensures forall item :: item in ReadableOnly(items) <==> item in items && item.sequence >= 1 && item.cashier != ""
    decreases |items|
  {
    if items != [] {
      OnlyReadableStay(items[1..]);
    }
  }

  ghost predicate Legible(queue: seq<Item>) {
    forall item :: item in queue ==> item.sequence >= 1 && item.cashier != ""
  }

  lemma LegibleIsSorted(queue: seq<Item>, kept: seq<Item>)
    requires SortBySequence(kept) == queue && Legible(kept)
    ensures Ordered(queue) && Legible(queue)
  {
    hide SortBySequence;
    SavedInOrder(kept);
    forall item | item in queue
      ensures item in kept
    {
      assert item in multiset(queue);
    }
  }

  /** Loading gives back the queue that was saved if and only if its numbers do not decrease, start at one or later, and
      every sale has its cashier. */
  lemma LoadSavedIff(queue: seq<Item>)
    ensures LoadOfflineQueue(SortBySequence(queue)) == queue <==>
      && (forall i, j :: 0 <= i < j < |queue| ==> queue[i].sequence <= queue[j].sequence)
      && forall item :: item in queue ==> item.sequence >= 1 && item.cashier != ""
  {
    hide SortBySequence, ReadableOnly;
    var kept := ReadableOnly(SortBySequence(queue));
    OnlyReadableStay(SortBySequence(queue));
    if Ordered(queue) && Legible(queue) {
      OrderedIsSaved(queue);
      AllReadable(queue);
    } else if SortBySequence(kept) == queue {
      LegibleIsSorted(queue, kept);
    }
  }

  const MAX_SAFE_INTEGER := 0x1F_FFFF_FFFF_FFFF

  /** nextOfflineSequence: one more than a usable stored number, or one. */
  function NextNumber(last: Option<int>): int {
    match last
    case Some(previous) => if 0 <= previous <= MAX_SAFE_INTEGER then previous + 1 else 1
    case None => 1
  }

  /** The register's memory: the queue in local storage and on the screen, and the last sequence number. */
  class OfflineStore {
    var stored: seq<Item>
    var shown: seq<Item>
    var lastSequence: Option<int>

    /** Storage holds what the screen shows, in order of sequence. */
    ghost predicate Valid()
      reads this
    {
      stored == SortBySequence(shown) && DistinctIds(shown)
    }

    constructor ()
      ensures Valid() && shown == []
    {
      stored, shown, lastSequence := [], [], Some(0);
    }

    /** Writing the number back can throw; then it stays as it was. */
    method NextOfflineSequence(writable: bool) returns (next: Option<int>)
      modifies this`lastSequence
      ensures next == if writable then Some(NextNumber(old(lastSequence))) else None
      ensures writable && old(lastSequence).Some? && 0 <= old(lastSequence).value <= 9_007_199_254_740_991 ==>
        next.value - 1 == old(lastSequence).value
      ensures writable && (old(lastSequence).None? || !(0 <= old(lastSequence).value <= 9_007_199_254_740_991)) ==> next.value == 1
      ensures lastSequence == if writable then next else old(lastSequence)
    {
      var number := if lastSequence.Some? && 0 <= lastSequence.value <= MAX_SAFE_INTEGER then lastSequence.value + 1 else 1;
      if !writable {
        return None;
      }
      lastSequence := Some(number);
      next := Some(number);
    }

    /** Saving can fail; then neither storage nor screen changes. */
    method PersistOfflineQueue(next: seq<Item>, writable: bool) returns (saved: bool)
      modifies this`stored, this`shown
      ensures saved == writable
      ensures if saved then stored == SortBySequence(next) && shown == next else stored == old(stored) && shown == old(shown)
    {
      if writable {
        stored := SortBySequence(next);
        shown := next;
      }
      saved := writable;
    }

    /** A sale joins the end of the queue under the next number; the others stay. The order stays strict exactly when
        the number is above all others, which a restart at one can break. Writing the number can throw, and so can
        writing the queue; the number is then used up. */
    method QueueSaleOffline(localId: string, cashier: string, key: nat, numbered: bool, writable: bool) returns (saved: bool)
      requires Valid() && !Mentions(shown, localId)
      modifies this
      ensures Valid() && saved == (numbered && writable)
      ensures lastSequence == if numbered then Some(NextNumber(old(lastSequence))) else old(lastSequence)
      ensures shown == old(shown) + if saved then [Item(localId, lastSequence.value, cashier, key, Pending, "")] else []
      ensures saved && StrictlyOrdered(old(shown)) ==>
        (StrictlyOrdered(shown) <==> forall i :: 0 <= i < |old(shown)| ==> old(shown)[i].sequence < lastSequence.value)
    {
      hide SortBySequence, StrictlyOrdered, DistinctIds, Mentions;
      var sequence := NextOfflineSequence(numbered);
      if sequence.None? {
        return false;
      }
      var item := Item(localId, sequence.value, cashier, key, Pending, "");
      var next := shown + [item];
      AppendOrderIff(shown, item);
      saved := PersistOfflineQueue(next, writable);
    }

    /** Saving the queue can throw after a round; then the sales just applied stay in it, to be sent again. */
    method SyncOfflineQueue(server: Server, cashier: string, includeConflicts: bool)
        returns (applied: int, conflicts: int, failed: int)
      requires Valid() && FairServer(server)
      modifies this`stored, this`shown
      ensures Valid()
      ensures Outcome(shown, applied, conflicts, failed) == Sync(server, 0, old(shown), cashier, includeConflicts)
      ensures StrictlyOrdered(old(shown)) ==> StrictlyOrdered(shown)
      ensures OthersOf(shown, cashier) == OthersOf(old(shown), cashier)
      ensures |shown| + applied == |old(shown)|
    {
      hide Candidates, ApplyResults, FairServer, Fair, OthersOf, StrictlyOrdered, DistinctIds, SortBySequence, Stops;
      SyncKeepsOthers(server, 0, shown, cashier, includeConflicts);
      AppliedTotalIsExact(server, 0, shown, cashier, includeConflicts);
      if StrictlyOrdered(shown) {
        SyncKeepsOrder(server, 0, shown, cashier, includeConflicts);
      }
      var workingQueue := shown;
      var round := 0;
      var going := true;
      applied, conflicts, failed := 0, 0, 0;
      while going
        invariant workingQueue == shown && Valid()
        invariant var rest :=
            if going then Sync(server, round, workingQueue, cashier, includeConflicts) else Outcome(workingQueue, 0, 0, 0);
          AddedTo(rest, applied, conflicts, failed) == Sync(server, 0, old(shown), cashier, includeConflicts)
        decreases going, |workingQueue|
      {
        var candidates := Candidates(workingQueue, cashier, includeConflicts);
        if candidates == [] {
          going := false;
        } else {
          var response := server(round, candidates);
          if !response.Answer? {
            going := false;
          } else {
            FairReply(server, round, candidates);
            RoundShrinks(workingQueue, cashier, includeConflicts, response.reply);
            RoundKeepsDistinct(workingQueue, response.reply.results);
            workingQueue := ApplyResults(workingQueue, response.reply.results);
            stored := SortBySequence(workingQueue);
            shown := workingQueue;
            applied := applied + response.reply.applied;
            conflicts := conflicts + response.reply.conflicts;
            failed := failed + response.reply.failed;
            going := !Stops(candidates, response.reply);
            round := round + 1;
          }
        }
      }
    }
  }

  lemma AppendOrderIff(queue: seq<Item>, item: Item)
    requires DistinctIds(queue) && !Mentions(queue, item.localId)
    ensures DistinctIds(queue + [item])
    ensures StrictlyOrdered(queue) ==>
      (StrictlyOrdered(queue + [item]) <==> forall i :: 0 <= i < |queue| ==> queue[i].sequence < item.sequence)
  {
    var all := queue + [item];
    assert all[|queue|] == item && forall i :: 0 <= i < |queue| ==> all[i] == queue[i];
  }

  ghost function AddedTo(o: Outcome, applied: int, conflicts: int, failed: int): Outcome {
    Outcome(o.queue, applied + o.applied, conflicts + o.conflicts, failed + o.failed)
  }
}
