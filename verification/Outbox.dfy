/** The transactional outbox and its publishers (karsasec/events/outbox.py, karsasec/events/publisher.py). */
module Outbox {
  import opened Common

  datatype Status = Pending | Claimed | Published | Failed

  datatype Event = Event(
    aggregateId: string, eventType: string, payload: string, sequence: int, deduplicationKey: Option<string>,
    status: Status, claimedBy: Option<string>, leaseToken: Option<string>, attemptCount: int)

  const MAX_ATTEMPTS := 5

  // ----- what the statements of the outbox do to one row -----

  function ClaimedRow(e: Event, publisherId: string, token: string): Event {
    e.(status := Claimed, claimedBy := Some(publisherId), leaseToken := Some(token))
  }

  function FailedRow(e: Event, maxAttempts: int): Event {
    e.(attemptCount := e.attemptCount + 1, status := if e.attemptCount + 1 >= maxAttempts then Failed else Pending,
       claimedBy := None, leaseToken := None)
  }

  /** The ids selected for claiming: the oldest pending ones, skipping rows locked by other publishers. */
  function Selected(rows: map<string, Event>, order: seq<string>, limit: nat, locked: set<string>): seq<string>
    requires forall id :: id in order ==> id in rows
  {
    if order == [] || limit == 0 then []
    else if rows[order[0]].status == Pending && order[0] !in locked then
      [order[0]] + Selected(rows, order[1..], limit - 1, locked)
    else Selected(rows, order[1..], limit, locked)
  }

  lemma {:induction false} SelectedFacts(rows: map<string, Event>, order: seq<string>, limit: nat, locked: set<string>)
    requires (forall id :: id in order ==> id in rows) && Distinct(order)
    ensures Distinct(Selected(rows, order, limit, locked)) && |Selected(rows, order, limit, locked)| <= limit
    ensures forall id :: id in Selected(rows, order, limit, locked) ==>
              id in order && rows[id].status == Pending && id !in locked
    ensures limit > 0 && (exists id :: id in order && rows[id].status == Pending && id !in locked) ==>
              Selected(rows, order, limit, locked) != []
    decreases |order|
  {
    if order != [] && limit > 0 {
      assert order == [order[0]] + order[1..];
      if rows[order[0]].status == Pending && order[0] !in locked {
        SelectedFacts(rows, order[1..], limit - 1, locked);
      } else {
        SelectedFacts(rows, order[1..], limit, locked);
      }
    }
  }

  /** Whether the row at position `k` of the creation order waits for a publisher. */
  ghost predicate Waits(rows: map<string, Event>, order: seq<string>, locked: set<string>, k: int)
    requires 0 <= k < |order| && order[k] in rows
  {
    rows[order[k]].status == Pending && order[k] !in locked
  }

  ghost function CountWaiting(rows: map<string, Event>, order: seq<string>, locked: set<string>): nat
    requires forall id :: id in order ==> id in rows
  {
    if order == [] then 0
    else (if rows[order[0]].status == Pending && order[0] !in locked then 1 else 0) + CountWaiting(rows, order[1..], locked)
  }

  /**
   The selection is by age: as many as the limit allows, and a row that waits is selected exactly when
   fewer rows than the limit wait that were created before it.
   */
  lemma {:induction false} SelectedByAge(rows: map<string, Event>, order: seq<string>, limit: nat, locked: set<string>, k: nat)
    requires (forall id :: id in order ==> id in rows) && Distinct(order) && k < |order|
    ensures order[k] in Selected(rows, order, limit, locked) <==>
              Waits(rows, order, locked, k) && CountWaiting(rows, order[..k], locked) < limit
    decreases |order|
  {
    assert order == [order[0]] + order[1..];
    if limit > 0 {
      var waits := rows[order[0]].status == Pending && order[0] !in locked;
      var rest := if waits then limit - 1 else limit;
      if k == 0 {
        SelectedFacts(rows, order[1..], rest, locked);
        assert order[0] !in order[1..];
      } else {
        SelectedByAge(rows, order[1..], rest, locked, k - 1);
        assert order[..k][1..] == order[1..][..k - 1] && order[1..][k - 1] == order[k];
      }
    }
  }

  class TransactionalOutbox {
    var rows: map<string, Event>
    /** The ids in the order of their creation. */
    var order: seq<string>

    ghost predicate Valid()
      reads this
    {
      Distinct(order) && forall id :: id in order <==> id in rows
    }

    constructor ()
      ensures Valid() && rows == map[] && order == []
    {
      rows, order := map[], [];
    }

    /** Stages an event unless one with the same (non-empty) deduplication key exists already. */
    method StageEvent(newId: string, aggregateId: string, eventType: string, payload: string, sequence: int,
                      deduplicationKey: Option<string>)
        returns (id: string)
      requires Valid() && newId !in rows
      modifies this
      ensures Valid() && id in rows
      ensures deduplicationKey.Some? && deduplicationKey.value != "" ==> rows[id].deduplicationKey == deduplicationKey
      ensures if deduplicationKey.Some? && deduplicationKey.value != "" &&
                 exists k :: k in old(rows) && old(rows)[k].deduplicationKey == deduplicationKey
              then rows == old(rows) && order == old(order)
              else id == newId && order == old(order) + [newId] && rows == old(rows)[newId :=
                     Event(aggregateId, eventType, payload, sequence, deduplicationKey, Pending, None, None, 0)]
    {
      if deduplicationKey.Some? && deduplicationKey.value != "" {
        for i := 0 to |order|
          invariant forall k :: 0 <= k < i ==> rows[order[k]].deduplicationKey != deduplicationKey
        {
          if rows[order[i]].deduplicationKey == deduplicationKey {
            return order[i];
          }
        }
      }
      rows := rows[newId := Event(aggregateId, eventType, payload, sequence, deduplicationKey, Pending, None, None, 0)];
      order := order + [newId];
      id := newId;
    }

    method ClaimPendingEvents(publisherId: string, token: string, limit: nat, locked: set<string>) returns (claimed: seq<string>)
      requires Valid()
      modifies this`rows
      ensures Valid() && claimed == Selected(old(rows), order, limit, locked)
      ensures rows == map id | id in old(rows) ::
                        if id in claimed then ClaimedRow(old(rows)[id], publisherId, token) else old(rows)[id]
    {
      ghost var before := rows;
      var events := Selected(rows, order, limit, locked);
      SelectedFacts(rows, order, limit, locked);
      claimed := [];
      for i := 0 to |events|
        invariant claimed == events[..i] && rows.Keys == before.Keys
        invariant forall id :: id in rows ==>
                    rows[id] == if id in events[..i] then ClaimedRow(before[id], publisherId, token) else before[id]
      {
        assert events[..i + 1] == events[..i] + [events[i]];
        assert events[i] !in events[..i];
        rows := rows[events[i] := ClaimedRow(rows[events[i]], publisherId, token)];
        claimed := claimed + [events[i]];
      }
      assert events[..|events|] == events;
    }

    /** Publishes only a row that this publisher's lease still holds. */
    method MarkPublished(id: string, publisherId: string, token: string) returns (ok: bool)
      modifies this`rows
      ensures ok <==> id in old(rows) && old(rows)[id].status == Claimed
                      && old(rows)[id].claimedBy == Some(publisherId) && old(rows)[id].leaseToken == Some(token)
      ensures rows == if ok then old(rows)[id := old(rows)[id].(status := Published)] else old(rows)
    {
      ok := id in rows && rows[id].status == Claimed && rows[id].claimedBy == Some(publisherId) && rows[id].leaseToken == Some(token);
      if ok {
        rows := rows[id := rows[id].(status := Published)];
      }
    }

    /** Counts an attempt; the event waits for another exactly while fewer than `maxAttempts` are counted. */
    method MarkFailed(id: string, maxAttempts: int := MAX_ATTEMPTS)
      modifies this`rows
      ensures rows == if id in old(rows) then old(rows)[id := FailedRow(old(rows)[id], maxAttempts)] else old(rows)
      ensures id in old(rows) ==> id in rows && rows[id].attemptCount == old(rows)[id].attemptCount + 1
      ensures id in old(rows) ==> rows[id].status == if rows[id].attemptCount < maxAttempts then Pending else Failed
      ensures id in old(rows) ==> rows[id].claimedBy == None && rows[id].leaseToken == None
    {
      if id !in rows {
        return;
      }
      var e := rows[id];
      e := e.(attemptCount := e.attemptCount + 1);
      if e.attemptCount >= maxAttempts {
        e := e.(status := Failed);
      } else {
        e := e.(status := Pending);
      }
      rows := rows[id := e.(claimedBy := None, leaseToken := None)];
    }
  }

  // ----- one poll -----

  /** One poll of one publisher: which rows others hold, which handler calls would succeed, whether it commits. */
  datatype Poll = Poll(publisher: string, limit: nat, locked: set<string>, succeeds: set<string>, commits: bool)

  /** A call of the handler and whether it completed. */
  datatype Delivery = Delivery(publisher: string, id: string, completed: bool)

  function LeaseToken(publisher: string): string {
    "tok_" + publisher
  }

  /** A claimed row after the poll has dealt with it. */
  function Dealt(e: Event, p: Poll, id: string, processed: set<string>): Event {
    if id in processed || id in p.succeeds then
      ClaimedRow(e, p.publisher, LeaseToken(p.publisher)).(status := Published)
    else FailedRow(e, MAX_ATTEMPTS)
  }

  /** The rows after a poll has dealt with the ids it selected. */
  function Polled(rows: map<string, Event>, ids: seq<string>, p: Poll, processed: set<string>): map<string, Event> {
    map id | id in rows :: if id in ids then Dealt(rows[id], p, id, processed) else rows[id]
  }

  function Processed(ids: seq<string>, p: Poll, processed: set<string>): set<string> {
    processed + set id | id in ids && id in p.succeeds
  }

  function Calls(ids: seq<string>, p: Poll, processed: set<string>): seq<Delivery> {
    if ids == [] then []
    else Calls(ids[..|ids| - 1], p, processed) +
         if ids[|ids| - 1] in processed then [] else [Delivery(p.publisher, ids[|ids| - 1], ids[|ids| - 1] in p.succeeds)]
  }

  function PublishedCount(ids: seq<string>, p: Poll, processed: set<string>): nat {
    if ids == [] then 0
    else PublishedCount(ids[..|ids| - 1], p, processed) +
         if ids[|ids| - 1] in processed || ids[|ids| - 1] in p.succeeds then 1 else 0
  }

  /** The rows when the first `i` of the claimed ids have been dealt with. */
  ghost function Midway(rows: map<string, Event>, ids: seq<string>, i: nat, p: Poll, processed: set<string>): map<string, Event>
    requires i <= |ids|
  {
    map id | id in rows :: if id in ids[..i] then Dealt(rows[id], p, id, processed)
                           else if id in ids then ClaimedRow(rows[id], p.publisher, LeaseToken(p.publisher))
                           else rows[id]
  }

  lemma CallsStep(ids: seq<string>, i: nat, p: Poll, processed: set<string>)
    requires i < |ids| && ids[i] !in ids[..i]
    ensures Calls(ids[..i + 1], p, processed) == Calls(ids[..i], p, processed) +
              if ids[i] in processed then [] else [Delivery(p.publisher, ids[i], ids[i] in p.succeeds)]
    ensures PublishedCount(ids[..i + 1], p, processed) == PublishedCount(ids[..i], p, processed) +
              if ids[i] in processed || ids[i] in p.succeeds then 1 else 0
    ensures Processed(ids[..i + 1], p, processed)
         == Processed(ids[..i], p, processed) + if ids[i] in p.succeeds then {ids[i]} else {}
    ensures ids[i] in Processed(ids[..i], p, processed) <==> ids[i] in processed
  {
    assert ids[..i + 1] == ids[..i] + [ids[i]];
    assert ids[..i + 1][..i] == ids[..i];
  }

  lemma MidwayStep(rows: map<string, Event>, ids: seq<string>, i: nat, p: Poll, processed: set<string>)
    requires i < |ids| && Distinct(ids) && ids[i] in rows
    ensures Midway(rows, ids, i, p, processed)[ids[i]] == ClaimedRow(rows[ids[i]], p.publisher, LeaseToken(p.publisher))
    ensures Midway(rows, ids, i + 1, p, processed)
         == Midway(rows, ids, i, p, processed)[ids[i] := Dealt(rows[ids[i]], p, ids[i], processed)]
    ensures Calls(ids[..i + 1], p, processed) == Calls(ids[..i], p, processed) +
              if ids[i] in processed then [] else [Delivery(p.publisher, ids[i], ids[i] in p.succeeds)]
    ensures PublishedCount(ids[..i + 1], p, processed) == PublishedCount(ids[..i], p, processed) +
              if ids[i] in processed || ids[i] in p.succeeds then 1 else 0
    ensures Processed(ids[..i + 1], p, processed)
         == Processed(ids[..i], p, processed) + if ids[i] in p.succeeds then {ids[i]} else {}
    ensures ids[i] in Processed(ids[..i], p, processed) <==> ids[i] in processed
  {
    assert ids[..i + 1] == ids[..i] + [ids[i]];
    CallsStep(ids, i, p, processed);
  }

  class ReliableEventPublisher {
    const publisherId: string
    const outbox: TransactionalOutbox
    var processed: set<string>

    constructor (publisherId: string, outbox: TransactionalOutbox)
      ensures this.publisherId == publisherId && this.outbox == outbox && processed == {}
    {
      this.publisherId, this.outbox, processed := publisherId, outbox, {};
    }

    /** One claimed event: skip the handler if this publisher completed it before, else call it. */
    method Deliver(p: Poll, id: string, ghost e: Event) returns (published: bool, called: seq<Delivery>)
      requires p.publisher == publisherId
      requires id in outbox.rows && outbox.rows[id] == ClaimedRow(e, publisherId, LeaseToken(publisherId))
      modifies this`processed, outbox`rows
      ensures outbox.rows == old(outbox.rows)[id := Dealt(e, p, id, old(processed))]
      ensures processed == old(processed) + if id in p.succeeds then {id} else {}
      ensures called == if id in old(processed) then [] else [Delivery(publisherId, id, id in p.succeeds)]
      ensures published <==> id in old(processed) || id in p.succeeds
    {
      if id in processed {
        published := outbox.MarkPublished(id, publisherId, LeaseToken(publisherId));
        called := [];
        return;
      }
      called := [Delivery(publisherId, id, id in p.succeeds)];
      if id in p.succeeds {
        processed := processed + {id};
        published := outbox.MarkPublished(id, publisherId, LeaseToken(publisherId));
      } else {
        outbox.MarkFailed(id);
        published := false;
      }
    }

    /**
     Claims, delivers and settles. If the transaction does not commit, the rows go back to what they
     were; the handler calls have happened and the processed ids are kept.
     */
    method PollAndPublish(p: Poll) returns (publishedCount: nat, deliveries: seq<Delivery>)
      requires outbox.Valid() && p.publisher == publisherId
      modifies this`processed, outbox`rows
      ensures outbox.Valid()
      ensures var ids := Selected(old(outbox.rows), outbox.order, p.limit, p.locked);
              && processed == Processed(ids, p, old(processed))
              && deliveries == Calls(ids, p, old(processed)) && publishedCount == PublishedCount(ids, p, old(processed))
              && outbox.rows == (if p.commits then Polled(old(outbox.rows), ids, p, old(processed)) else old(outbox.rows))
    {
      var saved := outbox.rows;
      ghost var known := processed;
      SelectedFacts(saved, outbox.order, p.limit, p.locked);
      var ids := outbox.ClaimPendingEvents(publisherId, LeaseToken(publisherId), p.limit, p.locked);
      publishedCount, deliveries := 0, [];
      for i := 0 to |ids|
        invariant processed == Processed(ids[..i], p, known) && deliveries == Calls(ids[..i], p, known)
        invariant publishedCount == PublishedCount(ids[..i], p, known)
        invariant outbox.rows == Midway(saved, ids, i, p, known)
      {
        var id := ids[i];
        MidwayStep(saved, ids, i, p, known);
        var published, called := Deliver(p, id, saved[id]);
        publishedCount := if published then publishedCount + 1 else publishedCount;
        deliveries := deliveries + called;
      }
      assert ids[..|ids|] == ids;
      assert outbox.rows == Polled(saved, ids, p, known);
      if !p.commits {
        outbox.rows := saved;
      }
    }
  }

  // ----- runs of many publishers over one table -----

  /** The table, and what each publisher remembers of the handlers it completed. */
  datatype System = System(rows: map<string, Event>, processed: map<string, set<string>>)

  function Remembered(s: System, publisher: string): set<string> {
    if publisher in s.processed then s.processed[publisher] else {}
  }

  function Ids(s: System, order: seq<string>, p: Poll): seq<string>
    requires forall id :: id in order ==> id in s.rows
  {
    Selected(s.rows, order, p.limit, p.locked)
  }

  /** One poll, as `PollAndPublish` performs it. */
  function Step(s: System, order: seq<string>, p: Poll): System
    requires forall id :: id in order ==> id in s.rows
  {
    var ids := Ids(s, order, p);
    System(if p.commits then Polled(s.rows, ids, p, Remembered(s, p.publisher)) else s.rows,
           s.processed[p.publisher := Processed(ids, p, Remembered(s, p.publisher))])
  }

  /** A fixed set of events, created in this order. */
  ghost predicate TableOk(s: System, order: seq<string>) {
    && Distinct(order) && (forall id :: id in order <==> id in s.rows)
    && (forall id :: id in s.rows ==> RowOk(s.rows[id]))
  }

  /** No row is left claimed; a row waiting for delivery has attempts left. */
  ghost predicate RowOk(e: Event) {
    && e.status != Claimed && e.attemptCount >= 0
    && (e.status == Pending ==> e.attemptCount < MAX_ATTEMPTS)
  }

  /** After every poll, committed or not, no event stays claimed. */
  lemma StepKeepsTable(s: System, order: seq<string>, p: Poll)
    requires TableOk(s, order)
    ensures TableOk(Step(s, order, p), order) && Step(s, order, p).rows.Keys == s.rows.Keys
  {
    SelectedFacts(s.rows, order, p.limit, p.locked);
  }

  function Run(s: System, order: seq<string>, polls: seq<Poll>): (r: System)
    requires forall id :: id in order ==> id in s.rows
    ensures r.rows.Keys == s.rows.Keys
    decreases |polls|
  {
    if polls == [] then s
    else
      var before := Run(s, order, polls[..|polls| - 1]);
      Step(before, order, polls[|polls| - 1])
  }

  lemma {:induction false} RunKeepsTable(s: System, order: seq<string>, polls: seq<Poll>)
    requires TableOk(s, order)
    ensures TableOk(Run(s, order, polls), order)
    decreases |polls|
  {
    if polls != [] {
      RunKeepsTable(s, order, polls[..|polls| - 1]);
      StepKeepsTable(Run(s, order, polls[..|polls| - 1]), order, polls[|polls| - 1]);
    }
  }

  // ----- what polls do to an event -----

  /**
   One committed poll. An event that is not selected keeps its row. A selected one is published, under
   the poll's lease, if its handler succeeds or had completed before for this publisher; otherwise one
   attempt is counted, and it waits for another exactly while fewer than five are counted.
   */
  lemma PollOutcome(s: System, order: seq<string>, p: Poll, id: string)
    requires TableOk(s, order) && id in order && p.commits
    ensures id in Step(s, order, p).rows
    ensures var e, e' := s.rows[id], Step(s, order, p).rows[id];
            if id !in Ids(s, order, p) then e' == e
            else if id in p.succeeds || id in Remembered(s, p.publisher) then
              e' == e.(status := Published, claimedBy := Some(p.publisher), leaseToken := Some(LeaseToken(p.publisher)))
            else
              && e'.attemptCount == e.attemptCount + 1 && e'.claimedBy == None && e'.leaseToken == None
              && e'.status == if e'.attemptCount < 5 then Pending else Failed
  {
  }

  /** A rolled back poll leaves the table as it was; what it completed is remembered all the same. */
  lemma RolledBackPoll(s: System, order: seq<string>, p: Poll, id: string)
    requires TableOk(s, order) && !p.commits
    ensures Step(s, order, p).rows == s.rows
    ensures id in Remembered(Step(s, order, p), p.publisher)
       <==> id in Remembered(s, p.publisher) || (id in Ids(s, order, p) && id in p.succeeds)
  {
  }

  ghost predicate AttemptsOk(e: Event) {
    0 <= e.attemptCount <= 5 && (e.status == Failed <==> e.attemptCount == 5)
  }

  /** In every reachable table an event is given up exactly when five attempts are counted. */
  lemma {:induction false} FailedExactlyAtFive(s: System, order: seq<string>, polls: seq<Poll>, id: string)
    requires TableOk(s, order) && id in order && AttemptsOk(s.rows[id])
    ensures id in Run(s, order, polls).rows && AttemptsOk(Run(s, order, polls).rows[id])
    decreases |polls|
  {
    if polls != [] {
      var init, p := polls[..|polls| - 1], polls[|polls| - 1];
      FailedExactlyAtFive(s, order, init, id);
      RunKeepsTable(s, order, init);
      var t := Run(s, order, init);
      SelectedFacts(t.rows, order, p.limit, p.locked);
      if p.commits {
        PollOutcome(t, order, p, id);
      }
    }
  }

  // ----- termination -----

  function AttemptsLeft(e: Event): int {
    if e.status == Pending then MAX_ATTEMPTS - e.attemptCount else 0
  }

  /** All the delivery attempts that pending events still have. */
  function Remaining(rows: map<string, Event>, order: seq<string>): int
    requires forall id :: id in order ==> id in rows
  {
    if order == [] then 0 else AttemptsLeft(rows[order[0]]) + Remaining(rows, order[1..])
  }

  lemma {:induction false} RemainingNonNegative(rows: map<string, Event>, order: seq<string>)
    requires forall id :: id in order ==> id in rows && RowOk(rows[id])
    ensures Remaining(rows, order) >= 0
    ensures Remaining(rows, order) == 0 ==> forall id :: id in order ==> rows[id].status != Pending
    decreases |order|
  {
    if order != [] {
      assert order == [order[0]] + order[1..];
      RemainingNonNegative(rows, order[1..]);
    }
  }

  /** Rows that only lose attempts lose at least one for each member of `ids` among them. */
  lemma {:induction false} RemainingFalls(rows: map<string, Event>, rows': map<string, Event>, order: seq<string>, ids: set<string>)
    requires Distinct(order) && forall id :: id in order ==> id in rows && id in rows'
    requires forall id :: id in order ==>
               AttemptsLeft(rows'[id]) <= AttemptsLeft(rows[id]) - if id in ids then 1 else 0
    ensures Remaining(rows', order) <= Remaining(rows, order)
    ensures (exists id :: id in order && id in ids) ==> Remaining(rows', order) < Remaining(rows, order)
    decreases |order|
  {
    if order != [] {
      assert order == [order[0]] + order[1..];
      RemainingFalls(rows, rows', order[1..], ids);
    }
  }

  /** A committed poll that selects something uses up attempts; any poll never adds any. */
  lemma StepFalls(s: System, order: seq<string>, p: Poll)
    requires TableOk(s, order)
    ensures Remaining(Step(s, order, p).rows, order) <= Remaining(s.rows, order)
    ensures p.commits && Ids(s, order, p) != [] ==> Remaining(Step(s, order, p).rows, order) < Remaining(s.rows, order)
  {
    var ids := Ids(s, order, p);
    SelectedFacts(s.rows, order, p.limit, p.locked);
    var chosen := if p.commits then set id | id in ids else {};
    RemainingFalls(s.rows, Step(s, order, p).rows, order, chosen);
    if p.commits && ids != [] {
      assert ids[0] in ids && ids[0] in chosen && ids[0] in order;
    }
  }

  ghost predicate Unfinished(rows: map<string, Event>, id: string) {
    id in rows && rows[id].status == Pending
  }

  /** A poll that can reach some pending event: it commits, asks for at least one, and some are not locked. */
  ghost predicate Effective(s: System, order: seq<string>, p: Poll) {
    p.commits && p.limit >= 1 && ((exists id :: id in order && Unfinished(s.rows, id)) ==>
                                  exists id :: id in order && Unfinished(s.rows, id) && id !in p.locked)
  }

  /** An effective poll uses up an attempt, if there is one left. */
  lemma EffectiveFalls(s: System, order: seq<string>, p: Poll)
    requires TableOk(s, order) && Effective(s, order, p)
    ensures var left := Remaining(Step(s, order, p).rows, order);
            0 <= left <= Remaining(s.rows, order) && (left == 0 || left < Remaining(s.rows, order))
  {
    StepKeepsTable(s, order, p);
    StepFalls(s, order, p);
    SelectedFacts(s.rows, order, p.limit, p.locked);
    RemainingNonNegative(Step(s, order, p).rows, order);
    if Ids(s, order, p) == [] {
      NoneLeft(s.rows, order);
    }
  }

  lemma {:induction false} RunFalls(s: System, order: seq<string>, polls: seq<Poll>)
    requires TableOk(s, order)
    requires forall i :: 0 <= i < |polls| ==> Effective(Run(s, order, polls[..i]), order, polls[i])
    ensures Remaining(Run(s, order, polls).rows, order) == 0
         || Remaining(Run(s, order, polls).rows, order) <= Remaining(s.rows, order) - |polls|
    decreases |polls|
  {
    if polls != [] {
      var init, p := polls[..|polls| - 1], polls[|polls| - 1];
      forall i | 0 <= i < |init| ensures Effective(Run(s, order, init[..i]), order, init[i]) {
        assert init[..i] == polls[..i];
      }
      RunFalls(s, order, init);
      RunKeepsTable(s, order, init);
      EffectiveFalls(Run(s, order, init), order, p);
    }
  }

  lemma {:induction false} NoneLeft(rows: map<string, Event>, order: seq<string>)
    requires forall id :: id in order ==> id in rows && !Unfinished(rows, id)
    ensures Remaining(rows, order) == 0
    decreases |order|
  {
    if order != [] {
      assert order == [order[0]] + order[1..];
      assert !Unfinished(rows, order[0]);
      NoneLeft(rows, order[1..]);
    }
  }

  /**
   Progress: as many effective polls as there are attempts left, by any publishers with any handlers,
   leave every event PUBLISHED or FAILED.
   */
  lemma EverythingSettles(s: System, order: seq<string>, polls: seq<Poll>, id: string)
    requires TableOk(s, order) && id in order
    requires forall i :: 0 <= i < |polls| ==> Effective(Run(s, order, polls[..i]), order, polls[i])
    requires |polls| >= Remaining(s.rows, order)
    ensures id in Run(s, order, polls).rows && Run(s, order, polls).rows[id].status in {Published, Failed}
  {
    RunFalls(s, order, polls);
    RunKeepsTable(s, order, polls);
    RemainingNonNegative(Run(s, order, polls).rows, order);
  }

  // ----- deliveries -----

  /** All handler calls of a run, rolled back or not. */
  ghost function Deliveries(s: System, order: seq<string>, polls: seq<Poll>): seq<Delivery>
    requires forall id :: id in order ==> id in s.rows
    decreases |polls|
  {
    if polls == [] then []
    else
      var init, p := polls[..|polls| - 1], polls[|polls| - 1];
      var t := Run(s, order, init);
      Deliveries(s, order, init) + Calls(Ids(t, order, p), p, Remembered(t, p.publisher))
  }

  ghost function CallsFor(ds: seq<Delivery>, id: string): nat {
    if ds == [] then 0 else CallsFor(ds[..|ds| - 1], id) + if ds[|ds| - 1].id == id then 1 else 0
  }

  ghost function Completions(ds: seq<Delivery>, publisher: string, id: string): nat {
    if ds == [] then 0
    else Completions(ds[..|ds| - 1], publisher, id) + if ds[|ds| - 1] == Delivery(publisher, id, true) then 1 else 0
  }

  lemma {:induction false} CountsAppend(a: seq<Delivery>, b: seq<Delivery>, publisher: string, id: string)
    ensures CallsFor(a + b, id) == CallsFor(a, id) + CallsFor(b, id)
    ensures Completions(a + b, publisher, id) == Completions(a, publisher, id) + Completions(b, publisher, id)
    decreases |b|
  {
    if b == [] {
      assert a + b == a;
    } else {
      assert (a + b)[..|a + b| - 1] == a + b[..|b| - 1];
      CountsAppend(a, b[..|b| - 1], publisher, id);
    }
  }

  /** One poll calls the handler for an event at most once, and only if it selected it and had not completed it. */
  lemma {:induction false} CallsOfPoll(ids: seq<string>, p: Poll, processed: set<string>, publisher: string, id: string)
    requires Distinct(ids)
    ensures CallsFor(Calls(ids, p, processed), id) == if id in ids && id !in processed then 1 else 0
    ensures Completions(Calls(ids, p, processed), publisher, id)
         == if id in ids && id !in processed && id in p.succeeds && publisher == p.publisher then 1 else 0
    decreases |ids|
  {
    if ids != [] {
      var init, last := ids[..|ids| - 1], ids[|ids| - 1];
      assert ids == init + [last] && last !in init;
      CallsOfPoll(init, p, processed, publisher, id);
      var call := if last in processed then [] else [Delivery(p.publisher, last, last in p.succeeds)];
      CountsAppend(Calls(init, p, processed), call, publisher, id);
      if call != [] {
        assert call[..0] == [];
      }
    }
  }

  /** What the attempt counter of a row allows for handler calls so far. */
  ghost function Used(e: Event): int {
    e.attemptCount + if e.status == Published then 1 else 0
  }

  function RolledBack(polls: seq<Poll>): nat {
    if polls == [] then 0 else RolledBack(polls[..|polls| - 1]) + if polls[|polls| - 1].commits then 0 else 1
  }

  /**
   The handler calls for an event are covered by its row, except that a poll that rolls back may make
   one call that its row forgets.
   */
  lemma {:induction false} CallsCovered(s: System, order: seq<string>, polls: seq<Poll>, id: string)
    requires TableOk(s, order) && id in order && s.rows[id].status == Pending
    ensures id in Run(s, order, polls).rows
    ensures var e := Run(s, order, polls).rows[id];
            && CallsFor(Deliveries(s, order, polls), id) <= Used(e) - s.rows[id].attemptCount + RolledBack(polls)
            && Used(e) <= MAX_ATTEMPTS
    decreases |polls|
  {
    if polls != [] {
      var init, p := polls[..|polls| - 1], polls[|polls| - 1];
      CallsCovered(s, order, init, id);
      RunKeepsTable(s, order, init);
      var t := Run(s, order, init);
      var ids := Ids(t, order, p);
      SelectedFacts(t.rows, order, p.limit, p.locked);
      CallsOfPoll(ids, p, Remembered(t, p.publisher), p.publisher, id);
      CountsAppend(Deliveries(s, order, init), Calls(ids, p, Remembered(t, p.publisher)), p.publisher, id);
    }
  }

  /**
   Across publishers an event reaches handlers at most five times, less its attempts already counted,
   plus once for every poll that rolls back.
   */
  lemma AtMostFiveCalls(s: System, order: seq<string>, polls: seq<Poll>, id: string)
    requires TableOk(s, order) && id in order && s.rows[id].status == Pending
    ensures CallsFor(Deliveries(s, order, polls), id) <= MAX_ATTEMPTS - s.rows[id].attemptCount + RolledBack(polls)
    ensures (forall p :: p in polls ==> p.commits) ==> RolledBack(polls) == 0
  {
    CallsCovered(s, order, polls, id);
    if forall p :: p in polls ==> p.commits {
      NoneRolledBack(polls);
    }
  }

  lemma {:induction false} NoneRolledBack(polls: seq<Poll>)
    requires forall p :: p in polls ==> p.commits
    ensures RolledBack(polls) == 0
  {
    if polls != [] {
      assert polls[|polls| - 1] in polls;
      NoneRolledBack(polls[..|polls| - 1]);
    }
  }

  /** With committed polls a publisher remembers a completed event only once it is published. */
  ghost predicate RememberedIsPublished(s: System, id: string) {
    id in s.rows && forall publisher :: id in Remembered(s, publisher) ==> s.rows[id].status == Published
  }

  lemma RememberedAfter(s: System, order: seq<string>, p: Poll, publisher: string, id: string)
    requires TableOk(s, order)
    ensures id in Remembered(Step(s, order, p), publisher)
       <==> id in Remembered(s, publisher) || (publisher == p.publisher && id in Ids(s, order, p) && id in p.succeeds)
  {
  }

  lemma RememberedStaysPublished(s: System, order: seq<string>, p: Poll, id: string)
    requires TableOk(s, order) && p.commits && id in order && RememberedIsPublished(s, id)
    ensures RememberedIsPublished(Step(s, order, p), id)
  {
    PollOutcome(s, order, p, id);
    SelectedFacts(s.rows, order, p.limit, p.locked);
    forall publisher | id in Remembered(Step(s, order, p), publisher) ensures Step(s, order, p).rows[id].status == Published {
      RememberedAfter(s, order, p, publisher, id);
    }
  }

  /** What one committed poll adds: a call for each selection, and with it an attempt or the publication. */
  lemma CallsOfStep(s: System, order: seq<string>, p: Poll, id: string)
    requires TableOk(s, order) && p.commits && id in order && RememberedIsPublished(s, id)
    ensures id in Step(s, order, p).rows
    ensures CallsFor(Calls(Ids(s, order, p), p, Remembered(s, p.publisher)), id) == Used(Step(s, order, p).rows[id]) - Used(s.rows[id])
  {
    PollOutcome(s, order, p, id);
    SelectedFacts(s.rows, order, p.limit, p.locked);
    CallsOfPoll(Ids(s, order, p), p, Remembered(s, p.publisher), p.publisher, id);
  }

  /**
   With committed polls the handler calls for an event are exactly the attempts counted, and one more
   when it is published.
   */
  lemma {:induction false} CallsAreAttempts(s: System, order: seq<string>, polls: seq<Poll>, id: string)
    requires TableOk(s, order) && id in order && s.rows[id].status == Pending && s.processed == map[]
    requires forall p :: p in polls ==> p.commits
    ensures RememberedIsPublished(Run(s, order, polls), id)
    ensures var e := Run(s, order, polls).rows[id];
            CallsFor(Deliveries(s, order, polls), id)
            == e.attemptCount - s.rows[id].attemptCount + if e.status == Published then 1 else 0
    decreases |polls|
  {
    if polls != [] {
      var init, p := polls[..|polls| - 1], polls[|polls| - 1];
      assert p in polls;
      CallsAreAttempts(s, order, init, id);
      RunKeepsTable(s, order, init);
      var t := Run(s, order, init);
      RememberedStaysPublished(t, order, p, id);
      CallsOfStep(t, order, p, id);
      CountsAppend(Deliveries(s, order, init), Calls(Ids(t, order, p), p, Remembered(t, p.publisher)), p.publisher, id);
    }
  }

  /** If the last poll finds `n - 1` calls or more made for the event, its handler succeeds for it. */
  ghost predicate LastSucceeds(s: System, order: seq<string>, polls: seq<Poll>, id: string, n: nat) {
    TableOk(s, order) && polls != [] && CallsFor(Deliveries(s, order, polls[..|polls| - 1]), id) >= n - 1 ==>
      id in polls[|polls| - 1].succeeds
  }

  /** The handler succeeds from its call number `n` for the event on. */
  ghost predicate SucceedsFrom(s: System, order: seq<string>, polls: seq<Poll>, id: string, n: nat) {
    AllPrefixes(prefix => LastSucceeds(s, order, prefix, id, n), polls)
  }

  /** Until that call the attempts counted stay below `n`. */
  lemma {:induction false} FewerAttempts(s: System, order: seq<string>, polls: seq<Poll>, id: string, n: nat)
    requires TableOk(s, order) && id in order && s.rows[id].status == Pending && s.rows[id].attemptCount == 0
    requires s.processed == map[] && 1 <= n && (forall p :: p in polls ==> p.commits) && SucceedsFrom(s, order, polls, id, n)
    ensures id in Run(s, order, polls).rows && Run(s, order, polls).rows[id].attemptCount < n
    decreases |polls|
  {
    if polls != [] {
      var init, p := polls[..|polls| - 1], polls[|polls| - 1];
      assert p in polls;
      assert polls == init + [p];
      AllPrefixesSnoc(prefix => LastSucceeds(s, order, prefix, id, n), init, p);
      FewerAttempts(s, order, init, id, n);
      CallsAreAttempts(s, order, init, id);
      RunKeepsTable(s, order, init);
      AttemptsStayBelow(Run(s, order, init), order, p, id, n, CallsFor(Deliveries(s, order, init), id));
    }
  }

  lemma AttemptsStayBelow(t: System, order: seq<string>, p: Poll, id: string, n: nat, calls: nat)
    requires TableOk(t, order) && p.commits && id in order && t.rows[id].attemptCount < n
    requires calls == Used(t.rows[id]) && (calls >= n - 1 ==> id in p.succeeds)
    ensures id in Step(t, order, p).rows && Step(t, order, p).rows[id].attemptCount < n
  {
    PollOutcome(t, order, p, id);
    SelectedFacts(t.rows, order, p.limit, p.locked);
  }

  /**
   An event whose handler succeeds at its call number `n`, with n at most five, is published once enough
   effective polls have been made, by whatever publishers.
   */
  lemma SuccessInTimePublishes(s: System, order: seq<string>, polls: seq<Poll>, id: string, n: nat)
    requires TableOk(s, order) && id in order && s.rows[id].status == Pending && s.rows[id].attemptCount == 0
    requires s.processed == map[] && 1 <= n <= 5 && SucceedsFrom(s, order, polls, id, n)
    requires forall i :: 0 <= i < |polls| ==> Effective(Run(s, order, polls[..i]), order, polls[i])
    requires |polls| >= Remaining(s.rows, order)
    ensures id in Run(s, order, polls).rows && Run(s, order, polls).rows[id].status == Published
  {
    forall p | p in polls ensures p.commits {
      var i :| 0 <= i < |polls| && polls[i] == p;
      assert Effective(Run(s, order, polls[..i]), order, polls[i]);
    }
    EverythingSettles(s, order, polls, id);
    FailedExactlyAtFive(s, order, polls, id);
    FewerAttempts(s, order, polls, id, n);
  }

  /** A publisher remembers exactly the completions it has made, even in polls that rolled back. */
  lemma {:induction false} CompletionsRemembered(s: System, order: seq<string>, polls: seq<Poll>, publisher: string, id: string)
    requires TableOk(s, order) && Remembered(s, publisher) == {}
    ensures Completions(Deliveries(s, order, polls), publisher, id)
         == if id in Remembered(Run(s, order, polls), publisher) then 1 else 0
    decreases |polls|
  {
    if polls != [] {
      var init, p := polls[..|polls| - 1], polls[|polls| - 1];
      CompletionsRemembered(s, order, init, publisher, id);
      RunKeepsTable(s, order, init);
      var t := Run(s, order, init);
      CompletionsOfStep(t, order, p, publisher, id);
      CountsAppend(Deliveries(s, order, init), Calls(Ids(t, order, p), p, Remembered(t, p.publisher)), publisher, id);
    }
  }

  lemma CompletionsOfStep(s: System, order: seq<string>, p: Poll, publisher: string, id: string)
    requires TableOk(s, order)
    ensures Completions(Calls(Ids(s, order, p), p, Remembered(s, p.publisher)), publisher, id)
         == (if id in Remembered(Step(s, order, p), publisher) then 1 else 0) - if id in Remembered(s, publisher) then 1 else 0
  {
    SelectedFacts(s.rows, order, p.limit, p.locked);
    CallsOfPoll(Ids(s, order, p), p, Remembered(s, p.publisher), publisher, id);
    RememberedAfter(s, order, p, publisher, id);
  }

  /** One publisher never completes the handler for the same event twice. */
  lemma CompletedAtMostOnce(s: System, order: seq<string>, polls: seq<Poll>, publisher: string, id: string)
    requires TableOk(s, order) && Remembered(s, publisher) == {}
    ensures Completions(Deliveries(s, order, polls), publisher, id) <= 1
  {
    CompletionsRemembered(s, order, polls, publisher, id);
  }

  /** At least once: an event that was pending and is published was completed by some publisher. */
  lemma {:induction false} PublishedWasCompleted(s: System, order: seq<string>, polls: seq<Poll>, id: string) returns (publisher: string)
    requires TableOk(s, order) && s.processed == map[] && id in order && s.rows[id].status == Pending
    requires Run(s, order, polls).rows[id].status == Published
    ensures Completions(Deliveries(s, order, polls), publisher, id) == 1
    decreases |polls|
  {
    var init, p := polls[..|polls| - 1], polls[|polls| - 1];
    var t := Run(s, order, init);
    RunKeepsTable(s, order, init);
    SelectedFacts(t.rows, order, p.limit, p.locked);
    if t.rows[id].status == Published {
      publisher := PublishedWasCompleted(s, order, init, id);
    } else {
      publisher := p.publisher;
    }
    CompletionsRemembered(s, order, init, publisher, id);
    CompletionsRemembered(s, order, polls, publisher, id);
  }
}
