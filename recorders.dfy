/** The two recorders: the aggregate recorder writes batches of stored events
    to the log as one conditional append and reads one aggregate's events
    back; the application recorder also returns the positions it wrote and
    reads the application-wide feed of notifications. */
module Recorders {
  import opened Wrappers
  import opened Errors
  import opened Tags
  import opened UmaDB
  import opened Translation
  import opened Selection

  // ---------------------------------------------------------------------------
  // What the log holds when the recorder is its only writer
  // ---------------------------------------------------------------------------

  /** `log` holds exactly the records of `history`, written in order from
      position 1 with the event ids `historyUuids`. */
  ghost predicate Records(log: seq<SequencedEvent>, history: seq<StoredEvent>, historyUuids: seq<string>) {
    |historyUuids| == |history| && log == Positioned(Encoded(history, historyUuids), 1)
  }

  /** Encoding a longer history appends the new batch's events after the old ones. */
  lemma {:induction false} EncodedAppend(history: seq<StoredEvent>, historyUuids: seq<string>, batch: seq<StoredEvent>, uuids: seq<string>)
    requires |historyUuids| == |history| && |uuids| == |batch|
    ensures Encoded(history + batch, historyUuids + uuids) == Encoded(history, historyUuids) + Encoded(batch, uuids)
  {
    var whole := Encoded(history + batch, historyUuids + uuids);
    var parts := Encoded(history, historyUuids) + Encoded(batch, uuids);
    forall k | 0 <= k < |whole| ensures whole[k] == parts[k] {
      EncodedAppendAt(history, historyUuids, batch, uuids, k);
    }
  }

  /** One position of `EncodedAppend`. */
  lemma {:induction false} EncodedAppendAt(history: seq<StoredEvent>, historyUuids: seq<string>, batch: seq<StoredEvent>, uuids: seq<string>, k: int)
    requires |historyUuids| == |history| && |uuids| == |batch| && 0 <= k < |history| + |batch|
    ensures Encoded(history + batch, historyUuids + uuids)[k] == (Encoded(history, historyUuids) + Encoded(batch, uuids))[k]
  {
    EncodedAt(history + batch, historyUuids + uuids, k);
    if k < |history| {
      EncodedAt(history, historyUuids, k);
      assert (history + batch)[k] == history[k] && (historyUuids + uuids)[k] == historyUuids[k];
    } else {
      EncodedAt(batch, uuids, k - |history|);
      assert (history + batch)[k] == batch[k - |history|] && (historyUuids + uuids)[k] == uuids[k - |history|];
    }
  }

  /** A batch the log accepts after a history written by the recorder extends
      that history, and, when every identity is ':'-free, the history still
      holds no two records of the same aggregate at the same version. */
  lemma {:induction false} AcceptedBatchExtendsHistory(
    log: seq<SequencedEvent>, history: seq<StoredEvent>, historyUuids: seq<string>,
    batch: seq<StoredEvent>, uuids: seq<string>)
    requires Records(log, history, historyUuids) && |uuids| == |batch|
    requires !Clashes(log, AppendConditionFor(Encoded(batch, uuids)))
    ensures Records(log + Positioned(Encoded(batch, uuids), |log| + 1), history + batch, historyUuids + uuids)
    ensures TaggableIds(history) && TaggableIds(batch) && UniqueVersions(history) && ContiguousVersions(batch) ==>
              UniqueVersions(history + batch)
  {
    EncodedAppend(history, historyUuids, batch, uuids);
    var grown := log + Positioned(Encoded(batch, uuids), |log| + 1);
    var whole := Positioned(Encoded(history + batch, historyUuids + uuids), 1);
    assert |grown| == |whole|;
    forall k | 0 <= k < |grown| ensures grown[k] == whole[k] {
      if k >= |log| {
        assert grown[k] == Positioned(Encoded(batch, uuids), |log| + 1)[k - |log|];
      }
    }
    if TaggableIds(history) && TaggableIds(batch) && UniqueVersions(history) && ContiguousVersions(batch) {
      forall k | 0 <= k < |history| ensures Unmatched(batch, uuids, history[k], historyUuids[k]) {
        EncodedAt(history, historyUuids, k);
      }
      GuardedAppendKeepsVersionsUnique(history, historyUuids, batch, uuids);
    }
  }

  /** The `k`-th record of `batch` sits in `log` at position `positions[k]`,
      encoded with the event id `uuids[k]`. */
  ghost predicate WrittenAt(log: seq<SequencedEvent>, batch: seq<StoredEvent>, uuids: seq<string>, positions: seq<int>)
    requires |uuids| == |batch|
  {
    |positions| == |batch| &&
    forall k :: 0 <= k < |batch| ==>
      1 <= positions[k] <= |log| && log[positions[k] - 1] == SequencedEvent(Encoded(batch, uuids)[k], positions[k])
  }

  /** The positions computed from the last one are where the log put the
      batch's events. */
  lemma {:induction false} AcceptedBatchWrittenAt(log: seq<SequencedEvent>, grown: seq<SequencedEvent>, batch: seq<StoredEvent>,
                               uuids: seq<string>, positions: seq<int>)
    requires |uuids| == |batch|
    requires grown == log + Positioned(Encoded(batch, uuids), |log| + 1)
    requires positions == BatchPositions(|grown|, |batch|)
    ensures WrittenAt(grown, batch, uuids, positions)
  {
    AppendedAt(log, Encoded(batch, uuids), positions);
  }

  /** Events appended after `log` sit at the positions counted back from the
      new head. */
  lemma {:induction false} AppendedAt(log: seq<SequencedEvent>, events: seq<Event>, positions: seq<int>)
    requires positions == BatchPositions(|log| + |events|, |events|)
    ensures forall k :: 0 <= k < |events| ==>
              1 <= positions[k] <= |log| + |events| &&
              (log + Positioned(events, |log| + 1))[positions[k] - 1] == SequencedEvent(events[k], positions[k])
  {
    var grown := log + Positioned(events, |log| + 1);
    forall k | 0 <= k < |events|
      ensures 1 <= positions[k] <= |log| + |events| && grown[positions[k] - 1] == SequencedEvent(events[k], positions[k])
    {
      assert positions[k] == |log| + 1 + k;
      assert grown[|log| + k] == Positioned(events, |log| + 1)[k];
    }
  }

  /** Reading back the log at the returned positions gives the inserted
      records, as stored events and as notifications whose ids are those
      positions, whenever the identities hold no ':'. */
  lemma {:induction false} WrittenAtReadsBack(log: seq<SequencedEvent>, batch: seq<StoredEvent>, uuids: seq<string>, positions: seq<int>)
    requires |uuids| == |batch| && WrittenAt(log, batch, uuids, positions) && TaggableIds(batch)
    ensures forall k :: 0 <= k < |batch| ==> DecodeStored(log[positions[k] - 1]) == Success(batch[k])
    ensures forall k :: 0 <= k < |batch| ==>
              DecodeNotification(log[positions[k] - 1]) ==
                Success(Notification(positions[k], batch[k].originatorId, batch[k].originatorVersion, batch[k].topic, batch[k].state))
  {
    forall k | 0 <= k < |batch|
      ensures DecodeStored(log[positions[k] - 1]) == Success(batch[k])
      ensures DecodeNotification(log[positions[k] - 1]) ==
                Success(Notification(positions[k], batch[k].originatorId, batch[k].originatorVersion, batch[k].topic, batch[k].state))
    {
      EncodedAt(batch, uuids, k);
      EncodeDecodeRoundTrip(batch[k], uuids[k], positions[k]);
    }
  }

  // ---------------------------------------------------------------------------
  // The aggregate recorder
  // ---------------------------------------------------------------------------

  /** The query `select_events` sends: every event tagged with the
      originator's identity tag. */
  function OriginatorQuery(originatorId: string): (q: Query)
    ensures forall e :: QueryMatches(q, e) <==> TagOriginatorId(originatorId) in e.tags
  {
    var q := Query([QueryItem([], [TagOriginatorId(originatorId)])]);
    assert forall e: Event :: TagOriginatorId(originatorId) in e.tags ==> ItemMatches(q.items[0], e);
    q
  }

  class UmaDBAggregateRecorder {
    /** The log client, shared with whoever else holds it. */
    const umadb: Client

    /** A recorder for events; recorders for snapshots are refused by `New`. */
    constructor (umadb: Client)
      ensures this.umadb == umadb
    {
      this.umadb := umadb;
    }

    /** `__init__`: a snapshot recorder is refused with `NotImplementedError`. */
    static method New(umadb: Client, forSnapshotting: bool) returns (r: Result<UmaDBAggregateRecorder, Error>)
      ensures r.Failure? <==> forSnapshotting
      ensures r.Failure? ==> r.error == NotImplementedError
      ensures r.Success? ==> fresh(r.value) && r.value.umadb == umadb
    {
      if forSnapshotting {
        return Failure(NotImplementedError);
      }
      var recorder := new UmaDBAggregateRecorder(umadb);
      return Success(recorder);
    }

    /** `_insert_events`: an empty batch writes nothing and returns `None`; a
        batch that breaks contiguity is refused before the log is touched;
        otherwise the batch is appended in one call under the condition that
        no event in the log has the tags of any event of the batch, and on
        success the positions of the new events are returned, in batch order.
        `uuids` stands for the event ids the source draws at random; the ghost
        `history` and `historyUuids` name what the log held before, for the
        last postcondition. */
    method InsertBatch(storedEvents: seq<StoredEvent>, uuids: seq<string>,
                       ghost history: seq<StoredEvent>, ghost historyUuids: seq<string>)
      returns (r: Result<Option<seq<int>>, Error>)
      requires |uuids| == |storedEvents| && umadb.Valid()
      modifies umadb
      ensures umadb.Valid()
      ensures r.Failure? ==> umadb.events == old(umadb.events)
      ensures storedEvents == [] ==> r == Success(None) && umadb.events == old(umadb.events)
      ensures storedEvents != [] && !ContiguousVersions(storedEvents) ==>
                r == Failure(IntegrityError(NonContiguousVersion))
      ensures r.Failure? <==>
                (storedEvents != [] &&
                 (!ContiguousVersions(storedEvents) || Clashes(old(umadb.events), AppendConditionFor(Encoded(storedEvents, uuids)))))
      ensures r == Failure(IntegrityError(LogConflict)) <==>
                storedEvents != [] && ContiguousVersions(storedEvents) &&
                Clashes(old(umadb.events), AppendConditionFor(Encoded(storedEvents, uuids)))
      ensures r.Success? && storedEvents != [] ==>
                umadb.events == old(umadb.events) + Positioned(Encoded(storedEvents, uuids), |old(umadb.events)| + 1) &&
                r.value == Some(BatchPositions(|umadb.events|, |storedEvents|))
      ensures r.Success? && r.value.Some? ==> WrittenAt(umadb.events, storedEvents, uuids, r.value.value)
      ensures r.Success? && storedEvents != [] && Records(old(umadb.events), history, historyUuids) ==>
                Records(umadb.events, history + storedEvents, historyUuids + uuids) &&
                (TaggableIds(history) && TaggableIds(storedEvents) && UniqueVersions(history) ==>
                  UniqueVersions(history + storedEvents))
    {
      if |storedEvents| == 0 {
        return Success(None);
      }
      var encoded := EncodeBatch(storedEvents, uuids);
      if encoded.Failure? {
        return Failure(encoded.error);
      }
      var umadbEvents := encoded.value;
      ghost var before := umadb.events;
      ghost var clash := Clashes(before, AppendConditionFor(Encoded(storedEvents, uuids)));
      var outcome := umadb.Append(umadbEvents, AppendConditionFor(umadbEvents));
      assert outcome.Conflict? <==> clash;
      if outcome.Conflict? {
        return Failure(IntegrityError(LogConflict));
      }
      ghost var after := umadb.events;
      assert after == before + Positioned(umadbEvents, |before| + 1);
      var sequenceNumber := outcome.position;
      assert sequenceNumber == |after|;
      var positions := BatchPositions(sequenceNumber, |storedEvents|);
      AcceptedBatchWrittenAt(before, after, storedEvents, uuids, positions);
      r := Success(Some(positions));
      if Records(before, history, historyUuids) {
        AcceptedBatchExtendsHistory(before, history, historyUuids, storedEvents, uuids);
      }
    }

    /** `insert_events`: writes like `InsertBatch` and never returns positions. */
    method InsertEvents(storedEvents: seq<StoredEvent>, uuids: seq<string>) returns (r: Result<Option<seq<int>>, Error>)
      requires |uuids| == |storedEvents| && umadb.Valid()
      modifies umadb
      ensures umadb.Valid()
      ensures r.Success? ==> r.value == None
      ensures storedEvents == [] ==> umadb.events == old(umadb.events)
      ensures r.Failure? <==>
                (storedEvents != [] &&
                 (!ContiguousVersions(storedEvents) || Clashes(old(umadb.events), AppendConditionFor(Encoded(storedEvents, uuids)))))
      ensures storedEvents != [] && !ContiguousVersions(storedEvents) ==>
                r == Failure(IntegrityError(NonContiguousVersion))
      ensures r == Failure(IntegrityError(LogConflict)) <==>
                storedEvents != [] && ContiguousVersions(storedEvents) &&
                Clashes(old(umadb.events), AppendConditionFor(Encoded(storedEvents, uuids)))
      ensures r.Failure? ==> umadb.events == old(umadb.events)
      ensures r.Success? && storedEvents != [] ==>
                umadb.events == old(umadb.events) + Positioned(Encoded(storedEvents, uuids), |old(umadb.events)| + 1)
    {
      var inserted := InsertBatch(storedEvents, uuids, [], []);
      if inserted.Failure? {
        return Failure(inserted.error);
      }
      return Success(None);
    }

    /** `select_events`: reads the originator's events from the log, forwards
        or backwards, and filters them by version window and limit. */
    method SelectEvents(originatorId: string, gt: Option<int>, lte: Option<int>, desc: bool, limit: Option<int>)
      returns (r: Result<seq<StoredEvent>, Error>)
      ensures var read := umadb.Read(OriginatorQuery(originatorId), None, None, desc);
              r == Scan(read, gt, lte, desc, limit, []) &&
              (r.Success? ==> Embeds(r.value, read)) &&
              (AllDecode(read) && OrderedForRead(DecodedAll(read), desc) ==>
                r == Success(TakeUpTo(Wanted(DecodedAll(read), gt, lte), limit)))
      ensures r.Failure? ==> IsDecodeError(r.error)
      ensures r.Success? ==> forall k :: 0 <= k < |r.value| ==> InWindow(r.value[k].originatorVersion, gt, lte)
      ensures r.Success? && limit.Some? && 0 <= limit.value ==> |r.value| <= limit.value
    {
      var umadbEvents := umadb.Read(OriginatorQuery(originatorId), None, None, desc);
      r := FilterEvents(umadbEvents, gt, lte, desc, limit);
    }
  }

  // ---------------------------------------------------------------------------
  // The application recorder
  // ---------------------------------------------------------------------------

  /** The query `select_notifications` sends: every event whose type is one of
      `topics`, or every event when `topics` is empty. */
  function TopicsQuery(topics: seq<string>): (q: Query)
    ensures forall e :: QueryMatches(q, e) <==> topics == [] || e.eventType in topics
  {
    var q := Query([QueryItem(topics, [])]);
    assert q.items[0] in q.items;
    assert forall e: Event :: ItemMatches(q.items[0], e) <==> topics == [] || e.eventType in topics;
    q
  }

  /** The first position `select_notifications` asks for: one past `start`
      when the start is exclusive. */
  function ReadStart(start: Option<int>, inclusiveOfStart: bool): (from: Option<int>)
    ensures from.None? <==> start.None?
    ensures start.Some? ==> from.value == if inclusiveOfStart then start.value else start.value + 1
  {
    if !inclusiveOfStart && start.Some? then Some(start.value + 1) else start
  }

  /** What a decoded feed says about the log it was read from: each
      notification is an event of the log, of one of `topics`, at or after
      `start` (after it unless `inclusiveOfStart`), in ascending id order, and there are at most `limit` of them. */
  lemma {:induction false} SelectedFromLog(log: seq<SequencedEvent>, read: seq<SequencedEvent>, topics: seq<string>,
                        start: Option<int>, inclusiveOfStart: bool, limit: int, n: nat, ns: seq<Notification>)
    requires forall k :: 0 <= k < |log| ==> log[k].position == k + 1
    requires forall k :: 0 <= k < |read| ==>
               read[k] in log && QueryMatches(TopicsQuery(topics), read[k].event) &&
               AtOrAfter(read[k].position, ReadStart(start, inclusiveOfStart))
    requires StrictlyAscending(read) && (0 <= limit ==> |read| <= limit)
    requires n <= |read| && DecodeNotifications(read[..n]) == Success(ns)
    ensures forall k :: 0 <= k < |ns| ==>
              1 <= ns[k].id <= |log| && DecodeNotification(log[ns[k].id - 1]) == Success(ns[k]) &&
              (topics == [] || ns[k].topic in topics)
    ensures start.Some? ==> forall k :: 0 <= k < |ns| ==>
              if inclusiveOfStart then start.value <= ns[k].id else start.value < ns[k].id
    ensures forall i, j :: 0 <= i < j < |ns| ==> ns[i].id < ns[j].id
    ensures 0 <= limit ==> |ns| <= limit
  {
    DecodedFeed(read, n, ns);
    forall k | 0 <= k < |ns| ensures 1 <= ns[k].id <= |log| && log[ns[k].id - 1] == read[k] {
      var p :| 0 <= p < |log| && log[p] == read[k];
    }
  }

  /** The notifications the loop keeps from a read of the log: those of
      `SelectedFromLog`, and with a `stop`, all but the last below it. */
  lemma {:induction false} NotificationsFromLog(log: seq<SequencedEvent>, read: seq<SequencedEvent>, topics: seq<string>,
                        start: Option<int>, inclusiveOfStart: bool, limit: int, stop: Option<int>,
                        r: Result<seq<Notification>, Error>)
    requires forall k :: 0 <= k < |log| ==> log[k].position == k + 1
    requires forall k :: 0 <= k < |read| ==>
               read[k] in log && QueryMatches(TopicsQuery(topics), read[k].event) &&
               AtOrAfter(read[k].position, ReadStart(start, inclusiveOfStart))
    requires StrictlyAscending(read) && (0 <= limit ==> |read| <= limit)
    requires r == DecodeNotifications(read[..StopCount(read, stop)])
    ensures r.Failure? ==> IsDecodeError(r.error)
    ensures r.Success? ==> forall k :: 0 <= k < |r.value| ==>
              1 <= r.value[k].id <= |log| &&
              DecodeNotification(log[r.value[k].id - 1]) == Success(r.value[k]) &&
              (topics == [] || r.value[k].topic in topics)
    ensures r.Success? && start.Some? ==> forall k :: 0 <= k < |r.value| ==>
              if inclusiveOfStart then start.value <= r.value[k].id else start.value < r.value[k].id
    ensures r.Success? ==> forall i, j :: 0 <= i < j < |r.value| ==> r.value[i].id < r.value[j].id
    ensures r.Success? && 0 <= limit ==> |r.value| <= limit
    ensures r.Success? && stop.Some? ==> forall k :: 0 <= k < |r.value| - 1 ==> r.value[k].id < stop.value
  {
    if r.Success? {
      SelectedFromLog(log, read, topics, start, inclusiveOfStart, limit, StopCount(read, stop), r.value);
      FeedBelowStop(read, stop, r.value);
    }
  }

  class UmaDBApplicationRecorder {
    /** The aggregate recorder whose insert and read paths this one extends. */
    const aggregate: UmaDBAggregateRecorder

    constructor (umadb: Client)
      ensures fresh(aggregate) && aggregate.umadb == umadb
    {
      aggregate := new UmaDBAggregateRecorder(umadb);
    }

    /** `max_notification_id`: the position of the newest event in the log,
        which is the greatest notification id; `None` for an empty log. */
    function MaxNotificationId(): (h: Option<int>)
      reads aggregate.umadb
      requires aggregate.umadb.Valid()
      ensures h.None? <==> aggregate.umadb.events == []
      ensures h.Some? ==> exists k :: 0 <= k < |aggregate.umadb.events| && aggregate.umadb.events[k].position == h.value
      ensures h.Some? ==> forall k :: 0 <= k < |aggregate.umadb.events| ==> aggregate.umadb.events[k].position <= h.value
    {
      var h := aggregate.umadb.Head();
      assert h.Some? ==> aggregate.umadb.events[|aggregate.umadb.events| - 1].position == h.value;
      h
    }

    /** `insert_events`: writes like `InsertBatch` and returns the positions
        the new events got, `None` for an empty batch. */
    method InsertEvents(storedEvents: seq<StoredEvent>, uuids: seq<string>) returns (r: Result<Option<seq<int>>, Error>)
      requires |uuids| == |storedEvents| && aggregate.umadb.Valid()
      modifies aggregate.umadb
      ensures aggregate.umadb.Valid()
      ensures storedEvents == [] ==> r == Success(None) && aggregate.umadb.events == old(aggregate.umadb.events)
      ensures r.Failure? <==>
                (storedEvents != [] &&
                 (!ContiguousVersions(storedEvents) ||
                  Clashes(old(aggregate.umadb.events), AppendConditionFor(Encoded(storedEvents, uuids)))))
      ensures storedEvents != [] && !ContiguousVersions(storedEvents) ==>
                r == Failure(IntegrityError(NonContiguousVersion))
      ensures r == Failure(IntegrityError(LogConflict)) <==>
                storedEvents != [] && ContiguousVersions(storedEvents) &&
                Clashes(old(aggregate.umadb.events), AppendConditionFor(Encoded(storedEvents, uuids)))
      ensures r.Failure? ==> aggregate.umadb.events == old(aggregate.umadb.events)
      ensures r.Success? && storedEvents != [] ==>
                aggregate.umadb.events == old(aggregate.umadb.events) +
                  Positioned(Encoded(storedEvents, uuids), |old(aggregate.umadb.events)| + 1) &&
                r.value == Some(BatchPositions(|aggregate.umadb.events|, |storedEvents|)) &&
                WrittenAt(aggregate.umadb.events, storedEvents, uuids, r.value.value)
    {
      r := aggregate.InsertBatch(storedEvents, uuids, [], []);
    }

    /** `select_notifications`: reads at most `limit` events of the given
        topics forwards from `start` (exclusive of it when asked), and turns
        each into a notification whose id is its position, stopping after the
        first at or past `stop`. */
    method SelectNotifications(start: Option<int>, limit: int, stop: Option<int>, topics: seq<string>, inclusiveOfStart: bool)
      returns (r: Result<seq<Notification>, Error>)
      requires aggregate.umadb.Valid()
      ensures var read := aggregate.umadb.Read(TopicsQuery(topics), ReadStart(start, inclusiveOfStart), Some(limit), false);
              r == DecodeNotifications(read[..StopCount(read, stop)])
      ensures r.Failure? ==> IsDecodeError(r.error)
      ensures r.Success? ==> forall k :: 0 <= k < |r.value| ==>
                1 <= r.value[k].id <= |aggregate.umadb.events| &&
                DecodeNotification(aggregate.umadb.events[r.value[k].id - 1]) == Success(r.value[k]) &&
                (topics == [] || r.value[k].topic in topics)
      ensures r.Success? && start.Some? ==> forall k :: 0 <= k < |r.value| ==>
                if inclusiveOfStart then start.value <= r.value[k].id else start.value < r.value[k].id
      ensures r.Success? ==> forall i, j :: 0 <= i < j < |r.value| ==> r.value[i].id < r.value[j].id
      ensures r.Success? && 0 <= limit ==> |r.value| <= limit
      ensures r.Success? && stop.Some? ==> forall k :: 0 <= k < |r.value| - 1 ==> r.value[k].id < stop.value
    {
      var from := ReadStart(start, inclusiveOfStart);
      var ues := aggregate.umadb.Read(TopicsQuery(topics), from, Some(limit), false);
      r := CollectNotifications(ues, stop);
      NotificationsFromLog(aggregate.umadb.events, ues, topics, start, inclusiveOfStart, limit, stop, r);
    }

    /** `select_events`, inherited unchanged from the aggregate recorder. */
    method SelectEvents(originatorId: string, gt: Option<int>, lte: Option<int>, desc: bool, limit: Option<int>)
      returns (r: Result<seq<StoredEvent>, Error>)
      ensures r == Scan(aggregate.umadb.Read(OriginatorQuery(originatorId), None, None, desc), gt, lte, desc, limit, [])
      ensures r.Failure? ==> IsDecodeError(r.error)
      ensures r.Success? ==> forall k :: 0 <= k < |r.value| ==> InWindow(r.value[k].originatorVersion, gt, lte)
      ensures r.Success? && limit.Some? && 0 <= limit.value ==> |r.value| <= limit.value
    {
      r := aggregate.SelectEvents(originatorId, gt, lte, desc, limit);
    }
  }
}
