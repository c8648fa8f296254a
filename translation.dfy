/** How the recorders translate between the event-sourcing records (stored
    events, notifications) and the log's generic tagged events, and how an
    insert batch is checked and turned into one conditional append. */
module Translation {
  import opened Wrappers
  import opened Errors
  import opened Tags
  import opened UmaDB

  /** One domain event of one aggregate at one version. */
  datatype StoredEvent = StoredEvent(originatorId: string, originatorVersion: int, topic: string, state: seq<byte>)

  /** A stored event as seen in the application-wide feed; `id` is its log position. */
  datatype Notification = Notification(id: int, originatorId: string, originatorVersion: int, topic: string, state: seq<byte>)

  /** Two records of the same aggregate at the same version. */
  predicate SameVersion(a: StoredEvent, b: StoredEvent) {
    a.originatorId == b.originatorId && a.originatorVersion == b.originatorVersion
  }

  /** Every identity in `batch` can be written into a tag and read back. */
  predicate TaggableIds(batch: seq<StoredEvent>) {
    forall k :: 0 <= k < |batch| ==> Delimiter !in batch[k].originatorId
  }

  // ---------------------------------------------------------------------------
  // One event each way
  // ---------------------------------------------------------------------------

  /** The log event written for a stored event: its topic as the type, its
      state as the data, and the identity tag followed by the version tag. */
  function ToLogEvent(se: StoredEvent, uuid: string): (e: Event)
    ensures e.eventType == se.topic && e.data == se.state && e.uuid == uuid && |e.tags| == 2
    ensures Delimiter !in se.originatorId ==>
              ExtractOriginatorId(e.tags) == Success(se.originatorId) &&
              ExtractOriginatorVersion(e.tags) == Success(se.originatorVersion)
  {
    var tags := OriginatorTags(se.originatorId, se.originatorVersion);
    assert Delimiter !in se.originatorId ==>
             ExtractOriginatorId(tags) == Success(se.originatorId) &&
             ExtractOriginatorVersion(tags) == Success(se.originatorVersion) by {
      if Delimiter !in se.originatorId {
        IdTagRoundTrip(se.originatorId, tags[1..]);
        assert tags == [tags[0]] + tags[1..];
        VersionTagRoundTrip(tags[0], se.originatorId, se.originatorVersion);
      }
    }
    Event(se.topic, se.state, tags, uuid)
  }

  /** The stored event read back from a log event: identity from the first
      tag, then version from the second, topic and state passed through. */
  function DecodeStored(ue: SequencedEvent): (r: Result<StoredEvent, Error>)
    ensures r.Success? ==> r.value.topic == ue.event.eventType && r.value.state == ue.event.data
    ensures r.Failure? ==> IsDecodeError(r.error)
  {
    match ExtractOriginatorId(ue.event.tags)
    case Failure(e) => Failure(e)
    case Success(id) =>
      match ExtractOriginatorVersion(ue.event.tags)
      case Failure(e) => Failure(e)
      case Success(v) => Success(StoredEvent(id, v, ue.event.eventType, ue.event.data))
  }

  /** The notification read back from a log event: its id is the event's
      position; identity and version are decoded as for a stored event. */
  function DecodeNotification(ue: SequencedEvent): (r: Result<Notification, Error>)
    ensures r.Success? <==> DecodeStored(ue).Success?
    ensures r.Success? ==> r.value.id == ue.position &&
                           r.value.topic == ue.event.eventType && r.value.state == ue.event.data
    ensures r.Failure? ==> IsDecodeError(r.error)
  {
    match DecodeStored(ue)
    case Failure(e) => Failure(e)
    case Success(se) => Success(Notification(ue.position, se.originatorId, se.originatorVersion, se.topic, se.state))
  }

  /** Reading back what was written gives the original record, wherever the
      log put it, whenever the identity holds no ':'. */
  lemma {:induction false} EncodeDecodeRoundTrip(se: StoredEvent, uuid: string, position: int)
    requires Delimiter !in se.originatorId
    ensures DecodeStored(SequencedEvent(ToLogEvent(se, uuid), position)) == Success(se)
    ensures DecodeNotification(SequencedEvent(ToLogEvent(se, uuid), position))
            == Success(Notification(position, se.originatorId, se.originatorVersion, se.topic, se.state))
  {
  }

  // ---------------------------------------------------------------------------
  // Checking a batch
  // ---------------------------------------------------------------------------

  /** `j` is the next event after `i` in the batch with the same originator. */
  ghost predicate NextOfSameOriginator(batch: seq<StoredEvent>, i: int, j: int) {
    0 <= i < j < |batch| && batch[i].originatorId == batch[j].originatorId &&
    forall k :: i < k < j ==> batch[k].originatorId != batch[i].originatorId
  }

  /** Each event of an originator that already appeared earlier in the batch
      is exactly one version past that originator's previous event. An
      originator's first event may have any version, and originators are
      checked independently of each other. */
  ghost predicate ContiguousVersions(batch: seq<StoredEvent>) {
    forall i, j :: NextOfSameOriginator(batch, i, j) ==>
      batch[j].originatorVersion == batch[i].originatorVersion + 1
  }

  /** For a batch of one originator the check is: each version is one more
      than the one before it. */
  lemma {:induction false} SingleOriginatorContiguous(batch: seq<StoredEvent>)
    requires forall k :: 0 <= k < |batch| ==> batch[k].originatorId == batch[0].originatorId
    ensures ContiguousVersions(batch) <==>
            forall k :: 0 <= k < |batch| - 1 ==> batch[k + 1].originatorVersion == batch[k].originatorVersion + 1
  {
    if ContiguousVersions(batch) {
      forall k | 0 <= k < |batch| - 1
        ensures batch[k + 1].originatorVersion == batch[k].originatorVersion + 1
      {
        assert NextOfSameOriginator(batch, k, k + 1);
      }
    }
    if forall k :: 0 <= k < |batch| - 1 ==> batch[k + 1].originatorVersion == batch[k].originatorVersion + 1 {
      forall i, j | NextOfSameOriginator(batch, i, j)
        ensures batch[j].originatorVersion == batch[i].originatorVersion + 1
      {
        assert j == i + 1 by {
          assert i + 1 < |batch| ==> batch[i + 1].originatorId == batch[i].originatorId;
        }
      }
    }
  }

  /** Along one originator, versions in an accepted batch strictly increase. */
  lemma {:induction false} ContiguousVersionsIncrease(batch: seq<StoredEvent>, i: int, j: int)
    requires ContiguousVersions(batch)
    requires 0 <= i < j < |batch| && batch[i].originatorId == batch[j].originatorId
    ensures batch[i].originatorVersion < batch[j].originatorVersion
    decreases j - i
  {
    if forall k :: i < k < j ==> batch[k].originatorId != batch[i].originatorId {
      assert NextOfSameOriginator(batch, i, j);
    } else {
      var k :| i < k < j && batch[k].originatorId == batch[i].originatorId;
      ContiguousVersionsIncrease(batch, i, k);
      ContiguousVersionsIncrease(batch, k, j);
    }
  }

  /** `at` is the last index before `n` where `originatorId` occurs. */
  ghost predicate LastOccurrence(batch: seq<StoredEvent>, n: int, originatorId: string, at: int) {
    0 <= at < n <= |batch| && batch[at].originatorId == originatorId &&
    forall m :: at < m < n ==> batch[m].originatorId != originatorId
  }

  /** The dictionary `originator_ids_and_versions` after the events of
      `prefix`: each originator seen maps to the version of its latest event. */
  function LastVersions(prefix: seq<StoredEvent>): (m: map<string, int>)
    ensures prefix == [] <==> m == map[]
    ensures prefix != [] ==> prefix[|prefix| - 1].originatorId in m &&
                             m[prefix[|prefix| - 1].originatorId] == prefix[|prefix| - 1].originatorVersion
    decreases |prefix|
  {
    if prefix == [] then map[]
    else
      var se := prefix[|prefix| - 1];
      LastVersions(prefix[..|prefix| - 1])[se.originatorId := se.originatorVersion]
  }

  /** The dictionary knows exactly the originators seen so far, and for each
      the version of its last event. */
  lemma {:induction false} LastVersionsRecall(batch: seq<StoredEvent>, n: int, originatorId: string)
    requires 0 <= n <= |batch|
    ensures originatorId in LastVersions(batch[..n]) <==>
            exists k :: 0 <= k < n && batch[k].originatorId == originatorId
    ensures originatorId in LastVersions(batch[..n]) ==>
            exists p :: LastOccurrence(batch, n, originatorId, p) &&
                        LastVersions(batch[..n])[originatorId] == batch[p].originatorVersion
    decreases n
  {
    if n > 0 {
      var se := batch[n - 1];
      assert batch[..n][..n - 1] == batch[..n - 1];
      assert LastVersions(batch[..n]) == LastVersions(batch[..n - 1])[se.originatorId := se.originatorVersion];
      LastVersionsRecall(batch, n - 1, originatorId);
      if se.originatorId == originatorId {
        assert LastOccurrence(batch, n, originatorId, n - 1);
      } else {
        assert (exists k :: 0 <= k < n && batch[k].originatorId == originatorId) <==>
               (exists k :: 0 <= k < n - 1 && batch[k].originatorId == originatorId);
        if originatorId in LastVersions(batch[..n]) {
          var p :| LastOccurrence(batch, n - 1, originatorId, p) &&
                   LastVersions(batch[..n - 1])[originatorId] == batch[p].originatorVersion;
          assert LastOccurrence(batch, n, originatorId, p);
        }
      }
    }
  }

  /** Every event before index `n` passed the contiguity check. */
  ghost predicate ContiguousBefore(batch: seq<StoredEvent>, n: int) {
    forall a, b :: NextOfSameOriginator(batch, a, b) && b < n ==>
      batch[b].originatorVersion == batch[a].originatorVersion + 1
  }

  /** The test the loop applies to event `i`, using the dictionary, is the
      contiguity condition for that event. */
  lemma {:induction false} CheckStep(batch: seq<StoredEvent>, i: int)
    requires 0 <= i < |batch| && ContiguousBefore(batch, i)
    ensures var seen := LastVersions(batch[..i]);
            ContiguousBefore(batch, i + 1) <==>
            (batch[i].originatorId in seen ==> batch[i].originatorVersion == seen[batch[i].originatorId] + 1)
  {
    var id := batch[i].originatorId;
    var seen := LastVersions(batch[..i]);
    LastVersionsRecall(batch, i, id);
    if id in seen {
      var p :| LastOccurrence(batch, i, id, p) && seen[id] == batch[p].originatorVersion;
      assert NextOfSameOriginator(batch, p, i);
      forall a | NextOfSameOriginator(batch, a, i) ensures a == p {
        assert batch[a].originatorId == id;
      }
    }
  }

  /** `f` applied to the pairs of `xs` and `ys`, position by position. */
  function PairMap<A, B, C>(f: (A, B) -> C, xs: seq<A>, ys: seq<B>): (zs: seq<C>)
    requires |ys| == |xs|
    ensures |zs| == |xs|
    decreases |xs|
  {
    if xs == [] then []
    else PairMap(f, xs[..|xs| - 1], ys[..|xs| - 1]) + [f(xs[|xs| - 1], ys[|xs| - 1])]
  }

  lemma {:induction false} PairMapAt<A, B, C>(f: (A, B) -> C, xs: seq<A>, ys: seq<B>, k: int)
    requires |ys| == |xs| && 0 <= k < |xs|
    ensures PairMap(f, xs, ys)[k] == f(xs[k], ys[k])
    decreases |xs|
  {
    var n := |xs| - 1;
    if k < n {
      PairMapAt(f, xs[..n], ys[..n], k);
      assert xs[..n][k] == xs[k] && ys[..n][k] == ys[k];
    }
  }

  lemma {:induction false} PairMapSnoc<A, B, C>(f: (A, B) -> C, xs: seq<A>, ys: seq<B>, i: int)
    requires |ys| == |xs| && 0 <= i < |xs|
    ensures PairMap(f, xs[..i + 1], ys[..i + 1]) == PairMap(f, xs[..i], ys[..i]) + [f(xs[i], ys[i])]
  {
    assert xs[..i + 1][..i] == xs[..i] && ys[..i + 1][..i] == ys[..i];
  }

  /** The log events of a batch, one per stored event, in batch order. */
  function Encoded(batch: seq<StoredEvent>, uuids: seq<string>): (events: seq<Event>)
    requires |uuids| == |batch|
    ensures |events| == |batch|
  {
    PairMap(ToLogEvent, batch, uuids)
  }

  /** The `k`-th log event of a batch is the `k`-th stored event encoded with
      the `k`-th event id: batch order is kept. */
  lemma {:induction false} EncodedAt(batch: seq<StoredEvent>, uuids: seq<string>, k: int)
    requires |uuids| == |batch| && 0 <= k < |batch|
    ensures Encoded(batch, uuids)[k] == ToLogEvent(batch[k], uuids[k])
  {
    PairMapAt(ToLogEvent, batch, uuids, k);
  }

  /** One more event of the batch adds one entry to the dictionary. */
  lemma {:induction false} LastVersionsSnoc(batch: seq<StoredEvent>, i: int)
    requires 0 <= i < |batch|
    ensures LastVersions(batch[..i + 1]) == LastVersions(batch[..i])[batch[i].originatorId := batch[i].originatorVersion]
  {
    assert batch[..i + 1][..i] == batch[..i];
  }

  /** One more event of the batch adds one log event at the end. */
  lemma {:induction false} EncodedSnoc(batch: seq<StoredEvent>, uuids: seq<string>, i: int)
    requires |uuids| == |batch| && 0 <= i < |batch|
    ensures Encoded(batch[..i + 1], uuids[..i + 1]) == Encoded(batch[..i], uuids[..i]) + [ToLogEvent(batch[i], uuids[i])]
  {
    PairMapSnoc(ToLogEvent, batch, uuids, i);
  }

  /** The loop of `_insert_events`: keeps the dictionary of the last version
      seen for each originator, raises `IntegrityError` at the first event
      that breaks contiguity, and otherwise builds one log event per stored
      event. `uuids` stands for the fresh event ids the source draws with
      `uuid4()`. */
  method EncodeBatch(batch: seq<StoredEvent>, uuids: seq<string>) returns (r: Result<seq<Event>, Error>)
    requires |uuids| == |batch|
    ensures r.Failure? <==> !ContiguousVersions(batch)
    ensures r.Failure? ==> r.error == IntegrityError(NonContiguousVersion)
    ensures r.Success? ==> r.value == Encoded(batch, uuids)
  {
    var originatorIdsAndVersions: map<string, int> := map[];
    var umadbEvents: seq<Event> := [];
    var i := 0;
    while i < |batch|
      invariant 0 <= i <= |batch|
      invariant originatorIdsAndVersions == LastVersions(batch[..i])
      invariant ContiguousBefore(batch, i)
      invariant umadbEvents == Encoded(batch[..i], uuids[..i])
    {
      var storedEvent := batch[i];
      CheckStep(batch, i);
      LastVersionsSnoc(batch, i);
      EncodedSnoc(batch, uuids, i);
      if storedEvent.originatorId in originatorIdsAndVersions {
        var lastVersion := originatorIdsAndVersions[storedEvent.originatorId];
        if storedEvent.originatorVersion != lastVersion + 1 {
          return Failure(IntegrityError(NonContiguousVersion));
        }
        originatorIdsAndVersions := originatorIdsAndVersions[storedEvent.originatorId := storedEvent.originatorVersion];
      } else {
        originatorIdsAndVersions := originatorIdsAndVersions[storedEvent.originatorId := storedEvent.originatorVersion];
      }
      umadbEvents := umadbEvents + [ToLogEvent(storedEvent, uuids[i])];
      i := i + 1;
    }
    assert batch[..i] == batch && uuids[..i] == uuids;
    r := Success(umadbEvents);
  }

  // ---------------------------------------------------------------------------
  // The append condition
  // ---------------------------------------------------------------------------

  /** One query item per event, asking for exactly that event's tags. */
  function QueryItemsFor(events: seq<Event>): (items: seq<QueryItem>)
    ensures |items| == |events|
    ensures forall k :: 0 <= k < |events| ==> items[k] == QueryItem([], events[k].tags)
    decreases |events|
  {
    if events == [] then [] else [QueryItem([], events[0].tags)] + QueryItemsFor(events[1..])
  }

  /** `e` carries every tag of `tags`. */
  predicate CarriesTags(e: Event, tags: seq<string>) {
    forall t :: t in tags ==> t in e.tags
  }

  /** Fail the append if any stored event matches any of the batch's items:
      an event matches exactly when it carries all the tags of some event of
      the batch, whatever its type. */
  function AppendConditionFor(events: seq<Event>): (c: AppendCondition)
    ensures forall e :: QueryMatches(c.failIfEventsMatch, e) <==>
              exists k :: 0 <= k < |events| && CarriesTags(e, events[k].tags)
  {
    var items := QueryItemsFor(events);
    assert forall e :: QueryMatches(Query(items), e) <==>
             exists k :: 0 <= k < |events| && CarriesTags(e, events[k].tags) by {
      forall e ensures QueryMatches(Query(items), e) ==>
                       exists k :: 0 <= k < |events| && CarriesTags(e, events[k].tags) {
        if QueryMatches(Query(items), e) {
          var item :| item in items && ItemMatches(item, e);
          var k :| 0 <= k < |items| && items[k] == item;
          assert CarriesTags(e, events[k].tags);
        }
      }
      forall e ensures (exists k :: 0 <= k < |events| && CarriesTags(e, events[k].tags)) ==>
                       QueryMatches(Query(items), e) {
        if exists k :: 0 <= k < |events| && CarriesTags(e, events[k].tags) {
          var k :| 0 <= k < |events| && CarriesTags(e, events[k].tags);
          assert items[k] in items && ItemMatches(items[k], e);
        }
      }
    }
    AppendCondition(Query(items))
  }

  /** The condition detects exactly version clashes: a stored event written by
      the recorder matches the condition of an encoded batch if and only if
      it has the originator and version of some event of the batch. */
  lemma {:induction false} ConditionMatchesExactlyClashes(batch: seq<StoredEvent>, uuids: seq<string>, stored: StoredEvent, uuid: string)
    requires |uuids| == |batch|
    requires TaggableIds(batch) && Delimiter !in stored.originatorId
    ensures QueryMatches(AppendConditionFor(Encoded(batch, uuids)).failIfEventsMatch, ToLogEvent(stored, uuid))
            <==> exists k :: 0 <= k < |batch| && SameVersion(batch[k], stored)
  {
    var items := QueryItemsFor(Encoded(batch, uuids));
    var e := ToLogEvent(stored, uuid);
    if QueryMatches(Query(items), e) {
      var item :| item in items && ItemMatches(item, e);
      var k :| 0 <= k < |items| && items[k] == item;
      EncodedAt(batch, uuids, k);
      ItemMatchesExactlyClash(batch[k], uuids[k], stored, uuid);
    }
    if exists k :: 0 <= k < |batch| && SameVersion(batch[k], stored) {
      var k :| 0 <= k < |batch| && SameVersion(batch[k], stored);
      EncodedAt(batch, uuids, k);
      ItemMatchesExactlyClash(batch[k], uuids[k], stored, uuid);
      assert items[k] in items;
    }
  }

  /** One item of the condition matches a written record exactly when the
      record has the item's originator and version. */
  lemma {:induction false} ItemMatchesExactlyClash(b: StoredEvent, ub: string, stored: StoredEvent, uuid: string)
    requires Delimiter !in b.originatorId && Delimiter !in stored.originatorId
    ensures ItemMatches(QueryItem([], ToLogEvent(b, ub).tags), ToLogEvent(stored, uuid)) <==> SameVersion(b, stored)
  {
    TagsCovered(b.originatorId, b.originatorVersion, stored.originatorId, stored.originatorVersion);
  }

  /** The condition of the encoded batch does not match the log event
      written for `stored`. */
  predicate Unmatched(batch: seq<StoredEvent>, uuids: seq<string>, stored: StoredEvent, uuid: string)
    requires |uuids| == |batch|
  {
    !QueryMatches(AppendConditionFor(Encoded(batch, uuids)).failIfEventsMatch, ToLogEvent(stored, uuid))
  }

  /** No two records of the same aggregate carry the same version. */
  ghost predicate UniqueVersions(history: seq<StoredEvent>) {
    forall i, j :: 0 <= i < j < |history| ==> !SameVersion(history[i], history[j])
  }

  /** The conditional append keeps the log free of duplicate versions: if the
      records already written have unique versions, the batch passed the
      contiguity check and none of the written records matches the batch's
      condition, then the versions stay unique once the batch is added. */
  lemma {:induction false} GuardedAppendKeepsVersionsUnique(
    history: seq<StoredEvent>, historyUuids: seq<string>, batch: seq<StoredEvent>, uuids: seq<string>)
    requires |historyUuids| == |history| && |uuids| == |batch|
    requires TaggableIds(history) && TaggableIds(batch)
    requires UniqueVersions(history) && ContiguousVersions(batch)
    requires forall k :: 0 <= k < |history| ==> Unmatched(batch, uuids, history[k], historyUuids[k])
    ensures UniqueVersions(history + batch)
  {
    ContiguousImpliesUnique(batch);
    forall i, k | 0 <= i < |history| && 0 <= k < |batch| ensures !SameVersion(history[i], batch[k]) {
      NoClashWithWritten(batch, uuids, history[i], historyUuids[i], k);
    }
    UniqueAcross(history, batch);
  }

  /** Two sequences with unique versions, no version shared between them,
      have unique versions together. */
  lemma {:induction false} UniqueAcross(history: seq<StoredEvent>, batch: seq<StoredEvent>)
    requires UniqueVersions(history) && UniqueVersions(batch)
    requires forall i, k :: 0 <= i < |history| && 0 <= k < |batch| ==> !SameVersion(history[i], batch[k])
    ensures UniqueVersions(history + batch)
  {
    var all := history + batch;
    forall i, j | 0 <= i < j < |all| ensures !SameVersion(all[i], all[j]) {
      if j >= |history| {
        assert all[j] == batch[j - |history|];
        if i >= |history| {
          assert all[i] == batch[i - |history|];
        }
      }
    }
  }

  /** A batch that passes the contiguity check repeats no version. */
  lemma {:induction false} ContiguousImpliesUnique(batch: seq<StoredEvent>)
    requires ContiguousVersions(batch)
    ensures UniqueVersions(batch)
  {
    forall i, j | 0 <= i < j < |batch| && batch[i].originatorId == batch[j].originatorId
      ensures batch[i].originatorVersion < batch[j].originatorVersion
    {
      ContiguousVersionsIncrease(batch, i, j);
    }
  }

  /** A written record the condition does not match clashes with no event
      of the batch. */
  lemma {:induction false} NoClashWithWritten(batch: seq<StoredEvent>, uuids: seq<string>, stored: StoredEvent, uuid: string, k: int)
    requires |uuids| == |batch| && 0 <= k < |batch|
    requires TaggableIds(batch) && Delimiter !in stored.originatorId
    requires Unmatched(batch, uuids, stored, uuid)
    ensures !SameVersion(stored, batch[k])
  {
    ConditionMatchesExactlyClashes(batch, uuids, stored, uuid);
  }

  // ---------------------------------------------------------------------------
  // Positions of an accepted batch
  // ---------------------------------------------------------------------------

  /** Python's `range(lo, hi)`. */
  function Range(lo: int, hi: int): (r: seq<int>)
    ensures |r| == if lo < hi then hi - lo else 0
    ensures forall k :: 0 <= k < |r| ==> r[k] == lo + k
    decreases hi - lo
  {
    if lo >= hi then [] else [lo] + Range(lo + 1, hi)
  }

  /** `range(sequence_number - n + 1, sequence_number + 1)`: the positions of
      a batch of `n` events appended contiguously and ending at
      `sequenceNumber`. */
  function BatchPositions(sequenceNumber: int, n: nat): (r: seq<int>)
    ensures |r| == n
    ensures n > 0 ==> r[n - 1] == sequenceNumber
    ensures forall k :: 0 <= k < n ==> r[k] == sequenceNumber - (n - 1 - k)
  {
    Range(sequenceNumber - n + 1, sequenceNumber + 1)
  }
}
