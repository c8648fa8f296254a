# UmaDB event recorders, modelled in Dafny

This project models the recorders of the `eventsourcing-umadb` package. They
store the events of event-sourced aggregates in UmaDB, a generic append-only
log of tagged events. Each stored event (originator id, originator version,
topic, state) is written as one log event:

- the topic becomes the event type;
- the state becomes the data;
- the event carries two tags, `originator:<id>` and
  `originator-<id>-version:<version>`.

The recorders read events back by decoding those tags.

The model covers both recorder classes.

- `UmaDBAggregateRecorder`:
  - construction, which refuses snapshotting;
  - `insert_events` / `_insert_events`: the per-originator contiguity check,
    the encoding, the conditional append whose condition has one query item
    per event, and the range of positions returned;
  - the tag builders and extractors;
  - `select_events`, the client-side filter by version window, direction and
    limit.
- `UmaDBApplicationRecorder`:
  - `max_notification_id`;
  - `insert_events`, which returns positions;
  - `select_notifications`, which adjusts the start, maps positions to
    notification ids and stops inclusively at `stop`.

Modules:

- `Wrappers`: `Option` and `Result`.
- `Errors`: the exceptions the recorders raise, as values.
- `Tags`: the tag codec. It includes Python's `str.split(":")`, `str(int)` and
  `int(str)`, with round-trip lemmas.
- `UmaDB`: a stand-in for the log client. It is a `Client` class holding the
  log as a sequence, with:
  - an `Append` that either rejects the whole batch, when any stored event
    matches the condition, or gives it the next contiguous positions;
  - a query-filtered `Read`, forwards or backwards, with an optional start and
    limit;
  - `Head`.
- `Translation`: stored events and notifications; encoding and decoding; the
  contiguity loop proved against a declarative definition; the append
  condition; the position range.
- `Selection`: the two read loops. Each is a method proved equal to a
  specification function, with lemmas about that function.
- `Recorders`: the two recorder classes, plus lemmas about what the log holds
  when the recorder is its only writer.

Some of the properties proved:

- Tags round-trip for every integer version and every identity without `:`.
  An identity that does contain `:` is truncated on the way back.
- The append condition matches a record already written by the recorder
  exactly when that record has the originator and version of some event in
  the batch.
- An accepted batch therefore keeps the records free of duplicate
  (originator, version) pairs.
- The positions returned are exactly where the log put the batch, and reading
  there gives back the inserted records.
- `select_events`:
  - returns only in-window versions;
  - never returns more than a non-negative limit;
  - returns a subsequence of what the log returned;
  - when versions come in the order of the read, its early stops are safe: it
    returns exactly the in-window records cut to the limit.
- `select_notifications` returns one notification per event it visits:
  - each is the event at its id;
  - ids ascend;
  - ids respect the start and the topics;
  - all ids but the last are below `stop`.

## Model

| member | source | states |
|---|---|---|
| Tags.Split | eventsourcing_umadb/recorders.py:149-153 | `str.split(":")` yields at least one piece; no piece holds a `:`; there is exactly one piece when the text has no `:` |
| Tags.SplitJoin | eventsourcing_umadb/recorders.py:149-153 | splitting loses nothing: the pieces joined with `:` give back the text |
| Tags.NatToString | eventsourcing_umadb/recorders.py:102 | `str` of a natural number is a non-empty run of decimal digits with no leading zero, one digit long exactly below 10; `NatRoundTrip` reads it back |
| Tags.ParseDigits | eventsourcing_umadb/recorders.py:149-150 | a digit string parses exactly when it is a non-empty run of decimal digits |
| Tags.IntToString | eventsourcing_umadb/recorders.py:102 | the version's text is non-empty and holds no `:`, so it survives as the last field of the version tag; it starts with `-` exactly for negative versions; `IntRoundTrip` reads it back |
| Tags.ParseInt | eventsourcing_umadb/recorders.py:150 | a value read has the sign its text shows: negative only after a leading `-`, positive never after one; `IntRoundTrip` proves `int(str(v)) == v` |
| Tags.NatRoundTrip | eventsourcing_umadb/recorders.py:149-150 | parsing the decimal text of a natural number gives that number |
| Tags.IntRoundTrip | eventsourcing_umadb/recorders.py:149-150 | `int(str(v)) == v` for every integer, negative ones included |
| Tags.TagOriginatorId | eventsourcing_umadb/recorders.py:96-97 | the tag is the label `originator`, which holds no `:`, then `:`, then exactly the identity; `IdTagRoundTrip` and `IdTagInjective` build on this |
| Tags.TagOriginatorVersion | eventsourcing_umadb/recorders.py:99-102 | the tag is the label `originator-<id>-version`, then `:`, then `str(version)`; the label holds no `:` exactly when the identity holds none; `VersionSplit`, `VersionTagRoundTrip` and `VersionTagInjective` build on this |
| Tags.ExtractOriginatorId | eventsourcing_umadb/recorders.py:152-153 | succeeds exactly when there is a first tag and it holds a `:`; otherwise `IndexError`; the identity read holds no `:` |
| Tags.ExtractOriginatorVersion | eventsourcing_umadb/recorders.py:149-150 | fails only with `IndexError` or `ValueError`; `IndexError` exactly when there is no second tag or it holds no `:` |
| Tags.IdTagRoundTrip | eventsourcing_umadb/recorders.py:96-97 | the identity tag decodes to its identity, whatever tags follow it, when the identity holds no `:` |
| Tags.VersionTagRoundTrip | eventsourcing_umadb/recorders.py:99-102 | the version tag, in second place, decodes to its version for every integer, when the identity holds no `:` |
| Tags.VersionSplit | eventsourcing_umadb/recorders.py:99-102 | a version tag splits into exactly two pieces: its label and the version's text |
| Tags.ColonInIdentityTruncates | eventsourcing_umadb/recorders.py:152-153 | an identity that holds a `:` comes back cut at that `:`, so the round trip fails for it |
| Tags.IdTagIsNotVersionTag | eventsourcing_umadb/recorders.py:96-102 | an identity tag never equals a version tag |
| Tags.IdTagInjective | eventsourcing_umadb/recorders.py:96-97 | distinct identities give distinct identity tags |
| Tags.VersionTagInjective | eventsourcing_umadb/recorders.py:99-102 | for `:`-free identities, a version tag determines both its identity and its version |
| Tags.TagsCovered | eventsourcing_umadb/recorders.py:61-68 | one event's two tags all occur among another's exactly when both have the same identity and version |
| Translation.ToLogEvent | eventsourcing_umadb/recorders.py:61-70 | the log event has the topic as type, the state as data, the given event id and two tags; for an identity without `:`, the two extractors read back its identity and version |
| Translation.DecodeStored | eventsourcing_umadb/recorders.py:122-146 | the decoded record keeps the log event's type as topic and data as state; decoding fails only with `IndexError` or `ValueError` |
| Translation.DecodeNotification | eventsourcing_umadb/recorders.py:183-190 | succeeds exactly when the stored-event decoding does; the id is the event's position; topic and state pass through |
| Translation.EncodeDecodeRoundTrip | eventsourcing_umadb/recorders.py:61-70 | the log event written for a record decodes back to that record, and to its notification at any position, when the identity holds no `:` |
| Translation.SingleOriginatorContiguous | eventsourcing_umadb/recorders.py:48-60 | for a batch of one originator, the check accepts exactly the batches whose versions rise by one each step |
| Translation.ContiguousVersionsIncrease | eventsourcing_umadb/recorders.py:48-60 | in an accepted batch, one originator's versions strictly increase along the batch |
| Translation.ContiguousImpliesUnique | eventsourcing_umadb/recorders.py:48-60 | an accepted batch repeats no (originator, version) pair |
| Translation.LastVersions | eventsourcing_umadb/recorders.py:48-60 | the dictionary is empty exactly before the first event, and maps the latest event's originator to that event's version |
| Translation.LastVersionsRecall | eventsourcing_umadb/recorders.py:48-60 | the dictionary holds exactly the originators seen so far, each mapped to the version of its last event |
| Translation.CheckStep | eventsourcing_umadb/recorders.py:50-53 | the dictionary test applied to one event is exactly the contiguity condition for that event |
| Translation.EncodedAt | eventsourcing_umadb/recorders.py:61-71 | the k-th log event is the k-th record encoded with the k-th event id: type = topic, data = state, tags = [identity tag, version tag] |
| Translation.EncodeBatch | eventsourcing_umadb/recorders.py:48-71 | fails with the client-side `IntegrityError` exactly when the batch is not contiguous per originator; otherwise gives one log event per record, in batch order |
| Translation.QueryItemsFor | eventsourcing_umadb/recorders.py:73-78 | one query item per encoded event, in batch order; each has no types and exactly that event's tags |
| Translation.AppendConditionFor | eventsourcing_umadb/recorders.py:72-86 | a log event matches the condition exactly when it carries every tag of some event of the batch, whatever its type |
| Translation.ItemMatchesExactlyClash | eventsourcing_umadb/recorders.py:73-78 | one event's condition item matches a written record exactly when the two have the same originator and version |
| Translation.ConditionMatchesExactlyClashes | eventsourcing_umadb/recorders.py:72-87 | the batch's condition matches a record written by the recorder exactly when some event of the batch has that record's originator and version |
| Translation.NoClashWithWritten | eventsourcing_umadb/recorders.py:72-87 | a written record the condition does not match clashes with no event of the batch |
| Translation.GuardedAppendKeepsVersionsUnique | eventsourcing_umadb/recorders.py:72-90 | if the written records have unique versions, the batch is contiguous and the condition matches none of the records, the versions stay unique with the batch added |
| Translation.Range | eventsourcing_umadb/recorders.py:92-94 | `range(lo, hi)` has `hi - lo` elements (none when `lo >= hi`), the k-th being `lo + k` |
| Translation.BatchPositions | eventsourcing_umadb/recorders.py:92-94 | n consecutive positions ending at the sequence number returned by the append |
| Selection.Scan | eventsourcing_umadb/recorders.py:121-147 | the filter fails only with a decoding error; on success it returns what it had collected plus at most one record per event read |
| Selection.ScanSound | eventsourcing_umadb/recorders.py:121-147 | the filter fails only with a decoding error; it keeps only versions inside `gt`/`lte`; it never exceeds a non-negative limit |
| Selection.ScanEmbeds | eventsourcing_umadb/recorders.py:121-147 | the filter keeps what it has collected and adds only records decoded from the read, in the read's order |
| Selection.NothingWantedAfterStop | eventsourcing_umadb/recorders.py:127-138 | when versions come in the read's order, nothing from the first version at or below `gt` (descending) or above `lte` (ascending) onwards is in the window |
| Selection.ScanExact | eventsourcing_umadb/recorders.py:125-146 | when versions come in the read's order, the filter returns exactly the in-window records, cut to the limit |
| Selection.ScanFromStart | eventsourcing_umadb/recorders.py:121-147 | from an empty start: only decoding errors, in-window versions, a subsequence of the read, at most a non-negative limit; and exactly the wanted records cut to the limit for an ordered read |
| Selection.FilterEvents | eventsourcing_umadb/recorders.py:121-147 | the loop with its break/continue choices returns what `Scan` specifies, with all the properties of `ScanFromStart` |
| Selection.StopCount | eventsourcing_umadb/recorders.py:194-195 | the loop visits every event when there is no `stop`; otherwise it visits up to and including the first event at or past `stop` |
| Selection.DecodeNotifications | eventsourcing_umadb/recorders.py:183-192 | one notification per event, or the first decoding error |
| Selection.DecodeNotificationsPointwise | eventsourcing_umadb/recorders.py:183-192 | the feed decodes exactly when every event does; the k-th notification is the k-th event decoded |
| Selection.FirstFailureSticks | eventsourcing_umadb/recorders.py:183-190 | the first event that fails to decode determines the error of every longer prefix |
| Selection.DecodedFeed | eventsourcing_umadb/recorders.py:184-191 | the k-th notification has the k-th event's position as id and its type as topic |
| Selection.FeedBelowStop | eventsourcing_umadb/recorders.py:194-195 | with a `stop`, every notification but the last has an id below it |
| Selection.FeedFromRead | eventsourcing_umadb/recorders.py:181-197 | the result is a decoding error or a decoded prefix of the read: the whole read without `stop`; with `stop`, all ids but the last are below it, and the last is at or past it if the loop stopped early |
| Selection.CollectNotifications | eventsourcing_umadb/recorders.py:181-197 | the loop returns the decoding of the events up to and including the first at or past `stop`, or the first decoding error |
| Recorders.EncodedAppend | eventsourcing_umadb/recorders.py:61-71 | encoding a longer history appends the new batch's log events after the old ones |
| Recorders.AcceptedBatchExtendsHistory | eventsourcing_umadb/recorders.py:72-94 | a batch the log accepts after the recorder's history extends it in place; with `:`-free identities and a contiguous batch, versions stay unique |
| Recorders.AcceptedBatchWrittenAt | eventsourcing_umadb/recorders.py:92-94 | the k-th returned position holds the k-th record's log event |
| Recorders.WrittenAtReadsBack | eventsourcing_umadb/recorders.py:92-94 | reading the log at the returned positions gives the inserted records, and notifications whose ids are those positions |
| Recorders.OriginatorQuery | eventsourcing_umadb/recorders.py:114-119 | the query matches exactly the events carrying the originator's identity tag |
| Recorders.UmaDBAggregateRecorder.New | eventsourcing_umadb/recorders.py:20-31 | a snapshot recorder is refused with `NotImplementedError`; otherwise a new recorder over the given client |
| Recorders.UmaDBAggregateRecorder.InsertBatch | eventsourcing_umadb/recorders.py:39-94 | covers each outcome of `_insert_events`, listed below the table |
| Recorders.UmaDBAggregateRecorder.InsertEvents | eventsourcing_umadb/recorders.py:33-37 | the same effect on the log as `_insert_events` and never any positions: an empty batch leaves the log unchanged; a non-contiguous batch fails with the contiguity `IntegrityError`; the conflict `IntegrityError` comes exactly when the batch is contiguous and a stored event matches the condition; any failure leaves the log unchanged |
| Recorders.UmaDBAggregateRecorder.SelectEvents | eventsourcing_umadb/recorders.py:104-147 | filters the originator's events read in the requested direction: a subsequence, in window, within the limit; exactly the wanted records for an ordered read |
| Recorders.TopicsQuery | eventsourcing_umadb/recorders.py:176-180 | the query matches exactly the events of one of the topics, or every event when there are no topics |
| Recorders.ReadStart | eventsourcing_umadb/recorders.py:174-175 | reads from `start`, from `start + 1` when not inclusive, and from the beginning when there is no start |
| Recorders.SelectedFromLog | eventsourcing_umadb/recorders.py:174-197 | each notification of a decoded read is the log event at its id; it is of a requested topic and after the start; ids ascend; there are at most `limit` |
| Recorders.NotificationsFromLog | eventsourcing_umadb/recorders.py:174-197 | the notifications the loop keeps have the properties of `SelectedFromLog`, and all but the last are below `stop` |
| Recorders.UmaDBApplicationRecorder.MaxNotificationId | eventsourcing_umadb/recorders.py:157-158 | `None` exactly for an empty log; otherwise the position of an event in the log and at least every position in it |
| Recorders.UmaDBApplicationRecorder.InsertEvents | eventsourcing_umadb/recorders.py:160-163 | like `_insert_events`: an empty batch returns `None` and leaves the log unchanged; the same two `IntegrityError` cases; any failure leaves the log unchanged; on success the returned positions are n consecutive positions ending at the log's head, and they hold the batch |
| Recorders.UmaDBApplicationRecorder.SelectNotifications | eventsourcing_umadb/recorders.py:165-197 | what the loop returns from the log's read, with each notification the log event at its id, of a requested topic, after the start; ids ascend; at most `limit`; all but the last below `stop` |
| Recorders.UmaDBApplicationRecorder.SelectEvents | eventsourcing_umadb/recorders.py:104-147 | the inherited `select_events`: the filter over the originator's events |

`Recorders.UmaDBAggregateRecorder.InsertBatch` states these outcomes of
`_insert_events`:

- An empty batch returns `None` and leaves the log unchanged.
- A non-contiguous batch fails with `IntegrityError` before the log is
  touched.
- A conflict fails with `IntegrityError`, exactly when a stored event matches
  the condition.
- Any failure leaves the log unchanged.
- On success, the batch is appended at the next positions and their range is
  returned.
- The returned positions hold the batch.
- The recorder's history stays free of duplicate versions.

## Left out

- The UmaDB client is a stand-in (`UmaDB.Client`). The real client's storage,
  network protocol and condition evaluation are a foreign library. The
  stand-in assumes dense positions from 1, an all-or-nothing conditional
  append, and a read that returns matching events in position order.
- Concurrent writers are not modelled. Each append is atomic, and the lemmas
  about history assume the recorder is the log's only writer.
- `Tags.ExtractOriginatorId`: returns the text after the first `:` as a
  string. The `UUID(...)` parse is not modelled, so neither is its
  `ValueError` for text that is not a UUID.
- `Tags.ParseInt`: accepts only an optional sign followed by ASCII digits.
  Python's `int()` also accepts surrounding whitespace, `_` between digits and
  non-ASCII digits. Its contract states only the sign of the value read. The
  digit syntax it accepts is stated on `Tags.ParseDigits`, and the value on
  `Tags.IntRoundTrip`.
- The fresh event ids that `_insert_events` draws with `uuid4()` are a
  parameter (`uuids`), because they are random.
- Versions are unbounded integers, as in Python. Negative versions are
  allowed and round-trip through the tags.
- `UmaDB.Client.Read`: treats a negative limit as no limit. The real client's
  behaviour for one is not visible.
- The snapshot early return in `select_events` is not modelled. `__init__`
  refuses `for_snapshotting`, so that branch cannot run.
- `subscribe` is left out. It only raises `NotImplementedError`.
- `eventsourcing_umadb/factory.py` is not part of this model. It holds
  configuration wiring and client construction.
- Python's keyword defaults are not modelled. Every parameter is passed
  explicitly: `gt`, `lte` and `limit` (`None` is `Option.None`), `desc`
  (default `False`), `stop` (`None`), `topics` (`()`, the empty sequence)
  and `inclusive_of_start` (`True`).
- The `**kwargs` passed through `insert_events` are ignored by the source and
  are not modelled.
- `UmaDBApplicationRecorder` holds an `UmaDBAggregateRecorder` rather than
  inheriting from it. `SelectEvents` forwards to it unchanged.
- On `stop`, the model follows the code. The code includes the first event at
  or past `stop`, and that event's id can exceed `stop` when a topic filter
  skips positions. A contract promising "ids up to `stop`" would not match
  the code.
