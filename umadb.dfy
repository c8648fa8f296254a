/** A stand-in for the UmaDB client the recorders talk to. The client's own
    code is not part of this model; this module gives it the behaviour the
    recorders rely on: a conditional append that either rejects the whole
    batch or gives it contiguous positions, a query-filtered read, and the
    head position. */
module UmaDB {
  import opened Wrappers

  newtype byte = x: int | 0 <= x < 256

  /** A log event: a type, opaque data, an ordered list of tags and an id. */
  datatype Event = Event(eventType: string, data: seq<byte>, tags: seq<string>, uuid: string)

  /** A log event with the position the log gave it. */
  datatype SequencedEvent = SequencedEvent(event: Event, position: int)

  /** Matches an event whose type is one of `types` (any type when `types`
      is empty) and which carries every tag in `tags`. */
  datatype QueryItem = QueryItem(types: seq<string>, tags: seq<string>)

  /** Matches an event that any one of its items matches. */
  datatype Query = Query(items: seq<QueryItem>)

  datatype AppendCondition = AppendCondition(failIfEventsMatch: Query)

  /** The last position of an accepted batch, or the log's conflict signal. */
  datatype AppendOutcome = Appended(position: int) | Conflict

  predicate ItemMatches(item: QueryItem, e: Event) {
    (item.types == [] || e.eventType in item.types) &&
    forall t :: t in item.tags ==> t in e.tags
  }

  predicate QueryMatches(q: Query, e: Event) {
    exists item :: item in q.items && ItemMatches(item, e)
  }

  /** Some event of `log` matches the condition's query. */
  predicate Clashes(log: seq<SequencedEvent>, condition: AppendCondition) {
    exists k :: 0 <= k < |log| && QueryMatches(condition.failIfEventsMatch, log[k].event)
  }

  predicate AtOrAfter(position: int, start: Option<int>) {
    start.None? || start.value <= position
  }

  predicate StrictlyAscending(s: seq<SequencedEvent>) {
    forall i, j :: 0 <= i < j < |s| ==> s[i].position < s[j].position
  }

  /** The events of `events` that match `q` and start no earlier than `start`,
      in their original order. */
  function Hits(events: seq<SequencedEvent>, q: Query, start: Option<int>): (r: seq<SequencedEvent>)
    ensures |r| <= |events|
    ensures forall k :: 0 <= k < |r| ==>
              r[k] in events && QueryMatches(q, r[k].event) && AtOrAfter(r[k].position, start)
    ensures forall k :: (0 <= k < |events| && QueryMatches(q, events[k].event) &&
                         AtOrAfter(events[k].position, start)) ==> events[k] in r
    ensures StrictlyAscending(events) ==> StrictlyAscending(r)
    decreases |events|
  {
    if events == [] then []
    else
      var rest := Hits(events[1..], q, start);
      var r := if QueryMatches(q, events[0].event) && AtOrAfter(events[0].position, start) then
                 [events[0]] + rest
               else rest;
      HitsConsSound(events, q, start, rest, r);
      HitsConsComplete(events, q, start, rest, r);
      HitsConsAscending(events, rest, r);
      r
  }

  /** One step of `Hits`: keeping or dropping the first event, each kept
      event is an event of `events` that matches. */
  lemma {:induction false} HitsConsSound(events: seq<SequencedEvent>, q: Query, start: Option<int>,
                                         rest: seq<SequencedEvent>, r: seq<SequencedEvent>)
    requires |events| >= 1
    requires forall k :: 0 <= k < |rest| ==>
               rest[k] in events[1..] && QueryMatches(q, rest[k].event) && AtOrAfter(rest[k].position, start)
    requires r == rest || (r == [events[0]] + rest && QueryMatches(q, events[0].event) && AtOrAfter(events[0].position, start))
    ensures forall k :: 0 <= k < |r| ==>
              r[k] in events && QueryMatches(q, r[k].event) && AtOrAfter(r[k].position, start)
  {
    forall k | 0 <= k < |r| ensures r[k] in events && QueryMatches(q, r[k].event) && AtOrAfter(r[k].position, start) {
      if r != rest && k == 0 {
      } else {
        var j := if r == rest then k else k - 1;
        assert r[k] == rest[j];
        var p :| 0 <= p < |events[1..]| && events[1..][p] == rest[j];
        assert events[p + 1] == rest[j];
      }
    }
  }

  /** One step of `Hits`: every matching event of `events` is kept. */
  lemma {:induction false} HitsConsComplete(events: seq<SequencedEvent>, q: Query, start: Option<int>,
                                            rest: seq<SequencedEvent>, r: seq<SequencedEvent>)
    requires |events| >= 1
    requires forall k :: (0 <= k < |events[1..]| && QueryMatches(q, events[1..][k].event) &&
                          AtOrAfter(events[1..][k].position, start)) ==> events[1..][k] in rest
    requires r == if QueryMatches(q, events[0].event) && AtOrAfter(events[0].position, start) then
                    [events[0]] + rest
                  else rest
    ensures forall k :: (0 <= k < |events| && QueryMatches(q, events[k].event) &&
                         AtOrAfter(events[k].position, start)) ==> events[k] in r
  {
    forall k | 0 <= k < |events| && QueryMatches(q, events[k].event) && AtOrAfter(events[k].position, start)
      ensures events[k] in r
    {
      if k > 0 {
        assert events[k] == events[1..][k - 1];
      }
    }
  }

  /** One step of `Hits`: the kept events stay in ascending position order. */
  lemma {:induction false} HitsConsAscending(events: seq<SequencedEvent>, rest: seq<SequencedEvent>, r: seq<SequencedEvent>)
    requires |events| >= 1
    requires forall k :: 0 <= k < |rest| ==> rest[k] in events[1..]
    requires StrictlyAscending(events[1..]) ==> StrictlyAscending(rest)
    requires r == rest || r == [events[0]] + rest
    ensures StrictlyAscending(events) ==> StrictlyAscending(r)
  {
    if StrictlyAscending(events) {
      assert StrictlyAscending(events[1..]);
      if r != rest {
        forall j | 0 <= j < |rest| ensures events[0].position < rest[j].position {
          assert rest[j] in events[1..];
          var p :| 0 <= p < |events[1..]| && events[1..][p] == rest[j];
          assert events[p + 1] == rest[j];
        }
      }
    }
  }

  function Reversed<T>(s: seq<T>): (r: seq<T>)
    ensures |r| == |s|
    ensures forall k :: 0 <= k < |s| ==> r[k] == s[|s| - 1 - k]
    decreases |s|
  {
    if s == [] then [] else Reversed(s[1..]) + [s[0]]
  }

  /** At most `limit` leading elements of `s`; all of `s` when there is no
      limit or the limit is negative. */
  function TakeUpTo<T>(s: seq<T>, limit: Option<int>): (r: seq<T>)
    ensures |r| <= |s| && r == s[..|r|]
    ensures limit.Some? && 0 <= limit.value ==> |r| == if limit.value < |s| then limit.value else |s|
    ensures limit.None? || limit.value < 0 ==> r == s
  {
    if limit.Some? && 0 <= limit.value < |s| then s[..limit.value] else s
  }

  /** A batch laid out at consecutive positions from `first`. */
  function Positioned(batch: seq<Event>, first: int): (r: seq<SequencedEvent>)
    ensures |r| == |batch|
    ensures forall k :: 0 <= k < |r| ==> r[k] == SequencedEvent(batch[k], first + k)
  {
    seq(|batch|, k requires 0 <= k < |batch| => SequencedEvent(batch[k], first + k))
  }

  class Client {
    /** Every event accepted so far, in position order. */
    var events: seq<SequencedEvent>

    /** Positions are dense and start at 1. */
    ghost predicate Valid()
      reads this
    {
      forall k :: 0 <= k < |events| ==> events[k].position == k + 1
    }

    constructor ()
      ensures Valid() && events == []
    {
      events := [];
    }

    /** The position of the most recent event, or `None` for an empty log. */
    function Head(): (h: Option<int>)
      reads this
      requires Valid()
      ensures h.None? <==> events == []
      ensures h.Some? ==> h.value == |events| &&
                          forall k :: 0 <= k < |events| ==> events[k].position <= h.value
    {
      if events == [] then None else Some(events[|events| - 1].position)
    }

    /** The events matching `query` at or after `start`, forwards or backwards
        in position order, at most `limit` of them. */
    function Read(query: Query, start: Option<int>, limit: Option<int>, backwards: bool): (r: seq<SequencedEvent>)
      reads this
      ensures forall k :: 0 <= k < |r| ==>
                r[k] in events && QueryMatches(query, r[k].event) && AtOrAfter(r[k].position, start)
      ensures limit.Some? && 0 <= limit.value ==> |r| <= limit.value
      ensures Valid() && !backwards ==> StrictlyAscending(r)
    {
      var hits := Hits(events, query, start);
      assert Valid() ==> StrictlyAscending(events);
      TakeUpTo(if backwards then Reversed(hits) else hits, limit)
    }

    /** Appends the whole batch at the next positions and returns the last
        one, unless an event already in the log matches the condition, in
        which case nothing is appended. */
    method Append(batch: seq<Event>, condition: AppendCondition) returns (outcome: AppendOutcome)
      requires Valid() && |batch| >= 1
      modifies this
      ensures Valid()
      ensures outcome.Conflict? <==> Clashes(old(events), condition)
      ensures outcome.Conflict? ==> events == old(events)
      ensures outcome.Appended? ==>
                outcome.position == |old(events)| + |batch| &&
                events == old(events) + Positioned(batch, |old(events)| + 1)
    {
      if Clashes(events, condition) {
        outcome := Conflict;
      } else {
        var n := |events|;
        events := events + Positioned(batch, n + 1);
        outcome := Appended(n + |batch|);
      }
    }
  }
}
