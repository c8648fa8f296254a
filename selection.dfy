/** The two read paths: the client-side filter `select_events` runs over an
    aggregate's events, and the loop `select_notifications` runs over a slice
    of the application-wide log. */
module Selection {
  import opened Wrappers
  import opened Errors
  import opened UmaDB
  import opened Translation

  // ---------------------------------------------------------------------------
  // select_events
  // ---------------------------------------------------------------------------

  /** `gt < v` when `gt` is given, and `v <= lte` when `lte` is given. */
  predicate InWindow(v: int, gt: Option<int>, lte: Option<int>) {
    (gt.None? || gt.value < v) && (lte.None? || v <= lte.value)
  }

  /** What the filter loop returns once it has collected `acc` and has the
      events `read` still to visit. Each event is decoded first; then the loop
      stops when `limit` events are collected, skips or stops on an event at or
      below `gt` (stops when reading backwards) and on an event above `lte`
      (stops when reading forwards), and otherwise collects the event. */
  function Scan(read: seq<SequencedEvent>, gt: Option<int>, lte: Option<int>, desc: bool,
                limit: Option<int>, acc: seq<StoredEvent>): (r: Result<seq<StoredEvent>, Error>)
    ensures r.Failure? ==> IsDecodeError(r.error)
    ensures r.Success? ==> |acc| <= |r.value| <= |acc| + |read|
    decreases |read|
  {
    if read == [] then Success(acc)
    else
      match DecodeStored(read[0])
      case Failure(e) => Failure(e)
      case Success(se) =>
        if limit == Some(|acc|) then Success(acc)
        else if gt.Some? && se.originatorVersion <= gt.value then
          if desc then Success(acc) else Scan(read[1..], gt, lte, desc, limit, acc)
        else if lte.Some? && se.originatorVersion > lte.value then
          if !desc then Success(acc) else Scan(read[1..], gt, lte, desc, limit, acc)
        else Scan(read[1..], gt, lte, desc, limit, acc + [se])
  }

  /** `s` is a subsequence of what `read` decodes to. */
  ghost predicate Embeds(s: seq<StoredEvent>, read: seq<SequencedEvent>)
    decreases |read|
  {
    if s == [] then true
    else if read == [] then false
    else (DecodeStored(read[0]) == Success(s[0]) && Embeds(s[1..], read[1..])) || Embeds(s, read[1..])
  }

  /** Whatever the log returns, the filter fails only with a decoding error,
      and what it returns holds only versions inside the window and never
      more than a non-negative `limit`. */
  lemma {:induction false} ScanSound(read: seq<SequencedEvent>, gt: Option<int>, lte: Option<int>, desc: bool,
                                     limit: Option<int>, acc: seq<StoredEvent>)
    requires forall k :: 0 <= k < |acc| ==> InWindow(acc[k].originatorVersion, gt, lte)
    requires limit.Some? && 0 <= limit.value ==> |acc| <= limit.value
    ensures var r := Scan(read, gt, lte, desc, limit, acc);
            (r.Failure? ==> IsDecodeError(r.error)) &&
            (r.Success? ==>
              (forall k :: 0 <= k < |r.value| ==> InWindow(r.value[k].originatorVersion, gt, lte)) &&
              (limit.Some? && 0 <= limit.value ==> |r.value| <= limit.value))
    decreases |read|
  {
    if read != [] && DecodeStored(read[0]).Success? {
      var se := DecodeStored(read[0]).value;
      if limit == Some(|acc|) {
      } else if (gt.Some? && se.originatorVersion <= gt.value) || (lte.Some? && se.originatorVersion > lte.value) {
        ScanSound(read[1..], gt, lte, desc, limit, acc);
      } else {
        ScanSound(read[1..], gt, lte, desc, limit, acc + [se]);
      }
    }
  }

  /** The filter keeps what it has collected and adds only records decoded
      from `read`, in `read`'s order. */
  lemma {:induction false} ScanEmbeds(read: seq<SequencedEvent>, gt: Option<int>, lte: Option<int>, desc: bool,
                                      limit: Option<int>, acc: seq<StoredEvent>)
    ensures var r := Scan(read, gt, lte, desc, limit, acc);
            r.Success? ==> |acc| <= |r.value| && r.value[..|acc|] == acc && Embeds(r.value[|acc|..], read)
    decreases |read|
  {
    if read != [] && DecodeStored(read[0]).Success? {
      var se := DecodeStored(read[0]).value;
      var r := Scan(read, gt, lte, desc, limit, acc);
      if limit == Some(|acc|) {
        assert acc[|acc|..] == [];
      } else if (gt.Some? && se.originatorVersion <= gt.value) || (lte.Some? && se.originatorVersion > lte.value) {
        ScanEmbeds(read[1..], gt, lte, desc, limit, acc);
        if r == Success(acc) {
          assert acc[|acc|..] == [];
        } else if r.Success? {
          EmbedsLater(r.value[|acc|..], read);
        }
      } else {
        ScanEmbeds(read[1..], gt, lte, desc, limit, acc + [se]);
        if r.Success? {
          EmbedsCollected(read, se, acc, r.value);
        }
      }
    }
  }

  /** A record decoded from the first event and collected after `acc` keeps
      the rest of the result a subsequence of the read. */
  lemma {:induction false} EmbedsCollected(read: seq<SequencedEvent>, se: StoredEvent, acc: seq<StoredEvent>, v: seq<StoredEvent>)
    requires |read| >= 1 && DecodeStored(read[0]) == Success(se)
    requires |acc| + 1 <= |v| && v[..|acc| + 1] == acc + [se] && Embeds(v[|acc| + 1..], read[1..])
    ensures v[..|acc|] == acc && Embeds(v[|acc|..], read)
  {
    var t := v[|acc|..];
    assert v[..|acc|] == v[..|acc| + 1][..|acc|];
    assert t == [se] + v[|acc| + 1..];
    assert t[1..] == v[|acc| + 1..];
  }

  /** Skipping the first event of a read keeps a subsequence a subsequence. */
  lemma {:induction false} EmbedsLater(s: seq<StoredEvent>, read: seq<SequencedEvent>)
    requires |read| >= 1 && Embeds(s, read[1..])
    ensures Embeds(s, read)
  {
  }

  /** Every event of `read` decodes. */
  ghost predicate AllDecode(read: seq<SequencedEvent>) {
    forall k :: 0 <= k < |read| ==> DecodeStored(read[k]).Success?
  }

  /** The records `read` decodes to, in order. */
  function DecodedAll(read: seq<SequencedEvent>): (s: seq<StoredEvent>)
    requires AllDecode(read)
    ensures |s| == |read|
    ensures forall k :: 0 <= k < |read| ==> DecodeStored(read[k]) == Success(s[k])
    decreases |read|
  {
    if read == [] then [] else [DecodeStored(read[0]).value] + DecodedAll(read[1..])
  }

  /** The records of `s` whose versions lie in the window, in order. */
  function Wanted(s: seq<StoredEvent>, gt: Option<int>, lte: Option<int>): (r: seq<StoredEvent>)
    ensures forall k :: 0 <= k < |r| ==> r[k] in s && InWindow(r[k].originatorVersion, gt, lte)
    decreases |s|
  {
    if s == [] then []
    else if InWindow(s[0].originatorVersion, gt, lte) then [s[0]] + Wanted(s[1..], gt, lte)
    else Wanted(s[1..], gt, lte)
  }

  /** Versions ascend in a forward read and descend in a backward one, as
      they do in an aggregate's own history. */
  ghost predicate OrderedForRead(s: seq<StoredEvent>, desc: bool) {
    forall i, j :: 0 <= i < j < |s| ==>
      if desc then s[i].originatorVersion >= s[j].originatorVersion
      else s[i].originatorVersion <= s[j].originatorVersion
  }

  /** How many more records a limit allows once `n` are collected; `None` for
      no limit (a negative limit never stops the loop). */
  function Remaining(limit: Option<int>, n: nat): Option<int> {
    if limit.Some? && 0 <= limit.value then Some(limit.value - n) else None
  }

  lemma {:induction false} TakeUpToCons<T>(x: T, s: seq<T>, limit: Option<int>)
    requires limit.None? || 1 <= limit.value
    ensures TakeUpTo([x] + s, limit) == [x] + TakeUpTo(s, if limit.None? then None else Some(limit.value - 1))
  {
    if limit.Some? && limit.value - 1 < |s| {
      assert ([x] + s)[..limit.value] == [x] + s[..limit.value - 1];
    }
  }

  /** The first record of a read it is safe to stop at: nothing from it on
      is in the window, given the read's version order. */
  lemma {:induction false} NothingWantedAfterStop(d: seq<StoredEvent>, gt: Option<int>, lte: Option<int>, desc: bool)
    requires |d| >= 1 && OrderedForRead(d, desc)
    requires (desc && gt.Some? && d[0].originatorVersion <= gt.value) ||
             (!desc && lte.Some? && d[0].originatorVersion > lte.value)
    ensures Wanted(d, gt, lte) == []
  {
    forall k | 0 <= k < |d| ensures !InWindow(d[k].originatorVersion, gt, lte) {
      if k > 0 {
        assert if desc then d[0].originatorVersion >= d[k].originatorVersion
               else d[0].originatorVersion <= d[k].originatorVersion;
      }
    }
    NoneWanted(d, gt, lte);
  }

  /** A sequence with no version in the window has nothing wanted. */
  lemma {:induction false} NoneWanted(d: seq<StoredEvent>, gt: Option<int>, lte: Option<int>)
    requires forall k :: 0 <= k < |d| ==> !InWindow(d[k].originatorVersion, gt, lte)
    ensures Wanted(d, gt, lte) == []
    decreases |d|
  {
    if d != [] {
      NoneWanted(d[1..], gt, lte);
    }
  }

  /** Decoding a read is decoding its first event, then the rest. */
  lemma {:induction false} DecodedAllTail(read: seq<SequencedEvent>, desc: bool)
    requires |read| >= 1 && AllDecode(read) && OrderedForRead(DecodedAll(read), desc)
    ensures AllDecode(read[1..]) && DecodedAll(read[1..]) == DecodedAll(read)[1..]
    ensures OrderedForRead(DecodedAll(read[1..]), desc)
    ensures DecodedAll(read) == [DecodeStored(read[0]).value] + DecodedAll(read[1..])
  {
  }

  /** Collecting one wanted record uses up one unit of the limit. */
  lemma {:induction false} CollectOne(acc: seq<StoredEvent>, se: StoredEvent, w: seq<StoredEvent>, limit: Option<int>)
    requires limit.Some? && 0 <= limit.value ==> |acc| < limit.value
    ensures acc + [se] + TakeUpTo(w, Remaining(limit, |acc| + 1))
            == acc + TakeUpTo([se] + w, Remaining(limit, |acc|))
  {
    TakeUpToCons(se, w, Remaining(limit, |acc|));
  }

  /** The early stops are safe: when the versions come in the order of the
      read direction, the filter returns exactly the records in the window,
      cut to the limit. */
  lemma {:induction false} ScanExact(read: seq<SequencedEvent>, gt: Option<int>, lte: Option<int>, desc: bool,
                                     limit: Option<int>, acc: seq<StoredEvent>)
    requires AllDecode(read) && OrderedForRead(DecodedAll(read), desc)
    requires limit.Some? && 0 <= limit.value ==> |acc| <= limit.value
    ensures Scan(read, gt, lte, desc, limit, acc)
            == Success(acc + TakeUpTo(Wanted(DecodedAll(read), gt, lte), Remaining(limit, |acc|)))
    decreases |read|
  {
    if read == [] {
      assert acc + [] == acc;
    } else {
      var d := DecodedAll(read);
      DecodedAllTail(read, desc);
      var se := d[0];
      if limit == Some(|acc|) {
        assert acc + [] == acc;
      } else if gt.Some? && se.originatorVersion <= gt.value {
        if desc {
          NothingWantedAfterStop(d, gt, lte, desc);
          assert acc + [] == acc;
        } else {
          ScanExact(read[1..], gt, lte, desc, limit, acc);
        }
      } else if lte.Some? && se.originatorVersion > lte.value {
        if !desc {
          NothingWantedAfterStop(d, gt, lte, desc);
          assert acc + [] == acc;
        } else {
          ScanExact(read[1..], gt, lte, desc, limit, acc);
        }
      } else {
        ScanExact(read[1..], gt, lte, desc, limit, acc + [se]);
        CollectOne(acc, se, Wanted(d[1..], gt, lte), limit);
      }
    }
  }

  /** What the filter returns from an empty start: for any read, only a
      decoding error or in-window records decoded from the read in its order,
      at most a non-negative `limit` of them; and exactly the wanted records
      of the read cut to `limit` whenever versions come in the order of the
      read. */
  lemma {:induction false} ScanFromStart(read: seq<SequencedEvent>, gt: Option<int>, lte: Option<int>, desc: bool,
                                         limit: Option<int>)
    ensures var r := Scan(read, gt, lte, desc, limit, []);
            (r.Failure? ==> IsDecodeError(r.error)) &&
            (r.Success? ==> Embeds(r.value, read)) &&
            (r.Success? ==> forall k :: 0 <= k < |r.value| ==> InWindow(r.value[k].originatorVersion, gt, lte)) &&
            (r.Success? && limit.Some? && 0 <= limit.value ==> |r.value| <= limit.value) &&
            (AllDecode(read) && OrderedForRead(DecodedAll(read), desc) ==>
               r == Success(TakeUpTo(Wanted(DecodedAll(read), gt, lte), limit)))
  {
    var r := Scan(read, gt, lte, desc, limit, []);
    ScanSound(read, gt, lte, desc, limit, []);
    ScanEmbeds(read, gt, lte, desc, limit, []);
    if r.Success? {
      assert r.value[0..] == r.value;
    }
    if AllDecode(read) && OrderedForRead(DecodedAll(read), desc) {
      var w := Wanted(DecodedAll(read), gt, lte);
      ScanExact(read, gt, lte, desc, limit, []);
      assert [] + TakeUpTo(w, Remaining(limit, 0)) == TakeUpTo(w, Remaining(limit, 0));
      assert TakeUpTo(w, Remaining(limit, 0)) == TakeUpTo(w, limit);
    }
  }

  /** The loop of `select_events` over the events the log returned for one
      originator (forwards, or backwards when `desc`). */
  method FilterEvents(read: seq<SequencedEvent>, gt: Option<int>, lte: Option<int>, desc: bool, limit: Option<int>)
    returns (r: Result<seq<StoredEvent>, Error>)
    ensures r == Scan(read, gt, lte, desc, limit, [])
    ensures r.Failure? ==> IsDecodeError(r.error)
    ensures r.Success? ==> Embeds(r.value, read)
    ensures r.Success? ==> forall k :: 0 <= k < |r.value| ==> InWindow(r.value[k].originatorVersion, gt, lte)
    ensures r.Success? && limit.Some? && 0 <= limit.value ==> |r.value| <= limit.value
    ensures AllDecode(read) && OrderedForRead(DecodedAll(read), desc) ==>
              r == Success(TakeUpTo(Wanted(DecodedAll(read), gt, lte), limit))
  {
    var storedEvents: seq<StoredEvent> := [];
    var i := 0;
    while i < |read|
      invariant 0 <= i <= |read|
      invariant Scan(read[i..], gt, lte, desc, limit, storedEvents) == Scan(read, gt, lte, desc, limit, [])
    {
      var ue := read[i];
      assert read[i..][0] == ue && read[i..][1..] == read[i + 1..];
      var extractedOriginatorId := Tags.ExtractOriginatorId(ue.event.tags);
      if extractedOriginatorId.Failure? {
        r := Failure(extractedOriginatorId.error);
        return;
      }
      var extractedOriginatorVersion := Tags.ExtractOriginatorVersion(ue.event.tags);
      if extractedOriginatorVersion.Failure? {
        r := Failure(extractedOriginatorVersion.error);
        return;
      }
      if limit == Some(|storedEvents|) {
        break;
      }
      if gt.Some? && extractedOriginatorVersion.value <= gt.value {
        if desc {
          break;
        } else {
          i := i + 1;
          continue;
        }
      }
      if lte.Some? && extractedOriginatorVersion.value > lte.value {
        if !desc {
          break;
        } else {
          i := i + 1;
          continue;
        }
      }
      storedEvents := storedEvents + [StoredEvent(extractedOriginatorId.value, extractedOriginatorVersion.value,
                                                  ue.event.eventType, ue.event.data)];
      i := i + 1;
    }
    r := Success(storedEvents);
    ScanFromStart(read, gt, lte, desc, limit);
  }

  // ---------------------------------------------------------------------------
  // select_notifications
  // ---------------------------------------------------------------------------

  /** How many events the notification loop visits: up to and including the
      first whose position is at or past `stop`, or all of them. */
  function StopCount(read: seq<SequencedEvent>, stop: Option<int>): (n: nat)
    ensures n <= |read| && (n == 0 <==> read == [])
    ensures stop.None? ==> n == |read|
    ensures stop.Some? ==> forall k :: 0 <= k < n - 1 ==> read[k].position < stop.value
    ensures stop.Some? && n < |read| ==> stop.value <= read[n - 1].position
    decreases |read|
  {
    if read == [] then 0
    else if stop.Some? && stop.value <= read[0].position then 1
    else 1 + StopCount(read[1..], stop)
  }

  /** A prefix of `read` with no position at or past `stop` ends before the
      loop stops, unless it is all of `read`. */
  lemma {:induction false} BelowStop(read: seq<SequencedEvent>, stop: Option<int>, i: nat)
    requires i < |read|
    requires forall k :: 0 <= k < i ==> stop.None? || read[k].position < stop.value
    ensures i < StopCount(read, stop)
  {
  }

  /** Such a prefix that is all of `read`, or whose last position is at or
      past `stop`, is exactly the events the loop visits. */
  lemma {:induction false} StopsAt(read: seq<SequencedEvent>, stop: Option<int>, i: nat)
    requires i <= |read|
    requires forall k :: 0 <= k < i - 1 ==> stop.None? || read[k].position < stop.value
    requires i == |read| || (i >= 1 && stop.Some? && stop.value <= read[i - 1].position)
    ensures i == StopCount(read, stop)
  {
  }

  /** The notifications `read` decodes to, or the first decoding error. */
  function DecodeNotifications(read: seq<SequencedEvent>): (r: Result<seq<Notification>, Error>)
    ensures r.Success? ==> |r.value| == |read|
    ensures r.Failure? ==> IsDecodeError(r.error)
    decreases |read|
  {
    if read == [] then Success([])
    else
      match DecodeNotifications(read[..|read| - 1])
      case Failure(e) => Failure(e)
      case Success(ns) =>
        match DecodeNotification(read[|read| - 1])
        case Failure(e) => Failure(e)
        case Success(n) => Success(ns + [n])
  }

  /** The notifications are decoded one per event, in order, and the whole
      read decodes exactly when each of its events does. */
  lemma {:induction false} DecodeNotificationsPointwise(read: seq<SequencedEvent>)
    ensures DecodeNotifications(read).Success? <==> forall k :: 0 <= k < |read| ==> DecodeNotification(read[k]).Success?
    ensures DecodeNotifications(read).Success? ==>
              forall k :: 0 <= k < |read| ==> DecodeNotification(read[k]) == Success(DecodeNotifications(read).value[k])
    decreases |read|
  {
    if read != [] {
      var front := read[..|read| - 1];
      DecodeNotificationsPointwise(front);
      assert forall k :: 0 <= k < |front| ==> front[k] == read[k];
    }
  }

  /** Once an event fails to decode, decoding any longer prefix fails the same way. */
  lemma {:induction false} FirstFailureSticks(read: seq<SequencedEvent>, i: nat, m: nat)
    requires i < m <= |read|
    requires DecodeNotifications(read[..i]).Success? && DecodeNotification(read[i]).Failure?
    ensures DecodeNotifications(read[..m]) == Failure(DecodeNotification(read[i]).error)
    decreases m
  {
    assert read[..m][..m - 1] == read[..m - 1];
    if m == i + 1 {
      assert read[..m][..i] == read[..i];
    } else {
      FirstFailureSticks(read, i, m - 1);
    }
  }

  /** The `k`-th notification of a decoded feed carries the position and
      type of the `k`-th event read. */
  lemma {:induction false} DecodedFeed(read: seq<SequencedEvent>, n: nat, ns: seq<Notification>)
    requires n <= |read| && DecodeNotifications(read[..n]) == Success(ns)
    ensures |ns| == n
    ensures forall k :: 0 <= k < |ns| ==> DecodeNotification(read[k]) == Success(ns[k])
    ensures forall k :: 0 <= k < |ns| ==> ns[k].id == read[k].position && ns[k].topic == read[k].event.eventType
  {
    DecodeNotificationsPointwise(read[..n]);
    forall k | 0 <= k < |ns|
      ensures DecodeNotification(read[k]) == Success(ns[k])
      ensures ns[k].id == read[k].position && ns[k].topic == read[k].event.eventType
    {
      assert read[..n][k] == read[k];
    }
  }

  /** With a `stop`, every notification of the feed but the last has an id
      below it. */
  lemma {:induction false} FeedBelowStop(read: seq<SequencedEvent>, stop: Option<int>, ns: seq<Notification>)
    requires DecodeNotifications(read[..StopCount(read, stop)]) == Success(ns)
    ensures stop.Some? ==> forall k :: 0 <= k < |ns| - 1 ==> ns[k].id < stop.value
  {
    DecodedFeed(read, StopCount(read, stop), ns);
  }

  /** What the notification loop returns for `read`: a decoding error, or
      one notification per event visited, decoded from it and in its order;
      every event of the read when there is no `stop`, and otherwise every
      notification but the last below `stop`, the last at or past it when
      the loop stopped early. */
  lemma {:induction false} FeedFromRead(read: seq<SequencedEvent>, stop: Option<int>)
    ensures var r := DecodeNotifications(read[..StopCount(read, stop)]);
            (r.Failure? ==> IsDecodeError(r.error)) &&
            (r.Success? ==> |r.value| <= |read|) &&
            (r.Success? ==> forall k :: 0 <= k < |r.value| ==> DecodeNotification(read[k]) == Success(r.value[k])) &&
            (r.Success? && stop.None? ==> |r.value| == |read|) &&
            (r.Success? && stop.Some? ==>
               (forall k :: 0 <= k < |r.value| - 1 ==> r.value[k].id < stop.value) &&
               (|r.value| < |read| ==> |r.value| >= 1 && stop.value <= r.value[|r.value| - 1].id))
  {
    var n := StopCount(read, stop);
    var r := DecodeNotifications(read[..n]);
    if r.Success? {
      DecodedFeed(read, n, r.value);
    }
  }

  /** The loop of `select_notifications`: one notification per event the log
      returned, in order, stopping after the first event at or past `stop`. */
  method CollectNotifications(read: seq<SequencedEvent>, stop: Option<int>) returns (r: Result<seq<Notification>, Error>)
    ensures r == DecodeNotifications(read[..StopCount(read, stop)])
  {
    var notifications: seq<Notification> := [];
    var count := 0;
    var i := 0;
    while i < |read|
      invariant 0 <= i <= |read|
      invariant stop.Some? ==> forall k :: 0 <= k < i ==> read[k].position < stop.value
      invariant DecodeNotifications(read[..i]) == Success(notifications)
      invariant count == |notifications|
    {
      var ue := read[i];
      assert read[..i + 1][..i] == read[..i];
      var notification := DecodeNotification(ue);
      if notification.Failure? {
        BelowStop(read, stop, i);
        FirstFailureSticks(read, i, StopCount(read, stop));
        r := Failure(notification.error);
        return;
      }
      notifications := notifications + [notification.value];
      count := count + 1;
      if stop.Some? && stop.value <= ue.position {
        i := i + 1;
        break;
      }
      i := i + 1;
    }
    StopsAt(read, stop, i);
    r := Success(notifications);
  }
}
