/** The tag codec: how an originator's identity and version are written into
    the two string tags of a log event, and read back out of them. */
module Tags {
  import opened Wrappers
  import opened Errors

  /** The separator the tags use between a label and its value. */
  const Delimiter: char := ':'

  // ---------------------------------------------------------------------------
  // Python's `str.split(":")`
  // ---------------------------------------------------------------------------

  /** The inverse of `Split`: the pieces glued back together with the delimiter. */
  function Join(pieces: seq<string>): string
    requires |pieces| >= 1
    decreases |pieces|
  {
    if |pieces| == 1 then pieces[0] else pieces[0] + [Delimiter] + Join(pieces[1..])
  }

  /** `s.split(":")`: the maximal delimiter-free pieces of `s`, in order. There
      is always at least one piece, and exactly one when `s` has no delimiter;
      `SplitJoin` shows that nothing is lost. */
  function Split(s: string): (pieces: seq<string>)
    ensures |pieces| >= 1
    ensures forall k :: 0 <= k < |pieces| ==> Delimiter !in pieces[k]
    ensures |pieces| == 1 <==> Delimiter !in s
    decreases |s|
  {
    if |s| == 0 then [""]
    else
      var rest := Split(s[1..]);
      assert s == [s[0]] + s[1..];
      if s[0] == Delimiter then [""] + rest
      else
        var pieces := [[s[0]] + rest[0]] + rest[1..];
        assert pieces[1..] == rest[1..];
        assert Delimiter in s <==> Delimiter in s[1..];
        pieces
  }

  /** The pieces join back to the string they were split from. */
  lemma {:induction false} SplitJoin(s: string)
    ensures Join(Split(s)) == s
    decreases |s|
  {
    if |s| > 0 {
      SplitJoin(s[1..]);
      assert s == [s[0]] + s[1..];
      var rest := Split(s[1..]);
      if s[0] != Delimiter {
        assert Split(s)[1..] == rest[1..];
      }
    }
  }

  /** A delimiter-free string is a single piece. */
  lemma {:induction false} SplitWhole(s: string)
    requires Delimiter !in s
    ensures Split(s) == [s]
    decreases |s|
  {
    if |s| > 0 {
      SplitWhole(s[1..]);
      assert [s[0]] + s[1..] == s;
    }
  }

  /** Splitting at the first delimiter: the part before it is the first piece,
      and the rest is split on its own. */
  lemma {:induction false} SplitAtFirst(a: string, b: string)
    requires Delimiter !in a
    ensures Split(a + [Delimiter] + b) == [a] + Split(b)
    decreases |a|
  {
    var s := a + [Delimiter] + b;
    if |a| == 0 {
      assert s[1..] == b;
    } else {
      assert s[1..] == a[1..] + [Delimiter] + b;
      SplitAtFirst(a[1..], b);
      assert [a[0]] + a[1..] == a;
    }
  }

  // ---------------------------------------------------------------------------
  // Python's `str(int)` and `int(str)`
  // ---------------------------------------------------------------------------

  predicate IsDigit(c: char) {
    '0' <= c <= '9'
  }

  function DigitChar(d: nat): (c: char)
    requires d < 10
    ensures IsDigit(c)
  {
    (48 + d) as char
  }

  function DigitValue(c: char): (d: nat)
    requires IsDigit(c)
    ensures d < 10 && DigitChar(d) == c
  {
    c as int - 48
  }

  /** Decimal text of a natural number: a non-empty run of decimal digits,
      a single digit exactly below ten, and no leading zero. */
  function NatToString(n: nat): (s: string)
    ensures |s| >= 1 && (|s| == 1 <==> n < 10)
    ensures forall k :: 0 <= k < |s| ==> IsDigit(s[k])
    ensures |s| > 1 ==> s[0] != '0'
    decreases n
  {
    if n < 10 then [DigitChar(n)] else NatToString(n / 10) + [DigitChar(n % 10)]
  }

  /** The value of a non-empty run of decimal digits; `None` for anything else. */
  function ParseDigits(s: string): (r: Option<nat>)
    ensures r.Some? <==> |s| >= 1 && forall k :: 0 <= k < |s| ==> IsDigit(s[k])
    decreases |s|
  {
    if |s| == 0 || !IsDigit(s[|s| - 1]) then None
    else if |s| == 1 then Some(DigitValue(s[0]))
    else
      match ParseDigits(s[..|s| - 1])
      case None => None
      case Some(m) => Some(10 * m + DigitValue(s[|s| - 1]))
  }

  /** `str(v)`: a minus sign for negative values, then the decimal digits.
      The text is never empty and holds no delimiter, so it survives as the
      last field of a tag. */
  function IntToString(v: int): (s: string)
    ensures |s| >= 1 && Delimiter !in s
    ensures s[0] == '-' <==> v < 0
  {
    var digits := NatToString(if v < 0 then -v else v);
    assert Delimiter !in digits by {
      assert forall k :: 0 <= k < |digits| ==> digits[k] != Delimiter;
    }
    if v < 0 then "-" + digits else digits
  }

  /** `int(s)` on an optionally signed run of decimal digits; `None` where
      Python raises `ValueError`. A value it reads has the sign the text
      shows. */
  function ParseInt(s: string): (r: Option<int>)
    ensures r.Some? ==> |s| >= 1 && (r.value < 0 ==> s[0] == '-') && (r.value > 0 ==> s[0] != '-')
  {
    if |s| >= 1 && (s[0] == '-' || s[0] == '+') then
      match ParseDigits(s[1..])
      case None => None
      case Some(m) => Some(if s[0] == '-' then -(m as int) else m)
    else ParseDigits(s)
  }

  lemma {:induction false} NatRoundTrip(n: nat)
    ensures ParseDigits(NatToString(n)) == Some(n)
    decreases n
  {
    if n >= 10 {
      var s := NatToString(n);
      assert s[..|s| - 1] == NatToString(n / 10);
      NatRoundTrip(n / 10);
    }
  }

  /** `int(str(v)) == v` for every integer. */
  lemma {:induction false} IntRoundTrip(v: int)
    ensures ParseInt(IntToString(v)) == Some(v)
  {
    var s := IntToString(v);
    if v < 0 {
      var digits := NatToString(-v);
      assert s == "-" + digits;
      assert s[0] == '-' && s[1..] == digits;
      NatRoundTrip(-v);
    } else {
      assert IsDigit(s[0]);
      NatRoundTrip(v);
    }
  }

  // ---------------------------------------------------------------------------
  // The two tags of a log event
  // ---------------------------------------------------------------------------

  const IdLabel: string := "originator"
  const VersionPrefix: string := "originator-"
  const VersionSuffix: string := "-version"

  /** The identity tag, `f"originator:{originator_id}"`: its first ':'
      closes the label, and everything after it is the identity. */
  function TagOriginatorId(originatorId: string): (t: string)
    ensures |t| > |IdLabel| && t[|IdLabel|] == Delimiter && Delimiter !in t[..|IdLabel|]
    ensures t[|IdLabel| + 1..] == originatorId
  {
    var t := IdLabel + [Delimiter] + originatorId;
    assert t[..|IdLabel|] == IdLabel;
    t
  }

  /** The version tag, `f"originator-{originator_id}-version:{originator_version}"`:
      a ':' right after the label, then the version's text; the label holds
      no ':' exactly when the identity holds none, so for such identities the
      tag's only ':' is the one before the version. */
  function TagOriginatorVersion(originatorId: string, originatorVersion: int): (t: string)
    ensures var n := |VersionLabel(originatorId)|;
            |t| > n && t[n] == Delimiter && t[n + 1..] == IntToString(originatorVersion)
    ensures Delimiter !in originatorId <==> Delimiter !in VersionLabel(originatorId)
  {
    var tagLabel := VersionLabel(originatorId);
    assert Delimiter !in VersionPrefix && Delimiter !in VersionSuffix;
    tagLabel + [Delimiter] + IntToString(originatorVersion)
  }

  /** The part of a version tag before its delimiter. */
  function VersionLabel(originatorId: string): string {
    VersionPrefix + originatorId + VersionSuffix
  }

  /** `tags[0].split(":")[1]`: the identity carried by the first tag.
      `IndexError` when there is no first tag or it has no delimiter. */
  function ExtractOriginatorId(tags: seq<string>): (r: Result<string, Error>)
    ensures r.Success? <==> |tags| >= 1 && Delimiter in tags[0]
    ensures r.Failure? ==> r.error == IndexError
    ensures r.Success? ==> Delimiter !in r.value
  {
    if |tags| < 1 then Failure(IndexError)
    else
      var pieces := Split(tags[0]);
      if |pieces| < 2 then Failure(IndexError) else Success(pieces[1])
  }

  /** `int(tags[1].split(":")[1])`: the version carried by the second tag.
      `IndexError` when there is no second tag or it has no delimiter,
      `ValueError` when the field after the delimiter is not an integer. */
  function ExtractOriginatorVersion(tags: seq<string>): (r: Result<int, Error>)
    ensures r.Failure? ==> IsDecodeError(r.error)
    ensures r.Failure? && r.error == IndexError <==> |tags| < 2 || Delimiter !in tags[1]
  {
    if |tags| < 2 then Failure(IndexError)
    else
      var pieces := Split(tags[1]);
      if |pieces| < 2 then Failure(IndexError)
      else
        match ParseInt(pieces[1])
        case None => Failure(ValueError)
        case Some(v) => Success(v)
  }

  // ---------------------------------------------------------------------------
  // Round trips and what they need
  // ---------------------------------------------------------------------------

  /** The identity tag decodes to the identity it was built from, whatever
      tags follow it, provided the identity's text holds no ':' (UUID text
      never does). */
  lemma {:induction false} IdTagRoundTrip(originatorId: string, rest: seq<string>)
    requires Delimiter !in originatorId
    ensures ExtractOriginatorId([TagOriginatorId(originatorId)] + rest) == Success(originatorId)
  {
    SplitAtFirst(IdLabel, originatorId);
    SplitWhole(originatorId);
  }

  /** The version tag decodes to the version it was built from, for every
      integer version, provided the identity's text holds no ':'. */
  lemma {:induction false} VersionTagRoundTrip(first: string, originatorId: string, originatorVersion: int)
    requires Delimiter !in originatorId
    ensures ExtractOriginatorVersion([first, TagOriginatorVersion(originatorId, originatorVersion)])
            == Success(originatorVersion)
  {
    VersionSplit(originatorId, originatorVersion);
    IntRoundTrip(originatorVersion);
  }

  /** A version tag splits into its label and the version's text. */
  lemma {:induction false} VersionSplit(originatorId: string, originatorVersion: int)
    requires Delimiter !in originatorId
    ensures Split(TagOriginatorVersion(originatorId, originatorVersion))
            == [VersionLabel(originatorId), IntToString(originatorVersion)]
  {
    var tagLabel := VersionLabel(originatorId);
    var t := TagOriginatorVersion(originatorId, originatorVersion);
    assert t == tagLabel + [Delimiter] + IntToString(originatorVersion);
    assert Delimiter !in tagLabel by {
      assert Delimiter !in VersionPrefix && Delimiter !in VersionSuffix;
    }
    SplitAtFirst(tagLabel, IntToString(originatorVersion));
    SplitWhole(IntToString(originatorVersion));
  }

  /** The codec is fragile when the identity's text holds a ':': only the
      text before that ':' comes back, so the round trip fails. */
  lemma {:induction false} ColonInIdentityTruncates(head: string, tail: string)
    requires Delimiter !in head
    ensures ExtractOriginatorId([TagOriginatorId(head + [Delimiter] + tail)]) == Success(head)
    ensures head != head + [Delimiter] + tail
  {
    var tag := TagOriginatorId(head + [Delimiter] + tail);
    assert tag == IdLabel + [Delimiter] + (head + [Delimiter] + tail);
    SplitAtFirst(IdLabel, head + [Delimiter] + tail);
    SplitAtFirst(head, tail);
    assert |head + [Delimiter] + tail| > |head|;
  }

  /** The two tags of one record: identity first, then version. */
  function OriginatorTags(originatorId: string, originatorVersion: int): seq<string> {
    [TagOriginatorId(originatorId), TagOriginatorVersion(originatorId, originatorVersion)]
  }

  /** For ':'-free identities, the tags of one record all occur among the
      tags of another exactly when both records have the same identity and
      version. */
  lemma {:induction false} TagsCovered(a: string, v: int, b: string, w: int)
    requires Delimiter !in a && Delimiter !in b
    ensures (forall t :: t in OriginatorTags(a, v) ==> t in OriginatorTags(b, w)) <==> a == b && v == w
  {
    if forall t :: t in OriginatorTags(a, v) ==> t in OriginatorTags(b, w) {
      var ta, tb := OriginatorTags(a, v), OriginatorTags(b, w);
      assert ta[1] in tb;
      IdTagIsNotVersionTag(b, a, v);
      VersionTagInjective(a, v, b, w);
    }
  }

  /** Identity tags and version tags never coincide: they differ at the
      character after "originator". */
  lemma {:induction false} IdTagIsNotVersionTag(a: string, b: string, v: int)
    ensures TagOriginatorId(a) != TagOriginatorVersion(b, v)
  {
    assert TagOriginatorId(a)[10] == Delimiter;
    assert TagOriginatorVersion(b, v)[10] == '-';
  }

  /** Distinct identities give distinct identity tags. */
  lemma {:induction false} IdTagInjective(a: string, b: string)
    requires TagOriginatorId(a) == TagOriginatorId(b)
    ensures a == b
  {
    assert a == TagOriginatorId(a)[11..];
    assert b == TagOriginatorId(b)[11..];
  }

  /** For ':'-free identities, a version tag determines both the identity and
      the version it was built from. */
  lemma {:induction false} VersionTagInjective(a: string, v: int, b: string, w: int)
    requires Delimiter !in a && Delimiter !in b
    requires TagOriginatorVersion(a, v) == TagOriginatorVersion(b, w)
    ensures a == b && v == w
  {
    VersionSplit(a, v);
    VersionSplit(b, w);
    var la, lb := VersionLabel(a), VersionLabel(b);
    assert la == lb;
    assert a == la[11..|la| - 8];
    assert b == lb[11..|lb| - 8];
    IntRoundTrip(v);
    IntRoundTrip(w);
  }
}
