/** `update_notify` and `async_notify`: the rotation of the notification
    snapshot and the delivery of the notifications that a change between
    two snapshots produces. The change detector, its compaction, the
    message builder and the blacklist builder are given as functions. */
module Notify {
  import opened Wrappers
  import opened Seqs
  import opened Lessons

  /** The values a notification dictionary holds, as far as this model
      looks into them: text, the user's `notify_data` dictionary, or
      anything else the message builder puts there. */
  datatype Json = Text(text: string) | Dict(fields: map<string, string>) | OtherValue(tag: int)

  type Notification = map<string, Json>

  const DataKey: string := "data"
  const ServiceSeparator: char := '.'

  /** A notification with a non-empty `notify_data` put under "data",
      replacing whatever was there; an empty `notify_data` changes nothing. */
  function WithData(n: Notification, notifyData: map<string, string>): (r: Notification)
    ensures |notifyData| > 0 ==> DataKey in r && r[DataKey] == Dict(notifyData)
    ensures forall k :: k in n && k != DataKey ==> k in r && r[k] == n[k]
    ensures forall k :: k in r ==> k in n || (k == DataKey && |notifyData| > 0)
    ensures |notifyData| == 0 ==> r == n
  {
    if |notifyData| > 0 then n[DataKey := Dict(notifyData)] else n
  }

  /** The snapshot kept for the next call, and the notifications handed to
      the delivery service in order (a failed delivery is logged and the
      next one is tried). */
  datatype NotifyResult<E> = NotifyResult(kept: seq<E>, sent: seq<Notification>)

  /** Whether a call compares the snapshots and finds a change. */
  predicate FindsChange<E, B, U>(kept: seq<E>, latest: seq<E>,
                                 blacklistOf: seq<E> -> B, compare: (seq<E>, seq<E>, B) -> seq<U>)
  {
    |kept| > 0 && |compare(kept, latest, blacklistOf(latest))| > 0
  }

  /** `update_notify`. */
  function UpdateNotify<E, B, U>(kept: seq<E>, latest: seq<E>, notifyList: seq<string>, notifyData: map<string, string>,
                                 blacklistOf: seq<E> -> B,
                                 compare: (seq<E>, seq<E>, B) -> seq<U>,
                                 compact: seq<U> -> seq<U>,
                                 notificationsOf: (seq<U>, seq<string>) -> seq<Notification>): (r: NotifyResult<E>)
    ensures r.kept == latest
    ensures |kept| == 0 ==> r.sent == []
    ensures !FindsChange(kept, latest, blacklistOf, compare) ==> r.sent == []
    ensures FindsChange(kept, latest, blacklistOf, compare) ==>
              var messages := notificationsOf(compact(compare(kept, latest, blacklistOf(latest))), notifyList);
              && |r.sent| == |messages|
              && forall i :: 0 <= i < |messages| ==> r.sent[i] == WithData(messages[i], notifyData)
  {
    if |kept| == 0 then NotifyResult(latest, [])
    else
      var updated := compare(kept, latest, blacklistOf(latest));
      if |updated| == 0 then NotifyResult(latest, [])
      else
        var messages := notificationsOf(compact(updated), notifyList);
        NotifyResult(latest, seq(|messages|, i requires 0 <= i < |messages| => WithData(messages[i], notifyData)))
  }

  /** The snapshots of successive cycles, each passed through `update_notify`
      with the snapshot the previous call kept. */
  function Rotate<E, B, U>(kept: seq<E>, snapshots: seq<seq<E>>, notifyList: seq<string>, notifyData: map<string, string>,
                           blacklistOf: seq<E> -> B,
                           compare: (seq<E>, seq<E>, B) -> seq<U>,
                           compact: seq<U> -> seq<U>,
                           notificationsOf: (seq<U>, seq<string>) -> seq<Notification>): seq<E>
    decreases |snapshots|
  {
    if |snapshots| == 0 then kept
    else
      var r := UpdateNotify(kept, snapshots[0], notifyList, notifyData, blacklistOf, compare, compact, notificationsOf);
      Rotate(r.kept, snapshots[1..], notifyList, notifyData, blacklistOf, compare, compact, notificationsOf)
  }

  /** After any run of calls the kept snapshot is the latest one. */
  lemma {:induction false} RotateKeepsLatest<E, B, U>(kept: seq<E>, snapshots: seq<seq<E>>, notifyList: seq<string>,
                                                      notifyData: map<string, string>,
                                                      blacklistOf: seq<E> -> B,
                                                      compare: (seq<E>, seq<E>, B) -> seq<U>,
                                                      compact: seq<U> -> seq<U>,
                                                      notificationsOf: (seq<U>, seq<string>) -> seq<Notification>)
    requires |snapshots| > 0
    ensures Rotate(kept, snapshots, notifyList, notifyData, blacklistOf, compare, compact, notificationsOf)
            == snapshots[|snapshots| - 1]
    decreases |snapshots|
  {
    if |snapshots| > 1 {
      var r := UpdateNotify(kept, snapshots[0], notifyList, notifyData, blacklistOf, compare, compact, notificationsOf);
      RotateKeepsLatest(r.kept, snapshots[1..], notifyList, notifyData, blacklistOf, compare, compact, notificationsOf);
    }
  }

  /** The first call only records a baseline; the next call compares that
      baseline with its own snapshot, so a change between the two is
      reported by the second call. */
  lemma BaselineThenCompare<E, B, U>(first: seq<E>, second: seq<E>, notifyList: seq<string>,
                                     notifyData: map<string, string>,
                                     blacklistOf: seq<E> -> B,
                                     compare: (seq<E>, seq<E>, B) -> seq<U>,
                                     compact: seq<U> -> seq<U>,
                                     notificationsOf: (seq<U>, seq<string>) -> seq<Notification>)
    requires |first| > 0
    ensures var r1 := UpdateNotify([], first, notifyList, notifyData, blacklistOf, compare, compact, notificationsOf);
            var r2 := UpdateNotify(r1.kept, second, notifyList, notifyData, blacklistOf, compare, compact, notificationsOf);
            && r1.sent == []
            && (|r2.sent| > 0 ==> FindsChange(first, second, blacklistOf, compare))
  {
  }

  /** When the change detector reports nothing for equal snapshots (under
      the blacklist built from them), a call
      whose snapshot equals the kept one sends nothing. */
  lemma UnchangedSendsNothing<E, B, U>(snapshot: seq<E>, notifyList: seq<string>, notifyData: map<string, string>,
                                       blacklistOf: seq<E> -> B,
                                       compare: (seq<E>, seq<E>, B) -> seq<U>,
                                       compact: seq<U> -> seq<U>,
                                       notificationsOf: (seq<U>, seq<string>) -> seq<Notification>)
    requires forall s: seq<E> :: compare(s, s, blacklistOf(s)) == []
    ensures UpdateNotify(snapshot, snapshot, notifyList, notifyData, blacklistOf, compare, compact, notificationsOf).sent == []
  {
  }

  /** `async_notify`: the entity id "domain.service" read as the pieces
      before and after its first dot; None where `service.split(".")[1]`
      raises because there is no dot (the caller logs it and goes on). The
      two pieces with a dot between them start the id, and what follows
      them, if anything, starts with another dot. */
  function ServiceTarget(entityId: string): (r: Option<(string, string)>)
    ensures r.Some? <==> ServiceSeparator in entityId
    ensures r.Some? ==> ServiceSeparator !in r.value.0 && ServiceSeparator !in r.value.1
    ensures r.Some? ==> r.value.0 + [ServiceSeparator] + r.value.1 <= entityId
    ensures r.Some? ==>
              var n := |r.value.0| + 1 + |r.value.1|;
              n == |entityId| || entityId[n] == ServiceSeparator
  {
    var parts := Split(entityId, ServiceSeparator);
    assert ServiceSeparator in entityId <==> multiset(entityId)[ServiceSeparator] > 0;
    if |parts| >= 2 then
      SplitHead(entityId, ServiceSeparator);
      Some((parts[0], parts[1]))
    else None
  }

  /** The first two pieces of a split, with the separator between them,
      start the string, and a separator follows them unless they end it. */
  lemma SplitHead(s: string, sep: char)
    requires |Split(s, sep)| >= 2
    ensures var parts := Split(s, sep);
            && parts[0] + [sep] + parts[1] <= s
            && var n := |parts[0]| + 1 + |parts[1]|;
               n == |s| || s[n] == sep
  {
    var parts := Split(s, sep);
    JoinSplit(s, sep);
    JoinHead(parts, sep);
    var head := parts[0] + [sep] + parts[1];
    var tail := if |parts| > 2 then [sep] + Join(parts[2..], sep) else [];
    assert s == head + tail;
    assert s[..|head|] == head;
    if |tail| > 0 {
      assert s[|head|] == tail[0] == sep;
    }
  }

  /** A join of two or more pieces is its first two pieces with a separator
      between them, followed by a separator and the rest when there is more. */
  lemma JoinHead(parts: seq<string>, sep: char)
    requires |parts| >= 2
    ensures Join(parts, sep) ==
              parts[0] + [sep] + parts[1] + (if |parts| > 2 then [sep] + Join(parts[2..], sep) else [])
  {
    assert parts[1..][0] == parts[1];
    if |parts| > 2 {
      assert parts[1..][1..] == parts[2..];
      assert Join(parts[1..], sep) == parts[1] + [sep] + Join(parts[2..], sep);
    }
  }

  /** An entity id with exactly one dot is the domain, the dot and the
      service it is read as. */
  lemma ServiceTargetJoins(entityId: string)
    requires multiset(entityId)[ServiceSeparator] == 1
    ensures ServiceTarget(entityId).Some?
    ensures ServiceTarget(entityId).value.0 + [ServiceSeparator] + ServiceTarget(entityId).value.1 == entityId
  {
    var parts := Split(entityId, ServiceSeparator);
    JoinSplit(entityId, ServiceSeparator);
    assert |parts| == 2;
    assert Join(parts, ServiceSeparator) == parts[0] + [ServiceSeparator] + parts[1];
  }
}
