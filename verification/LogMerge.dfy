/** Serving the logs of several services in time order (internals/daemon/api_logs.go). */
module LogMerge {
  import Parsers

  /** Time 0 marks an empty slot. */
  type Entry = Parsers.Entry

  const NO_ENTRY := Parsers.Entry(0, [], [])

  type Streams = seq<seq<Entry>>

  // ---------- The merge as a function ----------

  /** Whether stream `i` has an entry and no stream of `0..k` has an earlier one, or an equal one before `i`. */
  predicate First(s: Streams, i: int, k: nat) {
    && 0 <= i < k <= |s| && s[i] != []
    && forall j :: 0 <= j < k && s[j] != [] ==> s[i][0].time <= s[j][0].time && (j < i ==> s[i][0].time < s[j][0].time)
  }

  /** The stream whose first entry comes first among streams `0..k`; -1 when all are empty. */
  function EarliestUpTo(s: Streams, k: nat): (i: int)
    requires k <= |s|
    ensures i == -1 || First(s, i, k)
    ensures i == -1 <==> forall j :: 0 <= j < k ==> s[j] == []
  {
    if k == 0 then -1 else
      var i := EarliestUpTo(s, k - 1);
      if s[k - 1] != [] && (i == -1 || s[k - 1][0].time < s[i][0].time) then k - 1 else i
  }

  function Earliest(s: Streams): int {
    EarliestUpTo(s, |s|)
  }

  function Total(s: Streams): nat {
    if s == [] then 0 else Total(s[..|s| - 1]) + |s[|s| - 1]|
  }

  /** Stream `i` without its first entry. */
  function Pop(s: Streams, i: nat): (r: Streams)
    requires i < |s| && s[i] != []
    ensures |r| == |s|
    ensures Total(r) == Total(s) - 1
    decreases |s|
  {
    PopTotal(s, i);
    s[i := s[i][1..]]
  }

  lemma PopTotal(s: Streams, i: nat)
    requires i < |s| && s[i] != []
    ensures Total(s[i := s[i][1..]]) == Total(s) - 1
  {
    var r := s[i := s[i][1..]];
    if i == |s| - 1 {
      assert r[..|s| - 1] == s[..|s| - 1];
    } else {
      PopTotal(s[..|s| - 1], i);
      assert r[..|s| - 1] == s[..|s| - 1][i := s[i][1..]];
    }
  }

  /** Always the earliest first entry next; the lower stream on a tie. */
  function Merge(s: Streams): seq<Entry>
    decreases Total(s)
  {
    var i := Earliest(s);
    if i == -1 then [] else [s[i][0]] + Merge(Pop(s, i))
  }

  lemma FirstUnique(s: Streams, i: int, j: int)
    requires First(s, i, |s|) && First(s, j, |s|)
    ensures i == j
  {
  }

  // ---------- What the merge promises ----------

  ghost predicate TimeOrdered(s: seq<Entry>) {
    forall i, j :: 0 <= i < j < |s| ==> s[i].time <= s[j].time
  }

  lemma {:induction false} MergeBounded(s: Streams, t: int)
    requires forall i :: 0 <= i < |s| ==> TimeOrdered(s[i])
    requires forall i :: 0 <= i < |s| && s[i] != [] ==> t <= s[i][0].time
    ensures forall e :: e in Merge(s) ==> t <= e.time
    decreases Total(s)
  {
    var i := Earliest(s);
    if i != -1 {
      MergeBounded(Pop(s, i), t);
    }
  }

  /** Ordered streams give an ordered result. */
  lemma {:induction false} MergeOrdered(s: Streams)
    requires forall i :: 0 <= i < |s| ==> TimeOrdered(s[i])
    ensures TimeOrdered(Merge(s))
    decreases Total(s)
  {
    var i := Earliest(s);
    if i != -1 {
      MergeBounded(Pop(s, i), s[i][0].time);
      MergeOrdered(Pop(s, i));
    }
  }

  /** Which stream each entry of the merge comes from. */
  function Origins(s: Streams): seq<nat>
    decreases Total(s)
  {
    var i := Earliest(s);
    if i == -1 then [] else [i as nat] + Origins(Pop(s, i))
  }

  /** The entries with origin `i`. */
  function From(entries: seq<Entry>, origins: seq<nat>, i: nat): seq<Entry> {
    if entries == [] || origins == [] then []
    else (if origins[0] == i then [entries[0]] else []) + From(entries[1..], origins[1..], i)
  }

  /** Nothing is lost, doubled or reordered within a stream. */
  lemma {:induction false} MergeKeepsStreams(s: Streams, i: nat)
    requires i < |s|
    ensures |Origins(s)| == |Merge(s)| == Total(s)
    ensures From(Merge(s), Origins(s), i) == s[i]
    decreases Total(s)
  {
    var k := Earliest(s);
    if k == -1 {
      TotalOfEmpty(s);
    } else {
      MergeKeepsStreams(Pop(s, k), i);
      assert Merge(s)[1..] == Merge(Pop(s, k)) && Origins(s)[1..] == Origins(Pop(s, k));
    }
  }

  lemma {:induction false} TotalOfEmpty(s: Streams)
    requires forall j :: 0 <= j < |s| ==> s[j] == []
    ensures Total(s) == 0
  {
    if s != [] {
      TotalOfEmpty(s[..|s| - 1]);
    }
  }

  // ---------- Only the last entries of each stream matter ----------

  function LastN(s: seq<Entry>, n: nat): seq<Entry> {
    if |s| <= n then s else s[|s| - n..]
  }

  lemma PopKeepsEarliest(s: Streams, i: nat, j: int)
    requires i < |s| && s[i] != [] && TimeOrdered(s[i])
    requires First(s, j, |s|) && i != j
    ensures Earliest(Pop(s, i)) == j
  {
    assert First(Pop(s, i), j, |s|);
    FirstUnique(Pop(s, i), j, Earliest(Pop(s, i)));
  }

  lemma PopsCommute(s: Streams, i: nat, j: nat)
    requires i < |s| && j < |s| && i != j && s[i] != [] && s[j] != []
    ensures Pop(Pop(s, j), i) == Pop(Pop(s, i), j)
  {
  }

  /** Dropping the oldest entry of a stream takes exactly that entry out of the merge. */
  lemma {:induction false} MergeWithoutFirst(s: Streams, i: nat) returns (before: seq<Entry>, after: seq<Entry>)
    requires i < |s| && s[i] != [] && TimeOrdered(s[i])
    ensures Merge(s) == before + [s[i][0]] + after
    ensures Merge(Pop(s, i)) == before + after
    ensures |after| >= |s[i]| - 1
    decreases Total(s)
  {
    var j := Earliest(s);
    hide Merge, Total;
    if j == i {
      MergeStep(s, i);
      before, after := [], Merge(Pop(s, i));
      MergeKeepsStreams(Pop(s, i), i);
      StreamWithinTotal(Pop(s, i), i);
    } else {
      before, after := MergeWithoutFirst(Pop(s, j), i);
      PopKeepsEarliest(s, i, j);
      PopsCommute(s, i, j);
      MergeStep(s, j);
      MergeStep(Pop(s, i), j);
      Prepended(s[j][0], before, s[i][0], after);
      before := [s[j][0]] + before;
    }
  }

  lemma MergeStep(s: Streams, j: nat)
    requires Earliest(s) == j
    ensures j < |s| && s[j] != [] && Merge(s) == [s[j][0]] + Merge(Pop(s, j))
  {
  }

  lemma Prepended(e: Entry, before: seq<Entry>, x: Entry, after: seq<Entry>)
    ensures [e] + (before + [x] + after) == [e] + before + [x] + after
    ensures [e] + (before + after) == [e] + before + after
  {
  }

  lemma {:induction false} StreamWithinTotal(s: Streams, i: nat)
    requires i < |s|
    ensures |s[i]| <= Total(s)
  {
    if i < |s| - 1 {
      StreamWithinTotal(s[..|s| - 1], i);
    }
  }

  lemma DropOldest(s: Streams, i: nat, n: nat)
    requires i < |s| && TimeOrdered(s[i]) && |s[i]| > n
    ensures LastN(Merge(s), n) == LastN(Merge(Pop(s, i)), n)
  {
    hide Merge, Pop, TimeOrdered;
    var before, after := MergeWithoutFirst(s, i);
    LastNWithout(before, s[i][0], after, n);
  }

  lemma LastNWithout(before: seq<Entry>, x: Entry, after: seq<Entry>, n: nat)
    requires |after| >= n
    ensures LastN(before + [x] + after, n) == LastN(before + after, n)
  {
  }

  function Trimmed(s: Streams, n: nat): Streams {
    seq(|s|, i requires 0 <= i < |s| => LastN(s[i], n))
  }

  /** Each stream followed by what came to it later. */
  function Followed(older: Streams, newer: Streams): Streams
    requires |newer| == |older|
  {
    seq(|older|, i requires 0 <= i < |older| => older[i] + newer[i])
  }

  lemma FollowedPop(older: Streams, newer: Streams, i: nat, n: nat)
    requires |newer| == |older| && i < |older| && |older[i]| > n
    requires forall j :: 0 <= j < |older| ==> TimeOrdered(older[j] + newer[j])
    ensures Followed(Pop(older, i), newer) == Pop(Followed(older, newer), i)
    ensures Trimmed(Pop(older, i), n) == Trimmed(older, n)
    ensures forall j :: 0 <= j < |older| ==> TimeOrdered(Pop(older, i)[j] + newer[j])
  {
    assert older[i][1..] + newer[i] == (older[i] + newer[i])[1..];
    RestOrdered(older[i] + newer[i]);
    hide TimeOrdered;
    assert forall j :: 0 <= j < |older| && j != i ==> Pop(older, i)[j] == older[j];
  }

  lemma RestOrdered(s: seq<Entry>)
    requires TimeOrdered(s) && s != []
    ensures TimeOrdered(s[1..])
  {
  }

  /** Trimming what each stream holds to its last `n` entries, before more arrives, does not change the last `n` of the
      merge. */
  lemma {:induction false} TrimFirst(older: Streams, newer: Streams, n: nat)
    requires |newer| == |older| && forall i :: 0 <= i < |older| ==> TimeOrdered(older[i] + newer[i])
    ensures LastN(Merge(Followed(Trimmed(older, n), newer)), n) == LastN(Merge(Followed(older, newer)), n)
    decreases Total(older)
  {
    if i: nat :| i < |older| && |older[i]| > n {
      DropOldest(Followed(older, newer), i, n);
      FollowedPop(older, newer, i, n);
      TrimFirst(Pop(older, i), newer, n);
    } else {
      assert Trimmed(older, n) == older;
    }
  }

  // ---------- The code ----------

  ghost predicate Stamped(s: Streams) {
    forall i, j :: 0 <= i < |s| && 0 <= j < |s[i]| ==> s[i][j].time != 0
  }

  /** What stream `i` still has to offer: the entry already fetched, if any, and those not yet parsed. */
  function Offer(next: Entry, rest: seq<Entry>): seq<Entry> {
    if next.time != 0 then [next] + rest else rest
  }

  function Offers(nexts: seq<Entry>, rest: Streams): (s: Streams)
    requires |nexts| == |rest|
    ensures |s| == |rest|
  {
    seq(|rest|, i requires 0 <= i < |rest| => Offer(nexts[i], rest[i]))
  }

  class LogStreamer {
    /** One slot a service; time 0 means empty. */
    const nexts: array<Entry>
    /** The entries its parser has yet to deliver. */
    var rest: Streams

    constructor (streams: Streams)
      requires Stamped(streams)
      ensures Valid() && fresh(nexts) && Pending() == streams
    {
      nexts := new Entry[|streams|](_ => NO_ENTRY);
      rest := streams;
      new;
      assert forall i :: 0 <= i < |streams| ==> Pending()[i] == streams[i];
    }

    ghost predicate Valid()
      reads this, nexts
    {
      nexts.Length == |rest| && Stamped(rest)
    }

    ghost function Pending(): Streams
      requires Valid()
      reads this, nexts
    {
      Offers(nexts[..], rest)
    }

    /** Fills every empty slot whose parser has another entry. */
    method Fetch()
      requires Valid()
      modifies this, nexts
      ensures Valid() && Pending() == old(Pending())
      ensures forall i :: 0 <= i < nexts.Length && nexts[i].time == 0 ==> rest[i] == []
    {
      var i := 0;
      while i < nexts.Length
        invariant 0 <= i <= nexts.Length
        invariant Valid() && Pending() == old(Pending())
        invariant forall j :: 0 <= j < i && nexts[j].time == 0 ==> rest[j] == []
      {
        if nexts[i].time == 0 && rest[i] != [] {
          FetchOne(i);
        }
        i := i + 1;
      }
    }

    method FetchOne(i: nat)
      requires Valid() && i < nexts.Length && nexts[i].time == 0 && rest[i] != []
      modifies this, nexts
      ensures Valid() && Pending() == old(Pending())
      ensures nexts[i].time != 0
      ensures forall j :: 0 <= j < nexts.Length && j != i ==> nexts[j] == old(nexts[j]) && rest[j] == old(rest[j])
    {
      nexts[i] := rest[i][0];
      rest := rest[i := rest[i][1..]];
      assert forall j :: 0 <= j < nexts.Length ==> Pending()[j] == old(Pending())[j];
    }

    /** The slot with the earliest entry, the lowest on a tie; -1 when all are empty. */
    method FindEarliest() returns (earliest: int)
      requires Valid()
      requires forall i :: 0 <= i < nexts.Length && nexts[i].time == 0 ==> rest[i] == []
      ensures earliest == Earliest(Pending())
      ensures earliest >= 0 ==> earliest < nexts.Length && nexts[earliest].time != 0
    {
      earliest := -1;
      var i := 0;
      while i < nexts.Length
        invariant 0 <= i <= nexts.Length
        invariant earliest == EarliestUpTo(Pending(), i)
        invariant earliest >= 0 ==> earliest < i && nexts[earliest].time != 0
      {
        if nexts[i].time != 0 && (earliest < 0 || nexts[i].time < nexts[earliest].time) {
          earliest := i;
        }
        i := i + 1;
      }
    }

    /** One round of the loop: the next log to send; an empty entry when there is none. */
    method NextLog() returns (log: Entry)
      requires Valid()
      modifies this, nexts
      ensures Valid()
      ensures log == NO_ENTRY <==> Earliest(old(Pending())) == -1
      ensures log == NO_ENTRY ==> Pending() == old(Pending())
      ensures log != NO_ENTRY ==> log.time != 0
      ensures log != NO_ENTRY ==>
              var i := Earliest(old(Pending())); log == old(Pending())[i][0] && Pending() == Pop(old(Pending()), i)
    {
      Fetch();
      var earliest := FindEarliest();
      if earliest < 0 {
        return NO_ENTRY;
      }
      log := nexts[earliest];
      nexts[earliest] := nexts[earliest].(time := 0);
      assert forall j :: 0 <= j < nexts.Length ==> Pending()[j] == Pop(old(Pending()), earliest)[j];
    }
  }

  /** The logs up to the first that is later than `started`. */
  function UpTo(logs: seq<Entry>, started: int): seq<Entry> {
    if logs == [] || logs[0].time > started then [] else [logs[0]] + UpTo(logs[1..], started)
  }

  /** Pushes into a FIFO of `cap` entries, discarding the oldest if it is full. */
  method Push(fifo: seq<Entry>, cap: nat, log: Entry, ghost served: seq<Entry>) returns (fifo': seq<Entry>)
    requires cap > 0 && fifo == LastN(served, cap)
    ensures fifo' == LastN(served + [log], cap)
  {
    fifo' := fifo;
    if |fifo'| == cap {
      fifo' := fifo'[1..];
    }
    fifo' := fifo' + [log];
  }

  /** What is still to be served, given what is pending. */
  ghost function Due(s: Streams, started: int): seq<Entry> {
    UpTo(Merge(s), started)
  }

  lemma DueNext(s: Streams, started: int, served: seq<Entry>)
    requires Earliest(s) != -1
    ensures var log := s[Earliest(s)][0];
            served + Due(s, started) == if log.time > started then served
              else served + [log] + Due(Pop(s, Earliest(s)), started)
  {
  }

  lemma DueNothing(s: Streams, started: int, served: seq<Entry>)
    requires Earliest(s) == -1
    ensures served + Due(s, started) == served
  {
  }

  /** Serves what is buffered, without following: through a FIFO of `numLogs` entries, or directly if `numLogs` is
      not positive. */
  method Serve(streamer: LogStreamer, numLogs: int, requestStarted: int) returns (out: seq<Entry>)
    requires streamer.Valid()
    modifies streamer, streamer.nexts
    ensures var logs := Due(old(streamer.Pending()), requestStarted);
            out == if numLogs > 0 then LastN(logs, numLogs) else logs
  {
    var fifo: seq<Entry> := [];
    out := [];
    ghost var served: seq<Entry> := [];
    ghost var logs := Due(streamer.Pending(), requestStarted);
    while true
      invariant streamer.Valid()
      invariant logs == served + Due(streamer.Pending(), requestStarted)
      invariant numLogs > 0 ==> out == [] && fifo == LastN(served, numLogs)
      invariant numLogs <= 0 ==> out == served && fifo == []
      decreases Total(streamer.Pending())
    {
      hide Earliest, Total, Due, LastN, Stamped, LogStreamer.Pending;
      ghost var s := streamer.Pending();
      var log := streamer.NextLog();
      if log.time == 0 {
        DueNothing(s, requestStarted, served);
        return if numLogs > 0 then fifo else out;
      }
      DueNext(s, requestStarted, served);
      if log.time > requestStarted {
        return if numLogs > 0 then fifo else out;
      }
      if numLogs > 0 {
        fifo := Push(fifo, numLogs, log, served);
      } else {
        out := out + [log];
      }
      served := served + [log];
    }
  }

  // ---------- Trimming, and logs later than the request ----------

  function Early(s: Streams, started: int): Streams {
    seq(|s|, i requires 0 <= i < |s| => UpTo(s[i], started))
  }

  lemma EarlyPop(s: Streams, i: nat, started: int)
    requires i < |s| && s[i] != [] && s[i][0].time <= started
    ensures Pop(Early(s, started), i) == Early(Pop(s, i), started)
  {
  }

  /** Cutting the merge at the time of the request is merging streams that were cut there. */
  lemma {:induction false} MergeEarly(s: Streams, started: int)
    ensures UpTo(Merge(s), started) == Merge(Early(s, started))
    decreases Total(s)
  {
    var i := Earliest(s);
    if i != -1 && s[i][0].time <= started {
      var e := Early(s, started);
      assert First(e, i, |e|);
      FirstUnique(e, i, Earliest(e));
      EarlyPop(s, i, started);
      MergeEarly(Pop(s, i), started);
    }
  }

  lemma ServeLastN(older: Streams, newer: Streams, n: nat, started: int)
    requires |newer| == |older|
    requires forall i :: 0 <= i < |older| ==> TimeOrdered(older[i] + newer[i])
    requires forall i, j :: 0 <= i < |older| && 0 <= j < |older[i]| ==> older[i][j].time <= started
    ensures LastN(UpTo(Merge(Followed(Trimmed(older, n), newer)), started), n)
            == LastN(UpTo(Merge(Followed(older, newer)), started), n)
  {
    MergeEarly(Followed(older, newer), started);
    MergeEarly(Followed(Trimmed(older, n), newer), started);
    hide Merge, TimeOrdered, UpTo, LastN;
    var due := Early(newer, started);
    forall i | 0 <= i < |older|
      ensures UpTo(older[i] + newer[i], started) == older[i] + due[i]
      ensures UpTo(LastN(older[i], n) + newer[i], started) == LastN(older[i], n) + due[i]
      ensures TimeOrdered(older[i] + due[i])
    {
      DueAfter(older[i], newer[i], n, started);
    }
    assert Early(Followed(older, newer), started) == Followed(older, due);
    assert Early(Followed(Trimmed(older, n), newer), started) == Followed(Trimmed(older, n), due);
    TrimFirst(older, due, n);
  }

  /** `kept` is the end of `logs`, with `n` entries at least if it has as many. */
  predicate EndOf(kept: seq<Entry>, logs: seq<Entry>, n: nat) {
    |kept| <= |logs| && kept == logs[|logs| - |kept|..] && (|kept| < |logs| ==> n <= |kept|)
  }

  /** Logs are trimmed when the request comes in, and those that arrive from then on are kept. So cutting each service
      to its end, of `n` logs at least, never changes the last `n` served over all services. */
  lemma TrimmedServe(older: Streams, kept: Streams, newer: Streams, n: nat, started: int)
    requires |newer| == |older| == |kept|
    requires forall i :: 0 <= i < |older| ==> TimeOrdered(older[i] + newer[i]) && EndOf(kept[i], older[i], n)
    requires forall i, j :: 0 <= i < |older| && 0 <= j < |older[i]| ==> older[i][j].time <= started
    ensures LastN(UpTo(Merge(Followed(kept, newer)), started), n)
            == LastN(UpTo(Merge(Followed(older, newer)), started), n)
  {
    hide Merge, UpTo, TimeOrdered;
    forall i | 0 <= i < |older|
      ensures TimeOrdered(kept[i] + newer[i]) && LastN(kept[i], n) == LastN(older[i], n)
    {
      EndOrdered(kept[i], older[i], newer[i], n);
    }
    assert Trimmed(kept, n) == Trimmed(older, n);
    ServeLastN(older, newer, n, started);
    ServeLastN(kept, newer, n, started);
  }

  lemma EndOrdered(kept: seq<Entry>, logs: seq<Entry>, more: seq<Entry>, n: nat)
    requires TimeOrdered(logs + more) && EndOf(kept, logs, n)
    ensures TimeOrdered(kept + more) && LastN(kept, n) == LastN(logs, n)
  {
    assert kept + more == (logs + more)[|logs| - |kept|..];
  }

  lemma DueAfter(logs: seq<Entry>, more: seq<Entry>, n: nat, started: int)
    requires TimeOrdered(logs + more) && forall i :: 0 <= i < |logs| ==> logs[i].time <= started
    ensures UpTo(logs + more, started) == logs + UpTo(more, started)
    ensures UpTo(LastN(logs, n) + more, started) == LastN(logs, n) + UpTo(more, started)
    ensures TimeOrdered(logs + UpTo(more, started))
  {
    UpToAfter(logs, more, started);
    UpToAfter(LastN(logs, n), more, started);
    UpToIsPrefix(more, started);
    assert logs + UpTo(more, started) == (logs + more)[..|logs| + |UpTo(more, started)|];
  }

  lemma {:induction false} UpToAfter(logs: seq<Entry>, more: seq<Entry>, started: int)
    requires forall i :: 0 <= i < |logs| ==> logs[i].time <= started
    ensures UpTo(logs + more, started) == logs + UpTo(more, started)
  {
    if logs == [] {
      assert logs + more == more;
    } else {
      UpToAfter(logs[1..], more, started);
      assert (logs + more)[1..] == logs[1..] + more;
    }
  }

  lemma {:induction false} UpToIsPrefix(logs: seq<Entry>, started: int)
    ensures UpTo(logs, started) <= logs
  {
    if logs != [] {
      UpToIsPrefix(logs[1..], started);
    }
  }
}
