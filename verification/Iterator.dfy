/** Reading a ring while it is being overwritten (internals/servicelog/iterator.go). */
module Iterators {
  import opened RingBuffers

  /** "\n(... output truncated ...)\n" */
  function Marker(): (m: seq<byte>)
    ensures |m| == 28
  {
    [10, 40, 46, 46, 46, 32, 111, 117, 116, 112, 117, 116, 32, 116, 114, 117, 110, 99, 97, 116, 101, 100, 32, 46, 46,
    46, 41, 10]
  }

  /** What an iterator sees of a ring buffer. */
  datatype Ring = Ring(log: seq<byte>, readIndex: nat)

  /** The mutable fields of an iterator. */
  datatype Cursor = Cursor(index: int, trunc: seq<byte>, truncWritten: bool)

  // ---------- One step of an iterator ----------

  function Truncated(c: Cursor): Cursor {
    if c.trunc != [] || c.truncWritten then c.(index := TAIL) else Cursor(TAIL, Marker(), false)
  }

  function NextCursor(ring: Ring, c: Cursor): Cursor {
    if c.index != TAIL && c.index < ring.readIndex then Truncated(c) else c
  }

  function NextAnswer(ring: Ring, c: Cursor): bool {
    (ring.log != [] && c.index < |ring.log|) || c.trunc != []
  }

  function PositionOf(ring: Ring, c: Cursor): int {
    if c.index == TAIL then ring.readIndex else c.index
  }

  /** The iterator goes from `c` to `c'` and hands `out` to its caller. */
  ghost predicate Takes(ring: Ring, c: Cursor, c': Cursor, out: seq<byte>) {
    if c.trunc != [] then
      out <= c.trunc && c' == Cursor(c.index, c.trunc[|out|..], true)
    else
      var pos := PositionOf(ring, c);
      if pos < ring.readIndex || pos > |ring.log| then
        out == [] && c' == Truncated(c)
      else if out == [] then
        c' == c || c' == c.(index := pos)
      else
        out <= ring.log[pos..] && c' == Cursor(pos + |out|, [], false)
  }

  /** A writer, or a Discard, moved the ring on. */
  ghost predicate RingMoves(r: Ring, r': Ring) {
    r.log <= r'.log && r.readIndex <= r'.readIndex <= |r'.log|
  }

  // ---------- What was delivered ----------

  /** Log positions `lo` up to `hi`. */
  datatype Segment = Segment(lo: nat, hi: nat)

  /** The segments delivered, and how much of a marker after the last of them. */
  datatype History = History(segs: seq<Segment>, mark: nat)

  ghost function Bytes(log: seq<byte>, s: Segment): seq<byte> {
    if s.lo <= s.hi <= |log| then log[s.lo..s.hi] else []
  }

  /** The segments with a complete marker between any two of them. */
  ghost function Render(log: seq<byte>, segs: seq<Segment>): seq<byte>
    decreases |segs|, 0
  {
    if segs == [] then []
    else Lead(log, segs[..|segs| - 1]) + Bytes(log, segs[|segs| - 1])
  }

  /** What comes before the last segment. */
  ghost function Lead(log: seq<byte>, segs: seq<Segment>): seq<byte>
    decreases |segs|, 1
  {
    if segs == [] then [] else Render(log, segs) + Marker()
  }

  ghost function Delivered(log: seq<byte>, h: History): seq<byte> {
    Render(log, h.segs) + Marker()[..if h.mark <= 28 then h.mark else 28]
  }

  /** Segments of the log, each beginning after bytes that the one before does not reach. */
  ghost predicate Apart(log: seq<byte>, segs: seq<Segment>) {
    && segs != []
    && (forall i :: 0 <= i < |segs| ==> segs[i].lo <= segs[i].hi <= |log|)
    && (forall i, j :: 0 <= i < j < |segs| ==> segs[i].hi < segs[j].lo)
    && (forall i :: 0 < i < |segs| ==> segs[i].lo < segs[i].hi)
  }

  function LastHi(h: History): nat {
    if h.segs == [] then 0 else h.segs[|h.segs| - 1].hi
  }

  ghost predicate Inv(ring: Ring, c: Cursor, h: History) {
    && ring.readIndex <= |ring.log|
    && Apart(ring.log, h.segs)
    && h.mark <= 28
    && (if c.trunc != [] then
          // a marker is being delivered, for bytes that are lost
          h.mark < 28 && c.trunc == Marker()[h.mark..] && c.index == TAIL && LastHi(h) < ring.readIndex
        else if c.truncWritten then
          // the marker is delivered, nothing after it
          h.mark == 28 && LastHi(h) < ring.readIndex && (c.index == TAIL || LastHi(h) < c.index <= ring.readIndex)
        else
          h.mark == 0 && c.index == LastHi(h))
  }

  ghost function Appended(ring: Ring, c: Cursor, h: History, out: seq<byte>): History {
    if c.trunc != [] then h.(mark := h.mark + |out|)
    else if out == [] || PositionOf(ring, c) < 0 || h.segs == [] then h
    else if h.mark == 0 then
      h.(segs := Grown(h.segs, |out|))
    else
      var pos: nat := PositionOf(ring, c);
      History(h.segs + [Segment(pos, pos + |out|)], 0)
  }

  // ---------- The invariant ----------

  lemma {:induction false} RenderStable(log: seq<byte>, log': seq<byte>, segs: seq<Segment>)
    requires log <= log' && forall i :: 0 <= i < |segs| ==> segs[i].lo <= segs[i].hi <= |log|
    ensures Render(log', segs) == Render(log, segs)
  {
    if segs != [] {
      RenderStable(log, log', segs[..|segs| - 1]);
      var s := segs[|segs| - 1];
      assert Bytes(log', s) == Bytes(log, s);
    }
  }

  lemma RingMovesKeeps(r: Ring, r': Ring, c: Cursor, h: History)
    requires Inv(r, c, h) && RingMoves(r, r')
    ensures Inv(r', c, h) && Delivered(r'.log, h) == Delivered(r.log, h)
  {
    RenderStable(r.log, r'.log, h.segs);
  }

  lemma NextKeeps(ring: Ring, c: Cursor, h: History)
    requires Inv(ring, c, h)
    ensures Inv(ring, NextCursor(ring, c), h)
  {
  }

  /** Next says no only when everything buffered was delivered: the log to its end,
      or all that a marker delivered last does not stand for, which is nothing. */
  lemma NextNoMeansCaughtUp(ring: Ring, c: Cursor, h: History)
    requires Inv(ring, c, h) && !NextAnswer(ring, NextCursor(ring, c))
    ensures c.trunc == [] && (ring.log == [] || c.index == |ring.log|)
    ensures LastHi(h) == |ring.log| || (h.mark == 28 && ring.readIndex == |ring.log|)
  {
  }

  /** All that is due: the rest of a marker, or the log from the position on. */
  ghost function Due(ring: Ring, c: Cursor): int {
    if c.trunc != [] then |c.trunc| else |ring.log| - PositionOf(ring, c)
  }

  /** Next says yes exactly when a marker or bytes are due, or, by mistake, when the iterator went to the tail of a ring
      of which nothing is left: the tail position is below the end of any log. */
  lemma NextYesMeans(ring: Ring, c: Cursor, h: History)
    requires Inv(ring, c, h)
    ensures var c' := NextCursor(ring, c);
            NextAnswer(ring, c') <==> Due(ring, c') > 0 || SpuriousYes(ring, c')
  {
  }

  predicate SpuriousYes(ring: Ring, c: Cursor) {
    c.trunc == [] && c.index == TAIL && ring.log != [] && ring.readIndex == |ring.log|
  }

  /** As long as something is buffered, or nothing was ever written, the answer is right. */
  lemma NextYesOfBuffered(ring: Ring, c: Cursor, h: History)
    requires Inv(ring, c, h) && (ring.readIndex < |ring.log| || ring.log == [])
    ensures var c' := NextCursor(ring, c);
            NextAnswer(ring, c') <==> Due(ring, c') > 0
  {
    NextYesMeans(ring, c, h);
  }

  /** Next arms a marker exactly when the position was overwritten and no marker is under way or was just delivered. */
  lemma NextArms(ring: Ring, c: Cursor, h: History)
    requires Inv(ring, c, h)
    ensures var c' := NextCursor(ring, c);
            && (c'.trunc != [] && c.trunc == [] <==> c.index != TAIL && c.index < ring.readIndex && !c.truncWritten)
            && (c.trunc != [] ==> c' == c)
  {
  }

  /** A reader at the start; one byte is written and discarded; Next arms the marker, which is read in full. Then Next
      says yes though nothing is due. */
  lemma NextAfterDiscard(x: byte)
    ensures var ring, c := Ring([x], 1), Cursor(0, [], false);
            var armed, read := NextCursor(ring, c), Cursor(TAIL, [], true);
            && RingMoves(Ring([], 0), ring) && armed == Cursor(TAIL, Marker(), false)
            && Takes(ring, armed, read, Marker()) && NextCursor(ring, read) == read
            && NextAnswer(ring, read) && Due(ring, read) == 0
  {
    assert Marker()[28..] == [];
  }

  lemma TakesMarker(ring: Ring, c: Cursor, h: History, c': Cursor, out: seq<byte>)
    requires Inv(ring, c, h) && Takes(ring, c, c', out) && c.trunc != []
    ensures Inv(ring, c', Appended(ring, c, h, out))
    ensures Delivered(ring.log, Appended(ring, c, h, out)) == Delivered(ring.log, h) + out
  {
    hide Render, Marker, Apart;
    var m := Marker();
    assert |m| == 28;
    assert m[h.mark..][|out|..] == m[h.mark + |out|..];
    assert m[..h.mark + |out|] == m[..h.mark] + out;
  }

  lemma BytesGrow(log: seq<byte>, s: Segment, out: seq<byte>)
    requires s.lo <= s.hi <= |log| && out <= log[s.hi..]
    ensures Bytes(log, Segment(s.lo, s.hi + |out|)) == Bytes(log, s) + out
  {
  }

  ghost function Grown(segs: seq<Segment>, n: nat): seq<Segment>
    requires segs != []
  {
    segs[..|segs| - 1] + [Segment(segs[|segs| - 1].lo, segs[|segs| - 1].hi + n)]
  }

  lemma GrowApart(log: seq<byte>, segs: seq<Segment>, n: nat)
    requires Apart(log, segs) && segs[|segs| - 1].hi + n <= |log|
    ensures Apart(log, Grown(segs, n)) && LastHi(History(Grown(segs, n), 0)) == segs[|segs| - 1].hi + n
    ensures Grown(segs, n) != []
  {
  }

  lemma FrontLast<T>(s: seq<T>)
    requires s != []
    ensures s[..|s| - 1] + [s[|s| - 1]] == s
  {
  }

  lemma GrowRender(log: seq<byte>, segs: seq<Segment>, out: seq<byte>)
    requires segs != [] && segs[|segs| - 1].lo <= segs[|segs| - 1].hi <= |log|
    requires out <= log[segs[|segs| - 1].hi..]
    ensures Render(log, Grown(segs, |out|)) == Render(log, segs) + out
  {
    hide Bytes, Marker, Render, Lead;
    var front, last := segs[..|segs| - 1], segs[|segs| - 1];
    assert Grown(segs, |out|) == front + [Segment(last.lo, last.hi + |out|)];
    RenderGrown(log, front, last, out);
    FrontLast(segs);
  }

  lemma RenderGrown(log: seq<byte>, front: seq<Segment>, last: Segment, out: seq<byte>)
    requires last.lo <= last.hi <= |log| && out <= log[last.hi..]
    ensures Render(log, front + [Segment(last.lo, last.hi + |out|)]) == Render(log, front + [last]) + out
  {
    hide Bytes, Marker, Render, Lead;
    BytesGrow(log, last, out);
    RenderLast(log, front, last);
    RenderLast(log, front, Segment(last.lo, last.hi + |out|));
    Associative(Lead(log, front), Bytes(log, last), out);
  }

  lemma Associative(a: seq<byte>, b: seq<byte>, c: seq<byte>)
    ensures a + (b + c) == (a + b) + c
  {
  }

  lemma RenderLast(log: seq<byte>, front: seq<Segment>, s: Segment)
    ensures Render(log, front + [s]) == Lead(log, front) + Bytes(log, s)
  {
  }

  lemma BeginNext(log: seq<byte>, segs: seq<Segment>, pos: nat, out: seq<byte>)
    requires Apart(log, segs) && segs[|segs| - 1].hi < pos <= |log| && out <= log[pos..] && out != []
    ensures var more := segs + [Segment(pos, pos + |out|)];
            Apart(log, more) && Render(log, more) == Lead(log, segs) + out
              && Lead(log, segs) == Render(log, segs) + Marker()
  {
  }

  /** Whatever an iterator hands out continues its history. */
  lemma TakesKeeps(ring: Ring, c: Cursor, h: History, c': Cursor, out: seq<byte>)
    requires Inv(ring, c, h) && Takes(ring, c, c', out)
    ensures Inv(ring, c', Appended(ring, c, h, out))
    ensures Delivered(ring.log, Appended(ring, c, h, out)) == Delivered(ring.log, h) + out
  {
    assert LastHi(h) <= |ring.log|;
    hide Apart, Render, Marker;
    if c.trunc != [] {
      TakesMarker(ring, c, h, c', out);
    } else if out != [] {
      if h.mark == 0 {
        TakesMore(ring, c, h, c', out);
      } else {
        TakesNext(ring, c, h, c', out);
      }
    } else {
      WholeMarker();
    }
  }

  lemma WholeMarker()
    ensures |Marker()| == 28 && Marker()[..28] == Marker() && Marker()[0..] == Marker() && Marker()[..0] == []
  {
  }

  /** Bytes that follow on from the last segment. */
  lemma TakesMore(ring: Ring, c: Cursor, h: History, c': Cursor, out: seq<byte>)
    requires Inv(ring, c, h) && Takes(ring, c, c', out) && c.trunc == [] && out != [] && h.mark == 0
    ensures Inv(ring, c', Appended(ring, c, h, out))
    ensures Delivered(ring.log, Appended(ring, c, h, out)) == Delivered(ring.log, h) + out
  {
    var last := h.segs[|h.segs| - 1];
    assert last.lo <= last.hi <= |ring.log|;
    hide Apart, Render, Marker, Grown, Lead;
    WholeMarker();
    GrowApart(ring.log, h.segs, |out|);
    GrowRender(ring.log, h.segs, out);
  }

  /** The first bytes after a marker. */
  lemma TakesNext(ring: Ring, c: Cursor, h: History, c': Cursor, out: seq<byte>)
    requires Inv(ring, c, h) && Takes(ring, c, c', out) && c.trunc == [] && out != [] && h.mark != 0
    ensures Inv(ring, c', Appended(ring, c, h, out))
    ensures Delivered(ring.log, Appended(ring, c, h, out)) == Delivered(ring.log, h) + out
  {
    hide Render, Marker, Lead;
    WholeMarker();
    BeginNext(ring.log, h.segs, PositionOf(ring, c), out);
  }

  // ---------- Every run ----------

  /** A ring, one of its iterators, and everything that iterator has handed out. */
  datatype System = System(ring: Ring, cursor: Cursor, delivered: seq<byte>)

  ghost predicate Step(s: System, t: System) {
    || (RingMoves(s.ring, t.ring) && t.cursor == s.cursor && t.delivered == s.delivered)
    || (t.ring == s.ring && t.cursor == NextCursor(s.ring, s.cursor) && t.delivered == s.delivered)
    || (t.ring == s.ring && s.delivered <= t.delivered
        && Takes(s.ring, s.cursor, t.cursor, t.delivered[|s.delivered|..]))
  }

  ghost predicate Run(trace: seq<System>) {
    trace != [] && forall i :: 0 < i < |trace| ==> Step(trace[i - 1], trace[i])
  }

  lemma AppendedStart(ring: Ring, c: Cursor, h: History, out: seq<byte>)
    requires h.segs != []
    ensures Appended(ring, c, h, out).segs != [] && Appended(ring, c, h, out).segs[0].lo == h.segs[0].lo
  {
  }

  lemma StepKeeps(s: System, t: System, h: History) returns (h': History)
    requires Inv(s.ring, s.cursor, h) && s.delivered == Delivered(s.ring.log, h) && Step(s, t)
    ensures Inv(t.ring, t.cursor, h') && t.delivered == Delivered(t.ring.log, h')
    ensures h.segs != [] && h'.segs != [] && h'.segs[0].lo == h.segs[0].lo
  {
    assert h.segs != [];
    hide Delivered, Render, Marker, Apart, Inv, Takes, NextCursor, RingMoves, Appended;
    h' := h;
    if RingMoves(s.ring, t.ring) && t.cursor == s.cursor && t.delivered == s.delivered {
      RingMovesKeeps(s.ring, t.ring, s.cursor, h);
    } else if t.ring == s.ring && t.cursor == NextCursor(s.ring, s.cursor) && t.delivered == s.delivered {
      NextKeeps(s.ring, s.cursor, h);
    } else {
      var out := t.delivered[|s.delivered|..];
      TakesKeeps(s.ring, s.cursor, h, t.cursor, out);
      h' := Appended(s.ring, s.cursor, h, out);
      AppendedStart(s.ring, s.cursor, h, out);
    }
  }

  /** In every run, what an iterator delivered is a marked-up series of ever later segments of the log . */
  lemma {:induction false} RunDelivers(trace: seq<System>, ring: Ring, start: nat) returns (h: History)
    requires Run(trace) && trace[0] == System(ring, Cursor(start, [], false), [])
    requires ring.readIndex <= |ring.log| && start <= |ring.log|
    ensures var end := trace[|trace| - 1];
            && Inv(end.ring, end.cursor, h) && end.delivered == Delivered(end.ring.log, h)
            && h.segs != [] && h.segs[0].lo == start
  {
    if |trace| == 1 {
      h := History([Segment(start, start)], 0);
      assert Render(ring.log, h.segs) == [];
    } else {
      var before := trace[..|trace| - 1];
      var h0 := RunDelivers(before, ring, start);
      assert Step(trace[|trace| - 2], trace[|trace| - 1]);
      hide Inv, Delivered, Step;
      h := StepKeeps(before[|before| - 1], trace[|trace| - 1], h0);
    }
  }

  // ---------- The iterator ----------

  ghost function RingOf(rb: RingBuffer): Ring
    reads rb
  {
    Ring(rb.log, rb.readIndex)
  }

  /** How many bytes a read with room for `room` hands out. */
  ghost function ReadLength(ring: Ring, c: Cursor, room: nat): int {
    if c.trunc != [] then Min(room, |c.trunc|)
    else if PositionOf(ring, c) < ring.readIndex || PositionOf(ring, c) > |ring.log| then 0
    else Min(room, |ring.log| - PositionOf(ring, c))
  }

  /** The position to read from is still in the ring. */
  ghost predicate InReach(ring: Ring, c: Cursor) {
    ring.readIndex <= PositionOf(ring, c) <= |ring.log|
  }

  /** Reading `n` bytes ends with EOF: no marker is under way, and there is nothing left, or nothing to be had. */
  ghost predicate Ends(ring: Ring, c: Cursor, n: int) {
    c.trunc == [] && (!InReach(ring, c) || PositionOf(ring, c) + n == |ring.log|)
  }

  /** How WriteTo ends: the writer failed, or the position was overwritten, or else all went well. */
  ghost function WriteError(ring: Ring, c: Cursor, failed: bool): Error {
    if c.trunc == [] && !InReach(ring, c) then EOF else if failed then WriterFailed else NoError
  }

  // ---------- Reading to the end ----------

  /** Everything that is due: the rest of a marker, then the log from the position on. */
  ghost function AllDue(ring: Ring, c: Cursor): seq<byte>
    requires InReach(ring, c)
  {
    c.trunc + ring.log[PositionOf(ring, c)..]
  }

  /** One call of Read. */
  datatype Reading = Reading(ring: Ring, room: nat, before: Cursor, out: seq<byte>, after: Cursor, err: Error)

  ghost predicate IsReading(r: Reading) {
    && Takes(r.ring, r.before, r.after, r.out)
    && |r.out| == ReadLength(r.ring, r.before, r.room)
    && r.err == if Ends(r.ring, r.before, |r.out|) then EOF else NoError
  }

  /** A read with room hands out the beginning of what is due, at least one byte unless it ends with EOF. It ends with
      EOF exactly when nothing is due any more and what was due was no marker. */
  lemma ReadMeans(r: Reading)
    requires IsReading(r) && InReach(r.ring, r.before) && r.room > 0
    ensures InReach(r.ring, r.after) && AllDue(r.ring, r.before) == r.out + AllDue(r.ring, r.after)
    ensures r.err == EOF <==> r.before.trunc == [] && AllDue(r.ring, r.after) == []
    ensures r.err == NoError ==> r.out != []
  {
    var c, c', log := r.before, r.after, r.ring.log;
    var pos := PositionOf(r.ring, c);
    if c.trunc != [] {
      assert c.trunc == r.out + c'.trunc;
    } else {
      assert log[pos..] == r.out + log[pos + |r.out|..];
    }
  }

  /** After Next the position is in the ring. */
  lemma NextInReach(ring: Ring, c: Cursor, h: History)
    requires Inv(ring, c, h)
    ensures InReach(ring, NextCursor(ring, c))
  {
  }

  /** One read after the other with room for something; writers may add to the ring in between, as long as they evict
      nothing. */
  ghost predicate ReadsOn(rs: seq<Reading>) {
    && (forall i :: 0 <= i < |rs| ==> IsReading(rs[i]) && rs[i].room > 0)
    && (forall i :: 0 < i < |rs| ==>
          && rs[i].before == rs[i - 1].after && RingMoves(rs[i - 1].ring, rs[i].ring)
          && rs[i].ring.readIndex == rs[i - 1].ring.readIndex)
  }

  ghost function Outputs(rs: seq<Reading>): seq<byte> {
    if rs == [] then [] else Outputs(rs[..|rs| - 1]) + rs[|rs| - 1].out
  }

  lemma ReadsOnFront(rs: seq<Reading>)
    requires |rs| > 1 && ReadsOn(rs)
    ensures var k := |rs| - 1;
            && ReadsOn(rs[..k]) && IsReading(rs[k]) && rs[k].room > 0 && rs[k].before == rs[k - 1].after
            && RingMoves(rs[k - 1].ring, rs[k].ring) && rs[k].ring.readIndex == rs[k - 1].ring.readIndex
  {
    hide IsReading, RingMoves;
  }

  /** Reading on until EOF delivers everything that was due when the reading began, and what was written meanwhile. */
  lemma {:induction false} ReadingDelivers(rs: seq<Reading>)
    requires rs != [] && ReadsOn(rs) && InReach(rs[0].ring, rs[0].before)
    ensures var first, last := rs[0], rs[|rs| - 1];
            && InReach(last.ring, first.before) && InReach(last.ring, last.after)
            && AllDue(first.ring, first.before) <= AllDue(last.ring, first.before)
            && Outputs(rs) + AllDue(last.ring, last.after) == AllDue(last.ring, first.before)
            && (last.err == EOF ==> Outputs(rs) == AllDue(last.ring, first.before))
  {
    var k := |rs| - 1;
    var first, last := rs[0], rs[k];
    if k == 0 {
      hide IsReading, InReach, AllDue;
      assert rs[..0] == [];
      ReadMeans(last);
    } else {
      ReadsOnFront(rs);
      assert Outputs(rs) == Outputs(rs[..k]) + last.out;
      hide IsReading, ReadsOn, InReach, AllDue, RingMoves, Outputs;
      ReadingDelivers(rs[..k]);
      var prev := rs[k - 1].ring;
      DueGrows(prev, last.ring, first.before);
      DueGrows(prev, last.ring, last.before);
      ReadMeans(last);
      JoinReading(AllDue(first.ring, first.before), Outputs(rs[..k]), AllDue(prev, last.before),
                  last.ring.log[|prev.log|..], last.out, AllDue(last.ring, last.after));
    }
  }

  lemma JoinReading(start: seq<byte>, read: seq<byte>, due: seq<byte>, added: seq<byte>, out: seq<byte>,
                    rest: seq<byte>)
    requires start <= read + due && due + added == out + rest
    ensures start <= read + due + added && read + out + rest == read + due + added
    ensures rest == [] ==> read + out == read + due + added
  {
    assert read + out + rest == read + (due + added);
  }

  lemma DueGrows(r: Ring, r': Ring, c: Cursor)
    requires RingMoves(r, r') && r.readIndex == r'.readIndex && InReach(r, c)
    ensures InReach(r', c) && AllDue(r', c) == AllDue(r, c) + r'.log[|r.log|..]
  {
  }

  /** Asked to read at a position that was overwritten, it delivers nothing and says EOF, but has a marker to deliver
      next unless that was just delivered. */
  lemma ReadOvertaken(r: Reading)
    requires IsReading(r) && !InReach(r.ring, r.before) && r.before.trunc == []
    ensures r.out == [] && r.err == EOF && r.after.index == TAIL
    ensures r.after.trunc == if r.before.truncWritten then [] else Marker()
  {
  }

  lemma FreshInv(ring: Ring, start: nat)
    requires ring.readIndex <= |ring.log| && start <= |ring.log|
    ensures Inv(ring, Cursor(start, [], false), History([Segment(start, start)], 0))
    ensures Delivered(ring.log, History([Segment(start, start)], 0)) == []
  {
    assert Render(ring.log, [Segment(start, start)]) == [];
  }

  class Iterator {
    /** Null once closed. */
    var rb: RingBuffer?
    var index: int
    var trunc: seq<byte>
    var truncWritten: bool
    ghost var history: History
    ghost var delivered: seq<byte>

    ghost function View(): Cursor
      reads this
    {
      Cursor(index, trunc, truncWritten)
    }

    ghost predicate Valid()
      reads this, rb, if rb == null then {} else {rb.data}
    {
      rb != null ==> rb.Valid() && Inv(RingOf(rb), View(), history) && delivered == Delivered(rb.log, history)
    }

    /** An iterator from the oldest buffered byte on. */
    constructor Tail(rb: RingBuffer)
      requires rb.Valid()
      ensures Valid() && this.rb == rb && View() == Cursor(rb.readIndex, [], false) && delivered == []
      ensures history == History([Segment(rb.readIndex, rb.readIndex)], 0)
    {
      this.rb, index, trunc, truncWritten := rb, rb.readIndex, [], false;
      history, delivered := History([Segment(rb.readIndex, rb.readIndex)], 0), [];
      new;
      hide Inv, Delivered;
      FreshInv(RingOf(rb), rb.readIndex);
    }

    /** An iterator from the last `lines` lines on; with none buffered it may start before the tail. */
    constructor Head(rb: RingBuffer, lines: int)
      requires rb.Valid()
      ensures this.rb == rb && View() == Cursor(index, [], false) && delivered == []
      ensures lines <= 0 ==> index == rb.writeIndex
      ensures lines > 0 ==>
                KeepsLines(Gather(rb.data[..], rb.Buffers(rb.readIndex, rb.writeIndex)), lines, rb.writeIndex - index)
      ensures Valid() && rb.readIndex <= index <= rb.writeIndex <==>
              lines <= 0 || rb.readIndex < rb.writeIndex || rb.data[..] == [NEWLINE]
    {
      var firstLine := rb.ReverseLinePosition(lines);
      this.rb, index, trunc, truncWritten := rb, firstLine, [], false;
      var start: nat := if firstLine < 0 then 0 else firstLine;
      history, delivered := History([Segment(start, start)], 0), [];
      new;
      hide Inv, Delivered, Holds, KeepsLines;
      if lines > 0 {
        rb.LinePositionInRange(lines, firstLine);
      }
      if rb.readIndex <= firstLine <= rb.writeIndex {
        FreshInv(RingOf(rb), firstLine);
      }
    }

    method Close()
      modifies this`rb
      ensures rb == null
    {
      rb := null;
    }

    method MarkTruncated()
      modifies this`index, this`trunc, this`truncWritten
      ensures View() == Truncated(old(View()))
    {
      index := TAIL;
      if trunc != [] {
        return;
      }
      if truncWritten {
        return;
      }
      trunc := Marker();
    }

    /** Whether there is something to read; without a cancel channel it does not wait. */
    method Next() returns (more: bool)
      requires Valid()
      modifies this
      ensures Valid() && rb == old(rb) && delivered == old(delivered)
      ensures rb == null ==> !more
      ensures rb != null ==> View() == NextCursor(RingOf(rb), old(View()))
      ensures rb != null ==> more == (Due(RingOf(rb), View()) > 0 || SpuriousYes(RingOf(rb), View()))
    {
      if rb == null {
        return false;
      }
      NextKeeps(RingOf(rb), View(), history);
      NextYesMeans(RingOf(rb), View(), history);
      var start, end := rb.readIndex, rb.writeIndex;
      if index != TAIL && index < start {
        index := start;
        MarkTruncated();
      }
      if end != 0 && index < end {
        return true;
      }
      return trunc != [];
    }

    method ReadMarker(dest: array<byte>) returns (n: nat)
      requires rb != null && trunc != []
      modifies this`trunc, this`truncWritten, dest
      ensures n == ReadLength(RingOf(rb), old(View()), dest.Length) && n <= dest.Length
      ensures Takes(RingOf(rb), old(View()), View(), dest[..n])
    {
      n := CopyInto(dest, 0, dest.Length, trunc);
      trunc := trunc[n..];
      truncWritten := true;
    }

    method ReadRing(dest: array<byte>) returns (n: nat, err: Error)
      requires rb != null && rb.Valid() && dest != rb.data && trunc == []
      modifies this`index, this`trunc, this`truncWritten, dest
      ensures n == ReadLength(RingOf(rb), old(View()), dest.Length) && n <= dest.Length
      ensures Takes(RingOf(rb), old(View()), View(), dest[..n])
      ensures err == if Ends(RingOf(rb), old(View()), n) then EOF else NoError
    {
      hide Holds, Marker;
      var next;
      next, n, err := rb.Copy(dest, index);
      if n > 0 {
        truncWritten := false;
        assert dest[..n] <= rb.log[rb.ReadPosition(index)..];
      }
      index := next;
      if err == OutOfRange {
        MarkTruncated();
        err := EOF;
      }
    }

    /** Takes down what was handed out. */
    ghost method Took(ring: Ring, c: Cursor, out: seq<byte>)
      requires rb != null && rb.Valid() && RingOf(rb) == ring
      requires Inv(ring, c, history) && delivered == Delivered(ring.log, history) && Takes(ring, c, View(), out)
      modifies this`history, this`delivered
      ensures Valid() && delivered == old(delivered) + out
    {
      hide Inv, Delivered, Appended, Takes, Holds;
      TakesKeeps(ring, c, history, View(), out);
      history, delivered := Appended(ring, c, history, out), delivered + out;
    }

    method Read(dest: array<byte>) returns (n: nat, err: Error)
      requires Valid() && (rb != null ==> dest != rb.data)
      modifies this, dest
      ensures Valid() && rb == old(rb) && n <= dest.Length
      ensures rb == null ==> n == 0 && err == EOF
      ensures rb != null ==> IsReading(Reading(RingOf(rb), dest.Length, old(View()), dest[..n], View(), err))
      ensures delivered == old(delivered) + dest[..n]
    {
      if rb == null {
        return 0, EOF;
      }
      hide Inv, Delivered, Holds, Appended, Marker, Takes, ReadLength, InReach;
      ghost var ring, c := RingOf(rb), View();
      if trunc != [] {
        n := ReadMarker(dest);
        err := NoError;
      } else {
        n, err := ReadRing(dest);
      }
      Took(ring, c, dest[..n]);
    }

    /** Hands everything that is due to `writer`, or as much as that takes. */
    method WriteTo(writer: Sink) returns (n: nat, err: Error)
      requires Valid()
      modifies this, writer
      ensures Valid() && rb == old(rb)
      ensures rb == null ==> n == 0 && err == EOF && writer.taken == old(writer.taken)
      ensures rb != null ==> err == WriteError(RingOf(rb), old(View()), writer.failures > old(writer.failures))
      ensures exists out :: |out| == n && writer.taken == old(writer.taken) + out && delivered == old(delivered) + out
                && (rb != null ==> Takes(RingOf(rb), old(View()), View(), out))
                && (rb != null && err == NoError ==> n == Due(RingOf(rb), old(View())))
    {
      if rb == null {
        assert writer.taken == old(writer.taken) + [] && delivered == old(delivered) + [];
        return 0, EOF;
      }
      hide Inv, Delivered, Holds, Appended, Marker, Takes, Due, WriteError;
      ghost var ring, c := RingOf(rb), View();
      ghost var out;
      if trunc != [] {
        n, err, out := WriteMarker(writer);
      } else {
        n, err, out := WriteRing(writer);
      }
      Took(ring, c, out);
    }

    method WriteMarker(writer: Sink) returns (n: nat, err: Error, ghost out: seq<byte>)
      requires rb != null && trunc != []
      modifies this`trunc, this`truncWritten, writer
      ensures |out| == n && writer.taken == old(writer.taken) + out
      ensures Takes(RingOf(rb), old(View()), View(), out)
      ensures err == WriteError(RingOf(rb), old(View()), writer.failures > old(writer.failures))
      ensures err == NoError ==> n == Due(RingOf(rb), old(View()))
    {
      var failed;
      n, failed := writer.Write(trunc);
      out := trunc[..n];
      trunc := trunc[n..];
      truncWritten := true;
      err := if failed then WriterFailed else NoError;
    }

    method WriteRing(writer: Sink) returns (n: nat, err: Error, ghost out: seq<byte>)
      requires rb != null && rb.Valid() && trunc == []
      modifies this`index, this`trunc, this`truncWritten, writer
      ensures |out| == n && writer.taken == old(writer.taken) + out
      ensures Takes(RingOf(rb), old(View()), View(), out)
      ensures err == WriteError(RingOf(rb), old(View()), writer.failures > old(writer.failures))
      ensures err == NoError ==> n == Due(RingOf(rb), old(View()))
    {
      hide Holds, Marker;
      var next, failed;
      ghost var pos := rb.ReadPosition(index);
      next, n, failed, err := rb.WriteTo(writer, index);
      out := if n > 0 then rb.log[pos..next] else [];
      if n > 0 {
        truncWritten := false;
        assert out <= rb.log[pos..];
      }
      index := next;
      if err == OutOfRange {
        MarkTruncated();
        err := EOF;
      }
    }
  }

  /** Whatever a writer does to the ring, its iterators stay valid. */
  twostate lemma StillValid(it: Iterator, rb: RingBuffer)
    requires old(it.Valid()) && it.rb == rb == old(it.rb)
    requires it.View() == old(it.View()) && it.history == old(it.history) && it.delivered == old(it.delivered)
    requires rb.Valid() && RingMoves(old(RingOf(rb)), RingOf(rb))
    ensures it.Valid()
  {
    hide Inv, Delivered, RingMoves;
    RingMovesKeeps(old(RingOf(rb)), RingOf(rb), it.View(), it.history);
  }

  // ---------- Head iterators of an empty ring ----------

  /** Asked for lines of a ring never written to, an iterator starts below position 0, and reports a truncation. */
  lemma EmptyHeadReportsTruncation(size: nat, lines: int, index: int)
    requires size > 1 && lines > 0 && KeepsLines(seq(size, _ => 0), lines, 0 - index)
    ensures index == 0 - size
    ensures NextCursor(Ring([], 0), Cursor(index, [], false)) == Cursor(TAIL, Marker(), false)
    ensures NextAnswer(Ring([], 0), Cursor(TAIL, Marker(), false))
  {
  }
}
