/** A byte ring with ever-growing positions (internals/servicelog/ringbuffer.go). */
module RingBuffers {

  newtype byte = x: int | 0 <= x < 256

  const NEWLINE: byte := 10

  /** The position that stands for the tail at read time. */
  const TAIL: int := -1

  datatype Error = NoError | EOF | BufferFull | OutOfRange | ShortWrite | ClosedPipe | WriterFailed

  function Min(a: int, b: int): int {
    if a < b then a else b
  }

  // ---------- Positions and slots ----------

  /** How far slot `j` lies after slot `low`, going round a ring of `size` slots. */
  function Offset(low: int, j: int, size: int): int {
    if j >= low then j - low else j + size - low
  }

  lemma MulAtLeast(x: int, size: int)
    requires x >= 1 && size > 0
    ensures x * size >= size
  {
  }

  lemma MulDistributes(x: int, y: int, size: int)
    ensures (x - y) * size == x * size - y * size
  {
  }

  lemma ModUnique(a: int, q: int, r: int, size: int)
    requires size > 0 && 0 <= r < size && a == q * size + r
    ensures a % size == r
  {
    var d, m := a / size, a % size;
    assert a == d * size + m && 0 <= m < size;
    if d > q {
      MulDistributes(d, q, size);
      MulAtLeast(d - q, size);
    } else if d < q {
      MulDistributes(q, d, size);
      MulAtLeast(q - d, size);
    }
  }

  /** The slot of position `k`, seen from the slot of a position at most one round away. */
  lemma SlotOffset(start: nat, k: nat, size: nat)
    requires size > 0 && start - size <= k < start + size
    ensures Offset(start % size, k % size, size) == if k >= start then k - start else k - start + size
  {
    var low, q := start % size, start / size;
    assert start == q * size + low;
    var t := low + k - start;
    assert k == q * size + t;
    if t < 0 {
      assert k == (q - 1) * size + (t + size);
      ModUnique(k, q - 1, t + size, size);
    } else if t < size {
      ModUnique(k, q, t, size);
    } else {
      assert k == (q + 1) * size + (t - size);
      ModUnique(k, q + 1, t - size, size);
    }
  }

  /** The slots of `[readIndex, |log|)` hold the bytes of the log. */
  ghost predicate Holds(data: seq<byte>, log: seq<byte>, readIndex: nat) {
    data != [] && forall k :: readIndex <= k < |log| ==> data[k % |data|] == log[k]
  }

  /** `after` is `before` with `p` laid out round the ring from slot `low`. */
  ghost predicate LaidOut(before: seq<byte>, after: seq<byte>, low: nat, p: seq<byte>) {
    && |after| == |before| && |p| <= |before|
    && forall j :: 0 <= j < |after| ==>
         after[j] == if 0 <= Offset(low, j, |before|) < |p| then p[Offset(low, j, |before|)] else before[j]
  }

  lemma LaidOutHolds(before: seq<byte>, after: seq<byte>, log: seq<byte>, readIndex: nat, p: seq<byte>)
    requires Holds(before, log, readIndex) && readIndex <= |log|
    requires LaidOut(before, after, |log| % |before|, p)
    requires |log| + |p| - readIndex <= |before|
    ensures Holds(after, log + p, readIndex)
  {
    forall k | readIndex <= k < |log + p|
      ensures after[k % |after|] == (log + p)[k]
    {
      SlotOffset(|log|, k, |before|);
    }
  }

  /** A copy up to the end of the ring, then one from its first slot. */
  lemma WrappedLaidOut(before: seq<byte>, mid: seq<byte>, after: seq<byte>, low: nat, n: nat, p: seq<byte>)
    requires low < |before| <= low + n && n <= |p| && n <= |before|
    requires mid == before[..low] + p[..|before| - low] + before[|before|..]
    requires after == mid[..0] + p[|before| - low..][..n - (|before| - low)] + mid[n - (|before| - low)..]
    ensures LaidOut(before, after, low, p[..n])
  {
  }

  /** The bytes of `[start, end)` lie in at most two stretches of the ring. */
  lemma StretchHolds(data: seq<byte>, log: seq<byte>, readIndex: nat, start: nat, end: nat)
    requires Holds(data, log, readIndex)
    requires readIndex <= start < end <= |log| && end - start <= |data|
    ensures var low, high := start % |data|, if end % |data| == 0 then |data| else end % |data|;
            log[start..end] == if low < high then data[low..high] else data[low..] + data[..high]
  {
    var size := |data|;
    var low, high := start % size, if end % size == 0 then size else end % size;
    SlotOffset(start, end - 1, size);
    LastSlot(end, size);
    var read := if low < high then data[low..high] else data[low..] + data[..high];
    assert |read| == end - start;
    forall i | 0 <= i < end - start
      ensures read[i] == log[start..end][i]
    {
      SlotOffset(start, start + i, size);
      assert log[start + i] == data[(start + i) % size];
    }
  }

  lemma LastSlot(end: nat, size: nat)
    requires size > 0 && end > 0
    ensures (end - 1) % size == (if end % size == 0 then size else end % size) - 1
  {
    var q, r := end / size, end % size;
    assert end == q * size + r;
    if r == 0 {
      assert end - 1 == (q - 1) * size + (size - 1);
      ModUnique(end - 1, q - 1, size - 1, size);
    } else {
      ModUnique(end - 1, q, r - 1, size);
    }
  }

  // ---------- The ring ----------

  /** A stretch of slots of the backing array. */
  datatype Stretch = Stretch(low: nat, high: nat)

  function Slots(data: seq<byte>, s: Stretch): seq<byte> {
    if s.low <= s.high <= |data| then data[s.low..s.high] else []
  }

  /** The bytes of the stretches, in order. */
  function Gather(data: seq<byte>, parts: seq<Stretch>): seq<byte> {
    if parts == [] then [] else Gather(data, parts[..|parts| - 1]) + Slots(data, parts[|parts| - 1])
  }

  lemma GatherMore(data: seq<byte>, parts: seq<Stretch>, j: nat)
    requires j < |parts|
    ensures Gather(data, parts[..j + 1]) == Gather(data, parts[..j]) + Slots(data, parts[j])
    ensures |Gather(data, parts[..j + 1])| <= |Gather(data, parts)|
  {
    assert parts[..j + 1][..j] == parts[..j];
    GatherGrows(data, parts, j + 1);
  }

  lemma {:induction false} GatherGrows(data: seq<byte>, parts: seq<Stretch>, j: nat)
    requires j <= |parts|
    ensures Gather(data, parts[..j]) <= Gather(data, parts)
  {
    if j < |parts| {
      var shorter := parts[..|parts| - 1];
      assert shorter[..j] == parts[..j];
      GatherGrows(data, shorter, j);
    } else {
      assert parts[..j] == parts;
    }
  }

  lemma GatherTwo(data: seq<byte>, a: Stretch, b: Stretch)
    ensures Gather(data, [a, b]) == Slots(data, a) + Slots(data, b)
  {
    assert [a, b][..1] == [a] && [a][..0] == [];
    assert Gather(data, [a]) == Gather(data, []) + Slots(data, a) == Slots(data, a);
  }

  lemma GatherAt(data: seq<byte>, parts: seq<Stretch>, j: nat)
    requires j < |parts|
    ensures var base := |Gather(data, parts[..j])|;
            && base + |Slots(data, parts[j])| == |Gather(data, parts[..j + 1])| <= |Gather(data, parts)|
            && Gather(data, parts)[base..base + |Slots(data, parts[j])|] == Slots(data, parts[j])
  {
    GatherMore(data, parts, j);
    GatherGrows(data, parts, j + 1);
  }

  /** A prefix of one stretch, after all before it, is a prefix of the whole. */
  lemma GatherPrefix(data: seq<byte>, parts: seq<Stretch>, j: nat, n: nat)
    requires j < |parts| && n <= |Slots(data, parts[j])|
    ensures |Gather(data, parts[..j])| + n <= |Gather(data, parts)|
    ensures var written := |Gather(data, parts[..j])|;
            Gather(data, parts)[..written] + Slots(data, parts[j])[..n] == Gather(data, parts)[..written + n]
  {
    hide Gather;
    GatherMore(data, parts, j);
    GatherGrows(data, parts, j + 1);
    PrefixOfPart(Gather(data, parts), Gather(data, parts[..j]), Slots(data, parts[j]), n);
  }

  lemma PrefixOfPart(whole: seq<byte>, before: seq<byte>, part: seq<byte>, n: nat)
    requires before + part <= whole && n <= |part|
    ensures whole[..|before|] + part[..n] == whole[..|before| + n]
  {
    assert whole[..|before| + |part|] == before + part;
  }

  /** An io.Writer: it takes any part of what it is given, and fails if that is not all of it. */
  class Sink {
    ghost var taken: seq<byte>
    /** How many writes have failed. */
    ghost var failures: nat

    constructor ()
      ensures taken == [] && failures == 0
    {
      taken, failures := [], 0;
    }

    method Write(p: seq<byte>) returns (n: nat, failed: bool)
      modifies this
      ensures n <= |p| && (n < |p| ==> failed)
      ensures taken == old(taken) + p[..n]
      ensures failures == old(failures) + if failed then 1 else 0
    {
      n, failed := *, *;
      n := if n <= |p| then n else |p|;
      failed := failed || n < |p|;
      taken, failures := taken + p[..n], failures + if failed then 1 else 0;
    }
  }

  /** Go's copy into `dest[low..high]`. */
  method CopyInto(dest: array<byte>, low: nat, high: nat, src: seq<byte>) returns (n: nat)
    requires low <= high <= dest.Length
    modifies dest
    ensures n == Min(high - low, |src|)
    ensures dest[..] == old(dest[..low]) + src[..n] + old(dest[low + n..])
  {
    n := if high - low < |src| then high - low else |src|;
    forall i | 0 <= i < n {
      dest[low + i] := src[i];
    }
  }

  class RingBuffer {
    const data: array<byte>
    var readIndex: nat
    var writeIndex: nat
    var writeClosed: bool
    /** Every byte ever accepted. */
    ghost var log: seq<byte>

    ghost predicate Valid()
      reads this, data
    {
      && |log| == writeIndex
      && readIndex <= writeIndex <= readIndex + data.Length
      && Holds(data[..], log, readIndex)
    }

    constructor (size: nat)
      requires size > 0
      ensures Valid() && fresh(data) && data.Length == size
      ensures readIndex == 0 && log == [] && !writeClosed
    {
      data := new byte[size](_ => 0);
      readIndex, writeIndex, writeClosed, log := 0, 0, false, [];
    }

    method Close()
      requires Valid()
      modifies this`writeClosed
      ensures Valid() && writeClosed
    {
      writeClosed := true;
    }

    function Available(): int
      reads this
    {
      data.Length - (writeIndex - readIndex)
    }

    /** Drops up to `n` bytes from the tail. */
    method Discard(n: nat)
      requires Valid()
      modifies this`readIndex
      ensures Valid()
      ensures readIndex == Min(old(readIndex) + n, writeIndex)
    {
      var buffered := writeIndex - readIndex;
      readIndex := readIndex + if n > buffered then buffered else n;
    }

    /** Copies the start of `p` into the slots of `[start, end)`, wrapping round the end of the array. */
    method LayOut(start: nat, end: nat, p: seq<byte>)
      requires 0 < end - start <= data.Length && end - start <= |p|
      modifies data
      ensures LaidOut(old(data[..]), data[..], start % data.Length, p[..end - start])
    {
      var size := data.Length;
      var low, high := start % size, end % size;
      if high == 0 {
        high := size;
      }
      EndSlot(start, end - start, size);
      Place(low, high, end - start, p);
    }

    method Place(low: nat, high: nat, n: nat, p: seq<byte>)
      requires low < data.Length && 0 < n <= data.Length && n <= |p|
      requires high == if low + n <= data.Length then low + n else low + n - data.Length
      modifies data
      ensures LaidOut(old(data[..]), data[..], low, p[..n])
    {
      ghost var before := data[..];
      if low < high {
        var _ := CopyInto(data, low, high, p[..n]);
      } else {
        var lowLength := data.Length - low;
        var _ := CopyInto(data, low, data.Length, p);
        ghost var mid := data[..];
        var _ := CopyInto(data, 0, high, p[lowLength..]);
        WrappedLaidOut(before, mid, data[..], low, n, p);
      }
    }

    /** Appends what fits in the ring, and drops from the tail only what has to make room for it. */
    method Write(p: seq<byte>) returns (written: nat, err: Error)
      requires Valid()
      modifies this`readIndex, this`writeIndex, this`log, data
      ensures Valid()
      ensures written == if writeClosed then 0 else Min(|p|, data.Length)
      ensures err == if p == [] || written == |p| then NoError else if writeClosed then ClosedPipe else ShortWrite
      ensures log == old(log) + p[..written]
      ensures readIndex == if written > 0 &&
              writeIndex - data.Length > old(readIndex) then writeIndex - data.Length else old(readIndex)
    {
      if p == [] {
        return 0, NoError;
      }
      if writeClosed {
        return 0, ClosedPipe;
      }
      var size := data.Length;
      var writeLength := if |p| < size then |p| else size;
      var available := Available();
      if available < writeLength {
        Discard(writeLength - available);
      }
      ghost var before := data[..];
      LayOut(writeIndex, writeIndex + writeLength, p);
      LaidOutHolds(before, data[..], log, readIndex, p[..writeLength]);
      log := log + p[..writeLength];
      writeIndex := writeIndex + writeLength;
      return writeLength, if writeLength < |p| then ShortWrite else NoError;
    }

    // ---------- Reading ----------

    function ReadPosition(start: int): int
      reads this
    {
      if start == TAIL then readIndex else start
    }

    /** The slots of `[start, end)`. An empty range is not told apart from a full one. */
    function Buffers(start: nat, end: nat): (parts: seq<Stretch>)
      requires data.Length > 0
      reads this
      ensures |parts| == 2 && forall j :: 0 <= j < 2 ==> parts[j].low <= parts[j].high <= data.Length
    {
      if end < start || start < readIndex || start > writeIndex || end < readIndex || end > writeIndex then
        [Stretch(0, 0), Stretch(0, 0)]
      else
        var low, high := start % data.Length, if end % data.Length == 0 then data.Length else end % data.Length;
        if low < high then [Stretch(low, high), Stretch(0, 0)] else [Stretch(low, data.Length), Stretch(0, high)]
    }

    lemma BuffersHold(start: nat, end: nat)
      requires Valid() && readIndex <= start < end <= writeIndex
      ensures Gather(data[..], Buffers(start, end)) == log[start..end]
    {
      StretchHolds(data[..], log, readIndex, start, end);
      var parts := Buffers(start, end);
      GatherTwo(data[..], parts[0], parts[1]);
      assert parts == [parts[0], parts[1]];
    }

    /** Copies into `dest` the log from position `start` on, as far as both reach. */
    method Copy(dest: array<byte>, start: int) returns (next: int, n: nat, err: Error)
      requires Valid() && dest != data
      modifies dest
      ensures var pos := ReadPosition(start);
              if pos < readIndex || pos > writeIndex then
                next == start && n == 0 && err == OutOfRange
              else if pos == writeIndex then
                next == start && n == 0 && err == EOF
              else
                && n == Min(writeIndex - pos, dest.Length)
                && next == (if n == 0 then start else pos + n)
                && err == if n > 0 && next == writeIndex then EOF else NoError
      ensures n > 0 ==> 0 <= ReadPosition(start) && dest[..n] == log[ReadPosition(start)..next]
      ensures dest[n..] == old(dest[n..])
    {
      hide Gather, Holds;
      var readPos := ReadPosition(start);
      if readPos < readIndex || readPos > writeIndex {
        return start, 0, OutOfRange;
      }
      if readPos == writeIndex {
        return start, 0, EOF;
      }
      var copyLength := Min(writeIndex - readPos, dest.Length);
      if copyLength == 0 {
        return start, 0, NoError;
      }
      var end := readPos + copyLength;
      var parts := Buffers(readPos, end);
      BuffersHold(readPos, end);
      var written := CopyParts(dest, parts);
      next := readPos + written;
      return next, written, if next == writeIndex then EOF else NoError;
    }

    method CopyParts(dest: array<byte>, parts: seq<Stretch>) returns (written: nat)
      requires dest != data && |Gather(data[..], parts)| <= dest.Length
      requires forall j :: 0 <= j < |parts| ==> parts[j].low <= parts[j].high <= data.Length
      modifies dest
      ensures written == |Gather(data[..], parts)|
      ensures dest[..written] == Gather(data[..], parts) && dest[written..] == old(dest[..])[written..]
    {
      hide Gather;
      ghost var d := data[..];
      GatherNone(d, parts);
      written := 0;
      var j := 0;
      while j < |parts|
        invariant 0 <= j <= |parts| && data[..] == d
        invariant written == |Gather(d, parts[..j])| <= dest.Length
        invariant dest[..written] == Gather(d, parts[..j])
        invariant dest[written..] == old(dest[..])[written..]
      {
        GatherMore(d, parts, j);
        var n := CopyInto(dest, written, dest.Length, data[parts[j].low..parts[j].high]);
        written := written + n;
        j := j + 1;
      }
      assert parts[..j] == parts;
    }

    /** Writes the log from position `start` on to `writer`, until that fails. */
    method WriteTo(writer: Sink, start: int) returns (next: int, n: nat, failed: bool, err: Error)
      requires Valid()
      modifies writer
      ensures var pos := ReadPosition(start);
              if pos < readIndex || pos > writeIndex then
                next == start && n == 0 && err == OutOfRange
              else if pos == writeIndex then
                next == start && n == 0 && !failed && err == NoError
              else
                && n <= writeIndex - pos && next == pos + n
                && err == (if failed then WriterFailed else NoError)
                && (n < writeIndex - pos ==> failed)
      ensures writer.failures == old(writer.failures) + if failed then 1 else 0
      ensures n > 0 ==> 0 <= ReadPosition(start) && next <= writeIndex
      ensures writer.taken == old(writer.taken) + if n > 0 then log[ReadPosition(start)..next] else []
    {
      var readPos := ReadPosition(start);
      failed := false;
      if readPos < readIndex || readPos > writeIndex {
        return start, 0, false, OutOfRange;
      }
      if writeIndex - readPos == 0 {
        return start, 0, false, NoError;
      }
      var parts := Buffers(readPos, writeIndex);
      BuffersHold(readPos, writeIndex);
      var written;
      written, failed := WriteParts(writer, parts);
      next := readPos + written;
      return next, written, failed, if failed then WriterFailed else NoError;
    }

    method WriteParts(writer: Sink, parts: seq<Stretch>) returns (written: nat, failed: bool)
      requires forall j :: 0 <= j < |parts| ==> parts[j].low <= parts[j].high <= data.Length
      modifies writer
      ensures written <= |Gather(data[..], parts)| && (written < |Gather(data[..], parts)| ==> failed)
      ensures writer.taken == old(writer.taken) + Gather(data[..], parts)[..written]
      ensures writer.failures == old(writer.failures) + if failed then 1 else 0
    {
      hide Gather;
      ghost var d := data[..];
      ghost var whole := Gather(d, parts);
      GatherNone(d, parts);
      written, failed := 0, false;
      var j := 0;
      while j < |parts|
        invariant 0 <= j <= |parts| && !failed && writer.failures == old(writer.failures)
        invariant written == |Gather(d, parts[..j])| <= |whole|
        invariant writer.taken == old(writer.taken) + whole[..written]
      {
        GatherMore(d, parts, j);
        if parts[j].low < parts[j].high {
          var bytes := data[parts[j].low..parts[j].high];
          assert bytes == Slots(d, parts[j]);
          var n;
          n, failed := writer.Write(bytes);
          GatherPrefix(d, parts, j, n);
          TakenMore(old(writer.taken), whole, written, bytes[..n], writer.taken);
          written := written + n;
          if failed {
            return;
          }
        }
        j := j + 1;
      }
      assert parts[..j] == parts;
    }

    // ---------- Counting lines back from the head ----------

    /** With nothing buffered, the slots asked for are the whole ring, whatever it last held. */
    lemma BuffersOfNothing()
      requires Valid() && readIndex == writeIndex
      ensures var s := Gather(data[..], Buffers(readIndex, writeIndex));
              |s| == data.Length && (data.Length == 1 ==> s == data[..])
    {
      var parts := Buffers(readIndex, writeIndex);
      GatherTwo(data[..], parts[0], parts[1]);
      assert parts == [parts[0], parts[1]];
    }

    /** A line position is a buffered position exactly when something is buffered, apart from a ring of one newline. */
    lemma LinePositionInRange(n: int, firstLine: int)
      requires Valid() && n > 0
      requires KeepsLines(Gather(data[..], Buffers(readIndex, writeIndex)), n, writeIndex - firstLine)
      ensures readIndex <= firstLine <= writeIndex <==> readIndex < writeIndex || data[..] == [NEWLINE]
    {
      if readIndex < writeIndex {
        BuffersHold(readIndex, writeIndex);
        KeepsSome(log[readIndex..writeIndex], n, writeIndex - firstLine);
      } else {
        BuffersOfNothing();
        KeepsSome(Gather(data[..], Buffers(readIndex, writeIndex)), n, writeIndex - firstLine);
      }
    }

    /** The position from which the last `n` lines follow. */
    method ReverseLinePosition(n: int) returns (firstLine: int)
      requires Valid()
      ensures n <= 0 ==> firstLine == writeIndex
      ensures n > 0 ==> KeepsLines(Gather(data[..], Buffers(readIndex, writeIndex)), n, writeIndex - firstLine)
    {
      if n <= 0 {
        return writeIndex;
      }
      firstLine := ScanBuffers(Buffers(readIndex, writeIndex), n);
    }

    method ScanBuffers(parts: seq<Stretch>, n: int) returns (firstLine: int)
      requires n > 0 && forall j :: 0 <= j < |parts| ==> parts[j].low <= parts[j].high <= data.Length
      ensures KeepsLines(Gather(data[..], parts), n, writeIndex - firstLine)
    {
      hide Gather, KeepsLines, ScannedBack;
      ghost var whole := Gather(data[..], parts);
      assert parts[..|parts|] == parts;
      ScannedNone(whole, n);
      var lines := -1;
      firstLine := writeIndex;
      var last: byte := 0;
      var j := |parts|;
      while j > 0
        invariant 0 <= j <= |parts|
        invariant |Gather(data[..], parts[..j])| == |whole| - (writeIndex - firstLine)
        invariant ScannedBack(whole, n, writeIndex - firstLine, lines, last)
      {
        j := j - 1;
        var buf := data[parts[j].low..parts[j].high];
        GatherAt(data[..], parts, j);
        var found;
        firstLine, lines, last, found := ScanBuffer(buf, n, firstLine, lines, last, writeIndex, whole,
                |Gather(data[..], parts[..j])|);
        if found {
          return firstLine + 1;
        }
      }
      GatherNone(data[..], parts);
      ScannedAll(whole, n, lines, last);
      if last == NEWLINE {
        firstLine := firstLine + 1;
      }
    }
  }

  // ---------- Lines ----------

  function Newlines(s: seq<byte>): nat {
    if s == [] then 0 else (if s[0] == NEWLINE then 1 else 0) + Newlines(s[1..])
  }

  lemma {:induction false} NewlinesSuffix(s: seq<byte>, i: nat)
    requires i <= |s|
    ensures Newlines(s[i..]) <= Newlines(s)
  {
    if i > 0 {
      NewlinesSuffix(s[1..], i - 1);
      assert s[1..][i - 1..] == s[i..];
    }
  }

  /** Scans one buffer backwards; `whole` from position `base` on starts with it. */
  method ScanBuffer(buf: seq<byte>, n: int, firstLine0: int, lines0: int, last0: byte, ghost writeIndex: int,
                    ghost whole: seq<byte>, ghost base: nat)
    returns (firstLine: int, lines: int, last: byte, found: bool)
    requires ScannedBack(whole, n, writeIndex - firstLine0, lines0, last0)
    requires base + |buf| == |whole| - (writeIndex - firstLine0) && whole[base..base + |buf|] == buf
    ensures found ==> last == NEWLINE && KeepsLines(whole, n, writeIndex - firstLine - 1)
    ensures !found ==>
              base == |whole| - (writeIndex - firstLine) && ScannedBack(whole, n, writeIndex - firstLine, lines, last)
  {
    assert base + |buf| <= |whole|;
    hide ScannedBack, KeepsLines;
    firstLine, lines, last, found := firstLine0, lines0, last0, false;
    var i := |buf|;
    while i > 0
      invariant 0 <= i <= |buf|
      invariant base + i == |whole| - (writeIndex - firstLine)
      invariant ScannedBack(whole, n, writeIndex - firstLine, lines, last)
    {
      i := i - 1;
      assert buf[i] == whole[base..base + |buf|][i] == whole[base + i];
      ScanOneBack(whole, n, writeIndex - firstLine, lines, last);
      firstLine := firstLine - 1;
      last := buf[i];
      if last == NEWLINE {
        lines := lines + 1;
      }
      if lines == n {
        return firstLine, lines, last, true;
      }
    }
  }

  /** `kept` bytes at the end of `s` are its last `n` lines, or, with fewer than that, all but a leading newline. */
  ghost predicate KeepsLines(s: seq<byte>, n: int, kept: int) {
    if Newlines(s) > n then
      0 <= kept < |s| && s[|s| - kept - 1] == NEWLINE && Newlines(s[|s| - kept..]) == n
    else
      kept == if s != [] && s[0] == NEWLINE then |s| - 1 else |s|
  }

  lemma KeepsSome(s: seq<byte>, n: int, kept: int)
    requires s != [] && n > 0 && KeepsLines(s, n, kept)
    ensures 0 <= kept <= |s| && (kept == 0 <==> s == [NEWLINE])
  {
  }

  /** On a non-empty buffer: the tail or just after a newline, with the last `n` lines following, or all of fewer. */
  lemma LinePositionMeans(log: seq<byte>, readIndex: nat, n: int, firstLine: int)
    requires readIndex < |log| && n > 0
    requires KeepsLines(log[readIndex..], n, |log| - firstLine)
    ensures readIndex <= firstLine <= |log|
    ensures firstLine == readIndex || log[firstLine - 1] == NEWLINE
    ensures Newlines(log[firstLine..]) <= n
    ensures Newlines(log[readIndex..]) > n ==> Newlines(log[firstLine..]) == n
    ensures Newlines(log[readIndex..]) <= n ==> firstLine <= readIndex + 1
  {
  }

  /** `q` bytes of `s` were scanned from its end, and hold one newline more than `lines`. */
  ghost predicate ScannedBack(s: seq<byte>, n: int, q: int, lines: int, last: byte) {
    && 0 <= q <= |s| && lines < n
    && Newlines(s[|s| - q..]) == lines + 1
    && last == if q == 0 then 0 else s[|s| - q]
  }

  lemma ScanOneBack(s: seq<byte>, n: int, q: int, lines: int, last: byte)
    requires ScannedBack(s, n, q, lines, last) && q < |s|
    ensures var last' := s[|s| - q - 1];
            var lines' := if last' == NEWLINE then lines + 1 else lines;
            if lines' == n then KeepsLines(s, n, q) else ScannedBack(s, n, q + 1, lines', last')
  {
    assert s[|s| - q - 1..] == [s[|s| - q - 1]] + s[|s| - q..];
    NewlinesSuffix(s, |s| - q - 1);
  }

  lemma ScannedNone(s: seq<byte>, n: int)
    requires n > 0
    ensures ScannedBack(s, n, 0, -1, 0)
  {
  }

  lemma ScannedAll(s: seq<byte>, n: int, lines: int, last: byte)
    requires ScannedBack(s, n, |s|, lines, last)
    ensures KeepsLines(s, n, if last == NEWLINE then |s| - 1 else |s|)
  {
  }

  lemma GatherNone(data: seq<byte>, parts: seq<Stretch>)
    ensures Gather(data, parts[..0]) == []
  {
  }

  lemma TakenMore(taken: seq<byte>, whole: seq<byte>, written: nat, more: seq<byte>, taken': seq<byte>)
    requires written + |more| <= |whole| && whole[..written] + more == whole[..written + |more|]
    requires taken' == taken + whole[..written] + more
    ensures taken' == taken + whole[..written + |more|]
  {
  }

  /** Where a write of `n` bytes at position `start` ends. */
  lemma EndSlot(start: nat, n: nat, size: nat)
    requires 0 < n <= size
    ensures var low, high := start % size, if (start + n) % size == 0 then size else (start + n) % size;
            high == if low + n <= size then low + n else low + n - size
  {
    LastSlot(start + n, size);
    SlotOffset(start, start + n - 1, size);
  }
}
