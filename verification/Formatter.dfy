/** Prefixing each line with a timestamp and a service name (internals/servicelog/formatter.go). */
module Formatters {
  import opened RingBuffers

  type Bytes = seq<byte>

  const SPACE: byte := 32
  const OPEN: byte := 91   // [
  const CLOSE: byte := 93  // ]

  /** "<stamp> [<service>] " */
  function Prefix(stamp: Bytes, service: Bytes): (p: Bytes)
    ensures |p| == |stamp| + |service| + 4
  {
    stamp + [SPACE, OPEN] + service + [CLOSE, SPACE]
  }

  // ---------- The formatted text of a payload ----------

  predicate AtLineStart(payload: Bytes) {
    payload == [] || payload[|payload| - 1] == NEWLINE
  }

  /** How many lines of the payload have begun. */
  function LineCount(payload: Bytes): nat {
    if payload == [] then 0 else
      var front := payload[..|payload| - 1];
      LineCount(front) + if AtLineStart(front) then 1 else 0
  }

  function StampAt(stamps: seq<Bytes>, k: nat): Bytes {
    if k < |stamps| then stamps[k] else []
  }

  /** The payload with a prefix before the first byte of each line; line `k` bears `stamps[k]`. */
  function Formatted(stamps: seq<Bytes>, service: Bytes, payload: Bytes): Bytes {
    if payload == [] then [] else
      var front := payload[..|payload| - 1];
      Formatted(stamps, service, front)
      + (if AtLineStart(front) then Prefix(StampAt(stamps, LineCount(front)), service) else [])
      + [payload[|payload| - 1]]
  }

  /** Part of one line: a newline can only be its last byte. */
  predicate WithinLine(s: Bytes) {
    s != [] && forall i :: 0 <= i < |s| - 1 ==> s[i] != NEWLINE
  }

  lemma {:induction false} AppendWithinLine(stamps: seq<Bytes>, service: Bytes, payload: Bytes, s: Bytes)
    requires WithinLine(s)
    ensures LineCount(payload + s) == LineCount(payload) + if AtLineStart(payload) then 1 else 0
    ensures Formatted(stamps, service, payload + s) == Formatted(stamps, service, payload)
              + (if AtLineStart(payload) then Prefix(StampAt(stamps, LineCount(payload)), service) else []) + s
  {
    var front := s[..|s| - 1];
    assert (payload + s)[..|payload + s| - 1] == payload + front;
    if front == [] {
      assert payload + front == payload;
    } else {
      AppendWithinLine(stamps, service, payload, front);
      assert !AtLineStart(payload + front);
      assert s == front + [s[|s| - 1]];
    }
  }

  lemma {:induction false} MoreStamps(stamps: seq<Bytes>, more: seq<Bytes>, service: Bytes, payload: Bytes)
    requires stamps <= more && LineCount(payload) <= |stamps|
    ensures Formatted(more, service, payload) == Formatted(stamps, service, payload)
  {
    if payload != [] {
      MoreStamps(stamps, more, service, payload[..|payload| - 1]);
    }
  }

  // ---------- The code ----------

  /** A destination that takes all it is given. */
  class Destination {
    var taken: Bytes

    constructor ()
      ensures taken == []
    {
      taken := [];
    }

    method Write(p: Bytes) returns (n: nat)
      modifies this
      ensures n == |p| && taken == old(taken) + p
    {
      taken := taken + p;
      n := |p|;
    }
  }

  class Formatter {
    const serviceName: Bytes
    const dest: Destination
    var writeTimestamp: bool
    var timestamp: Bytes
    /** Everything written so far, and the timestamps drawn for its lines. */
    ghost var payload: Bytes
    ghost var stamps: seq<Bytes>

    /** The output depends on the payload and the timestamps alone. */
    ghost predicate Valid()
      reads this, dest
    {
      && timestamp == []
      && |stamps| == LineCount(payload)
      && writeTimestamp == AtLineStart(payload)
      && dest.taken == Formatted(stamps, serviceName, payload)
    }

    constructor (dest: Destination, serviceName: Bytes)
      requires dest.taken == []
      ensures Valid() && this.dest == dest && this.serviceName == serviceName && payload == [] && stamps == []
    {
      this.dest, this.serviceName := dest, serviceName;
      writeTimestamp, timestamp := true, [];
      payload, stamps := [], [];
    }

    /** Writes `p`; `clock` yields the timestamps of lines that begin. */
    method Write(p: Bytes, clock: nat -> Bytes) returns (written: nat)
      requires Valid()
      modifies this, dest
      ensures Valid() && written == |p| && payload == old(payload) + p
      ensures old(stamps) <= stamps
    {
      hide Formatted, WithinLine, LineCount, AtLineStart;
      written := 0;
      while written < |p|
        invariant 0 <= written <= |p|
        invariant Valid() && payload == old(payload) + p[..written]
        invariant old(stamps) <= stamps
      {
        var length := LineLength(p, written);
        var line := p[written..written + length];
        assert p[..written + length] == p[..written] + line;
        WritePart(line, clock(|p| - written));
        written := written + length;
      }
      assert p[..written] == p;
    }

    /** Writes part of one line, behind a prefix if it is the first. */
    method WritePart(line: Bytes, now: Bytes)
      requires Valid() && WithinLine(line)
      modifies this, dest
      ensures Valid() && payload == old(payload) + line
      ensures stamps == if AtLineStart(old(payload)) then old(stamps) + [now] else old(stamps)
    {
      AppendWithinLine(if AtLineStart(payload) then stamps + [now] else stamps, serviceName, payload, line);
      MoreStamps(stamps, stamps + [now], serviceName, payload);
      if writeTimestamp {
        writeTimestamp := false;
        timestamp := Prefix(now, serviceName);
        stamps := stamps + [now];
      }
      if |timestamp| > 0 {
        var n := dest.Write(timestamp);
        timestamp := timestamp[n..];
      }
      if line[|line| - 1] == NEWLINE {
        writeTimestamp := true;
      }
      var _ := dest.Write(line);
      payload := payload + line;
    }

    /** The number of bytes up to and including the next newline. */
    static method LineLength(p: Bytes, from: nat) returns (length: nat)
      requires from < |p|
      ensures 0 < length && from + length <= |p| && WithinLine(p[from..from + length])
      ensures p[from + length - 1] == NEWLINE || from + length == |p|
    {
      length := 0;
      while from + length < |p|
        invariant from + length <= |p|
        invariant forall i :: from <= i < from + length ==> p[i] != NEWLINE
      {
        length := length + 1;
        if p[from + length - 1] == NEWLINE {
          break;
        }
      }
    }
  }
}
