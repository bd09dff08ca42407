/** Parsing formatted logs back into entries (internals/servicelog/parser.go). */
module Parsers {
  import opened Options
  import opened RingBuffers
  import opened Formatters

  /** A parsed log entry. Time 0 stands for Go's zero time. */
  datatype Entry = Entry(time: int, service: Bytes, message: Bytes)

  /** What time.Parse makes of a timestamp. */
  type StampParser = Bytes -> Option<int>

  // ---------- Cutting at spaces and newlines ----------

  /** The position of the first `c`, or the length if there is none. */
  function IndexOf(s: Bytes, c: byte): (i: nat)
    ensures i <= |s| && (forall j :: 0 <= j < i ==> s[j] != c) && (i < |s| ==> s[i] == c)
  {
    if s == [] || s[0] == c then 0 else 1 + IndexOf(s[1..], c)
  }

  lemma IndexIs(s: Bytes, c: byte, i: nat)
    requires i <= |s| && (forall j :: 0 <= j < i ==> s[j] != c) && (i < |s| ==> s[i] == c)
    ensures IndexOf(s, c) == i
  {
  }

  lemma CutAt(a: Bytes, c: byte, b: Bytes)
    requires c !in a
    ensures var s := a + [c] + b; IndexOf(s, c) == |a| && s[..|a|] == a && s[|a| + 1..] == b
  {
    IndexIs(a + [c] + b, c, |a|);
  }

  /** Parses "<stamp> [<service>] <message>". */
  function Parse(line: Bytes, stamps: StampParser): Option<Entry> {
    var i := IndexOf(line, SPACE);
    if i == |line| then None else
    var rest := line[i + 1..];
    var j := IndexOf(rest, SPACE);
    if j == |rest| then None else
    var field := rest[..j];
    var time := stamps(line[..i]);
    if time.None? then None
    else if |field| < 3 || field[0] != OPEN || field[|field| - 1] != CLOSE then None
    else Some(Entry(time.value, field[1..|field| - 1], rest[j + 1..]))
  }

  /** A service name that can be told apart in a line. */
  predicate Plain(s: Bytes) {
    s != [] && SPACE !in s && NEWLINE !in s
  }

  lemma ParsePrefixed(stamp: Bytes, service: Bytes, message: Bytes, stamps: StampParser)
    requires SPACE !in stamp && service != [] && SPACE !in service
    ensures Parse(Prefix(stamp, service) + message, stamps) ==
            match stamps(stamp) case None => None case Some(t) => Some(Entry(t, service, message))
  {
    hide Prefix, IndexOf;
    var field := [OPEN] + service + [CLOSE];
    var rest := field + [SPACE] + message;
    PrefixParts(stamp, service, message);
    FieldOf(service);
    CutAt(stamp, SPACE, rest);
    CutAt(field, SPACE, message);
  }

  lemma FieldOf(service: Bytes)
    requires service != [] && SPACE !in service
    ensures var field := [OPEN] + service + [CLOSE];
            && SPACE !in field && |field| >= 3 && field[0] == OPEN && field[|field| - 1] == CLOSE
            && field[1..|field| - 1] == service
  {
  }

  lemma PrefixParts(stamp: Bytes, service: Bytes, message: Bytes)
    ensures stamp + [SPACE] + ([OPEN] + service + [CLOSE] + [SPACE] + message) == Prefix(stamp, service) + message
  {
  }

  lemma Bracketed(field: Bytes)
    requires |field| >= 3 && field[0] == OPEN && field[|field| - 1] == CLOSE && SPACE !in field
    ensures var service := field[1..|field| - 1];
            field == [OPEN] + service + [CLOSE] && service != [] && SPACE !in service
  {
    var service := field[1..|field| - 1];
    assert forall k :: 0 <= k < |service| ==> service[k] == field[k + 1];
  }

  lemma CutOff(s: Bytes, c: byte)
    ensures var i := IndexOf(s, c); c !in s[..i] && (i < |s| ==> s == s[..i] + [c] + s[i + 1..])
  {
  }

  lemma ParsedParts(line: Bytes, stamps: StampParser) returns (stamp: Bytes, field: Bytes)
    requires Parse(line, stamps).Some?
    ensures var e := Parse(line, stamps).value;
            && SPACE !in stamp && SPACE !in field && stamps(stamp) == Some(e.time)
            && |field| >= 3 && field[0] == OPEN && field[|field| - 1] == CLOSE && e.service == field[1..|field| - 1]
            && line == stamp + [SPACE] + (field + [SPACE] + e.message)
  {
    hide IndexOf;
    var i := IndexOf(line, SPACE);
    var rest := line[i + 1..];
    CutOff(line, SPACE);
    CutOff(rest, SPACE);
    stamp, field := line[..i], rest[..IndexOf(rest, SPACE)];
  }

  /** Exactly the prefixed lines parse: the timestamp and the service have no spaces, and the service is not empty. */
  lemma ParseMeans(line: Bytes, e: Entry, stamps: StampParser)
    ensures Parse(line, stamps) == Some(e) <==>
            exists stamp: Bytes :: SPACE !in stamp && stamps(stamp) == Some(e.time) && e.service != []
              && SPACE !in e.service && line == Prefix(stamp, e.service) + e.message
  {
    hide Parse, Prefix;
    if Parse(line, stamps) == Some(e) {
      var stamp, field := ParsedParts(line, stamps);
      Bracketed(field);
      PrefixParts(stamp, e.service, e.message);
    }
    forall stamp: Bytes | SPACE !in stamp && stamps(stamp) == Some(e.time) && e.service != []
                          && SPACE !in e.service && line == Prefix(stamp, e.service) + e.message
      ensures Parse(line, stamps) == Some(e)
    {
      ParsePrefixed(stamp, e.service, e.message, stamps);
    }
  }

  // ---------- Reading lines ----------

  /** bufio's ReadSlice with a buffer of `size` bytes: what it returns of `input`, and how it ended. */
  function SliceLength(input: Bytes, size: nat): (n: nat)
    ensures n <= |input| && n <= size
    ensures forall i :: 0 <= i < n - 1 ==> input[i] != NEWLINE
    ensures n == |input| || n == size || (n > 0 && input[n - 1] == NEWLINE)
  {
    var i := IndexOf(input, NEWLINE);
    if i < |input| && i < size then i + 1
    else if |input| >= size then size
    else |input|
  }

  function SliceEnd(input: Bytes, size: nat): Error {
    var i := IndexOf(input, NEWLINE);
    if i < |input| && i < size then NoError
    else if |input| >= size then BufferFull
    else EOF
  }

  // ---------- Parser.Next as a function ----------

  /** What Next returns, the entry it leaves behind, and the input it has not read. */
  datatype Step = Step(ok: bool, entry: Entry, input: Bytes)

  function NextStep(stamps: StampParser, size: nat, entry: Entry, input: Bytes): (s: Step)
    requires size > 0
    ensures s.ok ==> |s.input| < |input|
    decreases |input|
  {
    var n := SliceLength(input, size);
    if n == 0 then Step(false, entry, input) else
    var line, rest := input[..n], input[n..];
    var parsed := Parse(line, stamps);
    if parsed.Some? then Step(parsed.value.message != [], parsed.value, rest)
    else if entry.time != 0 then Step(true, entry.(message := line), rest)
    else if SliceEnd(input, size) == EOF then Step(false, entry, rest)
    else NextStep(stamps, size, entry, rest)
  }

  class Parser {
    const stamps: StampParser
    const size: nat
    /** The bytes the reader has yet to deliver. */
    var input: Bytes
    var entry: Entry

    constructor (input: Bytes, size: nat, stamps: StampParser)
      ensures this.input == input && this.size == size && this.stamps == stamps && entry == Entry(0, [], [])
    {
      this.input, this.size, this.stamps, entry := input, size, stamps, Entry(0, [], []);
    }

    method ReadSlice() returns (line: Bytes, err: Error)
      modifies this`input
      ensures line == old(input)[..SliceLength(old(input), size)] && err == SliceEnd(old(input), size)
      ensures input == old(input)[SliceLength(old(input), size)..]
    {
      var n := SliceLength(input, size);
      line, err := input[..n], SliceEnd(input, size);
      input := input[n..];
    }

    /** Reads on to the next log, if there is one. */
    method Next() returns (ok: bool)
      requires size > 0
      modifies this
      ensures Step(ok, entry, input) == NextStep(stamps, size, old(entry), old(input))
      ensures var n := SliceLength(old(input), size);
              var line, rest := old(input)[..n], old(input)[n..];
              && (line == [] ==> !ok && entry == old(entry) && input == old(input))
              && (line != [] && Parse(line, stamps).Some? ==>
                    Some(entry) == Parse(line, stamps) && ok == (entry.message != []) && input == rest)
              && (line != [] && Parse(line, stamps).None? && old(entry).time != 0 ==>
                    ok && entry == Entry(old(entry).time, old(entry).service, line) && input == rest)
              && (line != [] && Parse(line, stamps).None? && old(entry).time == 0 ==>
                    Step(ok, entry, input) == NextStep(stamps, size, old(entry), rest))
    {
      var eof := false;
      while !eof
        invariant !eof ==>
              entry == old(entry)
                && NextStep(stamps, size, entry, input) == NextStep(stamps, size, old(entry), old(input))
        invariant eof ==> Step(false, entry, input) == NextStep(stamps, size, old(entry), old(input))
        decreases !eof, |input|
      {
        var line, err := ReadSlice();
        if |line| == 0 {
          return false;
        }
        eof := err == EOF;
        var parsed := Parse(line, stamps);
        if parsed.Some? {
          entry := parsed.value;
          if entry.message == [] {
            return false;
          }
          return true;
        }
        if entry.time != 0 {
          entry := entry.(message := line);
          return true;
        }
      }
      return false;
    }
  }

  /** The entries of repeated calls of Next, until it says no. */
  function Drain(stamps: StampParser, size: nat, entry: Entry, input: Bytes): seq<Entry>
    requires size > 0
    decreases |input|
  {
    var s := NextStep(stamps, size, entry, input);
    if !s.ok then [] else [s.entry] + Drain(stamps, size, s.entry, s.input)
  }

  // ---------- Parsing what was formatted ----------

  /** The first line of a payload, with its newline if it has one. */
  function FirstLine(payload: Bytes): (line: Bytes)
    ensures line <= payload && (payload != [] ==> WithinLine(line))
    ensures line == payload || (line != [] && line[|line| - 1] == NEWLINE)
  {
    var i := IndexOf(payload, NEWLINE);
    if i == |payload| then payload else payload[..i + 1]
  }

  /** How much of a line fits the buffer behind its prefix. */
  function FirstPart(stamp: Bytes, service: Bytes, line: Bytes, size: nat): (n: nat)
    ensures n <= |line|
  {
    var room := size - |Prefix(stamp, service)|;
    if room < 0 then 0 else Min(room, |line|)
  }

  /** The entries of what follows in a line, a buffer at a time. */
  function Continued(time: int, service: Bytes, s: Bytes, size: nat): (entries: seq<Entry>)
    requires size > 0
    decreases |s|
  {
    if s == [] then [] else
      var n := Min(size, |s|);
      [Entry(time, service, s[..n])] + Continued(time, service, s[n..], size)
  }

  /** The entries a payload stands for: one a line, and more for lines that do not fit the buffer. */
  function Expected(stamps: seq<Bytes>, service: Bytes, payload: Bytes, parse: StampParser, size: nat):
      (entries: seq<Entry>)
    requires size > 0
    decreases |payload|
  {
    if payload == [] || stamps == [] then [] else
      var line := FirstLine(payload);
      var n := FirstPart(stamps[0], service, line, size);
      var time := match parse(stamps[0]) case None => 0 case Some(t) => t;
      [Entry(time, service, line[..n])] + Continued(time, service, line[n..], size)
      + Expected(stamps[1..], service, payload[|line|..], parse, size)
  }

  function Messages(entries: seq<Entry>): Bytes {
    if entries == [] then [] else entries[0].message + Messages(entries[1..])
  }

  /** Timestamps that parse, with prefixes that leave room in the buffer. */
  ghost predicate Headed(stamps: seq<Bytes>, service: Bytes, payload: Bytes, parse: StampParser, size: nat)
    decreases |payload|
  {
    payload != [] ==>
      && stamps != []
      && SPACE !in stamps[0] && NEWLINE !in stamps[0] && parse(stamps[0]).Some?
      && |Prefix(stamps[0], service)| < size
      && Headed(stamps[1..], service, payload[|FirstLine(payload)|..], parse, size)
  }

  /** No piece of the rest of a line looks like an entry. */
  ghost predicate Unlike(s: Bytes, parse: StampParser, size: nat)
    requires size > 0
    decreases |s|
  {
    s != [] ==>
      var n := Min(size, |s|);
      Parse(s[..n], parse).None? && Unlike(s[n..], parse, size)
  }

  /** What is left of a line is read as continuing an entry of that time. */
  ghost predicate Continues(time: int, s: Bytes, parse: StampParser, size: nat)
    requires size > 0
  {
    s != [] ==> time != 0 && Unlike(s, parse, size)
  }

  /** Lines that fit the buffer with their prefix, or that continue. */
  ghost predicate Readable(stamps: seq<Bytes>, service: Bytes, payload: Bytes, parse: StampParser, size: nat)
    requires size > 0
    decreases |payload|
  {
    payload != [] && stamps != [] && parse(stamps[0]).Some? ==>
      var line := FirstLine(payload);
      && Continues(parse(stamps[0]).value, line[FirstPart(stamps[0], service, line, size)..], parse, size)
      && Readable(stamps[1..], service, payload[|line|..], parse, size)
  }

  /** All lines fit the buffer with their prefix. */
  ghost predicate AllFit(stamps: seq<Bytes>, service: Bytes, payload: Bytes, size: nat)
    decreases |payload|
  {
    payload != [] && stamps != [] ==>
      && |Prefix(stamps[0], service)| + |FirstLine(payload)| <= size
      && AllFit(stamps[1..], service, payload[|FirstLine(payload)|..], size)
  }

  lemma NoLines(stamps: seq<Bytes>, service: Bytes)
    ensures LineCount([]) == 0 && Formatted(stamps, service, []) == []
  {
  }

  lemma OneLine(stamps: seq<Bytes>, service: Bytes, line: Bytes)
    requires WithinLine(line) && stamps != []
    ensures LineCount(line) == 1 && LineCount([]) == 0
    ensures Formatted(stamps, service, line) == Prefix(stamps[0], service) + line + Formatted(stamps[1..], service, [])
  {
    NoLines(stamps, service);
    NoLines(stamps[1..], service);
    hide Formatted, LineCount, Prefix, WithinLine;
    AppendWithinLine(stamps, service, [], line);
    assert [] + line == line;
    var prefix := Prefix(stamps[0], service);
    assert [] + prefix == prefix && prefix + line + [] == prefix + line;
  }

  lemma {:induction false} FormattedSplits(stamps: seq<Bytes>, service: Bytes, line: Bytes, rest: Bytes)
    requires WithinLine(line) && stamps != []
    requires rest == [] || line[|line| - 1] == NEWLINE
    ensures LineCount(line + rest) == 1 + LineCount(rest)
    ensures Formatted(stamps, service, line + rest) ==
            Prefix(stamps[0], service) + line + Formatted(stamps[1..], service, rest)
  {
    if rest == [] {
      OneLine(stamps, service, line);
      assert line + rest == line;
    } else {
      var front, last := rest[..|rest| - 1], rest[|rest| - 1];
      assert line + rest == (line + front) + [last] && rest == front + [last];
      hide Prefix, Formatted, LineCount, AtLineStart;
      FormattedSplits(stamps, service, line, front);
      SplitOneMore(stamps, service, line, front, last);
    }
  }

  /** The first line of a payload, and the rest. */
  lemma FirstLineSplits(stamps: seq<Bytes>, service: Bytes, payload: Bytes)
    requires payload != [] && stamps != []
    ensures var line := FirstLine(payload);
            var rest := payload[|line|..];
            && WithinLine(line) && (rest == [] || line[|line| - 1] == NEWLINE)
            && LineCount(payload) == 1 + LineCount(rest)
            && Formatted(stamps, service, payload) ==
               Prefix(stamps[0], service) + line + Formatted(stamps[1..], service, rest)
            && (rest == [] ==> Formatted(stamps[1..], service, rest) == [])
  {
    var line := FirstLine(payload);
    var rest := payload[|line|..];
    assert payload == line + rest;
    NoLines(stamps[1..], service);
    hide Prefix, Formatted, LineCount, WithinLine;
    FormattedSplits(stamps, service, line, rest);
  }

  lemma SameLineStart(line: Bytes, front: Bytes)
    requires WithinLine(line) && (front == [] ==> line[|line| - 1] == NEWLINE)
    ensures AtLineStart(line + front) == AtLineStart(front)
  {
  }

  lemma SplitOneMore(stamps: seq<Bytes>, service: Bytes, line: Bytes, front: Bytes, last: byte)
    requires WithinLine(line) && stamps != [] && line[|line| - 1] == NEWLINE
    requires LineCount(line + front) == 1 + LineCount(front)
    requires Formatted(stamps, service, line + front) ==
            Prefix(stamps[0], service) + line + Formatted(stamps[1..], service, front)
    ensures LineCount(line + front + [last]) == 1 + LineCount(front + [last])
    ensures Formatted(stamps, service, line + front + [last])
            == Prefix(stamps[0], service) + line + Formatted(stamps[1..], service, front + [last])
  {
    hide Prefix, Formatted, LineCount, AtLineStart;
    AppendWithinLine(stamps, service, line + front, [last]);
    AppendWithinLine(stamps[1..], service, front, [last]);
    SameLineStart(line, front);
    assert StampAt(stamps, 1 + LineCount(front)) == StampAt(stamps[1..], LineCount(front));
    var head := if AtLineStart(front) then Prefix(StampAt(stamps[1..], LineCount(front)), service) else [];
    Regroup(Prefix(stamps[0], service) + line, Formatted(stamps[1..], service, front), head, [last]);
  }

  lemma Regroup(a: Bytes, b: Bytes, c: Bytes, d: Bytes)
    ensures a + b + c + d == a + (b + c + d)
  {
  }

  /** Of part of a line ReadSlice returns what fits the buffer. */
  lemma SliceOfPart(s: Bytes, rest: Bytes, size: nat)
    requires WithinLine(s) && (rest == [] || s[|s| - 1] == NEWLINE)
    ensures SliceLength(s + rest, size) == Min(size, |s|)
  {
    var input := s + rest;
    if s[|s| - 1] == NEWLINE {
      IndexIs(input, NEWLINE, |s| - 1);
    } else {
      assert input == s;
      IndexIs(input, NEWLINE, |s|);
    }
  }

  lemma CutInside(a: Bytes, b: Bytes, c: Bytes, n: nat)
    requires n <= |b|
    ensures (a + b + c)[..|a| + n] == a + b[..n] && (a + b + c)[|a| + n..] == b[n..] + c
  {
  }

  /** The beginning of a line, behind its prefix. */
  lemma NextOfLine(stamp: Bytes, service: Bytes, line: Bytes, rest: Bytes, parse: StampParser, size: nat, entry: Entry)
    requires SPACE !in stamp && NEWLINE !in stamp && Plain(service) && parse(stamp).Some?
    requires WithinLine(line) && |Prefix(stamp, service)| < size
    requires rest == [] || line[|line| - 1] == NEWLINE
    ensures var n := FirstPart(stamp, service, line, size);
            NextStep(parse, size, entry, Prefix(stamp, service) + line + rest) ==
            Step(true, Entry(parse(stamp).value, service, line[..n]), line[n..] + rest)
  {
    var prefix, n := Prefix(stamp, service), FirstPart(stamp, service, line, size);
    assert NEWLINE !in prefix;
    hide Prefix, NextStep, Parse, SliceLength;
    SliceOfPart(prefix + line, rest, size);
    ParsePrefixed(stamp, service, line[..n], parse);
    CutInside(prefix, line, rest, n);
    NextParsed(parse, size, entry, prefix + line + rest);
  }

  lemma NextParsed(parse: StampParser, size: nat, entry: Entry, input: Bytes)
    requires size > 0 && input != [] && Parse(input[..SliceLength(input, size)], parse).Some?
    ensures var n := SliceLength(input, size);
            var e := Parse(input[..n], parse).value;
            NextStep(parse, size, entry, input) == Step(e.message != [], e, input[n..])
  {
  }

  /** What is left of a line. */
  lemma NextOfPart(s: Bytes, rest: Bytes, parse: StampParser, size: nat, entry: Entry)
    requires size > 0 && s != [] && LeftOver(s, rest == [])
    ensures var n := Min(size, |s|);
            NextStep(parse, size, entry, s + rest) ==
            match Parse(s[..n], parse)
            case Some(e) => Step(e.message != [], e, s[n..] + rest)
            case None => if entry.time != 0 then Step(true, entry.(message := s[..n]), s[n..] + rest)
                         else NextStep(parse, size, entry, s[n..] + rest)
  {
    var n := Min(size, |s|);
    SliceOfPart(s, rest, size);
    assert (s + rest)[..n] == s[..n] && (s + rest)[n..] == s[n..] + rest;
  }

  /** What is left, if anything: of a line, with its end, or of the last line. */
  ghost predicate LeftOver(s: Bytes, last: bool) {
    s != [] ==> WithinLine(s) && (last || s[|s| - 1] == NEWLINE)
  }

  lemma PartLeft(s: Bytes, n: nat, last: bool)
    requires LeftOver(s, last) && n <= |s|
    ensures LeftOver(s[n..], last)
  {
  }

  lemma DrainOfStep(parse: StampParser, size: nat, entry: Entry, input: Bytes)
    requires size > 0
    ensures var s := NextStep(parse, size, entry, input);
            Drain(parse, size, entry, input) ==
            if s.ok then [s.entry] + Drain(parse, size, s.entry, s.input) else []
  {
    hide NextStep;
  }

  lemma ContinuesOn(entry: Entry, s: Bytes, parse: StampParser, size: nat)
    requires size > 0 && s != []
    ensures var n := Min(size, |s|);
            && Continued(entry.time, entry.service, s, size) ==
               [entry.(message := s[..n])] + Continued(entry.time, entry.service, s[n..], size)
            && (Continues(entry.time, s, parse, size) <==>
                entry.time != 0 && Parse(s[..n], parse).None? && Continues(entry.time, s[n..], parse, size))
  {
    hide Parse;
    assert Unlike([], parse, size);
  }

  lemma RegroupEntries(a: seq<Entry>, b: seq<Entry>, c: seq<Entry>)
    ensures a + (b + c) == a + b + c
  {
  }

  lemma DrainOfPart(s: Bytes, rest: Bytes, parse: StampParser, size: nat, entry: Entry)
    returns (last: Entry)
    requires size > 0 && Continues(entry.time, s, parse, size)
    requires LeftOver(s, rest == [])
    ensures Drain(parse, size, entry, s + rest) ==
            Continued(entry.time, entry.service, s, size) + Drain(parse, size, last, rest)
    decreases |s|
  {
    last := entry;
    if s == [] {
      assert s + rest == rest;
    } else {
      hide NextStep, Parse, Drain, Continued, Continues, LeftOver;
      var n := Min(size, |s|);
      DrainOfStep(parse, size, entry, s + rest);
      NextOfPart(s, rest, parse, size, entry);
      ContinuesOn(entry, s, parse, size);
      PartLeft(s, n, rest == []);
      var e := entry.(message := s[..n]);
      last := DrainOfPart(s[n..], rest, parse, size, e);
      RegroupEntries([e], Continued(e.time, e.service, s[n..], size), Drain(parse, size, last, rest));
    }
  }

  lemma DrainOfLine(stamp: Bytes, service: Bytes, line: Bytes, rest: Bytes, parse: StampParser, size: nat, entry: Entry)
    returns (last: Entry)
    requires SPACE !in stamp && NEWLINE !in stamp && Plain(service) && parse(stamp).Some?
    requires WithinLine(line) && |Prefix(stamp, service)| < size
    requires rest == [] || line[|line| - 1] == NEWLINE
    requires Continues(parse(stamp).value, line[FirstPart(stamp, service, line, size)..], parse, size)
    ensures var n, time := FirstPart(stamp, service, line, size), parse(stamp).value;
            Drain(parse, size, entry, Prefix(stamp, service) + line + rest) ==
            [Entry(time, service, line[..n])] + Continued(time, service, line[n..], size)
            + Drain(parse, size, last, rest)
  {
    hide Prefix, NextStep, Continued, Continues;
    var n := FirstPart(stamp, service, line, size);
    NextOfLine(stamp, service, line, rest, parse, size, entry);
    PartLeft(line, n, rest == []);
    var first := Entry(parse(stamp).value, service, line[..n]);
    last := DrainOfPart(line[n..], rest, parse, size, first);
  }

  /** Parsing a formatted payload gives the expected entries, whatever entry the parser starts from. */
  lemma {:induction false} ParseOfFormatted(stamps: seq<Bytes>, service: Bytes, payload: Bytes, parse: StampParser,
                                            size: nat, entry: Entry)
    requires size > 0 && Plain(service)
    requires Headed(stamps, service, payload, parse, size) && Readable(stamps, service, payload, parse, size)
    ensures Drain(parse, size, entry, Formatted(stamps, service, payload))
            == Expected(stamps, service, payload, parse, size)
    decreases |payload|
  {
    if payload != [] {
      var line := FirstLine(payload);
      var rest := payload[|line|..];
      hide Drain, NextStep, Continues, Continued, Formatted;
      FirstLineSplits(stamps, service, payload);
      var tail := Formatted(stamps[1..], service, rest);
      var last := DrainOfLine(stamps[0], service, line, tail, parse, size, entry);
      ParseOfFormatted(stamps[1..], service, rest, parse, size, last);
    } else {
      NoLines(stamps, service);
    }
  }

  lemma {:induction false} MessagesAppend(a: seq<Entry>, b: seq<Entry>)
    ensures Messages(a + b) == Messages(a) + Messages(b)
  {
    if a == [] {
      assert a + b == b;
    } else {
      assert (a + b)[1..] == a[1..] + b;
      MessagesAppend(a[1..], b);
    }
  }

  lemma {:induction false} ContinuedMessages(time: int, service: Bytes, s: Bytes, size: nat)
    requires size > 0
    ensures Messages(Continued(time, service, s, size)) == s
    decreases |s|
  {
    if s != [] {
      var n := Min(size, |s|);
      ContinuedMessages(time, service, s[n..], size);
      assert s == s[..n] + s[n..];
      assert Continued(time, service, s, size)[1..] == Continued(time, service, s[n..], size);
    }
  }

  /** The entries of the first line, and those of the rest. */
  lemma ExpectedSplits(stamps: seq<Bytes>, service: Bytes, payload: Bytes, parse: StampParser, size: nat)
    returns (first: seq<Entry>)
    requires size > 0 && payload != [] && Headed(stamps, service, payload, parse, size)
    ensures var line := FirstLine(payload);
            && Expected(stamps, service, payload, parse, size)
               == first + Expected(stamps[1..], service, payload[|line|..], parse, size)
            && Messages(first) == line && |first| >= 1
            && (|first| == 1 <==> |Prefix(stamps[0], service)| + |line| <= size)
  {
    var line, time := FirstLine(payload), parse(stamps[0]).value;
    var n := FirstPart(stamps[0], service, line, size);
    var e, more := Entry(time, service, line[..n]), Continued(time, service, line[n..], size);
    first := [e] + more;
    assert more == [] <==> n == |line|;
    hide Continued, Headed, FirstLine, Prefix;
    ContinuedMessages(time, service, line[n..], size);
    assert first[1..] == more && line == line[..n] + line[n..];
  }

  /** The messages are the payload, and there are as many entries as lines begun, unless lines do not fit. */
  lemma {:induction false} ExpectedIsPayload(stamps: seq<Bytes>, service: Bytes, payload: Bytes, parse: StampParser,
                                             size: nat)
    requires size > 0 && Headed(stamps, service, payload, parse, size)
    ensures Messages(Expected(stamps, service, payload, parse, size)) == payload
    ensures |Expected(stamps, service, payload, parse, size)| >= LineCount(payload)
    ensures |Expected(stamps, service, payload, parse, size)| == LineCount(payload)
            <==> AllFit(stamps, service, payload, size)
    decreases |payload|
  {
    if payload != [] {
      var line := FirstLine(payload);
      var rest := payload[|line|..];
      assert payload == line + rest;
      hide Expected, LineCount, Formatted, Messages, Prefix;
      FirstLineSplits(stamps, service, payload);
      var first := ExpectedSplits(stamps, service, payload, parse, size);
      ExpectedIsPayload(stamps[1..], service, rest, parse, size);
      MessagesAppend(first, Expected(stamps[1..], service, rest, parse, size));
    }
  }

  // ---------- When a payload survives ----------

  lemma MessagesOfStep(parse: StampParser, size: nat, entry: Entry, input: Bytes)
    requires size > 0
    ensures var s := NextStep(parse, size, entry, input);
            Messages(Drain(parse, size, entry, input)) ==
            if s.ok then s.entry.message + Messages(Drain(parse, size, s.entry, s.input)) else []
  {
    hide NextStep;
  }

  lemma ParsedIsShorter(line: Bytes, parse: StampParser)
    ensures Parse(line, parse).Some? ==> |Parse(line, parse).value.message| < |line|
  {
  }

  /** All of `s` and of the payload after it is delivered. */
  ghost predicate AllRead(s: Bytes, stamps: seq<Bytes>, service: Bytes, rest: Bytes, parse: StampParser, size: nat,
                          entry: Entry)
    requires size > 0
  {
    Continues(entry.time, s, parse, size) && Readable(stamps, service, rest, parse, size)
  }

  /** How much is delivered of the rest of a line and the lines after it. */
  ghost function Amount(s: Bytes, stamps: seq<Bytes>, service: Bytes, rest: Bytes, parse: StampParser, size: nat,
                        entry: Entry): nat
    requires size > 0
  {
    |Messages(Drain(parse, size, entry, s + Formatted(stamps, service, rest)))|
  }

  /** One read of the rest of a line. */
  lemma AmountOfPart(s: Bytes, stamps: seq<Bytes>, service: Bytes, rest: Bytes, parse: StampParser, size: nat,
                     entry: Entry) returns (entry': Entry)
    requires size > 0 && s != [] && LeftOver(s, rest == [])
    ensures var n := Min(size, |s|);
            var m, m' := Amount(s, stamps, service, rest, parse, size, entry),
                         Amount(s[n..], stamps, service, rest, parse, size, entry');
            if Parse(s[..n], parse).None? && entry.time != 0 then m == n + m' && entry'.time == entry.time
            else m < n + m'
  {
    hide NextStep, Formatted, Parse, Drain, Messages;
    var n, tail := Min(size, |s|), Formatted(stamps, service, rest);
    if rest == [] {
      NoLines(stamps, service);
    }
    NextOfPart(s, tail, parse, size, entry);
    MessagesOfStep(parse, size, entry, s + tail);
    ParsedIsShorter(s[..n], parse);
    match Parse(s[..n], parse)
    case Some(e) =>
      entry' := e;
    case None =>
      entry' := entry.(message := s[..n]);
      if entry.time == 0 {
        entry' := entry;
        MessagesOfStep(parse, size, entry, s[n..] + tail);
      }
  }

  /** Of the rest of a line and the lines after it no more is delivered than there is, and less unless all is read. */
  lemma {:induction false} AmountAtMost(s: Bytes, stamps: seq<Bytes>, service: Bytes, rest: Bytes, parse: StampParser,
                                        size: nat, entry: Entry)
    requires size > 0 && Plain(service) && Headed(stamps, service, rest, parse, size)
    requires LeftOver(s, rest == [])
    ensures Amount(s, stamps, service, rest, parse, size, entry) <= |s| + |rest|
    ensures Amount(s, stamps, service, rest, parse, size, entry) == |s| + |rest| ==>
              AllRead(s, stamps, service, rest, parse, size, entry)
    decreases |rest| + |s|
  {
    assert Continues(entry.time, [], parse, size);
    hide NextStep, Formatted, Parse, Drain, Readable, Amount, Continues, LeftOver, Headed;
    if s != [] {
      var n := Min(size, |s|);
      ContinuesOn(entry, s, parse, size);
      var entry' := AmountOfPart(s, stamps, service, rest, parse, size, entry);
      PartLeft(s, n, rest == []);
      AmountAtMost(s[n..], stamps, service, rest, parse, size, entry');
    } else if rest == [] {
      NothingRead(stamps, service, parse, size, entry);
    } else {
      LineByLine(stamps, service, rest, parse, size);
      var line, n := AmountOfLine(stamps, service, rest, parse, size, entry);
      PartLeft(line, n, rest[|line|..] == []);
      AmountAtMost(line[n..], stamps[1..], service, rest[|line|..], parse, size,
                   Entry(parse(stamps[0]).value, service, line[..n]));
    }
  }

  lemma LineByLine(stamps: seq<Bytes>, service: Bytes, payload: Bytes, parse: StampParser, size: nat)
    requires size > 0 && payload != [] && Headed(stamps, service, payload, parse, size)
    ensures stamps != [] && parse(stamps[0]).Some?
    ensures Headed(stamps[1..], service, payload[|FirstLine(payload)|..], parse, size)
    ensures var line := FirstLine(payload);
            var n := FirstPart(stamps[0], service, line, size);
            Readable(stamps, service, payload, parse, size) <==>
            Continues(parse(stamps[0]).value, line[n..], parse, size)
            && Readable(stamps[1..], service, payload[|line|..], parse, size)
  {
    hide Continues;
  }

  lemma NothingRead(stamps: seq<Bytes>, service: Bytes, parse: StampParser, size: nat, entry: Entry)
    requires size > 0
    ensures Amount([], stamps, service, [], parse, size, entry) == 0
    ensures AllRead([], stamps, service, [], parse, size, entry)
  {
    NoLines(stamps, service);
  }

  /** The read of the beginning of a line. */
  lemma AmountOfLine(stamps: seq<Bytes>, service: Bytes, payload: Bytes, parse: StampParser, size: nat, entry: Entry)
    returns (line: Bytes, n: nat)
    requires size > 0 && Plain(service) && payload != [] && Headed(stamps, service, payload, parse, size)
    ensures line == FirstLine(payload) && n == FirstPart(stamps[0], service, line, size) && n > 0
    ensures Amount([], stamps, service, payload, parse, size, entry) ==
            n + Amount(line[n..], stamps[1..], service, payload[|line|..], parse, size,
                       Entry(parse(stamps[0]).value, service, line[..n]))
  {
    line := FirstLine(payload);
    n := FirstPart(stamps[0], service, line, size);
    var rest := payload[|line|..];
    assert parse(stamps[0]).Some?;
    hide NextStep, Formatted, Parse, Drain, Messages, FirstLine, FirstPart, Prefix, Headed, WithinLine, LineCount;
    FirstLineSplits(stamps, service, payload);
    NextOfLine(stamps[0], service, line, Formatted(stamps[1..], service, rest), parse, size, entry);
    MessagesOfStep(parse, size, entry, Formatted(stamps, service, payload));
    NothingBefore(Formatted(stamps, service, payload));
  }

  lemma NothingBefore(s: Bytes)
    ensures [] + s == s
  {
  }

  /** Whatever entry the parser starts from, the messages of a formatted payload make up the payload exactly if each of
      its lines fits the buffer with its prefix or goes on in pieces that do not look like entries, under a time. */
  lemma PayloadRead(stamps: seq<Bytes>, service: Bytes, payload: Bytes, parse: StampParser, size: nat, entry: Entry)
    requires size > 0 && Plain(service) && Headed(stamps, service, payload, parse, size)
    ensures Messages(Drain(parse, size, entry, Formatted(stamps, service, payload))) == payload
            <==> Readable(stamps, service, payload, parse, size)
  {
    hide Readable, Drain, Formatted, Messages, Headed;
    AmountAtMost([], stamps, service, payload, parse, size, entry);
    NothingBefore(Formatted(stamps, service, payload));
    if Readable(stamps, service, payload, parse, size) {
      ParseOfFormatted(stamps, service, payload, parse, size, entry);
      ExpectedIsPayload(stamps, service, payload, parse, size);
    }
  }

  lemma PieceLooksLike(stamp: Bytes, service: Bytes, y: byte, parse: StampParser)
    requires SPACE !in stamp && Plain(service) && parse(stamp).Some?
    ensures var piece := Prefix(stamp, service) + [y]; !Unlike(piece, parse, |piece|)
  {
    var piece := Prefix(stamp, service) + [y];
    ParsePrefixed(stamp, service, [y], parse);
    assert piece[..|piece|] == piece;
  }

  /** A service writes a line that holds its own prefix, to a buffer with room for a prefix and one byte: after the
      first byte of the line comes a piece that looks like an entry, and the payload is not read back. */
  lemma PieceMistaken(stamp: Bytes, service: Bytes, x: byte, y: byte, parse: StampParser, entry: Entry)
    requires SPACE !in stamp && NEWLINE !in stamp && Plain(service) && parse(stamp).Some?
    requires x != NEWLINE && y != NEWLINE
    ensures var size, payload := |Prefix(stamp, service)| + 1, [x] + Prefix(stamp, service) + [y];
            && Headed([stamp], service, payload, parse, size)
            && Messages(Drain(parse, size, entry, Formatted([stamp], service, payload))) != payload
  {
    var piece, size := Prefix(stamp, service) + [y], |Prefix(stamp, service)| + 1;
    var payload := [x] + piece;
    assert [x] + Prefix(stamp, service) + [y] == payload;
    assert NEWLINE !in Prefix(stamp, service);
    hide Prefix, Formatted, Drain, Messages, Parse, NextStep, IndexOf;
    IndexIs(payload, NEWLINE, |payload|);
    assert FirstLine(payload) == payload && payload[|payload|..] == [];
    hide FirstLine;
    PieceLooksLike(stamp, service, y, parse);
    hide Unlike;
    assert payload[1..] == piece;
    assert FirstPart(stamp, service, payload, size) == 1;
    PayloadRead([stamp], service, payload, parse, size, entry);
  }
}
