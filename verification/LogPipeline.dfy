/** From what services write to what is served: formatting, parsing and merging together. */
module LogPipeline {
  import opened Options
  import opened RingBuffers
  import opened Formatters
  import opened Parsers
  import opened LogMerge

  /** What one service wrote, and the timestamps of its lines. */
  datatype Source = Source(service: Bytes, payload: Bytes, stamps: seq<Bytes>)

  /** Timestamps parse to times that do not go back, none of them Go's zero time, with prefixes that fit the parser's
      buffer, and no line that is too long for it goes on like an entry. */
  ghost predicate Sound(src: Source, parse: StampParser, size: nat)
    requires size > 0
  {
    && Plain(src.service)
    && Headed(src.stamps, src.service, src.payload, parse, size)
    && Readable(src.stamps, src.service, src.payload, parse, size)
    && Rising(src.stamps, parse)
  }

  ghost predicate Rising(stamps: seq<Bytes>, parse: StampParser) {
    && (forall i :: 0 <= i < |stamps| ==> parse(stamps[i]).Some? && parse(stamps[i]).value != 0)
    && (forall i, j :: 0 <= i < j < |stamps| ==> parse(stamps[i]).value <= parse(stamps[j]).value)
  }

  /** The entries a parser of the formatted output delivers. */
  function Stream(src: Source, parse: StampParser, size: nat): seq<Parsers.Entry>
    requires size > 0
  {
    Drain(parse, size, NO_ENTRY, Formatted(src.stamps, src.service, src.payload))
  }

  lemma {:induction false} ContinuedEntries(time: int, service: Bytes, s: Bytes, size: nat)
    requires size > 0
    ensures forall e :: e in Continued(time, service, s, size) ==> e.time == time && e.service == service
    decreases |s|
  {
    if s != [] {
      ContinuedEntries(time, service, s[Min(size, |s|)..], size);
    }
  }

  lemma InOrder(a: seq<Parsers.Entry>, b: seq<Parsers.Entry>, time: int)
    requires TimeOrdered(b) && (forall e :: e in a ==> e.time == time) && forall e :: e in b ==> time <= e.time
    ensures TimeOrdered(a + b)
  {
    assert forall i :: 0 <= i < |b| ==> b[i] in b;
    assert forall i :: 0 <= i < |a| ==> a[i] in a;
  }

  lemma {:induction false} ExpectedEntries(stamps: seq<Bytes>, service: Bytes, payload: Bytes, parse: StampParser,
                                           size: nat)
    requires size > 0 && Rising(stamps, parse)
    ensures var es := Expected(stamps, service, payload, parse, size);
            && TimeOrdered(es)
            && forall e :: e in es ==> e.service == service && e.time != 0 && parse(stamps[0]).value <= e.time
    decreases |payload|
  {
    if payload != [] && stamps != [] {
      var line := FirstLine(payload);
      var n, time := FirstPart(stamps[0], service, line, size), parse(stamps[0]).value;
      ExpectedEntries(stamps[1..], service, payload[|line|..], parse, size);
      ContinuedEntries(time, service, line[n..], size);
      InOrder([Parsers.Entry(time, service, line[..n])] + Continued(time, service, line[n..], size),
              Expected(stamps[1..], service, payload[|line|..], parse, size), time);
    }
  }

  /** What a parser delivers of one service is in time order, complete and under the service's name. */
  lemma StreamDelivers(src: Source, parse: StampParser, size: nat)
    requires size > 0 && Sound(src, parse, size)
    ensures var s := Stream(src, parse, size);
            && TimeOrdered(s) && Messages(s) == src.payload && |s| >= LineCount(src.payload)
            && forall i :: 0 <= i < |s| ==> s[i].time != 0 && s[i].service == src.service
  {
    ParseOfFormatted(src.stamps, src.service, src.payload, parse, size, NO_ENTRY);
    ExpectedIsPayload(src.stamps, src.service, src.payload, parse, size);
    ExpectedEntries(src.stamps, src.service, src.payload, parse, size);
  }

  function StreamsOf(sources: seq<Source>, parse: StampParser, size: nat): Streams
    requires size > 0
  {
    seq(|sources|, i requires 0 <= i < |sources| => Stream(sources[i], parse, size))
  }

  /** Whatever services wrote comes out of the merge in time order, and each service's payload can be read off it. */
  lemma PayloadsSurvive(sources: seq<Source>, parse: StampParser, size: nat, i: nat)
    requires size > 0 && i < |sources| && forall k :: 0 <= k < |sources| ==> Sound(sources[k], parse, size)
    ensures var s := StreamsOf(sources, parse, size);
            && Stamped(s) && TimeOrdered(Merge(s))
            && Messages(From(Merge(s), Origins(s), i)) == sources[i].payload
  {
    var s := StreamsOf(sources, parse, size);
    hide Sound, Stream, Merge, Origins;
    forall k | 0 <= k < |sources|
      ensures TimeOrdered(s[k]) && forall j :: 0 <= j < |s[k]| ==> s[k][j].time != 0
    {
      StreamDelivers(sources[k], parse, size);
    }
    MergeOrdered(s);
    MergeKeepsStreams(s, i);
    StreamDelivers(sources[i], parse, size);
  }
}
