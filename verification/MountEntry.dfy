/** Lines in the format read by getmntent(3) (internals/osutil/mountentry_linux.go). */
module MountEntries {
  import opened Options
  import opened Text

  // ---------- Escaping ----------

  function EscapeChar(c: char): (s: string)
    ensures s != ""
  {
    if c == ' ' then "\\040"
    else if c == '\t' then "\\011"
    else if c == '\n' then "\\012"
    else if c == '\\' then "\\134"
    else [c]
  }

  function Escape(s: string): string {
    if s == "" then "" else EscapeChar(s[0]) + Escape(s[1..])
  }

  /** The character that an escape sequence at the start of `s` stands for. */
  function Escaped(s: string): Option<char> {
    if |s| < 4 || s[0] != '\\' then None
    else if s[1..4] == "040" then Some(' ')
    else if s[1..4] == "011" then Some('\t')
    else if s[1..4] == "012" then Some('\n')
    else if s[1..4] == "134" then Some('\\')
    else None
  }

  /** Replaces escape sequences from left to right. */
  function Unescape(s: string): string
    decreases |s|
  {
    if s == "" then ""
    else match Escaped(s)
      case Some(c) => [c] + Unescape(s[4..])
      case None => [s[0]] + Unescape(s[1..])
  }

  lemma UnescapeChar(c: char, rest: string)
    ensures Unescape(EscapeChar(c) + rest) == [c] + Unescape(rest)
  {
    var s := EscapeChar(c) + rest;
    assert s[|EscapeChar(c)|..] == rest;
    if |EscapeChar(c)| == 4 {
      assert s[1..4] == EscapeChar(c)[1..];
    }
  }

  /** The escape code can be decoded, whatever the string. */
  lemma {:induction false} UnescapeOfEscape(s: string)
    ensures Unescape(Escape(s)) == s
  {
    if s != "" {
      UnescapeChar(s[0], Escape(s[1..]));
      UnescapeOfEscape(s[1..]);
    }
  }

  predicate Blank(c: char) {
    c == ' ' || c == '\t'
  }

  predicate BlankFree(s: string) {
    ' ' !in s && '\t' !in s
  }

  lemma {:induction false} EscapeIsWord(s: string)
    ensures BlankFree(Escape(s)) && '\n' !in Escape(s)
    ensures Escape(s) == "" <==> s == ""
    ensures s != "" ==> (Escape(s)[0] == '#' <==> s[0] == '#')
  {
    if s != "" {
      EscapeIsWord(s[1..]);
    }
  }

  // ---------- Fields ----------

  /** The stretches between blanks, as FieldsFunc returns them: empty ones are left out. */
  function Fields(s: string): seq<string>
    decreases |s|
  {
    if s == "" then []
    else if Blank(s[0]) then Fields(s[1..])
    else
      var i := WordLength(s);
      [s[..i]] + Fields(s[i..])
  }

  function WordLength(s: string): (i: nat)
    ensures i <= |s| && (forall j :: 0 <= j < i ==> !Blank(s[j])) && (i < |s| ==> Blank(s[i]))
  {
    if s == "" || Blank(s[0]) then 0 else 1 + WordLength(s[1..])
  }

  lemma FieldsWord(w: string, rest: string)
    requires BlankFree(w) && w != "" && (rest != "" ==> Blank(rest[0]))
    ensures Fields(w + rest) == [w] + Fields(rest)
  {
    var s := w + rest;
    assert WordLength(s) == |w|;
    assert s[..|w|] == w && s[|w|..] == rest;
  }

  function NonEmpty(words: seq<string>): seq<string> {
    if words == [] then [] else (if words[0] == "" then [] else [words[0]]) + NonEmpty(words[1..])
  }

  lemma {:induction false} FieldsOfJoin(words: seq<string>)
    requires forall i :: 0 <= i < |words| ==> BlankFree(words[i])
    ensures Fields(Join(words, ' ')) == NonEmpty(words)
  {
    if |words| == 1 {
      assert words[0] + "" == words[0];
      if words[0] != "" {
        FieldsWord(words[0], "");
      }
    } else if |words| > 1 {
      FieldsOfJoin(words[1..]);
      var rest := " " + Join(words[1..], ' ');
      assert Join(words, ' ') == words[0] + rest;
      assert rest[1..] == Join(words[1..], ' ');
      if words[0] == "" {
        assert Join(words, ' ') == rest;
      } else {
        FieldsWord(words[0], rest);
      }
    }
  }

  predicate AllBlank(s: string) {
    forall i :: 0 <= i < |s| ==> s[i] == ' ' || s[i] == '\t'
  }

  /** Words with a gap before each and one after the last. */
  function Spaced(gaps: seq<string>, words: seq<string>): string
    requires |gaps| == |words| + 1
  {
    if words == [] then gaps[0] else gaps[0] + words[0] + Spaced(gaps[1..], words[1..])
  }

  /** Gaps are made of spaces and tabs, and only the first and the last may be empty. Words are not empty. */
  predicate Line(s: string, gaps: seq<string>, words: seq<string>) {
    && |gaps| == |words| + 1 && s == Spaced(gaps, words)
    && (forall i :: 0 <= i < |gaps| ==> AllBlank(gaps[i]))
    && (forall i :: 0 < i < |words| ==> gaps[i] != "")
    && (forall i :: 0 <= i < |words| ==> BlankFree(words[i]) && words[i] != "")
  }

  lemma {:induction false} FieldsAfterGap(gap: string, rest: string)
    requires AllBlank(gap)
    ensures Fields(gap + rest) == Fields(rest)
  {
    if gap == "" {
      assert gap + rest == rest;
    } else {
      assert (gap + rest)[1..] == gap[1..] + rest;
      FieldsAfterGap(gap[1..], rest);
    }
  }

  /** Words with any gaps between them are read back as those words. */
  lemma {:induction false} FieldsOfLine(s: string, gaps: seq<string>, words: seq<string>)
    requires Line(s, gaps, words)
    ensures Fields(s) == words
    decreases |words|
  {
    if words == [] {
      FieldsAfterGap(gaps[0], "");
      assert gaps[0] + "" == gaps[0];
    } else {
      var rest := Spaced(gaps[1..], words[1..]);
      assert s == gaps[0] + (words[0] + rest);
      FieldsAfterGap(gaps[0], words[0] + rest);
      assert rest != "" ==> Blank(rest[0]) by {
        assert |words| > 1 ==> gaps[1] != "" && rest[0] == gaps[1][0];
      }
      FieldsWord(words[0], rest);
      FieldsOfLine(rest, gaps[1..], words[1..]);
    }
  }

  /** Every text is its fields with gaps between them. */
  lemma {:induction false} FieldsSpaced(s: string) returns (gaps: seq<string>)
    ensures Line(s, gaps, Fields(s)) && (s != "" && Blank(s[0]) ==> gaps[0] != "")
    decreases |s|
  {
    if s == "" {
      gaps := [""];
    } else if Blank(s[0]) {
      var more := FieldsSpaced(s[1..]);
      gaps := [[s[0]] + more[0]] + more[1..];
      WiderGap(s[0], s[1..], more, Fields(s));
    } else {
      var i := WordLength(s);
      var more := FieldsSpaced(s[i..]);
      gaps := [""] + more;
      assert gaps[1..] == more && Fields(s)[1..] == Fields(s[i..]);
      assert s == "" + s[..i] + s[i..];
    }
  }

  lemma WiderGap(c: char, s: string, gaps: seq<string>, words: seq<string>)
    requires Line(s, gaps, words) && Blank(c)
    ensures Line([c] + s, [[c] + gaps[0]] + gaps[1..], words)
  {
    var wider := [[c] + gaps[0]] + gaps[1..];
    assert wider[1..] == gaps[1..];
    assert forall i :: 0 < i < |gaps| ==> wider[i] == gaps[i];
    if words != [] {
      assert [c] + (gaps[0] + words[0] + Spaced(gaps[1..], words[1..]))
             == [c] + gaps[0] + words[0] + Spaced(gaps[1..], words[1..]);
    }
  }

  /** Exactly the words of a text, with gaps of spaces and tabs between them, are its fields. */
  lemma FieldsMeans(s: string, words: seq<string>)
    ensures Fields(s) == words <==> exists gaps :: Line(s, gaps, words)
  {
    var found := FieldsSpaced(s);
    forall gaps | Line(s, gaps, words)
      ensures Fields(s) == words
    {
      FieldsOfLine(s, gaps, words);
    }
  }

  /** The fields before the first that starts a comment. */
  function BeforeComment(fields: seq<string>): seq<string> {
    if fields == [] || (fields[0] != "" && fields[0][0] == '#') then [] else [fields[0]] + BeforeComment(fields[1..])
  }

  // ---------- Entries ----------

  datatype MountEntry = MountEntry(name: string, dir: string, kind: string, options: seq<string>,
                                   dumpFrequency: int, checkPassNumber: int)

  datatype Result = Ok(entry: MountEntry) | Err

  function OrNone(s: string): string {
    if s == "" then "none" else Escape(s)
  }

  function OptionsText(options: seq<string>): string {
    if options == [] then "defaults" else Escape(Join(options, ','))
  }

  function Words(e: MountEntry): seq<string> {
    [OrNone(e.name), OrNone(e.dir), OrNone(e.kind), OptionsText(e.options), Itoa(e.dumpFrequency),
     Itoa(e.checkPassNumber)]
  }

  function String(e: MountEntry): string {
    Join(Words(e), ' ')
  }

  /** The entry that fields describe. */
  function FromFields(fields: seq<string>): Result {
    if |fields| < 3 || |fields| > 6 then Err else
      var df := if |fields| > 4 then Atoi(fields[4]) else Some(0);
      var cpn := if |fields| > 5 then Atoi(fields[5]) else Some(0);
      if df.None? || cpn.None? then Err
      else Ok(MountEntry(Unescape(fields[0]), Unescape(fields[1]), Unescape(fields[2]),
                         if |fields| > 3 then Split(Unescape(fields[3]), ',') else [], df.value, cpn.value))
  }

  function Parse(s: string): Result {
    FromFields(BeforeComment(Fields(s)))
  }

  method CutComment(fields: seq<string>) returns (before: seq<string>)
    ensures before == BeforeComment(fields)
  {
    hide BeforeComment;
    before := fields;
    var i := 0;
    while i < |fields|
      invariant 0 <= i <= |fields|
      invariant forall j :: 0 <= j < i ==> !StartsComment(fields[j])
    {
      if fields[i] != "" && fields[i][0] == '#' {
        BeforeCommentIs(fields, i);
        return fields[..i];
      }
      i := i + 1;
    }
    BeforeCommentIs(fields, i);
    assert fields[..i] == fields;
  }

  predicate StartsComment(field: string) {
    field != "" && field[0] == '#'
  }

  lemma {:induction false} BeforeCommentIs(fields: seq<string>, i: nat)
    requires i <= |fields| && (forall j :: 0 <= j < i ==> !StartsComment(fields[j]))
    requires i < |fields| ==> StartsComment(fields[i])
    ensures BeforeComment(fields) == fields[..i]
  {
    if i > 0 {
      BeforeCommentIs(fields[1..], i - 1);
      assert [fields[0]] + fields[1..][..i - 1] == fields[..i];
    }
  }

  method ParseMountEntry(s: string) returns (r: Result)
    ensures r == Parse(s)
  {
    hide Fields, BeforeComment, Unescape, Split, Atoi;
    var fields := CutComment(Fields(s));
    if |fields| < 3 || |fields| > 6 {
      return Err;
    }
    var e := MountEntry(Unescape(fields[0]), Unescape(fields[1]), Unescape(fields[2]), [], 0, 0);
    if |fields| > 3 {
      e := e.(options := Split(Unescape(fields[3]), ','));
    }
    if |fields| > 4 {
      var df := Atoi(fields[4]);
      if df.None? {
        return Err;
      }
      e := e.(dumpFrequency := df.value);
    }
    if |fields| > 5 {
      var cpn := Atoi(fields[5]);
      if cpn.None? {
        return Err;
      }
      e := e.(checkPassNumber := cpn.value);
    }
    return Ok(e);
  }

  // ---------- Printing and parsing back ----------

  /** What Go's int can hold. */
  predicate IntsFit(e: MountEntry) {
    && 0 - INT64_BOUND <= e.dumpFrequency < INT64_BOUND
    && 0 - INT64_BOUND <= e.checkPassNumber < INT64_BOUND
  }

  predicate Word(s: string) {
    s != "" && s[0] != '#'
  }

  /** Nothing of the entry is empty or looks like a comment, and no option holds a comma. */
  predicate Printable(e: MountEntry) {
    && Word(e.name) && Word(e.dir) && Word(e.kind)
    && e.options != [] && Word(Join(e.options, ',')) && AllFree(e.options, ',')
  }

  lemma {:induction false} UnescapePlain(s: string)
    requires '\\' !in s
    ensures Unescape(s) == s
  {
    if s != "" {
      UnescapePlain(s[1..]);
    }
  }

  lemma OrNoneIsWord(s: string)
    ensures BlankFree(OrNone(s)) && OrNone(s) != ""
    ensures Word(s) ==> OrNone(s)[0] != '#' && Unescape(OrNone(s)) == s
    ensures OrNone(s)[0] != '#' && Unescape(OrNone(s)) == s ==> Word(s)
  {
    EscapeIsWord(s);
    UnescapeOfEscape(s);
    UnescapePlain("none");
  }

  lemma ItoaIsWord(n: int)
    ensures BlankFree(Itoa(n)) && Itoa(n) != "" && Itoa(n)[0] != '#' && Unescape(Itoa(n)) ==
            Itoa(n) && Split(Itoa(n), ',') == [Itoa(n)]
  {
    ItoaPlain(n, ' ');
    ItoaPlain(n, '\t');
    ItoaPlain(n, '#');
    ItoaPlain(n, '\\');
    ItoaPlain(n, ',');
    UnescapePlain(Itoa(n));
    SplitOne(Itoa(n), ',');
    assert Itoa(n)[0] in Itoa(n);
  }

  lemma OptionsTextIsWord(options: seq<string>)
    ensures BlankFree(OptionsText(options))
    ensures OptionsText(options) == "" <==> options != [] && Join(options, ',') == ""
    ensures OptionsText(options) != "" && OptionsText(options)[0] != '#' <==> options == [] || Word(Join(options, ','))
    ensures Split(Unescape(OptionsText(options)), ',') == options <==> options != [] && AllFree(options, ',')
  {
    var joined := Join(options, ',');
    EscapeIsWord(joined);
    UnescapeOfEscape(joined);
    if options != [] {
      SplitOfJoin(options, ',');
    }
  }

  lemma FieldsOfString(e: MountEntry)
    ensures var w := Words(e);
            Fields(String(e)) == [w[0], w[1], w[2]] + (if w[3] == "" then [] else [w[3]]) + [w[4], w[5]]
  {
    var w := Words(e);
    OrNoneIsWord(e.name);
    OrNoneIsWord(e.dir);
    OrNoneIsWord(e.kind);
    OptionsTextIsWord(e.options);
    ItoaIsWord(e.dumpFrequency);
    ItoaIsWord(e.checkPassNumber);
    FieldsOfJoin(w);
    NonEmptyOfSix(w[0], w[1], w[2], w[3], w[4], w[5]);
  }

  lemma NonEmptyOfSix(a: string, b: string, c: string, d: string, e: string, f: string)
    requires a != "" && b != "" && c != "" && e != "" && f != ""
    ensures NonEmpty([a, b, c, d, e, f]) == [a, b, c] + (if d == "" then [] else [d]) + [e, f]
  {
    NonEmptyStep(a, [b, c, d, e, f]);
    NonEmptyStep(b, [c, d, e, f]);
    NonEmptyStep(c, [d, e, f]);
    NonEmptyStep(d, [e, f]);
    NonEmptyStep(e, [f]);
    NonEmptyStep(f, []);
  }

  lemma NonEmptyStep(w: string, rest: seq<string>)
    ensures NonEmpty([w] + rest) == (if w == "" then [] else [w]) + NonEmpty(rest)
  {
  }

  lemma {:induction false} BeforeCommentIsPrefix(fields: seq<string>)
    ensures BeforeComment(fields) <= fields
    ensures forall i :: 0 <= i < |BeforeComment(fields)| ==> fields[i] == "" || fields[i][0] != '#'
    ensures |BeforeComment(fields)| < |fields| ==> var f := fields[|BeforeComment(fields)|]; f != "" && f[0] == '#'
  {
    if fields != [] && !(fields[0] != "" && fields[0][0] == '#') {
      BeforeCommentIsPrefix(fields[1..]);
    }
  }

  lemma PrintableRoundTrips(e: MountEntry)
    requires IntsFit(e) && Printable(e)
    ensures Parse(String(e)) == Ok(e)
  {
    hide Fields, Escape, Unescape, Split, Join, Atoi, Itoa, OrNone, OptionsText, BeforeComment, BlankFree, String;
    var w := Words(e);
    FieldsOfString(e);
    OrNoneIsWord(e.name);
    OrNoneIsWord(e.dir);
    OrNoneIsWord(e.kind);
    OptionsTextIsWord(e.options);
    ItoaIsWord(e.dumpFrequency);
    ItoaIsWord(e.checkPassNumber);
    AtoiOfItoa(e.dumpFrequency);
    AtoiOfItoa(e.checkPassNumber);
    assert Fields(String(e)) == w;
    BeforeCommentIs(w, 6);
  }

  lemma RoundTripIsPrintable(e: MountEntry)
    requires Parse(String(e)) == Ok(e)
    ensures Printable(e)
  {
    var w, f := Words(e), Fields(String(e));
    FieldsOfString(e);
    BeforeCommentIsPrefix(f);
    OrNoneIsWord(e.name);
    OrNoneIsWord(e.dir);
    OrNoneIsWord(e.kind);
    OptionsTextIsWord(e.options);
    ItoaIsWord(e.dumpFrequency);
  }

  /** A printed entry is one line, whatever its parts hold. */
  lemma StringIsOneLine(e: MountEntry)
    ensures '\n' !in String(e)
  {
    EscapeIsWord(e.name);
    EscapeIsWord(e.dir);
    EscapeIsWord(e.kind);
    EscapeIsWord(Join(e.options, ','));
    ItoaPlain(e.dumpFrequency, '\n');
    ItoaPlain(e.checkPassNumber, '\n');
    hide Escape, Itoa;
    JoinHolds(Words(e), ' ', '\n');
  }

  lemma {:induction false} JoinHolds(parts: seq<string>, c: char, x: char)
    requires x != c && forall i :: 0 <= i < |parts| ==> x !in parts[i]
    ensures x !in Join(parts, c)
  {
    if |parts| > 1 {
      JoinHolds(parts[1..], c, x);
    }
  }

  /** Printing an entry and parsing it gives it back exactly when it is printable. */
  lemma RoundTrip(e: MountEntry)
    requires IntsFit(e)
    ensures Parse(String(e)) == Ok(e) <==> Printable(e)
  {
    if Printable(e) {
      PrintableRoundTrips(e);
    }
    if Parse(String(e)) == Ok(e) {
      RoundTripIsPrintable(e);
    }
  }

  // ---------- Lines written by hand ----------

  /** A line is judged by the words before its first comment: between three and six, with numbers for the last two. */
  lemma ParseOfLine(s: string, gaps: seq<string>, words: seq<string>, k: nat)
    requires Line(s, gaps, words) && k <= |words| && forall i :: 0 <= i < k ==> words[i][0] != '#'
    requires k < |words| ==> words[k][0] == '#'
    ensures Parse(s) == Err <==>
            k < 3 || k > 6 || (k > 4 && Atoi(words[4]) == None) || (k > 5 && Atoi(words[5]) == None)
    ensures Parse(s).Ok? ==>
              var e := Parse(s).entry;
              && e.name == Unescape(words[0]) && e.dir == Unescape(words[1]) && e.kind == Unescape(words[2])
              && (if k > 3 then Join(e.options, ',') == Unescape(words[3]) && AllFree(e.options, ',')
                  else e.options == [])
              && Some(e.dumpFrequency) == (if k > 4 then Atoi(words[4]) else Some(0))
              && Some(e.checkPassNumber) == (if k > 5 then Atoi(words[5]) else Some(0))
  {
    hide Unescape, Split, Join, Atoi;
    FieldsOfLine(s, gaps, words);
    BeforeCommentIs(words, k);
    if k > 3 {
      SplitIsFree(Unescape(words[3]), ',');
      JoinOfSplit(Unescape(words[3]), ',');
    }
  }
}
