/** Splitting, joining and number syntax, as in Go's strings and strconv packages. */
module Text {
  import opened Options

  // ---------- Splitting and joining at one character ----------

  /** The position of the first `c`, or the length if there is none. */
  function Find(s: string, c: char): (i: nat)
    ensures i <= |s| && (forall j :: 0 <= j < i ==> s[j] != c) && (i < |s| ==> s[i] == c)
    ensures i == |s| <==> c !in s
  {
    if s == "" || s[0] == c then 0 else 1 + Find(s[1..], c)
  }

  lemma FindIs(a: string, c: char, b: string)
    requires c !in a
    ensures Find(a + [c] + b, c) == |a|
  {
    var s := a + [c] + b;
    assert s[|a|] == c && forall j :: 0 <= j < |a| ==> s[j] == a[j];
  }

  function Split(s: string, c: char): (parts: seq<string>)
    ensures parts != []
    decreases |s|
  {
    var i := Find(s, c);
    if i == |s| then [s] else [s[..i]] + Split(s[i + 1..], c)
  }

  function Join(parts: seq<string>, c: char): string {
    if parts == [] then "" else if |parts| == 1 then parts[0] else parts[0] + [c] + Join(parts[1..], c)
  }

  predicate AllFree(parts: seq<string>, c: char) {
    forall i :: 0 <= i < |parts| ==> c !in parts[i]
  }

  lemma {:induction false} SplitIsFree(s: string, c: char)
    ensures AllFree(Split(s, c), c)
    decreases |s|
  {
    var i := Find(s, c);
    if i < |s| {
      SplitIsFree(s[i + 1..], c);
    }
  }

  lemma SplitOne(a: string, c: char)
    requires c !in a
    ensures Split(a, c) == [a]
  {
  }

  lemma SplitMore(a: string, c: char, b: string)
    requires c !in a
    ensures Split(a + [c] + b, c) == [a] + Split(b, c)
  {
    FindIs(a, c, b);
    var s := a + [c] + b;
    assert s[..|a|] == a && s[|a| + 1..] == b;
  }

  /** Splitting undoes joining exactly when no part holds the separator. */
  lemma {:induction false} SplitOfJoin(parts: seq<string>, c: char)
    requires parts != []
    ensures Split(Join(parts, c), c) == parts <==> AllFree(parts, c)
  {
    if AllFree(parts, c) {
      SplitOfFree(parts, c);
    }
    SplitIsFree(Join(parts, c), c);
  }

  lemma {:induction false} SplitOfFree(parts: seq<string>, c: char)
    requires parts != [] && AllFree(parts, c)
    ensures Split(Join(parts, c), c) == parts
  {
    if |parts| == 1 {
      SplitOne(parts[0], c);
    } else {
      SplitOfFree(parts[1..], c);
      SplitMore(parts[0], c, Join(parts[1..], c));
    }
  }

  /** Joining undoes splitting. */
  lemma {:induction false} JoinOfSplit(s: string, c: char)
    ensures Join(Split(s, c), c) == s
    decreases |s|
  {
    var i := Find(s, c);
    if i < |s| {
      var rest := s[i + 1..];
      JoinOfSplit(rest, c);
      assert Split(s, c)[1..] == Split(rest, c);
      hide Split;
      assert s == s[..i] + [c] + rest;
    }
  }

  // ---------- Numbers ----------

  predicate IsDigit(c: char) {
    '0' <= c <= '9'
  }

  function DigitOf(n: int): (c: char)
    requires 0 <= n < 10
    ensures IsDigit(c) && ValueOf(c) == n
  {
    '0' + n as char
  }

  function ValueOf(c: char): (v: int)
    requires IsDigit(c)
    ensures 0 <= v < 10
  {
    c as int - '0' as int
  }

  function Digits(n: nat): (s: string)
    ensures s != "" && forall c :: c in s ==> IsDigit(c)
  {
    if n < 10 then [DigitOf(n)] else Digits(n / 10) + [DigitOf(n % 10)]
  }

  predicate AllDigits(s: string) {
    s != "" && forall i :: 0 <= i < |s| ==> IsDigit(s[i])
  }

  function Value(s: string): nat
    requires forall i :: 0 <= i < |s| ==> IsDigit(s[i])
  {
    if s == "" then 0 else 10 * Value(s[..|s| - 1]) + ValueOf(s[|s| - 1])
  }

  lemma {:induction false} ValueOfDigits(n: nat)
    ensures Value(Digits(n)) == n
  {
    if n < 10 {
      assert Digits(n)[..0] == "";
    } else {
      ValueOfDigits(n / 10);
      assert Digits(n)[..|Digits(n)| - 1] == Digits(n / 10);
    }
  }

  /** A number without sign, below `bound`. */
  function ParseUint(s: string, bound: nat): Option<nat> {
    if AllDigits(s) && Value(s) < bound then Some(Value(s)) else None
  }

  function Itoa(n: int): string {
    if n < 0 then "-" + Digits(-n) else Digits(n)
  }

  const INT64_BOUND: int := 0x8000_0000_0000_0000

  /** A number with an optional sign, of 64 bits. */
  function Atoi(s: string): Option<int> {
    if s != "" && (s[0] == '-' || s[0] == '+') then
      if !AllDigits(s[1..]) then None
      else if s[0] == '-' then if Value(s[1..]) <= INT64_BOUND then Some(0 - Value(s[1..])) else None
      else if Value(s[1..]) < INT64_BOUND then Some(Value(s[1..])) else None
    else if AllDigits(s) && Value(s) < INT64_BOUND then Some(Value(s)) else None
  }

  lemma DigitsAreDigits(n: nat)
    ensures AllDigits(Digits(n)) && Digits(n)[0] != '-' && Digits(n)[0] != '+'
  {
    hide Digits;
    assert Digits(n)[0] in Digits(n);
  }

  lemma AtoiOfItoa(n: int)
    requires 0 - INT64_BOUND <= n < INT64_BOUND
    ensures Atoi(Itoa(n)) == Some(n)
  {
    var d := if n < 0 then -n else n;
    ValueOfDigits(d);
    DigitsAreDigits(d);
    hide Digits, Value;
    if n < 0 {
      assert Itoa(n)[1..] == Digits(d);
    }
  }

  /** Digits, with or without a sign, of a number of 64 bits. */
  lemma AtoiMeans(s: string, n: int)
    ensures Atoi(s) == Some(n) <==>
            && 0 - INT64_BOUND <= n < INT64_BOUND
            && exists d :: AllDigits(d) && (((s == d || s == ['+'] + d) && n == Value(d))
                                            || (s == ['-'] + d && n == 0 - Value(d)))
  {
    hide Value;
    if Atoi(s) == Some(n) {
      var d := if AllDigits(s) then s else s[1..];
      assert s == d || s == [s[0]] + d;
    }
    forall d | AllDigits(d)
      ensures ['+'] + d != d && ['-'] + d != d
      ensures (['+'] + d)[1..] == d && (['-'] + d)[1..] == d
    {
    }
  }

  lemma ItoaPlain(n: int, c: char)
    requires !IsDigit(c) && c != '-'
    ensures c !in Itoa(n) && Itoa(n) != ""
  {
  }
}
