/**
 Hash ranges of the block router: the parser, the printer and the matcher of
 storage/router/range.go, and what a range means as a set of keys.
 */
module Ranges {
  import opened Prelude

  /******* Hexadecimal text *******/

  predicate IsHexDigit(c: char) {
    '0' <= c <= '9' || 'a' <= c <= 'f' || 'A' <= c <= 'F'
  }

  predicate AllHex(s: string) {
    forall i :: 0 <= i < |s| ==> IsHexDigit(s[i])
  }

  function DigitValue(c: char): (v: int)
    requires IsHexDigit(c)
    ensures 0 <= v < 16
  {
    if c <= '9' then c as int - '0' as int
    else if c <= 'F' then c as int - 'A' as int + 10
    else c as int - 'a' as int + 10
  }

  function LowerDigit(v: int): (c: char)
    requires 0 <= v < 16
    ensures IsHexDigit(c) && DigitValue(c) == v
  {
    if v < 10 then (v + '0' as int) as char else (v - 10 + 'a' as int) as char
  }

  function LowerChar(c: char): char {
    if 'A' <= c <= 'Z' then (c as int - 'A' as int + 'a' as int) as char else c
  }

  function Lower(s: string): string {
    seq(|s|, i requires 0 <= i < |s| => LowerChar(s[i]))
  }

  // An odd number of digits is completed by a zero at the end, not at the front.
  function Pad(s: string): string {
    if |s| % 2 == 1 then s + "0" else s
  }

  function DecodePairs(s: string): Bytes
    requires AllHex(s) && |s| % 2 == 0
  {
    seq(|s| / 2, i requires 0 <= i < |s| / 2 => 16 * DigitValue(s[2 * i]) + DigitValue(s[2 * i + 1]))
  }

  function HexToBytes(s: string): Bytes
    requires AllHex(s)
  {
    DecodePairs(Pad(s))
  }

  // The %x verb on a byte slice.
  function ToHex(b: Bytes): (s: string)
    ensures AllHex(s) && |s| == 2 * |b|
  {
    seq(2 * |b|, i requires 0 <= i < 2 * |b| =>
      LowerDigit(if i % 2 == 0 then b[i / 2] / 16 else b[i / 2] % 16))
  }

  lemma LowerOfDigit(c: char)
    requires IsHexDigit(c)
    ensures IsHexDigit(LowerChar(c)) && DigitValue(LowerChar(c)) == DigitValue(c)
    ensures LowerDigit(DigitValue(c)) == LowerChar(c)
  {}

  lemma HexAt(b: Bytes, i: nat)
    requires i < |b|
    ensures ToHex(b)[2 * i] == LowerDigit(b[i] / 16) && ToHex(b)[2 * i + 1] == LowerDigit(b[i] % 16)
  {
    assert (2 * i) / 2 == i && (2 * i + 1) / 2 == i && (2 * i + 1) % 2 == 1;
  }

  lemma BytesSurviveHex(b: Bytes)
    ensures HexToBytes(ToHex(b)) == b
  {
    var h := ToHex(b);
    assert |DecodePairs(h)| == |b|;
    forall i | 0 <= i < |b| ensures DecodePairs(h)[i] == b[i] {
      HexAt(b, i);
    }
  }

  lemma PairParts(a: int, b: int)
    requires 0 <= a < 16 && 0 <= b < 16
    ensures (16 * a + b) / 16 == a && (16 * a + b) % 16 == b
  {}

  lemma HexOfPair(s: string, k: nat)
    requires AllHex(s) && |s| % 2 == 0 && 2 * k < |s|
    ensures ToHex(DecodePairs(s))[2 * k] == LowerChar(s[2 * k])
    ensures ToHex(DecodePairs(s))[2 * k + 1] == LowerChar(s[2 * k + 1])
  {
    HexAt(DecodePairs(s), k);
    PairParts(DigitValue(s[2 * k]), DigitValue(s[2 * k + 1]));
    LowerOfDigit(s[2 * k]);
    LowerOfDigit(s[2 * k + 1]);
  }

  lemma HexSurvivesBytes(s: string)
    requires AllHex(s)
    ensures ToHex(HexToBytes(s)) == Lower(Pad(s))
  {
    var p := Pad(s);
    forall i | 0 <= i < |p| ensures ToHex(DecodePairs(p))[i] == LowerChar(p[i]) {
      HexOfPair(p, i / 2);
      assert i == 2 * (i / 2) || i == 2 * (i / 2) + 1;
    }
  }

  lemma LowerKeepsBytes(s: string)
    requires AllHex(s)
    ensures AllHex(Lower(s)) && HexToBytes(Lower(s)) == HexToBytes(s) && Lower(Lower(s)) == Lower(s)
  {
    forall i | 0 <= i < |s| ensures IsHexDigit(Lower(s)[i]) && DigitValue(Lower(s)[i]) == DigitValue(s[i]) {
      LowerOfDigit(s[i]);
    }
    assert Pad(Lower(s)) == Lower(Pad(s));
    forall i | 0 <= i < |Pad(s)|
      ensures DigitValue(Lower(Pad(s))[i]) == DigitValue(Pad(s)[i])
    {
      LowerOfDigit(Pad(s)[i]);
    }
  }

  /******* Ranges *******/

  datatype Range = Exact(prefix: Bytes) | Within(lo: Bytes, hi: Bytes)

  // What the parser guarantees of a range.
  predicate WellFormed(r: Range) {
    match r
    case Exact(prefix) => prefix != []
    case Within(lo, hi) => |lo| == |hi| > 0
  }

  // Cutting the head off a key shorter than the lower bound is a run-time
  // panic; an exact match checks the length first.
  predicate Fits(r: Range, h: Bytes) {
    r.Within? ==> |r.lo| <= |h|
  }

  // bytes.Compare
  function Compare(a: Bytes, b: Bytes): int {
    if a == [] && b == [] then 0
    else if a == [] then -1
    else if b == [] then 1
    else if a[0] < b[0] then -1
    else if a[0] > b[0] then 1
    else Compare(a[1..], b[1..])
  }

  predicate In(r: Range, h: Bytes)
    requires Fits(r, h)
  {
    match r
    case Exact(prefix) => |prefix| <= |h| && prefix == h[..|prefix|]
    case Within(lo, hi) =>
      var head := h[..|lo|];
      !(Compare(lo, head) > 0 || Compare(hi, head) < 0)
  }

  function Print(r: Range): string {
    match r
    case Exact(prefix) => ToHex(prefix)
    case Within(lo, hi) => ToHex(lo) + ":" + ToHex(hi)
  }

  /******* Parsing *******/

  function IndexOfColon(s: string): (i: nat)
    ensures i <= |s|
    ensures forall j :: 0 <= j < i ==> s[j] != ':'
    ensures i < |s| ==> s[i] == ':'
  {
    if s == "" then 0 else if s[0] == ':' then 0 else 1 + IndexOfColon(s[1..])
  }

  // The two groups of the range expression; the second is empty when there is no ':'.
  function Submatch(s: string): Option<(string, string)> {
    var i := IndexOfColon(s);
    if i == |s| then
      if s != "" && AllHex(s) then Some((s, "")) else None
    else if 0 < i && i + 1 < |s| && AllHex(s[..i]) && AllHex(s[i + 1..]) then Some((s[..i], s[i + 1..]))
    else None
  }

  function NewRange(s: string): (r: Option<Range>)
    ensures r.Some? ==> WellFormed(r.value)
  {
    var m := Submatch(s);
    if m.None? then None
    else
      var start, end := HexToBytes(m.value.0), HexToBytes(m.value.1);
      if |end| == 0 then Some(Exact(start))
      else if |start| != |end| then None
      else Some(Within(start, end))
  }

  // The language of the range expression, as a set of strings.
  ghost predicate InLanguage(s: string) {
    || (s != "" && AllHex(s))
    || exists a: string, b: string ::
         a != "" && b != "" && AllHex(a) && AllHex(b) && s == a + ":" + b
  }

  lemma JoinedSplits(a: string, b: string)
    requires AllHex(a)
    ensures IndexOfColon(a + ":" + b) == |a|
    ensures (a + ":" + b)[..|a|] == a && (a + ":" + b)[|a| + 1..] == b
  {
    assert (a + ":" + b)[|a|] == ':';
    forall j | 0 <= j < |a| ensures (a + ":" + b)[j] == a[j] {}
  }

  lemma SubmatchIsLanguage(s: string)
    ensures Submatch(s).Some? <==> InLanguage(s)
  {
    var i := IndexOfColon(s);
    if InLanguage(s) && !(s != "" && AllHex(s)) {
      var a: string, b: string :| a != "" && b != "" && AllHex(a) && AllHex(b) && s == a + ":" + b;
      JoinedSplits(a, b);
    }
    if Submatch(s).Some? && i < |s| {
      assert s == s[..i] + ":" + s[i + 1..];
    }
  }

  lemma ParseOfJoined(a: string, b: string)
    requires a != "" && AllHex(a) && b != "" && AllHex(b)
    ensures Submatch(a + ":" + b) == Some((a, b))
    ensures NewRange(a + ":" + b)
         == if |Pad(a)| == |Pad(b)| then Some(Within(HexToBytes(a), HexToBytes(b))) else None
  {
    JoinedSplits(a, b);
    assert Submatch(a + ":" + b) == Some((a, b));
    SizeOfBytes(a);
    SizeOfBytes(b);
  }

  lemma SizeOfBytes(s: string)
    requires AllHex(s)
    ensures 2 * |HexToBytes(s)| == |Pad(s)|
  {}

  lemma ParseOfExact(s: string)
    requires s != "" && AllHex(s)
    ensures NewRange(s) == Some(Exact(HexToBytes(s)))
  {
    assert IndexOfColon(s) == |s|;
    SizeOfBytes(s);
  }

  // Two sides that become equally long.
  ghost predicate Balanced(s: string) {
    forall a: string, b: string ::
      a != "" && b != "" && AllHex(a) && AllHex(b) && s == a + ":" + b ==> |Pad(a)| == |Pad(b)|
  }

  // A text is accepted iff the expression matches it and, if it has two sides,
  // these have the same number of digits once they are completed.
  lemma AcceptedIff(s: string)
    ensures NewRange(s).Some? <==> InLanguage(s) && Balanced(s)
  {
    SubmatchIsLanguage(s);
    if s != "" && AllHex(s) {
      ParseOfExact(s);
      forall a: string, b: string | a != "" && b != "" && AllHex(a) && AllHex(b) && s == a + ":" + b ensures false {
        JoinedSplits(a, b);
      }
    } else if Submatch(s).Some? {
      var a, b := Submatch(s).value.0, Submatch(s).value.1;
      assert s == a + ":" + b;
      ParseOfJoined(a, b);
      forall c: string, d: string | c != "" && d != "" && AllHex(c) && AllHex(d) && s == c + ":" + d
        ensures c == a && d == b
      {
        JoinedSplits(c, d);
      }
    }
  }

  // The text is accepted, and the key matches the range that it stands for.
  predicate Matches(s: string, h: Bytes) {
    NewRange(s).Some? && Fits(NewRange(s).value, h) && In(NewRange(s).value, h)
  }

  /******* Printing and parsing undo each other *******/

  // Lower case, each side completed to an even number of digits.
  function Normal(s: string): string {
    var i := IndexOfColon(s);
    if i == |s| then Lower(Pad(s)) else Lower(Pad(s[..i])) + ":" + Lower(Pad(s[i + 1..]))
  }

  lemma ParseOfPrint(r: Range)
    requires WellFormed(r)
    ensures NewRange(Print(r)) == Some(r)
  {
    match r
    case Exact(prefix) =>
      BytesSurviveHex(prefix);
      assert IndexOfColon(ToHex(prefix)) == |ToHex(prefix)|;
    case Within(lo, hi) =>
      BytesSurviveHex(lo);
      BytesSurviveHex(hi);
      ParseOfJoined(ToHex(lo), ToHex(hi));
  }

  lemma PrintOfParse(s: string)
    requires NewRange(s).Some?
    ensures Print(NewRange(s).value) == Normal(s)
    ensures NewRange(Normal(s)) == NewRange(s)
    ensures Normal(Normal(s)) == Normal(s)
  {
    PrintIsNormal(s);
    ParseOfPrint(NewRange(s).value);
    var m := Submatch(s).value;
    NormalOfPart(m.0);
    NormalOfPart(m.1);
    if IndexOfColon(s) == |s| {
      assert IndexOfColon(Lower(Pad(s))) == |Lower(Pad(s))|;
    } else {
      JoinedSplits(Lower(Pad(m.0)), Lower(Pad(m.1)));
    }
  }

  lemma PrintIsNormal(s: string)
    requires NewRange(s).Some?
    ensures Print(NewRange(s).value) == Normal(s)
  {
    var m := Submatch(s).value;
    HexSurvivesBytes(m.0);
    HexSurvivesBytes(m.1);
  }

  lemma NormalOfPart(s: string)
    requires AllHex(s)
    ensures AllHex(Lower(Pad(s))) && Lower(Pad(Lower(Pad(s)))) == Lower(Pad(s))
  {
    LowerKeepsBytes(Pad(s));
  }

  /******* What a range means *******/

  // The big-endian number of a byte string.
  function Num(b: Bytes): nat {
    if b == [] then 0 else 256 * Num(b[..|b| - 1]) + b[|b| - 1]
  }

  lemma {:induction false} CompareSnoc(a: Bytes, x: byte, b: Bytes, y: byte)
    requires |a| == |b|
    ensures Compare(a + [x], b + [y])
         == if Compare(a, b) != 0 then Compare(a, b) else if x < y then -1 else if x > y then 1 else 0
  {
    if a == [] {
      assert Compare([x][1..], [y][1..]) == 0;
      assert a + [x] == [x] && b + [y] == [y];
    } else {
      assert (a + [x])[1..] == a[1..] + [x] && (b + [y])[1..] == b[1..] + [y];
      CompareSnoc(a[1..], x, b[1..], y);
    }
  }

  lemma {:induction false} CompareIsNumeric(a: Bytes, b: Bytes)
    requires |a| == |b|
    ensures Compare(a, b) < 0 <==> Num(a) < Num(b)
    ensures Compare(a, b) > 0 <==> Num(a) > Num(b)
    ensures Num(a) == Num(b) ==> a == b
  {
    if a != [] {
      var n := |a| - 1;
      assert a == a[..n] + [a[n]] && b == b[..n] + [b[n]];
      CompareIsNumeric(a[..n], b[..n]);
      CompareSnoc(a[..n], a[n], b[..n], b[n]);
    }
  }

  lemma MatchIsNumeric(r: Range, h: Bytes)
    requires WellFormed(r) && r.Within? && Fits(r, h)
    ensures In(r, h) <==> Num(r.lo) <= Num(h[..|r.lo|]) <= Num(r.hi)
  {
    CompareIsNumeric(r.lo, h[..|r.lo|]);
    CompareIsNumeric(r.hi, h[..|r.lo|]);
  }

  // An exact match is the range from its prefix to itself.
  lemma ExactIsOnePointRange(prefix: Bytes, h: Bytes)
    requires prefix != [] && |prefix| <= |h|
    ensures In(Exact(prefix), h) <==> In(Within(prefix, prefix), h)
  {
    MatchIsNumeric(Within(prefix, prefix), h);
    CompareIsNumeric(prefix, h[..|prefix|]);
  }

  // Two ranges that meet cover their union and share nothing.
  lemma AdjacentRangesPartition(lo: Bytes, mid: Bytes, next: Bytes, hi: Bytes, h: Bytes)
    requires 0 < |lo| == |mid| == |next| == |hi| <= |h|
    requires Num(next) == Num(mid) + 1 && Num(lo) <= Num(next) && Num(mid) <= Num(hi)
    ensures In(Within(lo, hi), h) <==> In(Within(lo, mid), h) || In(Within(next, hi), h)
    ensures !(In(Within(lo, mid), h) && In(Within(next, hi), h))
  {
    MatchIsNumeric(Within(lo, hi), h);
    MatchIsNumeric(Within(lo, mid), h);
    MatchIsNumeric(Within(next, hi), h);
  }

  lemma NumOfOne(b: byte)
    ensures Num([b]) == b
  {
    assert [b][..0] == [];
  }

  lemma FullRangeMatchesAll(h: Bytes)
    requires h != []
    ensures Matches("00:FF", h)
  {
    ParseOfJoined("00", "FF");
    assert "00" + ":" + "FF" == "00:FF";
    assert HexToBytes("00") == [0] && HexToBytes("FF") == [255];
    MatchIsNumeric(Within([0], [255]), h);
    NumOfOne(0);
    NumOfOne(255);
    NumOfOne(h[0]);
    assert h[..1] == [h[0]];
  }

  /******* Where the code and its documentation part *******/

  lemma HexOfPrefix(b: Bytes, n: nat)
    requires n <= |b|
    ensures ToHex(b)[..2 * n] == ToHex(b[..n])
  {
    forall i | 0 <= i < 2 * n ensures ToHex(b)[i] == ToHex(b[..n])[i] {
      assert i / 2 < n && b[i / 2] == b[..n][i / 2];
    }
  }

  lemma InPaddedPrefix(s: string, h: Bytes)
    requires s != "" && AllHex(s)
    ensures In(Exact(HexToBytes(s)), h) <==> Lower(Pad(s)) <= ToHex(h)
  {
    var e := HexToBytes(s);
    HexSurvivesBytes(s);
    assert |Lower(Pad(s))| == 2 * |e|;
    if |e| <= |h| {
      HexOfPrefix(h, |e|);
      if ToHex(e) == ToHex(h[..|e|]) {
        BytesSurviveHex(e);
        BytesSurviveHex(h[..|e|]);
      }
    }
  }

  lemma ExactMatchesPaddedPrefix(s: string, h: Bytes)
    requires s != "" && AllHex(s)
    ensures Matches(s, h) <==> Lower(Pad(s)) <= ToHex(h)
  {
    ParseOfExact(s);
    InPaddedPrefix(s, h);
  }

  // The documentation's own example of an odd range.
  lemma OddExample(h: Bytes)
    ensures Matches("123", h) <==> "1230" <= ToHex(h)
  {
    ExactMatchesPaddedPrefix("123", h);
    assert Lower("1230") == "1230";
  }

  // The key written by some digits and a 1: they and the 1 are its first digits.
  lemma OneDigitMore(end: string) returns (h: Bytes)
    requires AllHex(end) && |end| % 2 == 1
    ensures 2 * |h| == |end| + 1
    ensures ToHex(h)[..|end|] == Lower(end) && ToHex(h)[|end|] == '1'
  {
    var t := end + "1";
    h := HexToBytes(t);
    HexSurvivesBytes(t);
  }

  // "Matches all hashes that are prefixed with s" is true of exact ranges with
  // an even number of digits, and of no other.
  lemma DocumentedPrefixIffEven(s: string)
    requires s != "" && AllHex(s)
    ensures (forall h :: Matches(s, h) <==> Lower(s) <= ToHex(h)) <==> |s| % 2 == 0
  {
    forall h ensures Matches(s, h) <==> Lower(Pad(s)) <= ToHex(h) {
      ExactMatchesPaddedPrefix(s, h);
    }
    if |s| % 2 == 1 {
      var h := OneDigitMore(s);
      assert Lower(s) <= ToHex(h);
      assert Lower(Pad(s))[|s|] == '0' && ToHex(h)[|s|] == '1';
      assert Matches(s, h) <==> Lower(Pad(s)) <= ToHex(h);
    }
  }

  // The number written by hexadecimal digits.
  function HexNum(s: string): nat
    requires AllHex(s)
  {
    if s == "" then 0 else 16 * HexNum(s[..|s| - 1]) + DigitValue(s[|s| - 1])
  }

  lemma NumOfNext(s: string, n: nat)
    requires AllHex(s) && n < |s|
    ensures HexNum(s[..n + 1]) == 16 * HexNum(s[..n]) + DigitValue(s[n])
  {
    assert s[..n + 1][..n] == s[..n];
  }

  lemma LastPair(s: string)
    requires AllHex(s) && |s| % 2 == 0 && s != ""
    ensures DecodePairs(s) == DecodePairs(s[..|s| - 2]) + [16 * DigitValue(s[|s| - 2]) + DigitValue(s[|s| - 1])]
  {
    var n, b, t := |s|, DecodePairs(s), DecodePairs(s[..|s| - 2]);
    assert n == 2 * |b| && |t| == |b| - 1;
    forall i | 0 <= i < |t| ensures b[i] == t[i] {}
    assert b[|b| - 1] == 16 * DigitValue(s[n - 2]) + DigitValue(s[n - 1]);
  }

  lemma {:induction false} NumOfPairs(s: string)
    requires AllHex(s) && |s| % 2 == 0
    ensures Num(DecodePairs(s)) == HexNum(s)
  {
    if s != "" {
      var n := |s|;
      NumOfPairs(s[..n - 2]);
      LastPair(s);
      NumOfNext(s, n - 2);
      NumOfNext(s, n - 1);
      assert s[..n] == s;
    }
  }

  lemma NumOfHex(b: Bytes)
    ensures Num(b) == HexNum(ToHex(b))
  {
    BytesSurviveHex(b);
    NumOfPairs(ToHex(b));
  }

  ghost predicate BetweenDigits(start: string, end: string, h: Bytes)
    requires AllHex(start) && AllHex(end) && |start| <= 2 * |h|
  {
    HexNum(start) <= HexNum(ToHex(h)[..|start|]) <= HexNum(end)
  }

  lemma MatchByDigits(lo: Bytes, hi: Bytes, h: Bytes)
    requires 0 < |lo| == |hi| <= |h|
    ensures In(Within(lo, hi), h) <==> Num(lo) <= HexNum(ToHex(h)[..2 * |lo|]) <= Num(hi)
  {
    MatchIsNumeric(Within(lo, hi), h);
    NumOfHex(h[..|lo|]);
    HexOfPrefix(h, |lo|);
  }

  lemma NumOfParsed(s: string)
    requires AllHex(s)
    ensures 2 * |HexToBytes(s)| == |Pad(s)| && Num(HexToBytes(s)) == HexNum(Pad(s))
    ensures HexNum(Pad(s)) == if |s| % 2 == 0 then HexNum(s) else 16 * HexNum(s)
  {
    NumOfPairs(Pad(s));
    if |s| % 2 == 1 {
      assert Pad(s)[..|s|] == s;
    }
  }

  // A range compares the number of the key's first digits with those of its sides.
  lemma MatchesJoined(a: string, b: string, h: Bytes)
    requires a != "" && AllHex(a) && b != "" && AllHex(b) && |Pad(a)| == |Pad(b)| <= 2 * |h|
    ensures Matches(a + ":" + b, h) <==> HexNum(Pad(a)) <= HexNum(ToHex(h)[..|Pad(a)|]) <= HexNum(Pad(b))
  {
    ParseOfJoined(a, b);
    NumOfParsed(a);
    NumOfParsed(b);
    MatchByDigits(HexToBytes(a), HexToBytes(b), h);
  }

  // A range of odd length compares one digit more than it was written with.
  lemma RangeOfOddDigits(start: string, end: string, h: Bytes)
    requires AllHex(start) && AllHex(end) && |start| == |end| && |start| % 2 == 1 && |start| < 2 * |h|
    ensures Matches(start + ":" + end, h)
       <==> 16 * HexNum(start) <= HexNum(ToHex(h)[..|start| + 1]) <= 16 * HexNum(end)
  {
    NumOfParsed(start);
    NumOfParsed(end);
    MatchesJoined(start, end, h);
  }

  lemma NumOfOneMore(end: string, h: Bytes)
    requires AllHex(end) && |end| < 2 * |h| && ToHex(h)[..|end|] == Lower(end) && ToHex(h)[|end|] == '1'
    ensures HexNum(ToHex(h)[..|end|]) == HexNum(end) && HexNum(ToHex(h)[..|end| + 1]) == 16 * HexNum(end) + 1
  {
    NumOfLower(end);
    NumOfNext(ToHex(h), |end|);
  }

  lemma BeyondIsMissed(start: string, end: string, h: Bytes)
    requires AllHex(start) && AllHex(end) && |start| == |end| && |start| % 2 == 1 && |start| < 2 * |h|
    requires HexNum(ToHex(h)[..|start| + 1]) == 16 * HexNum(end) + 1
    ensures !Matches(start + ":" + end, h)
  {
    RangeOfOddDigits(start, end, h);
  }

  // The last value of an odd range, followed by a digit other than 0.
  lemma PastTheOddEnd(start: string, end: string) returns (h: Bytes)
    requires AllHex(start) && AllHex(end) && |start| == |end| && |start| % 2 == 1
    requires HexNum(start) <= HexNum(end)
    ensures |Pad(start)| <= 2 * |h| && BetweenDigits(start, end, h)
    ensures !Matches(start + ":" + end, h)
  {
    h := OneDigitMore(end);
    NumOfOneMore(end, h);
    BeyondIsMissed(start, end, h);
  }

  // "Matches all hashes that have prefixes [start, end]" is true of ranges with
  // an even number of digits and of empty ranges, and of no other.
  lemma DocumentedRangeIffEven(start: string, end: string)
    requires start != "" && AllHex(start) && AllHex(end) && |start| == |end|
    ensures (forall h: Bytes :: |Pad(start)| <= 2 * |h| ==>
              (Matches(start + ":" + end, h) <==> BetweenDigits(start, end, h)))
       <==> |start| % 2 == 0 || HexNum(start) > HexNum(end)
  {
    if |start| % 2 == 0 || HexNum(start) > HexNum(end) {
      forall h: Bytes | |Pad(start)| <= 2 * |h|
        ensures Matches(start + ":" + end, h) <==> BetweenDigits(start, end, h)
      {
        if |start| % 2 == 0 {
          MatchesJoined(start, end, h);
        } else {
          RangeOfOddDigits(start, end, h);
          NumOfNext(ToHex(h), |start|);
        }
      }
    } else {
      var h := PastTheOddEnd(start, end);
    }
  }

  lemma {:induction false} NumOfLower(s: string)
    requires AllHex(s)
    ensures AllHex(Lower(s)) && HexNum(Lower(s)) == HexNum(s)
  {
    LowerKeepsBytes(s);
    if s != "" {
      var n := |s| - 1;
      NumOfLower(s[..n]);
      assert Lower(s)[..n] == Lower(s[..n]);
      LowerOfDigit(s[n]);
    }
  }
}
