/** The textual encodings persisted values go through: decimal numbers and the
    delimiter-separated lists that `osquery::split` reads back. */
module Text {

  datatype Option<+T> = None | Some(value: T) {
    function GetOr(default: T): T {
      match this
      case None => default
      case Some(v) => v
    }
  }

  // ----- decimal numbers -----

  predicate IsDigit(c: char) {
    '0' <= c <= '9'
  }

  predicate AllDigits(s: string) {
    forall i :: 0 <= i < |s| ==> IsDigit(s[i])
  }

  function DigitChar(d: nat): char
    requires d < 10
  {
    '0' + d as char
  }

  function DigitValue(c: char): nat
    requires IsDigit(c)
  {
    (c - '0') as nat
  }

  /** `std::to_string` on an unsigned value. */
  function ToString(n: nat): string {
    if n < 10 then [DigitChar(n)] else ToString(n / 10) + [DigitChar(n % 10)]
  }

  /** The number a digit string denotes, most significant digit first. */
  function Value(s: string): nat
    requires AllDigits(s)
  {
    if s == [] then 0 else 10 * Value(s[..|s| - 1]) + DigitValue(s[|s| - 1])
  }

  lemma {:induction false} ToStringDigits(n: nat)
    ensures |ToString(n)| > 0 && AllDigits(ToString(n))
  {
    if n >= 10 {
      ToStringDigits(n / 10);
    }
  }

  lemma {:induction false} ToStringValue(n: nat)
    ensures AllDigits(ToString(n)) && Value(ToString(n)) == n
  {
    ToStringDigits(n);
    if n < 10 {
      assert ToString(n)[..0] == [];
    } else {
      ToStringDigits(n / 10);
      ToStringValue(n / 10);
      var s := ToString(n);
      assert s[..|s| - 1] == ToString(n / 10);
    }
  }

  const LLONG_BOUND := 0x8000_0000_0000_0000

  predicate IsSpace(c: char) {
    c == ' ' || c == '\t' || c == '\n' || c == '\r' || c as int == 11 || c as int == 12
  }

  function SkipSpace(s: string): string {
    if s != [] && IsSpace(s[0]) then SkipSpace(s[1..]) else s
  }

  /** Length of the longest prefix made of digits. */
  function DigitRun(s: string): (n: nat)
    ensures n <= |s| && AllDigits(s[..n])
    ensures n < |s| ==> !IsDigit(s[n])
  {
    if s == [] || !IsDigit(s[0]) then 0 else 1 + DigitRun(s[1..])
  }

  /** `tryTo<long long>(s)`: leading blanks, an optional sign, the longest run of digits;
      None when there is no digit or the value is out of range. */
  function TryToLongLong(s: string): Option<int> {
    var t := SkipSpace(s);
    var signed := t != [] && (t[0] == '-' || t[0] == '+');
    var d := if signed then t[1..] else t;
    var n := DigitRun(d);
    if n == 0 then None
    else
      var v := Value(d[..n]);
      var negative := signed && t[0] == '-';
      if negative then (if v <= LLONG_BOUND then Some(-(v as int)) else None)
      else if v < LLONG_BOUND then Some(v) else None
  }

  lemma {:induction false} DigitRunWhole(s: string)
    requires AllDigits(s)
    ensures DigitRun(s) == |s|
  {
    if s != [] {
      assert forall i :: 0 <= i < |s| - 1 ==> s[1..][i] == s[i + 1];
      DigitRunWhole(s[1..]);
    }
  }

  /** Numbers survive being written with `std::to_string` and read with `tryTo`. */
  lemma NumberRoundTrip(n: nat)
    requires n < LLONG_BOUND
    ensures TryToLongLong(ToString(n)) == Some(n)
  {
    var s := ToString(n);
    ToStringDigits(n);
    ToStringValue(n);
    DigitRunWhole(s);
    assert SkipSpace(s) == s;
    assert s[..|s|] == s;
  }

  // ----- delimiter-separated lists -----

  /** What one more character in front does to the pieces. */
  function Cons(x: char, pieces: seq<string>, c: char): seq<string>
    requires pieces != []
  {
    if x == c then [""] + pieces else [[x] + pieces[0]] + pieces[1..]
  }

  /** `boost::split` on one delimiter: always at least one, possibly empty, piece. */
  function SplitRaw(s: string, c: char): (r: seq<string>)
    ensures |r| > 0
    ensures forall i :: 0 <= i < |r| ==> c !in r[i]
  {
    if s == [] then [""]
    else Cons(s[0], SplitRaw(s[1..], c), c)
  }

  function DropEmpty(ss: seq<string>): (r: seq<string>)
    ensures forall t :: t in r ==> t in ss && t != ""
  {
    if ss == [] then []
    else if ss[0] == "" then DropEmpty(ss[1..])
    else [ss[0]] + DropEmpty(ss[1..])
  }

  predicate Trimmed(s: string) {
    s == [] || (!IsSpace(s[0]) && !IsSpace(s[|s| - 1]))
  }

  function TrimRight(s: string): (r: string)
    ensures r == [] || !IsSpace(r[|r| - 1])
    ensures r <= s
  {
    if s != [] && IsSpace(s[|s| - 1]) then TrimRight(s[..|s| - 1]) else s
  }

  lemma {:induction false} SkipSpaceSuffix(s: string)
    ensures SkipSpace(s) == [] || !IsSpace(SkipSpace(s)[0])
    ensures forall c :: c in SkipSpace(s) ==> c in s
  {
    if s != [] && IsSpace(s[0]) {
      SkipSpaceSuffix(s[1..]);
    }
  }

  function Trim(s: string): (r: string)
    ensures Trimmed(r)
    ensures forall c :: c in r ==> c in s
    ensures Trimmed(s) ==> r == s
  {
    SkipSpaceSuffix(s);
    TrimRight(SkipSpace(s))
  }

  predicate AllSpace(s: string) {
    forall i :: 0 <= i < |s| ==> IsSpace(s[i])
  }

  lemma BlankMore(c: char, s: string)
    requires IsSpace(c) && AllSpace(s)
    ensures AllSpace([c] + s) && AllSpace(s + [c])
  {
  }

  lemma {:induction false} SkippedIsBlank(s: string)
    ensures exists front :: s == front + SkipSpace(s) && AllSpace(front)
  {
    if s != [] && IsSpace(s[0]) {
      hide AllSpace;
      var c, rest := s[0], s[1..];
      SkippedIsBlank(rest);
      var front :| rest == front + SkipSpace(rest) && AllSpace(front);
      BlankMore(c, front);
      assert s == [c] + rest && SkipSpace(s) == SkipSpace(rest);
      hide SkipSpace;
      assert [c] + (front + SkipSpace(rest)) == [c] + front + SkipSpace(rest);
    } else {
      assert s == "" + SkipSpace(s) && AllSpace("");
    }
  }

  lemma {:induction false} CutIsBlank(s: string)
    ensures exists back :: s == TrimRight(s) + back && AllSpace(back)
  {
    if s != [] && IsSpace(s[|s| - 1]) {
      hide AllSpace;
      var c, rest := s[|s| - 1], s[..|s| - 1];
      CutIsBlank(rest);
      var back :| rest == TrimRight(rest) + back && AllSpace(back);
      BlankMore(c, back);
      assert s == rest + [c] && TrimRight(s) == TrimRight(rest);
      hide TrimRight;
      assert TrimRight(rest) + back + [c] == TrimRight(rest) + (back + [c]);
    } else {
      assert s == TrimRight(s) + "" && AllSpace("");
    }
  }

  /** Trimming takes nothing but blanks, and only at the ends. */
  lemma TrimTakesBlanks(s: string)
    ensures exists front, back :: s == front + Trim(s) + back && AllSpace(front) && AllSpace(back)
  {
    hide SkipSpace, TrimRight, AllSpace;
    SkippedIsBlank(s);
    CutIsBlank(SkipSpace(s));
    var front :| s == front + SkipSpace(s) && AllSpace(front);
    var back :| SkipSpace(s) == TrimRight(SkipSpace(s)) + back && AllSpace(back);
    assert front + (Trim(s) + back) == front + Trim(s) + back;
  }

  /** The six blanks of the C locale. */
  lemma BlanksAre(c: char)
    ensures IsSpace(c) <==> c as int in {9, 10, 11, 12, 13, 32}
  {
  }

  function TrimAll(ss: seq<string>): (r: seq<string>)
    ensures |r| == |ss|
    ensures forall i :: 0 <= i < |r| ==> r[i] == Trim(ss[i])
  {
    if ss == [] then [] else [Trim(ss[0])] + TrimAll(ss[1..])
  }

  /** `osquery::split`: cut at the delimiter, drop empty pieces, then trim each piece. */
  function Split(s: string, c: char): (r: seq<string>) {
    TrimAll(DropEmpty(SplitRaw(s, c)))
  }

  /** Every piece is trimmed and free of the delimiter, whatever the text was. */
  lemma SplitPieces(s: string, c: char)
    ensures forall t :: t in Split(s, c) ==> c !in t && Trimmed(t)
  {
    var pieces := DropEmpty(SplitRaw(s, c));
    forall t | t in Split(s, c)
      ensures c !in t && Trimmed(t)
    {
      var i :| 0 <= i < |pieces| && t == Trim(pieces[i]);
      assert pieces[i] in pieces;
    }
  }

  function Join(ss: seq<string>, c: char): string {
    if ss == [] then ""
    else if |ss| == 1 then ss[0]
    else ss[0] + [c] + Join(ss[1..], c)
  }

  /** A list entry that survives `Split`: trimmed, non-empty and free of the delimiter. */
  predicate CleanPiece(t: string, c: char) {
    t != "" && c !in t && Trimmed(t)
  }

  lemma {:induction false} SplitRawFirst(t: string, rest: string, c: char)
    requires c !in t
    ensures SplitRaw(t + [c] + rest, c) == [t] + SplitRaw(rest, c)
  {
    var s := t + [c] + rest;
    if t == [] {
      assert s[1..] == rest;
    } else {
      assert s[1..] == t[1..] + [c] + rest;
      assert s[0] == t[0] != c;
      SplitRawFirst(t[1..], rest, c);
      var r := SplitRaw(s[1..], c);
      assert r[0] == t[1..] && r[1..] == SplitRaw(rest, c);
      assert [t[0]] + t[1..] == t;
    }
  }

  lemma {:induction false} SplitRawConcat(a: string, b: string, c: char)
    ensures SplitRaw(a + [c] + b, c) == SplitRaw(a, c) + SplitRaw(b, c)
  {
    var s := a + [c] + b;
    if a == [] {
      assert s[1..] == b;
    } else {
      assert s[1..] == a[1..] + [c] + b;
      SplitRawConcat(a[1..], b, c);
      hide SplitRaw, Cons;
      SplitRawStep(s, c);
      SplitRawStep(a, c);
      ConsConcat(a[0], SplitRaw(a[1..], c), SplitRaw(b, c), c);
    }
  }

  lemma SplitRawStep(s: string, c: char)
    requires s != []
    ensures SplitRaw(s, c) == Cons(s[0], SplitRaw(s[1..], c), c)
  {
  }

  lemma ConsConcat(x: char, p: seq<string>, q: seq<string>, c: char)
    requires p != []
    ensures Cons(x, p + q, c) == Cons(x, p, c) + q
  {
  }

  lemma {:induction false} DropEmptyConcat(a: seq<string>, b: seq<string>)
    ensures DropEmpty(a + b) == DropEmpty(a) + DropEmpty(b)
  {
    if a == [] {
      assert a + b == b;
    } else {
      assert (a + b)[1..] == a[1..] + b;
      DropEmptyConcat(a[1..], b);
    }
  }

  lemma {:induction false} SplitRawOnly(t: string, c: char)
    requires c !in t
    ensures SplitRaw(t, c) == [t]
  {
    if t != [] {
      SplitRawOnly(t[1..], c);
      assert [t[0]] + t[1..] == t;
    }
  }

  lemma {:induction false} SplitRawJoin(ss: seq<string>, c: char)
    requires ss != [] && forall i :: 0 <= i < |ss| ==> c !in ss[i]
    ensures SplitRaw(Join(ss, c), c) == ss
  {
    if |ss| == 1 {
      SplitRawOnly(ss[0], c);
    } else {
      SplitRawFirst(ss[0], Join(ss[1..], c), c);
      SplitRawJoin(ss[1..], c);
      assert [ss[0]] + ss[1..] == ss;
    }
  }

  lemma {:induction false} DropEmptyNone(ss: seq<string>)
    requires forall i :: 0 <= i < |ss| ==> ss[i] != ""
    ensures DropEmpty(ss) == ss
  {
    if ss != [] {
      assert forall i :: 0 <= i < |ss| - 1 ==> ss[1..][i] == ss[i + 1];
      DropEmptyNone(ss[1..]);
      assert [ss[0]] + ss[1..] == ss;
    }
  }

  /** Joining clean pieces and splitting the text again gives the pieces back. */
  lemma SplitJoin(ss: seq<string>, c: char)
    requires forall i :: 0 <= i < |ss| ==> CleanPiece(ss[i], c)
    ensures Split(Join(ss, c), c) == ss
  {
    if ss == [] {
      assert SplitRaw("", c) == [""];
      assert DropEmpty([""]) == DropEmpty([]);
    } else {
      SplitRawJoin(ss, c);
      DropEmptyNone(ss);
      assert forall i :: 0 <= i < |ss| ==> Trim(ss[i]) == ss[i];
    }
  }

  /** Pieces are trimmed after empty ones were dropped: one of nothing but blanks stays, as an empty piece. */
  lemma SplitKeepsBlanks(ss: seq<string>, c: char)
    requires ss != [] && forall i :: 0 <= i < |ss| ==> ss[i] != "" && c !in ss[i]
    ensures |Split(Join(ss, c), c)| == |ss|
    ensures forall i :: 0 <= i < |ss| ==> Split(Join(ss, c), c)[i] == Trim(ss[i])
  {
    SplitRawJoin(ss, c);
    DropEmptyNone(ss);
  }

  lemma NumberIsClean(n: nat, c: char)
    requires !IsDigit(c)
    ensures CleanPiece(ToString(n), c)
  {
    ToStringDigits(n);
  }

  /** What else `tryTo` makes of a text: blanks and a sign in front and anything behind the digits are let pass, no
      digit and a value out of range are not. */
  lemma NumberTexts()
    ensures TryToLongLong("-5") == Some(-5) && TryToLongLong("+5") == Some(5) && TryToLongLong(" 7") == Some(7)
    ensures TryToLongLong("7x") == Some(7) && TryToLongLong("") == None && TryToLongLong("x7") == None && TryToLongLong("-") == None
  {
    hide DigitRun, Value;
    OneDigit('5', "");
    OneDigit('7', "");
    OneDigit('7', "x");
    NoDigit("");
    NoDigit("x7");
    assert ['5'] + "" == "5" && ['7'] + "" == "7" && ['7'] + "x" == "7x";
    assert "5"[..1] == ['5'] && "7"[..1] == ['7'];
    assert "-5"[1..] == "5" && "+5"[1..] == "5" && " 7"[1..] == "7" && "-"[1..] == "";
  }

  lemma NoDigit(s: string)
    requires s == "" || !IsDigit(s[0])
    ensures DigitRun(s) == 0
  {
  }

  lemma OneDigit(c: char, rest: string)
    requires IsDigit(c) && (rest == "" || !IsDigit(rest[0]))
    ensures DigitRun([c] + rest) == 1 && AllDigits([c]) && ([c] + rest)[..1] == [c] && Value([c]) == DigitValue(c)
  {
    assert ([c] + rest)[1..] == rest;
    assert [c][..0] == [];
  }

  /** A number beyond the range is refused. */
  lemma HugeNumberIsRefused(n: nat)
    requires n >= LLONG_BOUND
    ensures TryToLongLong(ToString(n)) == None
  {
    var s := ToString(n);
    ToStringDigits(n);
    ToStringValue(n);
    DigitRunWhole(s);
    assert SkipSpace(s) == s;
    assert s[..|s|] == s;
  }
}
