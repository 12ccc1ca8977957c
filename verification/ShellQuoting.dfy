/** C-style quoting in the shell: `output_c_string`, the tokenizer of `do_meta_command` and the
    in-place `resolve_backslashes`. */
module ShellQuoting {
  import opened Text

  type Byte = b: int | 0 <= b < 256

  const BACKSLASH: Byte := 92
  const QUOTE: Byte := 34
  const APOSTROPHE: Byte := 39
  const SPACE: Byte := 32

  predicate IsPrint(c: Byte) {
    32 <= c < 127
  }

  predicate IsSpace(c: Byte) {
    c == 32 || 9 <= c <= 13
  }

  predicate IsOctal(c: Byte) {
    48 <= c <= 55
  }

  predicate NoNul(s: seq<Byte>) {
    0 !in s
  }

  // ----- writing -----

  function QuoteChar(c: Byte): seq<Byte> {
    if c == 92 then [92, 92]
    else if c == 34 then [92, 34]
    else if c == 9 then [92, 116]
    else if c == 10 then [92, 110]
    else if c == 13 then [92, 114]
    else if !IsPrint(c) then [92, 48 + c / 64, 48 + c / 8 % 8, 48 + c % 8]
    else [c]
  }

  function QuoteChars(s: seq<Byte>): seq<Byte> {
    if s == [] then [] else QuoteChar(s[0]) + QuoteChars(s[1..])
  }

  function Quote(s: seq<Byte>): seq<Byte> {
    [QUOTE] + QuoteChars(s) + [QUOTE]
  }

  lemma {:induction false} QuoteCharsMore(s: seq<Byte>, c: Byte)
    ensures QuoteChars(s + [c]) == QuoteChars(s) + QuoteChar(c)
  {
    if s == [] {
      assert [c][1..] == [];
    } else {
      assert (s + [c])[1..] == s[1..] + [c];
      QuoteCharsMore(s[1..], c);
    }
  }

  /** The text `output_c_string` writes for one character. */
  method WriteChar(c: Byte) returns (text: seq<Byte>)
    ensures text == QuoteChar(c)
  {
    if c == 92 {
      text := [c, c];
    } else if c == 34 {
      text := [92, 34];
    } else if c == 9 {
      text := [92, 116];
    } else if c == 10 {
      text := [92, 110];
    } else if c == 13 {
      text := [92, 114];
    } else if !IsPrint(c) {
      text := [92, 48 + c / 64, 48 + c / 8 % 8, 48 + c % 8];
    } else {
      text := [c];
    }
  }

  /** `output_c_string`, with the output stream as a result. */
  method OutputCString(z: seq<Byte>) returns (out: seq<Byte>)
    ensures out == Quote(z)
  {
    hide QuoteChars, QuoteChar;
    out := [QUOTE];
    QuoteCharsNone();
    for i := 0 to |z|
      invariant out == [QUOTE] + QuoteChars(z[..i])
    {
      assert z[..i + 1] == z[..i] + [z[i]];
      QuoteCharsMore(z[..i], z[i]);
      var text := WriteChar(z[i]);
      out := out + text;
    }
    assert z[..|z|] == z;
    out := out + [QUOTE];
  }

  lemma QuoteCharsNone()
    ensures QuoteChars([]) == []
  {
  }

  // ----- reading back -----

  /** How many bytes the next character of an escaped text takes. */
  function UnitLength(s: seq<Byte>): (n: nat)
    requires s != []
    ensures 1 <= n <= |s|
  {
    if s[0] != BACKSLASH || |s| == 1 then 1
    else if !IsOctal(s[1]) then 2
    else if |s| > 2 && IsOctal(s[2]) then (if |s| > 3 && IsOctal(s[3]) then 4 else 3)
    else 2
  }

  function Digit(c: Byte): (d: nat)
    requires IsOctal(c)
    ensures d < 8
  {
    c - 48
  }

  /** The character it stands for; an octal value keeps its low eight bits. */
  function UnitByte(s: seq<Byte>): Byte
    requires s != []
  {
    if s[0] != BACKSLASH then s[0]
    else if |s| == 1 then 0
    else if s[1] == 110 then 10
    else if s[1] == 116 then 9
    else if s[1] == 114 then 13
    else if !IsOctal(s[1]) then s[1]
    else if UnitLength(s) == 2 then Digit(s[1])
    else if UnitLength(s) == 3 then Digit(s[1]) * 8 + Digit(s[2])
    else (Digit(s[1]) * 64 + Digit(s[2]) * 8 + Digit(s[3])) % 256
  }

  function Resolve(s: seq<Byte>): seq<Byte> {
    if s == [] then [] else [UnitByte(s)] + Resolve(s[UnitLength(s)..])
  }

  /** No backslash is left alone at the end, where the C code would read past the terminator. */
  predicate Complete(s: seq<Byte>) {
    s == [] || (s != [BACKSLASH] && Complete(s[UnitLength(s)..]))
  }

  lemma QuoteCharReads(c: Byte, rest: seq<Byte>)
    requires c != 0
    ensures var s := QuoteChar(c) + rest;
            UnitByte(s) == c && UnitLength(s) == |QuoteChar(c)| && s != [BACKSLASH] && s[UnitLength(s)..] == rest
  {
    var q := QuoteChar(c);
    var s := q + rest;
    assert forall k :: 0 <= k < |q| ==> s[k] == q[k];
    if |q| == 4 {
      OctalDigits(c);
      hide QuoteChar;
      assert s[0] == 92 && s[1] == 48 + c / 64 && s[2] == 48 + c / 8 % 8 && s[3] == 48 + c % 8;
    }
  }

  lemma OctalDigits(c: Byte)
    ensures c == c / 64 * 64 + c / 8 % 8 * 8 + c % 8 && c / 64 < 4
  {
  }

  /** Dequoting undoes quoting. */
  lemma {:induction false} ResolveQuoted(s: seq<Byte>)
    requires NoNul(s)
    ensures Resolve(QuoteChars(s)) == s && Complete(QuoteChars(s))
  {
    if s != [] {
      assert s[0] in s && forall b :: b in s[1..] ==> b in s;
      QuoteCharReads(s[0], QuoteChars(s[1..]));
      ResolveQuoted(s[1..]);
    }
  }

  // ----- reading back in place -----

  /** The buffer the shell works on, with whatever lies behind the line. */
  type Memory = seq<Byte>

  /** The byte an escape stands for and where the next one starts. */
  datatype Unit = Unit(c: Byte, next: nat)

  /** One escape as the loop of `resolve_backslashes` reads it; None when it would read behind the buffer. */
  function UnitAt(mem: Memory, i: nat): (r: Option<Unit>)
    requires i < |mem|
    ensures r.Some? ==> i < r.value.next <= |mem|
  {
    if mem[i] != BACKSLASH then Some(Unit(mem[i], i + 1))
    else if i + 1 >= |mem| then None
    else
      var c := mem[i + 1];
      if c == 110 then Some(Unit(10, i + 2))
      else if c == 116 then Some(Unit(9, i + 2))
      else if c == 114 then Some(Unit(13, i + 2))
      else if !IsOctal(c) then Some(Unit(c, i + 2))
      else if i + 2 >= |mem| then None
      else if !IsOctal(mem[i + 2]) then Some(Unit(Digit(c), i + 2))
      else if i + 3 >= |mem| then None
      else
        var v := Digit(c) * 8 + Digit(mem[i + 2]);
        if !IsOctal(mem[i + 3]) then Some(Unit(v, i + 3))
        else Some(Unit((v * 8 + Digit(mem[i + 3])) % 256, i + 4))
  }

  /** `resolve_backslashes` reading from i and writing from j on. The write index is never ahead of the
      read index. A backslash right before a terminator takes the terminator for the escaped
      character, and reading goes on behind it. */
  function ResolveMem(mem: Memory, i: nat, j: nat): (r: Option<Memory>)
    requires j <= i
    ensures r.Some? ==> |r.value| == |mem|
    decreases |mem| - i
  {
    if i >= |mem| then None
    else if mem[i] == 0 then Some(mem[j := 0])
    else
      match UnitAt(mem, i)
      case None => None
      case Some(u) => ResolveMem(mem[j := u.c], u.next, j + 1)
  }

  /** The part of the loop body that reads one escape. */
  method ReadUnit(z: array<Byte>, at: nat) returns (c: Byte, i: nat)
    requires at < z.Length && UnitAt(z[..], at).Some?
    ensures UnitAt(z[..], at) == Some(Unit(c, i + 1))
  {
    i, c := at, z[at];
    if c == BACKSLASH {
      i := i + 1;
      c := z[i];
      if c == 110 {
        c := 10;
      } else if c == 116 {
        c := 9;
      } else if c == 114 {
        c := 13;
      } else if IsOctal(c) {
        c := Digit(c);
        if IsOctal(z[i + 1]) {
          i := i + 1;
          c := c * 8 + Digit(z[i]);
          if IsOctal(z[i + 1]) {
            i := i + 1;
            var v: int := c;
            c := (v * 8 + Digit(z[i])) % 256;
          }
        }
      }
    }
  }

  lemma ResolveMemStep(mem: Memory, i: nat, j: nat)
    requires j <= i && ResolveMem(mem, i, j).Some?
    ensures i < |mem| && (mem[i] == 0 ==> ResolveMem(mem, i, j) == Some(mem[j := 0]))
    ensures mem[i] != 0 ==>
              var u := UnitAt(mem, i);
              u.Some? && ResolveMem(mem, i, j) == ResolveMem(mem[j := u.value.c], u.value.next, j + 1)
  {
    hide UnitAt;
  }

  method ResolveBackslashes(z: array<Byte>, p: nat)
    requires ResolveMem(z[..], p, p).Some?
    modifies z
    ensures ResolveMem(old(z[..]), p, p) == Some(z[..])
  {
    hide ResolveMem, UnitAt;
    var i: nat, j: nat := p, p;
    ResolveMemStep(z[..], i, j);
    while z[i] != 0
      invariant j <= i < z.Length && ResolveMem(z[..], i, j).Some?
      invariant ResolveMem(z[..], i, j) == ResolveMem(old(z[..]), p, p)
      decreases z.Length - i
    {
      ghost var mem := z[..];
      ResolveMemStep(mem, i, j);
      var c, last := ReadUnit(z, i);
      z[j] := c;
      assert z[..] == mem[j := c];
      i, j := last + 1, j + 1;
      ResolveMemStep(z[..], i, j);
    }
    ResolveMemStep(z[..], i, j);
    ghost var mem := z[..];
    z[j] := 0;
    assert z[..] == mem[j := 0];
  }

  /** The bytes from p up to end are a C string. */
  predicate IsText(mem: Memory, p: nat, end: nat) {
    p <= end < |mem| && mem[end] == 0 && forall k :: p <= k < end ==> mem[k] != 0
  }

  /** The buffer holds the bytes t from p on, followed by a terminator. */
  predicate Holds(mem: Memory, p: nat, t: seq<Byte>) {
    p + |t| < |mem| && mem[p..p + |t|] == t && mem[p + |t|] == 0
  }

  lemma UnitInside(mem: Memory, i: nat, n: nat)
    requires IsText(mem, i, n) && i < n && mem[i..n] != [BACKSLASH]
    ensures UnitAt(mem, i) == Some(Unit(UnitByte(mem[i..n]), i + UnitLength(mem[i..n])))
    ensures i + UnitLength(mem[i..n]) <= n
  {
    var t := mem[i..n];
    assert forall k :: 0 <= k < |t| ==> t[k] == mem[i + k];
    if |t| == 1 {
      assert t == [t[0]];
    }
  }

  ghost predicate SameOutside(mem: Memory, after: Memory, from: nat, to: nat) {
    |after| == |mem| && forall k :: 0 <= k < |mem| && !(from <= k < to) ==> after[k] == mem[k]
  }

  lemma ResolvedStep(mem: Memory, i: nat, j: nat, n: nat, u: Unit)
    requires j <= i < n && IsText(mem, i, n) && Complete(mem[i..n])
    requires u == Unit(UnitByte(mem[i..n]), i + UnitLength(mem[i..n]))
    ensures var after := mem[j := u.c];
            && u.next <= n && IsText(after, u.next, n) && Complete(after[u.next..n])
            && Resolve(mem[i..n]) == [u.c] + Resolve(after[u.next..n])
            && ResolveMem(mem, i, j) == ResolveMem(after, u.next, j + 1)
  {
    var t := mem[i..n];
    assert t != [BACKSLASH];
    UnitInside(mem, i, n);
    assert t[UnitLength(t)..] == mem[j := u.c][u.next..n];
  }

  /** What the rest of the loop leaves, seen from one character earlier. */
  ghost predicate Leaves(mem: Memory, after: Memory, j: nat, t: seq<Byte>) {
    Holds(after, j, t) && SameOutside(mem, after, j, j + |t| + 1)
  }

  lemma LeavesMore(mem: Memory, after: Memory, j: nat, c: Byte, t: seq<Byte>)
    requires j < |mem| && Leaves(mem[j := c], after, j + 1, t)
    ensures Leaves(mem, after, j, [c] + t)
  {
    assert after[j..j + 1 + |t|] == [after[j]] + after[j + 1..j + 1 + |t|];
  }

  /** On a text without a dangling backslash the loop does what `Resolve` says, and bytes outside
      the text and its terminator stay as they are. */
  lemma {:induction false} ResolvedInPlace(mem: Memory, i: nat, j: nat, n: nat)
    requires j <= i <= n < |mem| && IsText(mem, i, n) && Complete(mem[i..n])
    ensures ResolveMem(mem, i, j).Some?
    ensures var r, t := ResolveMem(mem, i, j).value, Resolve(mem[i..n]);
            |t| <= n - i && Leaves(mem, r, j, t)
    decreases n - i
  {
    hide UnitByte, UnitLength, UnitAt, ResolveMem, Resolve, Complete, Leaves, IsText;
    if i == n {
      ResolvedNothing(mem, j, n);
    } else {
      var u := Unit(UnitByte(mem[i..n]), i + UnitLength(mem[i..n]));
      ResolvedStep(mem, i, j, n, u);
      var after := mem[j := u.c];
      ResolvedInPlace(after, u.next, j + 1, n);
      var r := ResolveMem(after, u.next, j + 1).value;
      LeavesMore(mem, r, j, u.c, Resolve(after[u.next..n]));
    }
  }

  lemma ResolvedNothing(mem: Memory, j: nat, n: nat)
    requires j <= n < |mem| && IsText(mem, n, n)
    ensures ResolveMem(mem, n, j) == Some(mem[j := 0]) && Resolve(mem[n..n]) == [] && Leaves(mem, mem[j := 0], j, [])
  {
    assert mem[j := 0][j..j] == [];
  }

  lemma {:induction false} StopsInside(mem: Memory, i: nat, j: nat)
    requires j <= i < |mem| && IsText(mem, i, |mem| - 1)
    ensures ResolveMem(mem, i, j).Some? <==> Complete(mem[i..|mem| - 1])
    decreases |mem| - i
  {
    var n := |mem| - 1;
    var t := mem[i..n];
    if t == [BACKSLASH] {
      DanglingStop(mem, i, j);
    } else if i < n {
      hide UnitByte, UnitLength, UnitAt;
      UnitInside(mem, i, n);
      var u := Unit(UnitByte(t), i + UnitLength(t));
      var after := mem[j := u.c];
      assert IsText(after, u.next, n);
      assert after[u.next..n] == t[UnitLength(t)..];
      StopsInside(after, u.next, j + 1);
    }
  }

  lemma DanglingStop(mem: Memory, i: nat, j: nat)
    requires j <= i && |mem| == i + 2 && mem[i..i + 1] == [BACKSLASH] && mem[i + 1] == 0
    ensures ResolveMem(mem, i, j).None?
  {
    assert mem[i] == mem[i..i + 1][0];
    assert UnitAt(mem, i) == Some(Unit(0, i + 2));
  }

  /** The loop stays inside a text and its terminator exactly when no backslash dangles at the end. */
  lemma ResolveStaysInsideIff(t: seq<Byte>)
    requires NoNul(t)
    ensures ResolveMem(t + [0], 0, 0).Some? <==> Complete(t)
  {
    var mem := t + [0];
    assert mem[0..|t|] == t;
    assert forall k :: 0 <= k < |t| ==> mem[k] == t[k] && t[k] in t;
    StopsInside(mem, 0, 0);
  }

  // ----- tokens -----

  const MAX_ARGS := 50

  function Spaces(s: seq<Byte>): (n: nat)
    ensures n <= |s|
  {
    if s != [] && IsSpace(s[0]) then 1 + Spaces(s[1..]) else 0
  }

  /** Bytes up to the closing delimiter; inside double quotes a backslash protects the next byte. */
  function QuotedLength(s: seq<Byte>, delim: Byte): (n: nat)
    ensures n <= |s| && (n < |s| ==> s[n] == delim)
  {
    if s == [] || s[0] == delim then 0
    else if s[0] == BACKSLASH && delim == QUOTE && |s| > 1 then 2 + QuotedLength(s[2..], delim)
    else 1 + QuotedLength(s[1..], delim)
  }

  function WordLength(s: seq<Byte>): (n: nat)
    ensures n <= |s|
  {
    if s == [] || IsSpace(s[0]) then 0 else 1 + WordLength(s[1..])
  }

  predicate IsDelimiter(c: Byte) {
    c == APOSTROPHE || c == QUOTE
  }

  /** Where the raw text of the next token starts, how long it is, and whether it is dequoted. */
  datatype Token = Token(start: nat, length: nat, resolved: bool)

  /** The token at the start of a text that does not begin with a blank. */
  function FirstToken(s: seq<Byte>): (t: Token)
    requires s != []
    ensures t.start + t.length <= |s| && t.start <= 1
  {
    if IsDelimiter(s[0]) then Token(1, QuotedLength(s[1..], s[0]), s[0] == QUOTE)
    else Token(0, WordLength(s), true)
  }

  function Raw(s: seq<Byte>, t: Token): seq<Byte>
    requires t.start + t.length <= |s|
  {
    s[t.start..t.start + t.length]
  }

  function Argument(s: seq<Byte>, t: Token): seq<Byte>
    requires t.start + t.length <= |s|
  {
    if t.resolved then Resolve(Raw(s, t)) else Raw(s, t)
  }

  /** The text after a token and the byte that ended it. */
  function Beyond(s: seq<Byte>, t: Token): (n: nat)
    requires t.start + t.length <= |s|
    ensures n <= |s| && (s != [] && t == FirstToken(s) ==> n >= 1)
  {
    if t.start + t.length < |s| then t.start + t.length + 1 else |s|
  }

  /** The arguments of a command line, at most `limit` of them. */
  function Tokens(s: seq<Byte>, limit: nat): seq<seq<Byte>>
    decreases |s|
  {
    var k := Spaces(s);
    if limit == 0 || k == |s| then []
    else
      var r := s[k..];
      var t := FirstToken(r);
      [Argument(r, t)] + Tokens(r[Beyond(r, t)..], limit - 1)
  }

  // ----- the round trip -----

  lemma {:induction false} QuotedEnds(s: seq<Byte>, rest: seq<Byte>)
    requires NoNul(s)
    ensures QuotedLength(QuoteChars(s) + [QUOTE] + rest, QUOTE) == |QuoteChars(s)|
  {
    var text := QuoteChars(s) + [QUOTE] + rest;
    if s == [] {
      assert text[0] == QUOTE;
    } else {
      var head, tail := QuoteChar(s[0]), QuoteChars(s[1..]) + [QUOTE] + rest;
      assert text == head + tail;
      assert forall b :: b in s[1..] ==> b in s;
      QuotedEnds(s[1..], rest);
      QuotedStep(s[0], tail);
    }
  }

  lemma PlainStep(b: Byte, tail: seq<Byte>)
    requires b != QUOTE && b != BACKSLASH
    ensures QuotedLength([b] + tail, QUOTE) == 1 + QuotedLength(tail, QUOTE)
  {
    assert ([b] + tail)[1..] == tail;
  }

  lemma EscapeStep(b: Byte, tail: seq<Byte>)
    ensures QuotedLength([BACKSLASH, b] + tail, QUOTE) == 2 + QuotedLength(tail, QUOTE)
  {
    assert ([BACKSLASH, b] + tail)[2..] == tail;
  }

  lemma QuotedStep(c: Byte, tail: seq<Byte>)
    ensures QuotedLength(QuoteChar(c) + tail, QUOTE) == |QuoteChar(c)| + QuotedLength(tail, QUOTE)
  {
    hide QuotedLength;
    var q := QuoteChar(c);
    if |q| == 1 {
      PlainStep(c, tail);
    } else if |q| == 2 {
      EscapeStep(q[1], tail);
      assert q == [BACKSLASH, q[1]];
    } else {
      PlainStep(q[3], tail);
      PlainStep(q[2], [q[3]] + tail);
      EscapeStep(q[1], [q[2]] + ([q[3]] + tail));
      assert q + tail == [BACKSLASH, q[1]] + ([q[2]] + ([q[3]] + tail));
    }
  }

  /** Quoted strings separated by single blanks, as the shell's list output writes them. */
  function QuoteAll(ss: seq<seq<Byte>>): seq<Byte> {
    if ss == [] then [] else [SPACE] + Quote(ss[0]) + QuoteAll(ss[1..])
  }

  lemma FirstQuoted(s: seq<Byte>, rest: seq<Byte>)
    requires NoNul(s)
    ensures var text := Quote(s) + rest;
            var t := FirstToken(text);
            Argument(text, t) == s && text[Beyond(text, t)..] == rest
  {
    var text := Quote(s) + rest;
    assert text[1..] == QuoteChars(s) + [QUOTE] + rest;
    QuotedEnds(s, rest);
    var t := FirstToken(text);
    assert Raw(text, t) == QuoteChars(s);
    ResolveQuoted(s);
  }

  lemma TokensQuoted(s: seq<Byte>, rest: seq<Byte>, limit: nat)
    requires NoNul(s) && limit > 0
    ensures Tokens([SPACE] + Quote(s) + rest, limit) == [s] + Tokens(rest, limit - 1)
  {
    var quoted := Quote(s) + rest;
    var text := [SPACE] + Quote(s) + rest;
    assert quoted[0] == QUOTE && text[1..] == quoted;
    assert Spaces(quoted) == 0 && Spaces(text) == 1 + Spaces(text[1..]);
    hide Quote, Spaces, FirstToken, Argument, Beyond;
    FirstQuoted(s, rest);
  }

  lemma TokensNone(s: seq<Byte>, limit: nat)
    requires s == [] || limit == 0
    ensures Tokens(s, limit) == []
  {
  }

  lemma FirstAndRest(ss: seq<seq<Byte>>, limit: nat)
    requires ss != [] && limit > 0
    ensures (if |ss| <= limit then ss else ss[..limit]) ==
            [ss[0]] + (if |ss[1..]| <= limit - 1 then ss[1..] else ss[1..][..limit - 1])
  {
  }

  /** For every list of NUL-free strings the tokenizer finds exactly one token per string and
      dequoting gives the strings back, up to the number of arguments it has room for. */
  lemma {:induction false} QuotingRoundTrip(ss: seq<seq<Byte>>, limit: nat)
    requires forall i :: 0 <= i < |ss| ==> NoNul(ss[i])
    ensures Tokens(QuoteAll(ss), limit) == if |ss| <= limit then ss else ss[..limit]
  {
    hide Quote, Tokens, NoNul;
    if ss == [] || limit == 0 {
      TokensNone(QuoteAll(ss), limit);
    } else {
      TokensQuoted(ss[0], QuoteAll(ss[1..]), limit);
      QuotingRoundTrip(ss[1..], limit - 1);
      FirstAndRest(ss, limit);
    }
  }

  // ----- the token loop, in place -----

  function SkipBlanks(mem: Memory, i: nat): (r: Option<nat>)
    ensures r.Some? ==> i <= r.value < |mem| && !IsSpace(mem[r.value])
    decreases |mem| - i
  {
    if i >= |mem| then None else if IsSpace(mem[i]) then SkipBlanks(mem, i + 1) else Some(i)
  }

  function WordStop(mem: Memory, i: nat): (r: Option<nat>)
    ensures r.Some? ==> i <= r.value < |mem|
    decreases |mem| - i
  {
    if i >= |mem| then None else if mem[i] == 0 || IsSpace(mem[i]) then Some(i) else WordStop(mem, i + 1)
  }

  function QuoteStop(mem: Memory, i: nat, delim: Byte): (r: Option<nat>)
    ensures r.Some? ==> i <= r.value < |mem|
    decreases |mem| - i
  {
    if i >= |mem| then None
    else if mem[i] == 0 || mem[i] == delim then Some(i)
    else if mem[i] == BACKSLASH && delim == QUOTE then
      if i + 1 >= |mem| then None else QuoteStop(mem, if mem[i + 1] != 0 then i + 2 else i + 1, delim)
    else QuoteStop(mem, i + 1, delim)
  }

  /** The buffer after a token was cut out of it, where the token stands and where the scan goes on. */
  datatype Cut = Cut(mem: Memory, start: nat, next: nat)

  /** Terminate the token from `start` to `stop` and dequote it. */
  function Terminated(mem: Memory, start: nat, stop: nat, resolve: bool): (r: Option<Cut>)
    requires start <= stop < |mem|
    ensures r.Some? ==> |r.value.mem| == |mem| && r.value.start == start && stop <= r.value.next <= |mem|
    ensures r.Some? && mem[stop] != 0 ==> r.value.next == stop + 1
  {
    var next := if mem[stop] != 0 then stop + 1 else stop;
    if !resolve then Some(Cut(mem[stop := 0], start, next))
    else
      match ResolveMem(mem[stop := 0], start, start)
      case None => None
      case Some(m) => Some(Cut(m, start, next))
  }

  function CutToken(mem: Memory, i: nat): (r: Option<Cut>)
    requires i < |mem| && mem[i] != 0 && !IsSpace(mem[i])
    ensures r.Some? ==> |r.value.mem| == |mem| && i < r.value.next <= |mem|
  {
    var quoted := IsDelimiter(mem[i]);
    var start := if quoted then i + 1 else i;
    var stop := if quoted then QuoteStop(mem, start, mem[i]) else WordStop(mem, start);
    if stop.None? then None else Terminated(mem, start, stop.value, mem[i] != APOSTROPHE)
  }

  /** The buffer and the offsets of the arguments when the loop is done. */
  datatype Line = Line(mem: Memory, args: seq<nat>)

  /** The token loop of `do_meta_command` from position i on; None when it would read behind the buffer. */
  function TokenLoop(mem: Memory, i: nat, args: seq<nat>): Option<Line>
    decreases |mem| - i
  {
    if i >= |mem| then None
    else if mem[i] == 0 || |args| >= MAX_ARGS then Some(Line(mem, args))
    else
      match SkipBlanks(mem, i)
      case None => None
      case Some(k) =>
        if mem[k] == 0 then Some(Line(mem, args))
        else
          match CutToken(mem, k)
          case None => None
          case Some(c) => TokenLoop(c.mem, c.next, args + [c.start])
  }

  method FindWordStop(z: array<Byte>, i: nat) returns (e: nat)
    requires WordStop(z[..], i).Some?
    ensures WordStop(z[..], i) == Some(e)
  {
    e := i;
    while z[e] != 0 && !IsSpace(z[e])
      invariant WordStop(z[..], e).Some? && WordStop(z[..], e) == WordStop(z[..], i)
      decreases z.Length - e
    {
      e := e + 1;
    }
  }

  method FindQuoteStop(z: array<Byte>, i: nat, delim: Byte) returns (e: nat)
    requires QuoteStop(z[..], i, delim).Some?
    ensures QuoteStop(z[..], i, delim) == Some(e)
  {
    e := i;
    while z[e] != 0 && z[e] != delim
      invariant QuoteStop(z[..], e, delim).Some? && QuoteStop(z[..], e, delim) == QuoteStop(z[..], i, delim)
      decreases z.Length - e
    {
      if z[e] == BACKSLASH && delim == QUOTE && z[e + 1] != 0 {
        e := e + 1;
      }
      e := e + 1;
    }
  }

  /** Cut one token out of the line and dequote it where it stands. */
  method TakeToken(z: array<Byte>, i: nat) returns (start: nat, next: nat)
    requires i < z.Length && z[i] != 0 && !IsSpace(z[i]) && CutToken(z[..], i).Some?
    modifies z
    ensures CutToken(old(z[..]), i) == Some(Cut(z[..], start, next))
  {
    hide QuoteStop, WordStop, ResolveMem;
    var delim := z[i];
    var e;
    if IsDelimiter(delim) {
      start := i + 1;
      e := FindQuoteStop(z, start, delim);
    } else {
      start := i;
      e := FindWordStop(z, start);
    }
    ghost var mem := z[..];
    next := e;
    if z[e] != 0 {
      z[e] := 0;
      next := e + 1;
    }
    assert z[..] == mem[e := 0];
    if delim != APOSTROPHE {
      ResolveBackslashes(z, start);
    }
  }

  /** The token loop of `do_meta_command` on any line on which it stays inside the buffer. */
  method Tokenize(z: array<Byte>) returns (args: seq<nat>)
    requires TokenLoop(z[..], 1, []).Some?
    modifies z
    ensures TokenLoop(old(z[..]), 1, []) == Some(Line(z[..], args))
  {
    hide CutToken;
    var i := 1;
    args := [];
    while z[i] != 0 && |args| < MAX_ARGS
      invariant TokenLoop(z[..], i, args).Some? && TokenLoop(z[..], i, args) == TokenLoop(old(z[..]), 1, [])
      decreases z.Length - i
    {
      ghost var from := i;
      while IsSpace(z[i])
        invariant from <= i && SkipBlanks(z[..], i).Some? && SkipBlanks(z[..], i) == SkipBlanks(z[..], from)
        decreases z.Length - i
      {
        i := i + 1;
      }
      if z[i] == 0 {
        break;
      }
      var start, next := TakeToken(z, i);
      args := args + [start];
      i := next;
    }
  }

  // ----- what the token loop finds -----

  lemma {:induction false} BlanksAre(mem: Memory, i: nat, n: nat)
    requires IsText(mem, i, n)
    ensures SkipBlanks(mem, i) == Some(i + Spaces(mem[i..n]))
    decreases n - i
  {
    if i < n && IsSpace(mem[i]) {
      assert mem[i..n][1..] == mem[i + 1..n];
      BlanksAre(mem, i + 1, n);
    }
  }

  lemma {:induction false} WordIs(mem: Memory, i: nat, n: nat)
    requires IsText(mem, i, n)
    ensures WordStop(mem, i) == Some(i + WordLength(mem[i..n]))
    decreases n - i
  {
    if i < n && !IsSpace(mem[i]) {
      assert mem[i..n][1..] == mem[i + 1..n];
      WordIs(mem, i + 1, n);
    }
  }

  /** How far the scan of a quoted token moves past one character. */
  function Stride(mem: Memory, i: nat, delim: Byte): nat
    requires i + 1 < |mem|
  {
    if mem[i] == BACKSLASH && delim == QUOTE && mem[i + 1] != 0 then 2 else 1
  }

  lemma StopMoves(mem: Memory, i: nat, n: nat, delim: Byte)
    requires IsText(mem, i, n) && i < n && mem[i] != delim
    ensures var k := i + Stride(mem, i, delim);
            k <= n && IsText(mem, k, n) && QuoteStop(mem, i, delim) == QuoteStop(mem, k, delim)
  {
  }

  lemma LengthMoves(mem: Memory, i: nat, n: nat, delim: Byte)
    requires IsText(mem, i, n) && i < n && mem[i] != delim && i + Stride(mem, i, delim) <= n
    ensures var k := Stride(mem, i, delim);
            QuotedLength(mem[i..n], delim) == k + QuotedLength(mem[i + k..n], delim)
  {
    var t := mem[i..n];
    assert t[0] == mem[i];
    if |t| > 1 {
      assert t[1] == mem[i + 1] && t[2..] == mem[i + 2..n];
    }
    assert t[1..] == mem[i + 1..n];
  }

  lemma {:induction false} QuotedIs(mem: Memory, i: nat, n: nat, delim: Byte)
    requires IsText(mem, i, n)
    ensures QuoteStop(mem, i, delim) == Some(i + QuotedLength(mem[i..n], delim))
    decreases n - i
  {
    hide QuoteStop, QuotedLength, Stride;
    if i < n && mem[i] != delim {
      StopMoves(mem, i, n, delim);
      LengthMoves(mem, i, n, delim);
      StrideForward(mem, i, delim);
      QuotedIs(mem, i + Stride(mem, i, delim), n, delim);
    } else {
      StopsHere(mem, i, n, delim);
    }
  }

  lemma StrideForward(mem: Memory, i: nat, delim: Byte)
    requires i + 1 < |mem|
    ensures Stride(mem, i, delim) >= 1
  {
  }

  lemma StopsHere(mem: Memory, i: nat, n: nat, delim: Byte)
    requires IsText(mem, i, n) && (i == n || mem[i] == delim)
    ensures QuoteStop(mem, i, delim) == Some(i) && QuotedLength(mem[i..n], delim) == 0
  {
  }

  lemma StopIs(mem: Memory, i: nat, n: nat)
    requires IsText(mem, i, n) && i < n && !IsSpace(mem[i])
    ensures var t := FirstToken(mem[i..n]);
            var start, stop := i + t.start, i + t.start + t.length;
            && CutToken(mem, i) == Terminated(mem, start, stop, t.resolved) && stop <= n
            && Raw(mem[i..n], t) == mem[start..stop]
  {
    hide QuotedLength, WordLength, WordStop, QuoteStop, Terminated;
    var s := mem[i..n];
    if IsDelimiter(mem[i]) {
      assert s[1..] == mem[i + 1..n];
      QuotedIs(mem, i + 1, n, mem[i]);
    } else {
      WordIs(mem, i, n);
    }
    var t := FirstToken(s);
    SliceOfSlice(mem, i, n, t.start, t.start + t.length);
  }

  lemma SliceOfSlice(mem: Memory, i: nat, n: nat, a: nat, b: nat)
    requires i <= n <= |mem| && a <= b <= n - i
    ensures mem[i..n][a..b] == mem[i + a..i + b]
  {
    var s := mem[i..n];
    assert forall k :: 0 <= k < n - i ==> s[k] == mem[i + k];
    assert forall k :: 0 <= k < b - a ==> s[a..b][k] == s[a + k];
  }

  lemma TerminatedHolds(mem: Memory, start: nat, stop: nat, n: nat, resolve: bool)
    requires start <= stop <= n && IsText(mem, start, n) && (resolve ==> Complete(mem[start..stop]))
    ensures var raw := mem[start..stop];
            var t := if resolve then Resolve(raw) else raw;
            var r := Terminated(mem, start, stop, resolve);
            && r.Some? && |t| <= stop - start && Holds(r.value.mem, start, t) && SameOutside(mem, r.value.mem, start, stop + 1)
            && r.value.next == (if stop < n then stop + 1 else n) && r.value.mem[stop] == 0
  {
    hide Resolve, Complete, ResolveMem;
    var cut := mem[stop := 0];
    assert cut[start..stop] == mem[start..stop];
    if resolve {
      ResolvedInPlace(cut, start, start, stop);
    }
  }

  /** Cutting a token whose backslashes are all followed by something leaves the argument where it stands,
      terminated, and touches nothing behind the byte that ended it. */
  lemma CutHolds(mem: Memory, i: nat, n: nat)
    requires IsText(mem, i, n) && i < n && !IsSpace(mem[i])
    requires var t := FirstToken(mem[i..n]); t.resolved ==> Complete(Raw(mem[i..n], t))
    ensures var s := mem[i..n];
            var t, r := FirstToken(s), CutToken(mem, i);
            && r.Some? && r.value.next == i + Beyond(s, t) && r.value.start == i + t.start
            && Holds(r.value.mem, r.value.start, Argument(s, t)) && SameOutside(mem, r.value.mem, i, i + t.start + t.length + 1)
            && |Argument(s, t)| <= t.length && r.value.mem[i + t.start + t.length] == 0
  {
    hide Resolve, Complete, FirstToken, Terminated, CutToken, Holds;
    StopIs(mem, i, n);
    var t := FirstToken(mem[i..n]);
    TerminatedHolds(mem, i + t.start, i + t.start + t.length, n, t.resolved);
  }

  predicate Resolvable(s: seq<Byte>, limit: nat)
    decreases |s|
  {
    var k := Spaces(s);
    limit == 0 || k == |s| ||
    var r := s[k..];
    var t := FirstToken(r);
    (t.resolved ==> Complete(Raw(r, t))) && Resolvable(r[Beyond(r, t)..], limit - 1)
  }

  lemma {:induction false} SpacesSkipped(s: seq<Byte>)
    ensures Spaces(s) < |s| ==> !IsSpace(s[Spaces(s)])
  {
    if s != [] && IsSpace(s[0]) {
      SpacesSkipped(s[1..]);
    }
  }

  lemma TokensStep(s: seq<Byte>, limit: nat)
    requires limit > 0 && Resolvable(s, limit)
    ensures var k := Spaces(s);
            && (k == |s| ==> Tokens(s, limit) == [])
            && (k < |s| ==>
                  var r := s[k..]; var t := FirstToken(r);
                  && !IsSpace(r[0]) && (t.resolved ==> Complete(Raw(r, t)))
                  && Resolvable(r[Beyond(r, t)..], limit - 1)
                  && Tokens(s, limit) == [Argument(r, t)] + Tokens(r[Beyond(r, t)..], limit - 1))
  {
    SpacesSkipped(s);
  }

  ghost predicate AllHeld(mem: Memory, args: seq<nat>, tokens: seq<seq<Byte>>, end: nat) {
    && |args| == |tokens|
    && forall a :: 0 <= a < |args| ==> args[a] + |tokens[a]| < end && Holds(mem, args[a], tokens[a])
  }

  lemma HeldStays(mem: Memory, after: Memory, p: nat, t: seq<Byte>, from: nat, to: nat)
    requires Holds(mem, p, t) && p + |t| < from && SameOutside(mem, after, from, to)
    ensures Holds(after, p, t)
  {
    assert after[p..p + |t|] == mem[p..p + |t|];
  }

  /** One round of the loop: the next argument is cut and the ones before it are kept. */
  lemma RoundHolds(mem: Memory, i: nat, n: nat, args: seq<nat>, done: seq<seq<Byte>>)
    requires IsText(mem, i, n) && i < n && !IsSpace(mem[i]) && AllHeld(mem, args, done, i)
    requires var t := FirstToken(mem[i..n]); t.resolved ==> Complete(Raw(mem[i..n], t))
    ensures var s := mem[i..n];
            var t := FirstToken(s);
            var r, next := CutToken(mem, i), i + Beyond(s, t);
            && r.Some? && r.value.next == next && IsText(r.value.mem, next, n)
            && r.value.mem[next..n] == s[Beyond(s, t)..]
            && AllHeld(r.value.mem, args + [r.value.start], done + [Argument(s, t)], if next < n then next else n + 1)
  {
    hide Resolve, Complete, FirstToken, CutToken, Holds, Argument, Raw;
    CutHolds(mem, i, n);
    var s := mem[i..n];
    var t := FirstToken(s);
    var c := CutToken(mem, i).value;
    forall a | 0 <= a < |args|
      ensures Holds(c.mem, args[a], done[a])
    {
      HeldStays(mem, c.mem, args[a], done[a], i, i + t.start + t.length + 1);
    }
    assert c.mem[c.next..n] == s[Beyond(s, t)..];
  }

  lemma HeldUpTo(mem: Memory, args: seq<nat>, tokens: seq<seq<Byte>>, end: nat, end': nat)
    requires AllHeld(mem, args, tokens, end) && end <= end'
    ensures AllHeld(mem, args, tokens, end')
  {
  }

  lemma HeldLength(mem: Memory, args: seq<nat>, tokens: seq<seq<Byte>>, end: nat)
    requires AllHeld(mem, args, tokens, end)
    ensures |args| == |tokens|
  {
  }

  lemma LoopStops(mem: Memory, i: nat, args: seq<nat>)
    requires i < |mem| && (mem[i] == 0 || |args| >= MAX_ARGS)
    ensures TokenLoop(mem, i, args) == Some(Line(mem, args))
  {
  }

  lemma LoopEnds(mem: Memory, i: nat, args: seq<nat>)
    requires i < |mem| && SkipBlanks(mem, i).Some? && mem[SkipBlanks(mem, i).value] == 0
    ensures TokenLoop(mem, i, args) == Some(Line(mem, args))
  {
  }

  lemma LoopGoesOn(mem: Memory, i: nat, args: seq<nat>, k: nat, c: Cut)
    requires i < |mem| && mem[i] != 0 && |args| < MAX_ARGS
    requires SkipBlanks(mem, i) == Some(k) && mem[k] != 0 && CutToken(mem, k) == Some(c)
    ensures TokenLoop(mem, i, args) == TokenLoop(c.mem, c.next, args + [c.start])
  {
    hide CutToken, SkipBlanks;
  }

  lemma {:induction false} LoopFinds(mem: Memory, i: nat, n: nat, args: seq<nat>, done: seq<seq<Byte>>)
    requires IsText(mem, i, n) && |args| <= MAX_ARGS && Resolvable(mem[i..n], MAX_ARGS - |args|)
    requires AllHeld(mem, args, done, if i < n then i else n + 1)
    ensures TokenLoop(mem, i, args).Some?
    ensures var line := TokenLoop(mem, i, args).value;
            AllHeld(line.mem, line.args, done + Tokens(mem[i..n], MAX_ARGS - |args|), n + 1)
    decreases n - i
  {
    hide Resolve, Complete, FirstToken, Argument, Beyond, Raw, Tokens, Resolvable, Holds, CutToken, Spaces, TokenLoop, AllHeld;
    var s, limit := mem[i..n], MAX_ARGS - |args|;
    HeldLength(mem, args, done, if i < n then i else n + 1);
    if i == n || limit == 0 {
      TokensNone(s, limit);
      assert done + [] == done;
      LoopStops(mem, i, args);
      HeldUpTo(mem, args, done, if i < n then i else n + 1, n + 1);
    } else {
      TokensStep(s, limit);
      BlanksAre(mem, i, n);
      var k := i + Spaces(s);
      HeldUpTo(mem, args, done, i, if k < n then k else n + 1);
      if k < n {
        var r := mem[k..n];
        assert s[Spaces(s)..] == r;
        RoundHolds(mem, k, n, args, done);
        var c := CutToken(mem, k).value;
        var token := Argument(r, FirstToken(r));
        LoopGoesOn(mem, i, args, k, c);
        LoopFinds(c.mem, c.next, n, args + [c.start], done + [token]);
        RegroupTokens(done, token, Tokens(c.mem[c.next..n], limit - 1));
      } else {
        assert done + [] == done;
        LoopEnds(mem, i, args);
      }
    }
  }

  /** On every line without a dangling backslash the loop stays inside the line, and every argument stands,
      terminated and dequoted, at the offset returned for it. */
  lemma TokenizerFinds(mem: Memory, n: nat)
    requires 1 <= n && IsText(mem, 1, n) && Resolvable(mem[1..n], MAX_ARGS)
    ensures TokenLoop(mem, 1, []).Some?
    ensures var line, tokens := TokenLoop(mem, 1, []).value, Tokens(mem[1..n], MAX_ARGS);
            |line.args| == |tokens| && forall a :: 0 <= a < |tokens| ==> Holds(line.mem, line.args[a], tokens[a])
  {
    hide Resolvable, Tokens, TokenLoop, Holds;
    assert AllHeld(mem, [], [], if 1 < n then 1 else n + 1);
    LoopFinds(mem, 1, n, [], []);
    assert [] + Tokens(mem[1..n], MAX_ARGS) == Tokens(mem[1..n], MAX_ARGS);
  }

  lemma PlainTokenCut()
    ensures CutToken([46, 120, 32, 97, 92, 32, 98, 0], 1) == Some(Cut([46, 120, 0, 97, 92, 32, 98, 0], 1, 3))
  {
    var m0: Memory := [46, 120, 32, 97, 92, 32, 98, 0];
    var m1: Memory := [46, 120, 0, 97, 92, 32, 98, 0];
    assert WordStop(m0, 2) == Some(2);
    assert WordStop(m0, 1) == Some(2);
    assert m0[2 := 0] == m1 && m1[1 := 120] == m1 && m1[2 := 0] == m1;
    assert ResolveMem(m1, 2, 2) == Some(m1);
    assert ResolveMem(m1, 1, 1) == Some(m1);
  }

  lemma DanglingTokenCut()
    ensures CutToken([46, 120, 0, 97, 92, 32, 98, 0], 3) == Some(Cut([46, 120, 0, 97, 0, 98, 0, 0], 3, 6))
  {
    var m1: Memory := [46, 120, 0, 97, 92, 32, 98, 0];
    assert WordStop(m1, 5) == Some(5);
    assert WordStop(m1, 4) == Some(5);
    assert WordStop(m1, 3) == Some(5);
    DanglingResolved();
    assert m1[5 := 0] == [46, 120, 0, 97, 92, 0, 98, 0];
    hide ResolveMem;
  }

  lemma DanglingResolved()
    ensures ResolveMem([46, 120, 0, 97, 92, 0, 98, 0], 3, 3) == Some([46, 120, 0, 97, 0, 98, 0, 0])
  {
    var m2: Memory := [46, 120, 0, 97, 92, 0, 98, 0];
    var m3: Memory := [46, 120, 0, 97, 0, 0, 98, 0];
    var m4: Memory := [46, 120, 0, 97, 0, 98, 98, 0];
    var m5: Memory := [46, 120, 0, 97, 0, 98, 0, 0];
    assert m2[3 := 97] == m2 && m2[4 := 0] == m3 && m3[5 := 98] == m4 && m4[6 := 0] == m5;
    assert ResolveMem(m4, 7, 6) == Some(m5);
    assert ResolveMem(m3, 6, 5) == Some(m5);
    assert ResolveMem(m2, 4, 4) == Some(m5);
  }

  /** The line `.x a\ b`: the backslash swallows the terminator of its token, the resolver goes on into the
      next one, and the argument "b" is lost. */
  lemma DanglingBackslashLosesArgument()
    ensures TokenLoop([46, 120, 32, 97, 92, 32, 98, 0], 1, []) ==
            Some(Line([46, 120, 0, 97, 0, 98, 0, 0], [1, 3]))
  {
    hide CutToken;
    PlainTokenCut();
    DanglingTokenCut();
    var m1: Memory := [46, 120, 0, 97, 92, 32, 98, 0];
    var m5: Memory := [46, 120, 0, 97, 0, 98, 0, 0];
    assert [] + [1] == [1] && [1] + [3] == [1, 3];
    assert TokenLoop(m5, 6, [1, 3]) == Some(Line(m5, [1, 3]));
    assert TokenLoop(m1, 3, [1]) == Some(Line(m5, [1, 3]));
  }

  lemma RegroupTokens(done: seq<seq<Byte>>, token: seq<Byte>, rest: seq<seq<Byte>>)
    ensures done + ([token] + rest) == done + [token] + rest
  {
  }

  lemma QuotedFirstComplete(s: seq<Byte>, rest: seq<Byte>)
    requires NoNul(s)
    ensures var text := Quote(s) + rest;
            var t := FirstToken(text);
            t.resolved && Complete(Raw(text, t)) && text[Beyond(text, t)..] == rest
  {
    var text := Quote(s) + rest;
    assert text[1..] == QuoteChars(s) + [QUOTE] + rest;
    QuotedEnds(s, rest);
    assert Raw(text, FirstToken(text)) == QuoteChars(s);
    ResolveQuoted(s);
  }

  lemma ResolvableQuoted(s: seq<Byte>, rest: seq<Byte>, limit: nat)
    requires NoNul(s) && limit > 0 && Resolvable(rest, limit - 1)
    ensures Resolvable([SPACE] + Quote(s) + rest, limit)
  {
    hide Quote, Spaces, FirstToken, Raw, Beyond, Complete;
    OneBlankFirst(s, rest);
    QuotedFirstComplete(s, rest);
  }

  lemma OneBlankFirst(s: seq<Byte>, rest: seq<Byte>)
    ensures var text := [SPACE] + Quote(s) + rest; Spaces(text) == 1 < |text| && text[1..] == Quote(s) + rest
  {
    var quoted := Quote(s) + rest;
    var text := [SPACE] + Quote(s) + rest;
    assert quoted[0] == QUOTE && text[1..] == quoted;
    assert Spaces(quoted) == 0 && Spaces(text) == 1 + Spaces(text[1..]);
  }

  lemma {:induction false} QuoteCharsNoNul(s: seq<Byte>)
    ensures NoNul(QuoteChars(s))
  {
    if s != [] {
      QuoteCharsNoNul(s[1..]);
    }
  }

  /** What is written may be handed to the token loop: no NUL and no dangling backslash in it. */
  lemma {:induction false} QuotedLineIsAccepted(ss: seq<seq<Byte>>, limit: nat)
    requires forall i :: 0 <= i < |ss| ==> NoNul(ss[i])
    ensures NoNul(QuoteAll(ss)) && Resolvable(QuoteAll(ss), limit)
  {
    if ss != [] {
      QuoteCharsNoNul(ss[0]);
      QuotedLineIsAccepted(ss[1..], if limit > 0 then limit - 1 else 0);
      if limit > 0 {
        ResolvableQuoted(ss[0], QuoteAll(ss[1..]), limit);
      }
    }
  }

  /** The whole way round: strings written with `output_c_string` behind a dot, each after a blank, and read
      back by the token loop stand at the offsets it returns, whatever lies behind the line. */
  lemma QuotedLineReadBack(ss: seq<seq<Byte>>, behind: Memory)
    requires |ss| <= 50 && forall i :: 0 <= i < |ss| ==> NoNul(ss[i])
    ensures var r := TokenLoop([46] + QuoteAll(ss) + [0] + behind, 1, []);
            && r.Some? && |r.value.args| == |ss|
            && forall a :: 0 <= a < |ss| ==> Holds(r.value.mem, r.value.args[a], ss[a])
  {
    hide NoNul, QuoteAll, TokenLoop, Tokens, Resolvable, Holds;
    QuotedLineIsAccepted(ss, MAX_ARGS);
    QuotingRoundTrip(ss, MAX_ARGS);
    LineText(QuoteAll(ss), behind);
    TokenizerFinds([46] + QuoteAll(ss) + [0] + behind, 1 + |QuoteAll(ss)|);
  }

  lemma LineText(s: seq<Byte>, behind: Memory)
    requires NoNul(s)
    ensures var mem := [46] + s + [0] + behind;
            IsText(mem, 1, 1 + |s|) && mem[1..1 + |s|] == s
  {
    var mem := [46] + s + [0] + behind;
    assert forall k :: 1 <= k < 1 + |s| ==> mem[k] == s[k - 1] && s[k - 1] in s;
  }

  // ----- how texts are written and split -----

  /** A byte that is written as it is. */
  predicate Plain(c: Byte) {
    32 <= c <= 126 && c != 34 && c != 92
  }

  /** Printable bytes other than quote and backslash are written as they are, five bytes with a letter or themselves after a
      backslash, all others as three octal digits. */
  lemma WrittenAs(c: Byte)
    ensures QuoteChar(c) == [c] <==> Plain(c)
    ensures |QuoteChar(c)| == 2 <==> c in {9, 10, 13, 34, 92}
    ensures |QuoteChar(c)| == 4 <==> !Plain(c) && c !in {9, 10, 13, 34, 92}
    ensures |QuoteChar(c)| == 4 ==> forall k :: 1 <= k < 4 ==> 48 <= QuoteChar(c)[k] <= 55
  {
  }

  /** The letters are those of C. */
  lemma NamedEscapes()
    ensures QuoteChar(9) == [92, 116] && QuoteChar(10) == [92, 110] && QuoteChar(13) == [92, 114]
    ensures QuoteChar(34) == [92, 34] && QuoteChar(92) == [92, 92] && QuoteChar(7) == [92, 48, 48, 55]
  {
  }

  lemma {:induction false} NotShorter(s: seq<Byte>)
    ensures |QuoteChars(s)| >= |s|
  {
    if s != [] {
      NotShorter(s[1..]);
    }
  }

  /** A text is written unchanged exactly when all its bytes are plain. */
  lemma {:induction false} PlainIsUnchanged(s: seq<Byte>)
    ensures QuoteChars(s) == s <==> forall i :: 0 <= i < |s| ==> Plain(s[i])
  {
    if s != [] {
      var rest := s[1..];
      PlainIsUnchanged(rest);
      NotShorter(rest);
      WrittenAs(s[0]);
      assert forall i :: 0 <= i < |rest| ==> rest[i] == s[i + 1];
      assert s == [s[0]] + rest;
      hide QuoteChar, Plain;
      if |QuoteChar(s[0])| > 1 {
        assert |QuoteChars(s)| > |s|;
      } else if forall i :: 0 <= i < |rest| ==> Plain(rest[i]) {
        forall i | 1 <= i < |s|
          ensures Plain(s[i])
        {
          assert s[i] == rest[i - 1];
        }
      } else {
        assert QuoteChars(s)[1..] == QuoteChars(rest);
      }
    }
  }

  /** What the resolver makes of an escape: C's letters, and any other character for itself. */
  lemma EscapesRead()
    ensures Resolve([92, 110]) == [10] && Resolve([92, 116]) == [9] && Resolve([92, 114]) == [13]
    ensures Resolve([92, 34]) == [34] && Resolve([92, 92]) == [92] && Resolve([92, 120]) == [120]
  {
    hide Resolve;
    WholeEscape([92, 110]);
    WholeEscape([92, 116]);
    WholeEscape([92, 114]);
    WholeEscape([92, 34]);
    WholeEscape([92, 92]);
    WholeEscape([92, 120]);
  }

  /** Up to three octal digits, with the value cut to a byte. */
  lemma OctalsRead()
    ensures Resolve([92, 55]) == [7] && Resolve([92, 49, 48]) == [8] && Resolve([92, 49, 48, 49]) == [65]
    ensures Resolve([92, 52, 48, 49]) == [1] && Resolve([92, 55, 56]) == [7, 56]
  {
    hide Resolve;
    WholeEscape([92, 55]);
    WholeEscape([92, 49, 48]);
    WholeEscape([92, 49, 48, 49]);
    WholeEscape([92, 52, 48, 49]);
    WholeEscape([56]);
    FirstEscape([92, 55, 56]);
    assert [92, 55, 56][2..] == [56];
  }

  lemma FirstEscape(s: seq<Byte>)
    requires s != []
    ensures Resolve(s) == [UnitByte(s)] + Resolve(s[UnitLength(s)..])
  {
  }

  lemma WholeEscape(s: seq<Byte>)
    requires s != [] && UnitLength(s) == |s|
    ensures Resolve(s) == [UnitByte(s)]
  {
    assert s[|s|..] == [];
  }

  /** A text without a backslash is left as it is. */
  lemma {:induction false} NothingToResolve(s: seq<Byte>)
    requires 92 !in s
    ensures Resolve(s) == s && Complete(s)
  {
    if s != [] {
      assert s[0] in s && forall b :: b in s[1..] ==> b in s;
      NothingToResolve(s[1..]);
      assert [s[0]] + s[1..] == s;
    }
  }

  /** The six blanks of C. */
  predicate Blank(c: Byte) {
    c == 32 || c == 9 || c == 10 || c == 11 || c == 12 || c == 13
  }

  predicate AllBlank(s: seq<Byte>) {
    forall i :: 0 <= i < |s| ==> Blank(s[i])
  }

  /** A word that needs no quoting. */
  predicate PlainWord(w: seq<Byte>) {
    w != [] && w[0] != 34 && w[0] != 39 && forall i :: 0 <= i < |w| ==> !Blank(w[i]) && w[i] != 92
  }

  lemma {:induction false} BlanksSkipped(b: seq<Byte>, rest: seq<Byte>)
    requires AllBlank(b) && (rest == [] || !Blank(rest[0]))
    ensures Spaces(b + rest) == |b|
  {
    if b == [] {
      assert b + rest == rest;
    } else {
      assert (b + rest)[1..] == b[1..] + rest;
      BlanksSkipped(b[1..], rest);
    }
  }

  lemma {:induction false} WordEnds(w: seq<Byte>, rest: seq<Byte>)
    requires (forall i :: 0 <= i < |w| ==> !Blank(w[i])) && (rest == [] || Blank(rest[0]))
    ensures WordLength(w + rest) == |w|
  {
    if w == [] {
      assert w + rest == rest;
    } else {
      assert (w + rest)[1..] == w[1..] + rest;
      WordEnds(w[1..], rest);
    }
  }

  /** A plain word after any blanks is one argument, and the blank that ends it is consumed. */
  lemma WordIsArgument(b: seq<Byte>, w: seq<Byte>, rest: seq<Byte>, limit: nat)
    requires AllBlank(b) && PlainWord(w) && (rest == [] || Blank(rest[0])) && limit > 0
    ensures Tokens(b + w + rest, limit) == [w] + Tokens(if rest == [] then [] else rest[1..], limit - 1)
  {
    var r := w + rest;
    var text := b + w + rest;
    assert text == b + r && r[0] == w[0];
    BlanksSkipped(b, r);
    assert text[|b|..] == r;
    WordEnds(w, rest);
    var t := FirstToken(r);
    assert t == Token(0, |w|, true);
    assert Raw(r, t) == w;
    assert 92 !in w;
    NothingToResolve(w);
    assert r[Beyond(r, t)..] == if rest == [] then [] else rest[1..];
    hide FirstToken, Beyond, Raw, Spaces, Resolve;
  }

  /** Words, each after its blanks. */
  function WordLine(ws: seq<seq<Byte>>, bs: seq<seq<Byte>>): seq<Byte>
    requires |ws| == |bs|
  {
    if ws == [] then [] else bs[0] + ws[0] + WordLine(ws[1..], bs[1..])
  }

  lemma FirstBlankDropped(ws: seq<seq<Byte>>, bs: seq<seq<Byte>>)
    requires |ws| == |bs| > 0 && bs[0] != []
    ensures var line, fewer := WordLine(ws, bs), [bs[0][1..]] + bs[1..];
            line != [] && line[0] == bs[0][0] && line[1..] == WordLine(ws, fewer)
  {
    var fewer := [bs[0][1..]] + bs[1..];
    assert fewer[1..] == bs[1..] && fewer[0] == bs[0][1..];
    var rest := WordLine(ws[1..], bs[1..]);
    assert WordLine(ws, fewer) == fewer[0] + ws[0] + rest;
    hide WordLine;
    assert bs[0] == [bs[0][0]] + bs[0][1..];
    assert bs[0] + ws[0] + rest == [bs[0][0]] + (bs[0][1..] + ws[0] + rest);
  }

  /** Words after blanks, none missing but perhaps the first. */
  predicate Separated(ws: seq<seq<Byte>>, bs: seq<seq<Byte>>) {
    && |ws| == |bs|
    && (forall i :: 0 <= i < |ws| ==> PlainWord(ws[i]) && AllBlank(bs[i]))
    && (forall i :: 1 <= i < |bs| ==> bs[i] != [])
  }

  lemma SeparatedRest(ws: seq<seq<Byte>>, bs: seq<seq<Byte>>)
    requires Separated(ws, bs) && |ws| > 1
    ensures bs[1] != [] && Blank(bs[1][0]) && Separated(ws[1..], [bs[1][1..]] + bs[1..][1..])
  {
    hide PlainWord, Blank;
    var fewer := [bs[1][1..]] + bs[1..][1..];
    assert AllBlank(bs[1]);
    forall i | 0 <= i < |fewer|
      ensures AllBlank(fewer[i]) && (i >= 1 ==> fewer[i] != [])
    {
      assert i >= 1 ==> fewer[i] == bs[i + 1];
    }
  }

  /** Words without quotes and backslashes, separated by any blanks, are the arguments. */
  lemma {:induction false} WordsAreArguments(ws: seq<seq<Byte>>, bs: seq<seq<Byte>>, limit: nat)
    requires Separated(ws, bs) && |ws| <= limit
    ensures Tokens(WordLine(ws, bs), limit) == ws
  {
    hide Separated, PlainWord, AllBlank, Tokens, WordLine, Blank;
    SeparatedFirst(ws, bs);
    if ws == [] {
      TokensNone([], limit);
    } else {
      var rest := WordLine(ws[1..], bs[1..]);
      WordIsArgument(bs[0], ws[0], rest, limit);
      if |ws| > 1 {
        SeparatedRest(ws, bs);
        FirstBlankDropped(ws[1..], bs[1..]);
        WordsAreArguments(ws[1..], [bs[1][1..]] + bs[1..][1..], limit - 1);
      } else {
        TokensNone([], limit - 1);
      }
      assert [ws[0]] + ws[1..] == ws;
    }
  }

  lemma SeparatedFirst(ws: seq<seq<Byte>>, bs: seq<seq<Byte>>)
    requires Separated(ws, bs)
    ensures |ws| == |bs| && (ws == [] ==> WordLine(ws, bs) == [])
    ensures ws != [] ==>
              var rest := WordLine(ws[1..], bs[1..]);
              && PlainWord(ws[0]) && AllBlank(bs[0]) && WordLine(ws, bs) == bs[0] + ws[0] + rest
              && (if |ws| == 1 then rest == [] else rest != [] && Blank(rest[0]))
  {
    hide PlainWord, Blank;
    if |ws| > 1 {
      SeparatedRest(ws, bs);
      FirstBlankDropped(ws[1..], bs[1..]);
    }
  }

  lemma {:induction false} ApostropheEnds(s: seq<Byte>, rest: seq<Byte>)
    requires 39 !in s
    ensures QuotedLength(s + [39] + rest, 39) == |s|
  {
    var text := s + [39] + rest;
    if s == [] {
      assert text[0] == 39;
    } else {
      assert text[0] == s[0] && s[0] in s && text[1..] == s[1..] + [39] + rest;
      ApostropheEnds(s[1..], rest);
    }
  }

  /** Between apostrophes everything is taken as it stands, blanks, quotes and backslashes included. */
  lemma ApostrophesKeepText(s: seq<Byte>, rest: seq<Byte>, limit: nat)
    requires 39 !in s && limit > 0
    ensures Tokens([39] + s + [39] + rest, limit) == [s] + Tokens(rest, limit - 1)
  {
    var text := [39] + s + [39] + rest;
    assert text[1..] == s + [39] + rest && text[0] == 39;
    ApostropheEnds(s, rest);
    assert Spaces(text) == 0 && text[0..] == text;
    var t := FirstToken(text);
    assert t == Token(1, |s|, false);
    assert Raw(text, t) == s && text[Beyond(text, t)..] == rest;
    hide FirstToken, Beyond, Raw, Spaces, Resolve;
  }
}
