/** String literals: reading them from the source text, and writing them into the generated module. */
module Strings {

  const NUL: char := '\0'
  const BELL: char := 7 as char
  const BACKSPACE: char := 8 as char
  const VTAB: char := 11 as char
  const FEED: char := 12 as char

  function ConvertControlCharacter(c: char): char {
    if c == '0' then NUL
    else if c == 'A' || c == 'a' then BELL
    else if c == 'B' || c == 'b' then BACKSPACE
    else if c == 'T' || c == 't' then '\t'
    else if c == 'N' || c == 'n' then '\n'
    else if c == 'V' || c == 'v' then VTAB
    else if c == 'F' || c == 'f' then FEED
    else if c == 'R' || c == 'r' then '\r'
    else c
  }

  /** The code that each letter behind a backslash stands for, and that every other character stands for itself. */
  lemma EscapeCodes(c: char)
    ensures var code := ConvertControlCharacter(c) as int;
            && (c == '0' ==> code == 0) && (c in "aA" ==> code == 7) && (c in "bB" ==> code == 8)
            && (c in "tT" ==> code == 9) && (c in "nN" ==> code == 10) && (c in "vV" ==> code == 11)
            && (c in "fF" ==> code == 12) && (c in "rR" ==> code == 13)
            && (c !in "0aAbBtTnNvVfFrR" ==> code == c as int)
  {
  }

  // Reading

  /** Every backslash has a character to act on. */
  predicate IsText(t: seq<char>) {
    if t == [] then true
    else if t[0] != '\\' then IsText(t[1..])
    else |t| >= 2 && IsText(t[2..])
  }

  function Decode(t: seq<char>): seq<char>
    requires IsText(t)
  {
    if t == [] then []
    else if t[0] != '\\' then [t[0]] + Decode(t[1..])
    else [ConvertControlCharacter(t[1])] + Decode(t[2..])
  }

  /** A literal as the lexer matches it, or a text without quotes around it. */
  predicate Readable(s: seq<char>) {
    && NUL !in s
    && if s != [] && s[0] == '"' then |s| >= 2 && IsText(s[1..|s| - 1]) && s[|s| - 1] != '\\' else IsText(s)
  }

  function Body(s: seq<char>): seq<char>
    requires Readable(s)
  {
    if s != [] && s[0] == '"' then s[1..|s| - 1] else s
  }

  lemma {:induction false} TextEnd(t: seq<char>, c: char)
    requires IsText(t) && c != '\\'
    ensures IsText(t + [c]) && Decode(t + [c]) == Decode(t) + [c]
    decreases |t|
  {
    if t == [] {
      assert ([c])[1..] == [];
    } else if t[0] != '\\' {
      assert (t + [c])[1..] == t[1..] + [c];
      TextEnd(t[1..], c);
    } else {
      assert (t + [c])[2..] == t[2..] + [c];
      TextEnd(t[2..], c);
    }
  }

  lemma {:induction false} DecodeShrinks(t: seq<char>)
    requires IsText(t)
    ensures |Decode(t)| <= |t|
    decreases |t|
  {
    if t != [] {
      DecodeShrinks(if t[0] != '\\' then t[1..] else t[2..]);
    }
  }

  /** The buffer holds the decoded characters and a NUL at the reported length. The closing quote is copied into the
      place of that NUL first. */
  method ProcessStringLiteral(s: seq<char>) returns (outBuf: array<char>, outLen: nat)
    requires Readable(s)
    ensures fresh(outBuf) && outBuf.Length == |s| + 1
    ensures outLen == |Decode(Body(s))| && outLen < outBuf.Length
    ensures outBuf[..outLen] == Decode(Body(s)) && outBuf[outLen] == NUL
  {
    hide ConvertControlCharacter, Decode, IsText, Readable, Body;
    var len: int := |s|;
    outBuf := new char[len + 1];
    var i, j := 0, 0;
    ghost var start := if s != [] && s[0] == '"' then 1 else 0;
    ghost var all := Whole(s);
    if |s| > 0 && s[0] == '"' {
      len := len - 2;
      i := i + 1;
    }
    while i < |s|
      invariant start <= i <= |s| && j <= |all| < outBuf.Length && IsText(s[i..])
      invariant Decode(s[i..]) == all[j..] && forall k :: 0 <= k < j ==> outBuf[k] == all[k]
      invariant len + i == |Body(s)| + start + j
      decreases |s| - i
      modifies outBuf
    {
      FirstDecoded(s, i, all, j);
      if s[i] != '\\' {
        outBuf[j] := s[i];
      } else {
        len := len - 1;
        i := i + 1;
        outBuf[j] := ConvertControlCharacter(s[i]);
      }
      assert outBuf[j] == all[j];
      j := j + 1;
      i := i + 1;
    }
    assert s[i..] == [] && |all[j..]| == 0 by { NothingLeft(); }
    outBuf[len] := NUL;
    outLen := len;
    assert outBuf[..len] == all[..len];
  }

  lemma NothingLeft()
    ensures IsText([]) && Decode([]) == []
  {
  }

  /** All that the loop decodes: the text and, if there is one, the closing quote. */
  lemma Whole(s: seq<char>) returns (all: seq<char>)
    requires Readable(s)
    ensures var start := if s != [] && s[0] == '"' then 1 else 0;
            && start <= |s| && IsText(s[start..]) && all == Decode(s[start..]) && |all| <= |s|
            && |Body(s)| == |s| - 2 * start
            && |all| == |Decode(Body(s))| + start && all[..|all| - start] == Decode(Body(s))
  {
    if s != [] && s[0] == '"' {
      TextEnd(Body(s), s[|s| - 1]);
      assert s[1..] == Body(s) + [s[|s| - 1]];
      all := Decode(s[1..]);
      DecodeShrinks(s[1..]);
    } else {
      assert s[0..] == s;
      all := Decode(s);
      DecodeShrinks(s);
    }
  }

  /** The next character or escape decodes to the next decoded character. */
  lemma FirstDecoded(s: seq<char>, i: nat, all: seq<char>, j: nat)
    requires i < |s| && IsText(s[i..]) && j <= |all| && Decode(s[i..]) == all[j..]
    ensures j < |all|
    ensures s[i] == '\\' ==> i + 1 < |s|
    ensures var n := if s[i] == '\\' then i + 2 else i + 1;
            && all[j] == (if s[i] == '\\' then ConvertControlCharacter(s[i + 1]) else s[i])
            && IsText(s[n..]) && Decode(s[n..]) == all[j + 1..]
  {
    var t := s[i..];
    assert t[0] == s[i];
    assert all[j..][0] == all[j] && all[j..][1..] == all[j + 1..];
    if s[i] == '\\' {
      assert t[1] == s[i + 1] && t[2..] == s[i + 2..];
    } else {
      assert t[1..] == s[i + 1..];
    }
  }

  /** One way to write a character inside quotes. */
  function EscapeChar(c: char): seq<char> {
    if c == NUL then ['\\', '0']
    else if c == BELL then ['\\', 'a']
    else if c == BACKSPACE then ['\\', 'b']
    else if c == '\t' then ['\\', 't']
    else if c == '\n' then ['\\', 'n']
    else if c == VTAB then ['\\', 'v']
    else if c == FEED then ['\\', 'f']
    else if c == '\r' then ['\\', 'r']
    else if c == '"' || c == '\\' then ['\\', c]
    else [c]
  }

  function Escape(t: seq<char>): seq<char> {
    if t == [] then [] else EscapeChar(t[0]) + Escape(t[1..])
  }

  function Quoted(t: seq<char>): seq<char> {
    ['"'] + Escape(t) + ['"']
  }

  lemma {:induction false} DecodeEscape(t: seq<char>)
    ensures IsText(Escape(t)) && Decode(Escape(t)) == t && NUL !in Escape(t)
  {
    if t != [] {
      DecodeEscape(t[1..]);
      var e, rest := EscapeChar(t[0]), Escape(t[1..]);
      assert (e + rest)[|e|..] == rest;
      if |e| == 2 {
        assert (e + rest)[0] == '\\' && (e + rest)[1] == e[1];
        assert ConvertControlCharacter(e[1]) == t[0];
      }
    }
  }

  /** Every string can be written as a literal, and reading the literal gives it back, with its length. */
  lemma EveryStringHasALiteral(t: seq<char>)
    ensures Readable(Quoted(t)) && Decode(Body(Quoted(t))) == t
  {
    DecodeEscape(t);
    assert Quoted(t)[1..|Quoted(t)| - 1] == Escape(t);
  }

  // Writing

  /** What the C library calls a control character, in the locale that a program starts in. */
  predicate IsControl(c: char) {
    (c as int) < 32 || (c as int) == 127
  }

  function HexDigit(n: nat): char
    requires n < 16
  {
    "0123456789ABCDEF"[n]
  }

  function HexValue(c: char): int {
    if '0' <= c <= '9' then (c - '0') as int
    else if 'A' <= c <= 'F' then (c - 'A') as int + 10
    else if 'a' <= c <= 'f' then (c - 'a') as int + 10
    else -1
  }

  predicate IsHex(c: char) {
    HexValue(c) >= 0
  }

  function HexByte(a: char, b: char): char
    requires IsHex(a) && IsHex(b)
  {
    (HexValue(a) * 16 + HexValue(b)) as char
  }

  /** The bytes of a string, without the one that ends it. */
  predicate IsPlain(s: seq<char>) {
    forall i :: 0 <= i < |s| ==> 0 < s[i] as int < 256
  }

  function EmitChar(c: char): seq<char> {
    if IsControl(c) then ['\\', HexDigit(c as int / 16), HexDigit(c as int % 16)] else [c]
  }

  function EmitText(s: seq<char>): seq<char>
    requires IsPlain(s)
  {
    if s == [] then ['\\', '0', '0'] else EmitChar(s[0]) + EmitText(s[1..])
  }

  /** No character between space and the end of the printable ones is escaped, and no other character is left. */
  lemma EmittedCodes(c: char)
    requires 0 < c as int < 256
    ensures EmitChar(c) == [c] <==> c as int >= 32 && c as int != 127
    ensures forall i :: 0 <= i < |EmitChar(c)| ==> EmitChar(c)[i] as int >= 32 && EmitChar(c)[i] as int != 127
    ensures EmitChar(c) != [c] ==> |EmitChar(c)| == 3 && EmitChar(c)[0] == '\\' && IsHex(EmitChar(c)[1])
                                   && IsHex(EmitChar(c)[2]) && HexByte(EmitChar(c)[1], EmitChar(c)[2]) == c
    ensures EmitChar(c) != [c] ==> forall i :: 1 <= i < 3 ==> EmitChar(c)[i] <= '9' || 'A' <= EmitChar(c)[i] <= 'F'
  {
    if IsControl(c) {
      HexRoundTrip(c as int / 16);
      HexRoundTrip(c as int % 16);
    }
  }

  /** What is between the quotes, and the length that is declared for it. */
  method LlvmEmitString(s: seq<char>) returns (text: seq<char>, declared: nat)
    requires IsPlain(s)
    ensures text == EmitText(s) && declared == |s| + 1
  {
    declared := |s| + 1;
    text := [];
    var i := 0;
    assert s[0..] == s && [] + EmitText(s) == EmitText(s);
    while i < |s|
      invariant 0 <= i <= |s| && EmitText(s) == text + EmitText(s[i..])
    {
      ghost var rest := EmitText(s[i + 1..]);
      assert s[i..][1..] == s[i + 1..];
      assert text + (EmitChar(s[i]) + rest) == text + EmitChar(s[i]) + rest;
      if !IsControl(s[i]) {
        text := text + [s[i]];
      } else {
        text := text + ['\\', HexDigit(s[i] as int / 16), HexDigit(s[i] as int % 16)];
      }
      i := i + 1;
    }
    assert s[i..] == [];
    text := text + ['\\', '0', '0'];
  }

  datatype Reading = NotAString | Read(s: seq<char>)

  /** How LLVM reads a string constant: a backslash before two hexadecimal digits or before another backslash is an
      escape, and a quote would end the constant. */
  function LlvmRead(t: seq<char>): Reading {
    if t == [] then Read([])
    else if t[0] == '"' then NotAString
    else if t[0] == '\\' && |t| >= 2 && t[1] == '\\' then Then('\\', LlvmRead(t[2..]))
    else if t[0] == '\\' && |t| >= 3 && IsHex(t[1]) && IsHex(t[2]) then
      Then(HexByte(t[1], t[2]), LlvmRead(t[3..]))
    else Then(t[0], LlvmRead(t[1..]))
  }

  function Then(c: char, r: Reading): Reading {
    if r.Read? then Read([c] + r.s) else NotAString
  }

  lemma HexRoundTrip(n: nat)
    requires n < 16
    ensures HexValue(HexDigit(n)) == n && HexDigit(n) != '\\' && HexDigit(n) != '"'
  {
  }

  /** The backslash at the start of `s` stays one: it is not followed by another, by a character that is itself
      written with a backslash (the final NUL is), or by two hexadecimal digits. */
  predicate Stays(s: seq<char>)
    requires s != []
  {
    |s| >= 2 && s[1] != '\\' && !IsControl(s[1]) && !(IsHex(s[1]) && |s| >= 3 && IsHex(s[2]))
  }

  predicate Survives(s: seq<char>) {
    s == [] || (s[0] != '"' && (s[0] == '\\' ==> Stays(s)) && Survives(s[1..]))
  }

  /** How the text of a string is read, from its first characters. */
  function ReadText(s: seq<char>): Reading
    requires IsPlain(s)
  {
    LlvmRead(EmitText(s))
  }

  lemma ReadEnd()
    ensures ReadText([]) == Read([NUL])
  {
    HexRoundTrip(0);
    assert ['\\', '0', '0'][3..] == [];
    assert LlvmRead([]) == Read([]);
  }

  lemma ReadOrdinary(s: seq<char>)
    requires IsPlain(s) && s != [] && s[0] != '\\' && s[0] != '"'
    ensures ReadText(s) == Then(s[0], ReadText(s[1..]))
  {
    var c, rest := s[0], EmitText(s[1..]);
    if IsControl(c) {
      HexRoundTrip(c as int / 16);
      HexRoundTrip(c as int % 16);
      var e := EmitChar(c);
      assert (e + rest)[3..] == rest && (e + rest)[0] == e[0] && (e + rest)[1] == e[1] && (e + rest)[2] == e[2];
    } else {
      assert ([c] + rest)[1..] == rest;
    }
  }

  lemma ReadQuote(s: seq<char>)
    requires IsPlain(s) && s != [] && s[0] == '"'
    ensures ReadText(s) == NotAString
  {
    assert EmitText(s)[0] == '"';
  }

  lemma EmitVerbatim(s: seq<char>)
    requires IsPlain(s) && s != [] && !IsControl(s[0])
    ensures EmitText(s) == [s[0]] + EmitText(s[1..])
  {
  }

  /** A hexadecimal escape where none was meant. */
  lemma ReadTwoDigits(s: seq<char>)
    requires IsPlain(s) && |s| >= 3 && s[0] == '\\' && IsHex(s[1]) && IsHex(s[2])
    ensures ReadText(s) == Then(HexByte(s[1], s[2]), ReadText(s[3..]))
  {
    var rest := EmitText(s[3..]);
    var t := EmitText(s);
    assert EmitText(s[2..]) == [s[2]] + rest by { EmitVerbatim(s[2..]); assert s[2..][1..] == s[3..]; }
    assert EmitText(s[1..]) == [s[1]] + ([s[2]] + rest) by { EmitVerbatim(s[1..]); assert s[1..][1..] == s[2..]; }
    EmitVerbatim(s);
    assert t == [s[0]] + ([s[1]] + ([s[2]] + rest));
    assert t[3..] == rest;
  }

  lemma ReadTwoBackslashes(s: seq<char>)
    requires IsPlain(s) && |s| >= 2 && s[0] == '\\' && s[1] == '\\'
    ensures ReadText(s) == Then('\\', ReadText(s[2..]))
  {
    var t := EmitText(s);
    assert EmitText(s[1..]) == ['\\'] + EmitText(s[2..]) by { EmitVerbatim(s[1..]); assert s[1..][1..] == s[2..]; }
    EmitVerbatim(s);
    assert t == ['\\'] + (['\\'] + EmitText(s[2..]));
    assert t[2..] == EmitText(s[2..]);
  }

  /** The two backslashes make one, and the digits are left over. */
  lemma ReadBeforeControl(s: seq<char>)
    requires IsPlain(s) && s != [] && s[0] == '\\' && (|s| >= 2 ==> IsControl(s[1]))
    ensures var (h1, h2) := if |s| >= 2 then (HexDigit(s[1] as int / 16), HexDigit(s[1] as int % 16)) else ('0', '0');
            ReadText(s) == Then('\\', Then(h1, Then(h2, if |s| >= 2 then ReadText(s[2..]) else Read([]))))
  {
    var t := EmitText(s);
    var rest := if |s| >= 2 then EmitText(s[2..]) else [];
    var (h1, h2) := if |s| >= 2 then (HexDigit(s[1] as int / 16), HexDigit(s[1] as int % 16)) else ('0', '0');
    HexRoundTrip(0);
    if |s| >= 2 {
      HexRoundTrip(s[1] as int / 16);
      HexRoundTrip(s[1] as int % 16);
      assert EmitText(s[1..]) == ['\\', h1, h2] + rest by { assert s[1..][1..] == s[2..]; }
    } else {
      assert s[1..] == [];
      assert EmitText([]) == ['\\', h1, h2] + rest;
      assert LlvmRead(rest) == Read([]);
    }
    EmitVerbatim(s);
    assert t == ['\\', '\\'] + ([h1] + ([h2] + rest));
    ReadPair([h1] + ([h2] + rest));
    ReadVerbatim(h1, [h2] + rest);
    ReadVerbatim(h2, rest);
  }

  lemma ReadVerbatim(c: char, rest: seq<char>)
    requires c != '\\' && c != '"'
    ensures LlvmRead([c] + rest) == Then(c, LlvmRead(rest))
  {
    assert ([c] + rest)[1..] == rest;
  }

  lemma ReadPair(rest: seq<char>)
    ensures LlvmRead(['\\', '\\'] + rest) == Then('\\', LlvmRead(rest))
  {
    assert (['\\', '\\'] + rest)[2..] == rest;
  }

  lemma ReadLoneBackslash(s: seq<char>)
    requires IsPlain(s) && s != [] && s[0] == '\\' && Stays(s)
    ensures ReadText(s) == Then('\\', ReadText(s[1..]))
  {
    var t, rest := EmitText(s), EmitText(s[1..]);
    assert t == ['\\'] + rest && rest == [s[1]] + EmitText(s[1..][1..]);
    assert t[1..] == rest && t[1] == s[1];
    assert s[1..][1..] == s[2..];
    if IsHex(s[1]) {
      assert EmitText(s[2..])[0] == '\\' || (|s| >= 3 && EmitText(s[2..])[0] == s[2]);
      assert t[2] == EmitText(s[2..])[0];
    }
  }

  /** A character that is written in hexadecimal weighs as much as its two digits. */
  function Weight(c: char): nat {
    if IsControl(c) || c as int >= 128 then 2 else 1
  }

  function WeightOf(s: seq<char>): nat {
    if s == [] then 0 else Weight(s[0]) + WeightOf(s[1..])
  }

  lemma {:induction false} WeightOfAppended(s: seq<char>)
    ensures WeightOf(s + [NUL]) == WeightOf(s) + 2
  {
    if s == [] {
      assert ([NUL])[1..] == [];
    } else {
      assert (s + [NUL])[1..] == s[1..] + [NUL];
      WeightOfAppended(s[1..]);
    }
  }

  lemma ThenIs(c: char, r: Reading, t: seq<char>)
    ensures Then(c, r) == Read([c] + t) <==> r == Read(t)
  {
    if r.Read? {
      assert ([c] + r.s)[1..] == r.s && ([c] + t)[1..] == t;
    }
  }

  lemma WeightThen(c: char, r: Reading)
    ensures r.Read? ==> Then(c, r).s == [c] + r.s && WeightOf(Then(c, r).s) == Weight(c) + WeightOf(r.s)
    ensures Then(c, r).Read? <==> r.Read?
  {
    if r.Read? {
      assert ([c] + r.s)[1..] == r.s;
    }
  }

  /** Whatever the string, what is read back weighs no more than it. */
  lemma {:induction false} ReadingLight(s: seq<char>)
    requires IsPlain(s)
    ensures ReadText(s).Read? ==> WeightOf(ReadText(s).s) <= WeightOf(s) + 2
    decreases |s|
  {
    hide ReadText, IsHex, HexByte;
    if s == [] {
      ReadEnd();
      WeightOfAppended([]);
      assert [] + [NUL] == [NUL];
    } else if s[0] == '"' {
      ReadQuote(s);
    } else if s[0] != '\\' {
      ReadOrdinary(s);
      ReadingLight(s[1..]);
      WeightThen(s[0], ReadText(s[1..]));
    } else if |s| == 1 || IsControl(s[1]) {
      ReadBeforeControl(s);
      LeftoverLight(s);
    } else if s[1] == '\\' {
      ReadTwoBackslashes(s);
      ReadingLight(s[2..]);
      WeightThen('\\', ReadText(s[2..]));
      assert s[1..][1..] == s[2..];
    } else if |s| >= 3 && IsHex(s[1]) && IsHex(s[2]) {
      ReadTwoDigits(s);
      ReadingLight(s[3..]);
      WeightThen(HexByte(s[1], s[2]), ReadText(s[3..]));
      ThreeWeigh(s);
    } else {
      ReadLoneBackslash(s);
      ReadingLight(s[1..]);
      WeightThen('\\', ReadText(s[1..]));
    }
  }

  lemma ThreeWeigh(s: seq<char>)
    requires |s| >= 3
    ensures WeightOf(s) >= 3 + WeightOf(s[3..])
  {
    hide WeightOf;
    FirstWeighs(s);
    FirstWeighs(s[1..]);
    FirstWeighs(s[2..]);
    assert s[1..][1..] == s[2..] && s[2..][1..] == s[3..];
  }

  lemma FirstWeighs(s: seq<char>)
    requires s != []
    ensures WeightOf(s) >= 1 + WeightOf(s[1..])
  {
    hide IsControl;
  }

  lemma {:induction false} LeftoverLight(s: seq<char>)
    requires IsPlain(s) && s != [] && s[0] == '\\' && (|s| >= 2 ==> IsControl(s[1]))
    ensures ReadText(s).Read? ==> WeightOf(ReadText(s).s) <= WeightOf(s) + 2
    decreases |s|, 0
  {
    hide ReadText;
    ReadBeforeControl(s);
    var (h1, h2) := if |s| >= 2 then (HexDigit(s[1] as int / 16), HexDigit(s[1] as int % 16)) else ('0', '0');
    var r := if |s| >= 2 then ReadText(s[2..]) else Read([]);
    WeightThen(h2, r);
    WeightThen(h1, Then(h2, r));
    WeightThen('\\', Then(h1, Then(h2, r)));
    if |s| >= 2 {
      ReadingLight(s[2..]);
      assert s[1..][1..] == s[2..];
      assert Weight(h1) == 1 && Weight(h2) == 1;
    } else {
      assert s[1..] == [];
    }
  }

  /** The constant that is written reads back as the string and its NUL if and only if the string has no quote, and
      no backslash that what follows it turns into an escape. */
  lemma {:induction false} ReadsBackIff(s: seq<char>)
    requires IsPlain(s)
    ensures LlvmRead(EmitText(s)) == Read(s + [NUL]) <==> Survives(s)
    decreases |s|
  {
    hide LlvmRead, EmitText, IsHex, HexByte, Weight, WeightOf;
    if s == [] {
      ReadEnd();
      assert s + [NUL] == [NUL];
    } else {
      assert s + [NUL] == [s[0]] + (s[1..] + [NUL]);
      ReadsBackIff(s[1..]);
      if s[0] == '"' {
        ReadQuote(s);
      } else if s[0] != '\\' {
        ReadOrdinary(s);
        ThenIs(s[0], ReadText(s[1..]), s[1..] + [NUL]);
      } else if Stays(s) {
        ReadLoneBackslash(s);
        ThenIs(s[0], ReadText(s[1..]), s[1..] + [NUL]);
      } else {
        Lost(s);
      }
    }
  }

  lemma Lost(s: seq<char>)
    requires IsPlain(s) && s != [] && s[0] == '\\' && !Stays(s)
    ensures ReadText(s) != Read(s + [NUL])
  {
    hide ReadText, IsHex, HexByte;
    WeightOfAppended(s);
    if |s| == 1 || IsControl(s[1]) {
      ReadBeforeControl(s);
      if |s| >= 2 {
        HexNotControl(s[1] as int / 16);
      }
    } else if s[1] == '\\' {
      ReadTwoBackslashes(s);
      ReadingLight(s[2..]);
      WeightThen('\\', ReadText(s[2..]));
      assert s[1..][1..] == s[2..];
    } else {
      ReadTwoDigits(s);
      ReadingLight(s[3..]);
      WeightThen(HexByte(s[1], s[2]), ReadText(s[3..]));
      ThreeWeigh(s);
    }
  }

  lemma HexNotControl(n: nat)
    requires n < 16
    ensures !IsControl(HexDigit(n)) && HexDigit(n) != NUL
  {
  }

  lemma {:induction false} WithoutBackslashes(s: seq<char>)
    requires IsPlain(s) && '"' !in s && '\\' !in s
    ensures LlvmRead(EmitText(s)) == Read(s + [NUL])
  {
    hide LlvmRead, EmitText;
    ReadsBackIff(s);
    SurvivesWithout(s);
  }

  lemma {:induction false} SurvivesWithout(s: seq<char>)
    requires '"' !in s && '\\' !in s
    ensures Survives(s)
  {
    if s != [] {
      SurvivesWithout(s[1..]);
    }
  }
}
