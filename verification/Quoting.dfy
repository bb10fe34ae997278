/**
 Quoted scalars as the writer writes them, as YAML 1.2.2 reads them, and as the
 writer finds where they end.
 */
module Quoting {
  import opened Specs

  // ----- Writing -----

  predicate IsControl(c: char) {
    c < ' ' || '\U{007F}' <= c <= '\U{009F}'
  }

  predicate IsUnprintable(c: char) {
    IsControl(c) || c == '\U{2028}' || c == '\U{2029}' || c == '\U{FEFF}'
  }

  function HexDigit(n: nat): char
    requires n < 16
  {
    if n < 10 then '0' + n as char else 'A' + (n - 10) as char
  }

  /** A code as four hex digits. */
  function Hex4(n: nat): string
    requires n < 0x10000
  {
    [HexDigit(n / 4096), HexDigit(n / 256 % 16), HexDigit(n / 16 % 16), HexDigit(n % 16)]
  }

  function QuotedChar(c: char): string {
    if c == '"' then "\\\""
    else if c == '\\' then "\\\\"
    else if c == '\n' then "\\n"
    else if c == '\t' then "\\t"
    else if c == '\r' then "\\r"
    else if c == '\0' then "\\0"
    else if IsUnprintable(c) then "\\u" + Hex4(c as nat)
    else [c]
  }

  function QuotedChars(s: string): string {
    if s == "" then "" else QuotedChar(s[0]) + QuotedChars(s[1..])
  }

  function DoubleQuoted(s: string): string {
    "\"" + QuotedChars(s) + "\""
  }

  function Doubled(s: string): string {
    if s == "" then "" else (if s[0] == '\'' then "''" else [s[0]]) + Doubled(s[1..])
  }

  function SingleQuoted(s: string): Option<string> {
    if exists c | c in s :: IsUnprintable(c) then None else Some("'" + Doubled(s) + "'")
  }

  // ----- Reading, by sections 5.7 and 7.3.1 of YAML 1.2.2 -----

  function DigitOf(c: char): Option<nat> {
    if '0' <= c <= '9' then Some((c - '0') as nat)
    else if 'A' <= c <= 'F' then Some(10 + (c - 'A') as nat)
    else if 'a' <= c <= 'f' then Some(10 + (c - 'a') as nat)
    else None
  }

  /** The number that hex digits write. */
  function Unhex(s: string): Option<nat> {
    if s == "" then Some(0)
    else
      var (high, low) := (Unhex(s[..|s| - 1]), DigitOf(s[|s| - 1]));
      if high.None? || low.None? then None else Some(16 * high.value + low.value)
  }

  predicate IsCode(n: nat) {
    n < 0xD800 || 0xE000 <= n < 0x110000
  }

  /** What an escape of one letter stands for. */
  function EscapeOf(c: char): Option<char> {
    if c == '0' then Some('\0')
    else if c == 'a' then Some('\U{07}')
    else if c == 'b' then Some('\U{08}')
    else if c == 't' || c == '\t' then Some('\t')
    else if c == 'n' then Some('\n')
    else if c == 'v' then Some('\U{0B}')
    else if c == 'f' then Some('\U{0C}')
    else if c == 'r' then Some('\r')
    else if c == 'e' then Some('\U{1B}')
    else if c == ' ' || c == '"' || c == '/' || c == '\\' then Some(c)
    else if c == 'N' then Some('\U{85}')
    else if c == '_' then Some('\U{A0}')
    else if c == 'L' then Some('\U{2028}')
    else if c == 'P' then Some('\U{2029}')
    else None
  }

  /** How many hex digits follow an escape letter. */
  function HexLength(c: char): nat {
    if c == 'x' then 2 else if c == 'u' then 4 else if c == 'U' then 8 else 0
  }

  /** The text of what is inside double quotes, on one line. */
  function Decoded(s: string): Option<string>
    decreases |s|
  {
    if s == "" then Some("")
    else if s[0] == '"' || s[0] == '\n' || s[0] == '\r' then None
    else if s[0] != '\\' then Before([s[0]], Decoded(s[1..]))
    else if |s| < 2 then None
    else if HexLength(s[1]) > 0 then
      var n := HexLength(s[1]);
      if |s| < 2 + n || Unhex(s[2..2 + n]).None? || !IsCode(Unhex(s[2..2 + n]).value) then None
      else Before([Unhex(s[2..2 + n]).value as char], Decoded(s[2 + n..]))
    else if EscapeOf(s[1]).None? then None
    else Before([EscapeOf(s[1]).value], Decoded(s[2..]))
  }

  function Before(c: string, rest: Option<string>): Option<string> {
    if rest.None? then None else Some(c + rest.value)
  }

  /** The text of a double-quoted scalar on one line. */
  function DecodedDouble(s: string): Option<string> {
    if |s| >= 2 && s[0] == '"' && s[|s| - 1] == '"' then Decoded(s[1..|s| - 1]) else None
  }

  // ----- What is written is read back -----

  lemma DigitBack(n: nat)
    requires n < 16
    ensures DigitOf(HexDigit(n)) == Some(n)
  {
  }

  lemma UnhexMore(s: string, c: char)
    requires Unhex(s).Some? && DigitOf(c).Some?
    ensures Unhex(s + [c]) == Some(16 * Unhex(s).value + DigitOf(c).value)
  {
    assert (s + [c])[..|s|] == s;
  }

  lemma Digits(n: nat)
    requires n < 0x10000
    ensures 16 * (16 * (16 * (n / 4096) + n / 256 % 16) + n / 16 % 16) + n % 16 == n
  {
    assert n / 256 == 16 * (n / 4096) + n / 256 % 16;
    assert n / 16 == 16 * (n / 256) + n / 16 % 16;
  }

  lemma HexBack(n: nat)
    requires n < 0x10000
    ensures Unhex(Hex4(n)) == Some(n)
  {
    var (a, b, c, d) := (HexDigit(n / 4096), HexDigit(n / 256 % 16), HexDigit(n / 16 % 16), HexDigit(n % 16));
    DigitBack(n / 4096);
    DigitBack(n / 256 % 16);
    DigitBack(n / 16 % 16);
    DigitBack(n % 16);
    assert "" + [a] == [a] && [a] + [b] == [a, b] && [a, b] + [c] == [a, b, c] && [a, b, c] + [d] == [a, b, c, d];
    UnhexMore("", a);
    UnhexMore([a], b);
    UnhexMore([a, b], c);
    UnhexMore([a, b, c], d);
    Digits(n);
  }

  lemma UnprintableIsShort(c: char)
    requires IsUnprintable(c)
    ensures c as nat < 0x10000
  {
  }

  lemma CodeDecoded(c: char, rest: string)
    requires c as nat < 0x10000
    ensures Decoded("\\u" + Hex4(c as nat) + rest) == Before([c], Decoded(rest))
  {
    var s := "\\u" + Hex4(c as nat) + rest;
    HexBack(c as nat);
    assert s[2..6] == Hex4(c as nat) && s[6..] == rest;
  }

  lemma CharDecoded(c: char, rest: string)
    ensures Decoded(QuotedChar(c) + rest) == Before([c], Decoded(rest))
  {
    if c != '"' && c != '\\' && c != '\n' && c != '\t' && c != '\r' && c != '\0' && IsUnprintable(c) {
      UnprintableIsShort(c);
      CodeDecoded(c, rest);
    } else {
      var s := QuotedChar(c) + rest;
      assert s[|QuotedChar(c)|..] == rest;
    }
  }

  lemma {:induction false} CharsDecoded(s: string)
    ensures Decoded(QuotedChars(s)) == Some(s)
  {
    if s != "" {
      CharDecoded(s[0], QuotedChars(s[1..]));
      CharsDecoded(s[1..]);
      assert s == [s[0]] + s[1..];
    }
  }

  /** Any text written in double quotes reads back as it is. */
  lemma DoubleReadsBack(s: string)
    ensures DecodedDouble(DoubleQuoted(s)) == Some(s)
  {
    var line := DoubleQuoted(s);
    assert line[1..|line| - 1] == QuotedChars(s);
    CharsDecoded(s);
  }

  // ----- Where a quoted scalar ends -----

  /** Where a quote closes, from inside it; past the end when it does not. */
  function CloseFrom(s: string, quote: char, i: nat): (end: nat)
    ensures end >= i
    decreases |s| - i
  {
    if i >= |s| then i
    else if s[i] == '\\' && quote == '"' then CloseFrom(s, quote, i + 2)
    else if s[i] == quote then
      if quote == '\'' && i + 1 < |s| && s[i + 1] == '\'' then CloseFrom(s, quote, i + 2) else i
    else CloseFrom(s, quote, i + 1)
  }

  function Undoubled(s: string): string {
    if s == "" then ""
    else if |s| >= 2 && s[..2] == "''" then "'" + Undoubled(s[2..])
    else [s[0]] + Undoubled(s[1..])
  }

  datatype Scalar = Scalar(text: string, length: nat)

  /** Reads one quoted scalar from the front of a text: what it says, and how many characters it takes up. */
  function ScalarAt(s: string, decode: string -> Option<string>): Option<Scalar> {
    if s == "" then None
    else
      var i := CloseFrom(s, s[0], 1);
      if i >= |s| then None
      else if s[0] == '"' then
        var text := decode(s[..i + 1]);
        if text.None? then None else Some(Scalar(text.value, i + 1))
      else Some(Scalar(Undoubled(s[1..i]), i + 1))
  }

  /** Finds the closing quote, as the one at the start says. */
  method Quoted(s: string, decode: string -> Option<string>) returns (scalar: Option<Scalar>)
    ensures scalar == ScalarAt(s, decode)
  {
    if s == "" {
      return None;
    }
    var (quote, i) := (s[0], 1);
    while i < |s|
      invariant CloseFrom(s, quote, i) == CloseFrom(s, quote, 1)
      decreases |s| - i
    {
      if s[i] == '\\' && quote == '"' {
        i := i + 2;
      } else if s[i] == quote {
        if quote == '\'' && i + 1 < |s| && s[i + 1] == '\'' {
          i := i + 2;
        } else if quote == '"' {
          var text := decode(s[..i + 1]);
          return if text.None? then None else Some(Scalar(text.value, i + 1));
        } else {
          return Some(Scalar(Undoubled(s[1..i]), i + 1));
        }
      } else {
        i := i + 1;
      }
    }
    return None;
  }

  // What is inside either form is passed over, and its last quote is not.

  lemma {:induction false} PassDoubled(pre: string, s: string, rest: string)
    requires rest == "" || rest[0] != '\''
    ensures CloseFrom(pre + Doubled(s) + "'" + rest, '\'', |pre|) == |pre| + |Doubled(s)|
    decreases |s|
  {
    var line := pre + Doubled(s) + "'" + rest;
    if s == "" {
      assert line[|pre|] == '\'';
      assert rest != "" ==> line[|pre| + 1] == rest[0];
    } else {
      var first := if s[0] == '\'' then "''" else [s[0]];
      var more := pre + first;
      assert line == more + Doubled(s[1..]) + "'" + rest;
      assert line[|pre|] == first[0] && (|first| == 2 ==> line[|pre| + 1] == '\'');
      PassDoubled(more, s[1..], rest);
    }
  }

  lemma {:induction false} UndoubledBack(s: string)
    ensures Undoubled(Doubled(s)) == s
  {
    if s != "" {
      var (first, rest) := (if s[0] == '\'' then "''" else [s[0]], Doubled(s[1..]));
      UndoubledBack(s[1..]);
      assert (first + rest)[|first|..] == rest;
      assert s == [s[0]] + s[1..];
    }
  }

  /** A single-quoted scalar with no quote after it is found whole, and reads back. */
  lemma SingleFound(s: string, rest: string, decode: string -> Option<string>)
    requires SingleQuoted(s).Some? && (rest == "" || rest[0] != '\'')
    ensures ScalarAt(SingleQuoted(s).value + rest, decode) == Some(Scalar(s, |SingleQuoted(s).value|))
  {
    var line := SingleQuoted(s).value + rest;
    assert line == "'" + Doubled(s) + "'" + rest;
    PassDoubled("'", s, rest);
    UndoubledBack(s);
    assert line[1..1 + |Doubled(s)|] == Doubled(s);
  }

  lemma PartAt(line: string, i: nat, q: string)
    requires i + |q| <= |line| && line[i..i + |q|] == q
    ensures forall k | i <= k < i + |q| :: line[k] == q[k - i]
  {
    forall k | i <= k < i + |q| ensures line[k] == q[k - i] {
      assert line[i..i + |q|][k - i] == line[k];
    }
  }

  /** A character inside double quotes, as written, is passed over whole. */
  lemma PassQuotedChar(line: string, i: nat, c: char)
    requires i + |QuotedChar(c)| <= |line| && line[i..i + |QuotedChar(c)|] == QuotedChar(c)
    ensures CloseFrom(line, '"', i) == CloseFrom(line, '"', i + |QuotedChar(c)|)
  {
    var q := QuotedChar(c);
    PartAt(line, i, q);
    if |q| == 6 {
      assert line[i] == '\\';
      HexIsPlain(c as nat);
      assert q[2..] == Hex4(c as nat);
      forall k | i + 2 <= k < i + 6 ensures PlainAt(line, k) {
        assert q[k - i] == q[2..][k - i - 2];
      }
      PassPlain(line, i + 2, 4);
      assert CloseFrom(line, '"', i) == CloseFrom(line, '"', i + 2);
    } else if |q| == 2 {
      assert line[i] == '\\';
      assert CloseFrom(line, '"', i) == CloseFrom(line, '"', i + 2);
    } else {
      assert q == [c] && line[i] == c && c != '"' && c != '\\';
      assert CloseFrom(line, '"', i) == CloseFrom(line, '"', i + 1);
    }
  }

  lemma HexIsPlain(n: nat)
    requires n < 0x10000
    ensures forall k | 0 <= k < 4 :: Hex4(n)[k] != '"' && Hex4(n)[k] != '\\'
  {
  }

  predicate PlainAt(line: string, k: int) {
    0 <= k < |line| && line[k] != '"' && line[k] != '\\'
  }

  lemma {:induction false} PassPlain(line: string, i: nat, n: nat)
    requires i + n <= |line| && forall k | i <= k < i + n :: PlainAt(line, k)
    ensures CloseFrom(line, '"', i) == CloseFrom(line, '"', i + n)
    decreases n
  {
    if n > 0 {
      assert PlainAt(line, i);
      PassPlain(line, i + 1, n - 1);
    }
  }

  lemma {:induction false} PassQuotedChars(pre: string, s: string, rest: string)
    ensures CloseFrom(pre + QuotedChars(s) + "\"" + rest, '"', |pre|) == |pre| + |QuotedChars(s)|
    decreases |s|
  {
    var line := pre + QuotedChars(s) + "\"" + rest;
    if s == "" {
      assert line[|pre|] == '"';
    } else {
      var first := QuotedChar(s[0]);
      var more := pre + first;
      assert line == more + QuotedChars(s[1..]) + "\"" + rest;
      assert line[|pre|..|pre| + |first|] == first;
      PassQuotedChar(line, |pre|, s[0]);
      PassQuotedChars(more, s[1..], rest);
    }
  }

  /** A double-quoted scalar is found whole, and reads back, whatever comes after it. */
  lemma DoubleFound(s: string, rest: string)
    ensures ScalarAt(DoubleQuoted(s) + rest, DecodedDouble) == Some(Scalar(s, |DoubleQuoted(s)|))
  {
    var line := DoubleQuoted(s) + rest;
    assert line == "\"" + QuotedChars(s) + "\"" + rest;
    PassQuotedChars("\"", s, rest);
    assert line[..|DoubleQuoted(s)|] == DoubleQuoted(s);
    DoubleReadsBack(s);
  }
}
