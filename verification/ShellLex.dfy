/**
 The pieces a command line is made of: blanks, plain characters, quoted text,
 escaped characters and joined lines. Each line is made of pieces in one way at most.
 */
module ShellLex {
  import opened Specs

  datatype Item =
    | Blank(c: char)
    | Plain(c: char)
    | Single(text: string)
    | Double(parts: seq<Part>)
    | Escaped(c: char)
    | Join

  /** A part of double-quoted text: a character, one a `\` escapes, a joined line, or a `\` that escapes nothing. */
  datatype Part =
    | Char(c: char)
    | Escape(c: char)
    | JoinIn
    | Backslash(c: char)

  predicate IsBlank(c: char) { c == ' ' || c == '\t' || c == '\n' }

  predicate IsQuote(c: char) { c == '\'' || c == '"' || c == '\\' }

  /** What a `\` escapes inside double quotes. */
  predicate EscapedInDouble(c: char) { c == '"' || c == '\\' || c == '$' || c == '`' }

  // ----- How a line is written -----

  predicate PartOk(part: Part) {
    match part
    case Char(c) => !EscapedInDouble(c)
    case Escape(c) => EscapedInDouble(c)
    case JoinIn => true
    case Backslash(c) => !EscapedInDouble(c) && c != '\n'
  }

  predicate ItemOk(item: Item) {
    match item
    case Blank(c) => IsBlank(c)
    case Plain(c) => !IsBlank(c) && !IsQuote(c)
    case Single(text) => '\'' !in text
    case Double(parts) => forall part | part in parts :: PartOk(part)
    case Escaped(c) => c != '\n'
    case Join => true
  }

  function PartLine(part: Part): string {
    match part
    case Char(c) => [c]
    case Escape(c) => ['\\', c]
    case JoinIn => "\\\n"
    case Backslash(c) => ['\\', c]
  }

  function PartsLine(parts: seq<Part>): string {
    if parts == [] then "" else PartLine(parts[0]) + PartsLine(parts[1..])
  }

  function ItemLine(item: Item): string {
    match item
    case Blank(c) => [c]
    case Plain(c) => [c]
    case Single(text) => "'" + text + "'"
    case Double(parts) => "\"" + PartsLine(parts) + "\""
    case Escaped(c) => ['\\', c]
    case Join => "\\\n"
  }

  function Line(items: seq<Item>): string {
    if items == [] then "" else ItemLine(items[0]) + Line(items[1..])
  }

  ghost predicate AllOk(items: seq<Item>) {
    forall item | item in items :: ItemOk(item)
  }

  // ----- How a line is read -----

  datatype Read<T> = Found(value: T, rest: string) | Bad

  /** Up to the closing single quote. */
  function ReadSingle(s: string): (r: Read<string>)
    ensures r.Found? ==> |r.rest| < |s|
  {
    if s == "" then Bad
    else if s[0] == '\'' then Found("", s[1..])
    else
      var more := ReadSingle(s[1..]);
      if more.Bad? then Bad else Found([s[0]] + more.value, more.rest)
  }

  function ReadPart(s: string): (r: Read<Part>)
    ensures r.Found? ==> |r.rest| < |s|
  {
    if s == "" then Bad
    else if s[0] == '\\' then
      if |s| < 2 then Bad
      else if EscapedInDouble(s[1]) then Found(Escape(s[1]), s[2..])
      else if s[1] == '\n' then Found(JoinIn, s[2..])
      else Found(Backslash(s[1]), s[2..])
    else if EscapedInDouble(s[0]) then Bad
    else Found(Char(s[0]), s[1..])
  }

  /** Up to the closing double quote. */
  function ReadDouble(s: string): (r: Read<seq<Part>>)
    ensures r.Found? ==> |r.rest| < |s|
    decreases |s|
  {
    if s == "" then Bad
    else if s[0] == '"' then Found([], s[1..])
    else
      var part := ReadPart(s);
      if part.Bad? then Bad
      else
        var more := ReadDouble(part.rest);
        if more.Bad? then Bad else Found([part.value] + more.value, more.rest)
  }

  function ReadItem(s: string): (r: Read<Item>)
    ensures r.Found? ==> |r.rest| < |s|
  {
    if s == "" then Bad
    else if IsBlank(s[0]) then Found(Blank(s[0]), s[1..])
    else if s[0] == '\'' then
      var text := ReadSingle(s[1..]);
      if text.Bad? then Bad else Found(Single(text.value), text.rest)
    else if s[0] == '"' then
      var parts := ReadDouble(s[1..]);
      if parts.Bad? then Bad else Found(Double(parts.value), parts.rest)
    else if s[0] == '\\' then
      if |s| < 2 then Bad
      else if s[1] == '\n' then Found(Join, s[2..])
      else Found(Escaped(s[1]), s[2..])
    else Found(Plain(s[0]), s[1..])
  }

  /** The pieces of a line, when it is made of any. */
  function ReadLine(s: string): Option<seq<Item>>
    decreases |s|
  {
    if s == "" then Some([])
    else
      var item := ReadItem(s);
      if item.Bad? then None
      else
        var more := ReadLine(item.rest);
        if more.None? then None else Some([item.value] + more.value)
  }

  // ----- Reading undoes writing -----

  lemma {:induction false} ReadSingleLine(text: string, rest: string)
    requires '\'' !in text
    ensures ReadSingle(text + "'" + rest) == Found(text, rest)
  {
    var s := text + "'" + rest;
    if text == "" {
      assert s[1..] == rest;
    } else {
      assert s[1..] == text[1..] + "'" + rest;
      ReadSingleLine(text[1..], rest);
      assert text == [text[0]] + text[1..];
    }
  }

  lemma ReadPartLine(part: Part, rest: string)
    requires PartOk(part)
    ensures ReadPart(PartLine(part) + rest) == Found(part, rest) && (PartLine(part) + rest)[0] != '"'
  {
    var s := PartLine(part) + rest;
    assert s[|PartLine(part)|..] == rest;
  }

  lemma {:induction false} ReadDoubleLine(parts: seq<Part>, rest: string)
    requires forall part | part in parts :: PartOk(part)
    ensures ReadDouble(PartsLine(parts) + "\"" + rest) == Found(parts, rest)
  {
    var s := PartsLine(parts) + "\"" + rest;
    if parts == [] {
      assert s[1..] == rest;
    } else {
      var more := PartsLine(parts[1..]) + "\"" + rest;
      assert s == PartLine(parts[0]) + more;
      ReadPartLine(parts[0], more);
      ReadDoubleLine(parts[1..], rest);
      assert parts == [parts[0]] + parts[1..];
    }
  }

  lemma ReadItemLine(item: Item, rest: string)
    requires ItemOk(item)
    ensures ReadItem(ItemLine(item) + rest) == Found(item, rest)
  {
    var s := ItemLine(item) + rest;
    match item {
      case Single(text) =>
        assert s[1..] == text + "'" + rest;
        ReadSingleLine(text, rest);
      case Double(parts) =>
        assert s[1..] == PartsLine(parts) + "\"" + rest;
        ReadDoubleLine(parts, rest);
      case _ =>
        assert s[|ItemLine(item)|..] == rest;
    }
  }

  /** A line is read as the pieces it is written of: there is no other way to make it of pieces. */
  lemma {:induction false} ReadLineLine(items: seq<Item>)
    requires AllOk(items)
    ensures ReadLine(Line(items)) == Some(items)
  {
    if items != [] {
      ReadItemLine(items[0], Line(items[1..]));
      ReadLineLine(items[1..]);
      assert items == [items[0]] + items[1..];
    }
  }

  // ----- What is read is what is written -----

  lemma {:induction false} SingleIsLine(s: string)
    ensures var r := ReadSingle(s); r.Found? ==> '\'' !in r.value && s == r.value + "'" + r.rest
  {
    if s != "" && s[0] != '\'' {
      SingleIsLine(s[1..]);
      assert s == [s[0]] + s[1..];
    }
  }

  lemma PartIsLine(s: string)
    ensures var r := ReadPart(s); r.Found? && s[0] != '"' ==> PartOk(r.value) && s == PartLine(r.value) + r.rest
  {
    if s != "" {
      assert s == [s[0]] + s[1..];
      if |s| > 1 {
        assert s == [s[0], s[1]] + s[2..];
      }
    }
  }

  lemma {:induction false} DoubleIsLine(s: string)
    ensures var r := ReadDouble(s);
            r.Found? ==> (forall part | part in r.value :: PartOk(part)) && s == PartsLine(r.value) + "\"" + r.rest
    decreases |s|
  {
    var r := ReadDouble(s);
    if r.Found? && s[0] != '"' {
      var part := ReadPart(s);
      PartIsLine(s);
      DoubleIsLine(part.rest);
      assert r.value[1..] == ReadDouble(part.rest).value;
    }
  }

  lemma ItemIsLine(s: string)
    ensures var r := ReadItem(s); r.Found? ==> ItemOk(r.value) && s == ItemLine(r.value) + r.rest
  {
    if s == "" {
    } else if s[0] == '\'' {
      SingleIsLine(s[1..]);
      assert s == [s[0]] + s[1..];
    } else if s[0] == '"' {
      DoubleIsLine(s[1..]);
      assert s == [s[0]] + s[1..];
    } else if s[0] == '\\' {
      if |s| > 1 {
        assert s == [s[0], s[1]] + s[2..];
      }
    } else {
      assert s == [s[0]] + s[1..];
    }
  }

  /** The pieces read make up the line. */
  lemma {:induction false} LineIsItems(s: string)
    ensures var r := ReadLine(s); r.Some? ==> AllOk(r.value) && Line(r.value) == s
    decreases |s|
  {
    var r := ReadLine(s);
    if s != "" && r.Some? {
      var item := ReadItem(s);
      ItemIsLine(s);
      LineIsItems(item.rest);
      assert r.value[1..] == ReadLine(item.rest).value;
    }
  }

  lemma {:induction false} LineSum(a: seq<Item>, b: seq<Item>)
    ensures Line(a + b) == Line(a) + Line(b)
  {
    if a == [] {
      assert a + b == b;
    } else {
      assert (a + b)[1..] == a[1..] + b;
      LineSum(a[1..], b);
    }
  }
}
