/** Splitting a command line into words, and refusing it where a shell would do anything else with it. */
module ShellSplit {
  import opened Specs
  import opened ShellLex

  // ----- Words -----

  /** What a part of double-quoted text stands for. */
  function PartText(part: Part): string {
    match part
    case Char(c) => [c]
    case Escape(c) => [c]
    case JoinIn => ""
    case Backslash(c) => ['\\', c]
  }

  function PartsText(parts: seq<Part>): string {
    if parts == [] then "" else PartsText(parts[..|parts| - 1]) + PartText(parts[|parts| - 1])
  }

  /** What a piece stands for with its quotes taken off. */
  function Unquoted(item: Item): string {
    match item
    case Blank(c) => ""
    case Plain(c) => [c]
    case Single(text) => text
    case Double(parts) => PartsText(parts)
    case Escaped(c) => [c]
    case Join => ""
  }

  function TextOf(run: seq<Item>): string {
    if run == [] then "" else TextOf(run[..|run| - 1]) + Unquoted(run[|run| - 1])
  }

  predicate IsQuoting(item: Item) {
    item.Single? || item.Double? || item.Escaped?
  }

  predicate Quoted(run: seq<Item>) {
    exists item | item in run :: IsQuoting(item)
  }

  /** Pieces between blanks are a word unless they are joined lines alone. */
  predicate IsWord(run: seq<Item>) {
    Quoted(run) || TextOf(run) != ""
  }

  /** The pieces after the last blank. */
  function Run(items: seq<Item>): seq<Item> {
    if items == [] || items[|items| - 1].Blank? then [] else Run(items[..|items| - 1]) + [items[|items| - 1]]
  }

  function WordIn(run: seq<Item>): seq<seq<Item>> {
    if IsWord(run) then [run] else []
  }

  /** The words that a blank ends. */
  function Ended(items: seq<Item>): seq<seq<Item>> {
    if items == [] then []
    else
      var (init, last) := (items[..|items| - 1], items[|items| - 1]);
      if last.Blank? then Ended(init) + WordIn(Run(init)) else Ended(init)
  }

  /** The words of a line: what is between blanks. */
  function Words(items: seq<Item>): seq<seq<Item>> {
    Ended(items) + WordIn(Run(items))
  }

  function Texts(words: seq<seq<Item>>): (texts: seq<string>)
    ensures |texts| == |words|
  {
    if words == [] then [] else Texts(words[..|words| - 1]) + [TextOf(words[|words| - 1])]
  }

  // ----- What a shell would not treat specially -----

  const OPERATORS: set<char> := {'|', '&', ';', '<', '>', '(', ')', '$', '`', '*', '?', '['}

  const RESERVED: set<string> := {
    "!", "{", "}", "case", "do", "done", "elif", "else", "esac", "fi", "for",
    "if", "in", "then", "until", "while"
  }

  predicate IsLetter(c: char) { 'a' <= c <= 'z' || 'A' <= c <= 'Z' }

  predicate IsDigit(c: char) { '0' <= c <= '9' }

  predicate IsName(word: string) {
    && word != "" && (IsLetter(word[0]) || word[0] == '_')
    && forall i | 1 <= i < |word| :: IsLetter(word[i]) || IsDigit(word[i]) || word[i] == '_'
  }

  /** A piece a shell takes as written, where it is in the line. */
  predicate Allowed(before: seq<Item>, item: Item, rest: seq<Item>) {
    match item
    case Plain(c) =>
      && c !in OPERATORS
      && (c == '#' || c == '~' ==> IsWord(Run(before)))
      && (c == '=' && Ended(before) == [] && !Quoted(Run(before)) ==> !IsName(TextOf(Run(before))))
    case Blank(c) => c == '\n' && Words(before) != [] ==> forall x | x in rest :: x.Blank?
    case _ => true
  }

  predicate AllAllowed(items: seq<Item>) {
    forall i | 0 <= i < |items| :: Allowed(items[..i], items[i], items[i + 1..])
  }

  /** An unquoted word that is a keyword as the program. */
  predicate IsKeyword(run: seq<Item>) {
    !Quoted(run) && TextOf(run) in RESERVED
  }

  /** A simple command with nothing a shell treats specially. */
  predicate Accepted(items: seq<Item>) {
    AllAllowed(items) && Words(items) != [] && !IsKeyword(Words(items)[0])
  }

  /** The words of a line, when it is a command that needs no shell. */
  function Split(s: string): Option<seq<string>> {
    match ReadLine(s)
    case None => None
    case Some(items) => if Accepted(items) then Some(Texts(Words(items))) else None
  }

  /** A way to make a line of pieces that are such a command with these words. */
  ghost predicate Derives(items: seq<Item>, s: string, argv: seq<string>) {
    AllOk(items) && Line(items) == s && Accepted(items) && Texts(Words(items)) == argv
  }

  /** The words a line splits into are those of the one way to make it of pieces, and a line with no such way is refused. */
  lemma SplitIsGrammar(s: string, argv: seq<string>)
    ensures Split(s) == Some(argv) <==> exists items :: Derives(items, s, argv)
  {
    LineIsItems(s);
    if Split(s) == Some(argv) {
      assert Derives(ReadLine(s).value, s, argv);
    }
    if items :| Derives(items, s, argv) {
      ReadLineLine(items);
    }
  }

  /** A line has the words of one command at most. */
  lemma OneReading(s: string, a: seq<Item>, b: seq<Item>)
    requires AllOk(a) && AllOk(b) && Line(a) == s && Line(b) == s
    ensures a == b
  {
    ReadLineLine(a);
    ReadLineLine(b);
  }

  // ----- Piece by piece -----

  lemma RunMore(items: seq<Item>, item: Item)
    ensures Run(items + [item]) == if item.Blank? then [] else Run(items) + [item]
    ensures Ended(items + [item]) == if item.Blank? then Words(items) else Ended(items)
  {
    assert (items + [item])[..|items|] == items;
  }

  lemma TextMore(run: seq<Item>, item: Item)
    ensures TextOf(run + [item]) == TextOf(run) + Unquoted(item)
    ensures Quoted(run + [item]) <==> Quoted(run) || IsQuoting(item)
  {
    assert (run + [item])[..|run|] == run;
    if Quoted(run) {
      var x :| x in run && IsQuoting(x);
      assert x in run + [item];
    }
    if IsQuoting(item) {
      assert item in run + [item];
    }
  }

  lemma TextsMore(words: seq<seq<Item>>, run: seq<Item>)
    ensures Texts(words + [run]) == Texts(words) + [TextOf(run)]
  {
    assert (words + [run])[..|words|] == words;
  }

  lemma {:induction false} PartsTextSum(parts: seq<Part>, part: Part)
    ensures PartsText(parts + [part]) == PartsText(parts) + PartText(part)
  {
    assert (parts + [part])[..|parts|] == parts;
  }

  /** The words of the first pieces stay the first words. */
  lemma {:induction false} WordsGrow(a: seq<Item>, b: seq<Item>)
    ensures Ended(a) <= Ended(a + b)
    ensures b != [] && b[0].Blank? ==> Words(a) <= Ended(a + b)
  {
    if b == [] {
      assert a + b == a;
    } else {
      var last := b[|b| - 1];
      WordsGrow(a, b[..|b| - 1]);
      assert a + b == (a + b[..|b| - 1]) + [last];
      RunMore(a + b[..|b| - 1], last);
      if |b| == 1 {
        assert a + b[..0] == a;
      }
    }
  }

  // ----- How far a line is read -----

  /** The pieces before a place, then those from there on, are the pieces of the line. */
  ghost predicate ReadTo(s: string, i: nat, items: seq<Item>) {
    && i <= |s|
    && (ReadLine(s).Some? <==> ReadLine(s[i..]).Some?)
    && (ReadLine(s).Some? ==> ReadLine(s).value == items + ReadLine(s[i..]).value)
  }

  /** The first pieces are allowed in the line. */
  ghost predicate AllowedTo(s: string, n: nat) {
    ReadLine(s).Some? ==>
      var all := ReadLine(s).value;
      forall k | 0 <= k < n && k < |all| :: Allowed(all[..k], all[k], all[k + 1..])
  }

  lemma ReadMore(s: string, i: nat, items: seq<Item>, item: Item, j: nat)
    requires ReadTo(s, i, items) && i < j <= |s| && ReadItem(s[i..]) == Found(item, s[j..])
    ensures ReadTo(s, j, items + [item])
    ensures ReadLine(s).Some? ==> ReadLine(s[j..]).Some? && ReadLine(s).value == items + [item] + ReadLine(s[j..]).value
  {
    if ReadLine(s).Some? {
      var more := ReadLine(s[j..]).value;
      assert ReadLine(s[i..]).value == [item] + more;
      assert items + ([item] + more) == items + [item] + more;
    }
  }

  lemma AllowMore(s: string, items: seq<Item>, item: Item, more: seq<Item>)
    requires AllowedTo(s, |items|)
    requires ReadLine(s).Some? ==> ReadLine(s).value == items + [item] + more && Allowed(items, item, more)
    ensures AllowedTo(s, |items| + 1)
  {
    if ReadLine(s).Some? {
      var (all, n) := (ReadLine(s).value, |items|);
      assert all[..n] == items && all[n] == item && all[n + 1..] == more;
    }
  }

  /** A piece that is not allowed refuses the line. */
  lemma Refuse(s: string, items: seq<Item>, item: Item, more: seq<Item>)
    requires ReadLine(s).Some? ==> ReadLine(s).value == items + [item] + more && !Allowed(items, item, more)
    ensures Split(s) == None
  {
    if ReadLine(s).Some? {
      var (all, n) := (ReadLine(s).value, |items|);
      assert all[..n] == items && all[n] == item && all[n + 1..] == more;
    }
  }

  lemma RefuseBad(s: string, i: nat, items: seq<Item>)
    requires ReadTo(s, i, items) && i < |s| && ReadItem(s[i..]).Bad?
    ensures Split(s) == None
  {
  }

  predicate Blanks(s: string) {
    forall c | c in s :: IsBlank(c)
  }

  /** What is left of a line has blanks alone exactly when its pieces are blanks. */
  lemma {:induction false} BlanksAreBlank(s: string)
    requires ReadLine(s).Some?
    ensures Blanks(s) <==> forall x | x in ReadLine(s).value :: x.Blank?
    decreases |s|
  {
    if s != "" {
      var (item, items) := (ReadItem(s), ReadLine(s).value);
      BlanksAreBlank(item.rest);
      assert items == [item.value] + ReadLine(item.rest).value;
      if IsBlank(s[0]) {
        assert s == [s[0]] + s[1..];
      } else {
        assert s[0] in s && items[0] in items;
      }
    }
  }

  /** A keyword as the program refuses the line. */
  lemma RefuseKeyword(s: string, items: seq<Item>, more: seq<Item>)
    requires ReadLine(s).Some? ==> ReadLine(s).value == items + more
    requires more == [] || more[0].Blank?
    requires Ended(items) == [] && IsWord(Run(items)) && IsKeyword(Run(items))
    ensures Split(s) == None
  {
    if ReadLine(s).Some? {
      WordsGrow(items, more);
      if more == [] {
        assert items + more == items;
      }
      assert Words(items)[0] == Run(items);
    }
  }

  function ItemsOf(items: Option<seq<Item>>): seq<Item> {
    if items.Some? then items.value else []
  }

  /** A newline after a word, with more than blanks after it, refuses the line. */
  lemma RefuseNewline(s: string, i: nat, items: seq<Item>)
    requires i <= |s| && Words(items) != [] && !Blanks(s[i..])
    requires ReadLine(s).Some? ==>
               ReadLine(s[i..]).Some? && ReadLine(s).value == items + [Blank('\n')] + ReadLine(s[i..]).value
    ensures Split(s) == None
  {
    if ReadLine(s).Some? {
      BlanksAreBlank(s[i..]);
      Refuse(s, items, Blank('\n'), ReadLine(s[i..]).value);
    }
  }

  lemma AllowBlank(s: string, i: nat, items: seq<Item>, c: char)
    requires i <= |s| && AllowedTo(s, |items|) && (c == '\n' && Words(items) != [] ==> Blanks(s[i..]))
    requires ReadLine(s).Some? ==>
               ReadLine(s[i..]).Some? && ReadLine(s).value == items + [Blank(c)] + ReadLine(s[i..]).value
    ensures AllowedTo(s, |items| + 1)
  {
    if ReadLine(s).Some? {
      BlanksAreBlank(s[i..]);
      AllowMore(s, items, Blank(c), ReadLine(s[i..]).value);
    }
  }

  // ----- The loop -----

  /** Reads up to the closing single quote. */
  method SingleQuoted(s: string, start: nat) returns (found: bool, text: string, end: nat)
    requires start <= |s|
    ensures found ==> start < end <= |s| && ReadSingle(s[start..]) == Found(text, s[end..])
    ensures !found ==> ReadSingle(s[start..]).Bad?
  {
    text, end, found := "", start, false;
    assert forall t: string :: "" + t == t;
    while end < |s|
      invariant start <= end <= |s|
      invariant ReadSingle(s[start..]) ==
                var more := ReadSingle(s[end..]); if more.Bad? then Bad else Found(text + more.value, more.rest)
    {
      var c := s[end];
      assert s[end..][1..] == s[end + 1..];
      end := end + 1;
      if c == '\'' {
        assert text + "" == text;
        return true, text, end;
      }
      assert forall t: string :: text + ([c] + t) == text + [c] + t;
      text := text + [c];
    }
  }

  /** Reads up to the closing double quote, `\` as it is inside. */
  method DoubleQuoted(s: string, start: nat) returns (found: bool, text: string, end: nat, ghost parts: seq<Part>)
    requires start <= |s|
    ensures found ==> start < end <= |s| && ReadDouble(s[start..]) == Found(parts, s[end..]) && text == PartsText(parts)
    ensures !found ==> ReadDouble(s[start..]).Bad?
  {
    text, end, found, parts := "", start, false, [];
    assert forall t: seq<Part> :: [] + t == t;
    while end < |s|
      invariant start <= end <= |s| && text == PartsText(parts)
      invariant ReadDouble(s[start..]) ==
                var more := ReadDouble(s[end..]); if more.Bad? then Bad else Found(parts + more.value, more.rest)
    {
      var c := s[end];
      if c == '"' {
        assert s[end..][1..] == s[end + 1..];
        assert parts + [] == parts;
        return true, text, end + 1, parts;
      }
      ghost var from := end;
      ghost var (was, part) := (parts, Char(c));
      if c == '\\' {
        if end + 1 == |s| {
          return;
        }
        var d := s[end + 1];
        BackslashAt(s, end);
        end := end + 2;
        part := if EscapedInDouble(d) then Escape(d) else if d == '\n' then JoinIn else Backslash(d);
        if EscapedInDouble(d) {
          text := text + [d];
        } else if d != '\n' {
          text := text + ['\\', d];
        }
      } else if c == '$' || c == '`' {
        return;
      } else {
        assert s[end..][1..] == s[end + 1..];
        end := end + 1;
        text := text + [c];
      }
      PartsTextSum(was, part);
      DoubleMore(s, from, part, end, was);
      parts := parts + [part];
    }
  }

  lemma BackslashAt(s: string, i: nat)
    requires i + 1 < |s| && s[i] == '\\'
    ensures var d := s[i + 1];
            ReadPart(s[i..]) ==
            Found(if EscapedInDouble(d) then Escape(d) else if d == '\n' then JoinIn else Backslash(d), s[i + 2..])
  {
    assert s[i..][2..] == s[i + 2..];
  }

  lemma DoubleMore(s: string, i: nat, part: Part, j: nat, parts: seq<Part>)
    requires i < j <= |s| && s[i] != '"' && ReadPart(s[i..]) == Found(part, s[j..])
    ensures var (was, now) := (ReadDouble(s[i..]), ReadDouble(s[j..]));
            && (was.Bad? <==> now.Bad?)
            && (now.Found? ==> parts + was.value == parts + [part] + now.value && was.rest == now.rest)
  {
    var now := ReadDouble(s[j..]);
    if now.Found? {
      assert parts + ([part] + now.value) == parts + [part] + now.value;
    }
  }

  /** Ends the word that the pieces read end with, unless the first of their words is a keyword. */
  method EndWord(args: seq<string>, word: string, quoted: bool, ghost items: seq<Item>) returns (ok: bool, more: seq<string>)
    requires Keeps(items, args, word, quoted) && IsWord(Run(items))
    ensures Words(items) != [] && (ok <==> !IsKeyword(Words(items)[0]))
    ensures ok ==> more == Texts(Words(items))
  {
    KeepsBlankTexts(items, args, word, quoted);
    FirstWord(Ended(items), Run(items));
    if args == [] && !quoted && word in RESERVED {
      return false, args;
    }
    return true, args + [word];
  }

  /** What the loop has kept of the pieces read. */
  ghost predicate Keeps(items: seq<Item>, args: seq<string>, cur: string, quoted: bool) {
    && args == Texts(Ended(items)) && cur == TextOf(Run(items)) && quoted == Quoted(Run(items))
    && (Ended(items) != [] ==> !IsKeyword(Ended(items)[0]))
  }

  lemma KeepsWord(items: seq<Item>, args: seq<string>, cur: string, quoted: bool, item: Item)
    requires Keeps(items, args, cur, quoted) && !item.Blank?
    ensures Keeps(items + [item], args, cur + Unquoted(item), quoted || IsQuoting(item))
  {
    RunMore(items, item);
    TextMore(Run(items), item);
  }

  lemma FirstWord(ended: seq<seq<Item>>, run: seq<Item>)
    ensures var words := ended + WordIn(run);
            words != [] ==> words[0] == if ended == [] then run else ended[0]
  {
  }

  lemma KeepsBlank(items: seq<Item>, args: seq<string>, cur: string, quoted: bool, c: char)
    requires Keeps(items, args, cur, quoted)
    requires args == [] && IsWord(Run(items)) ==> !IsKeyword(Run(items))
    ensures Keeps(items + [Blank(c)], if quoted || cur != "" then args + [cur] else args, "", false)
  {
    RunMore(items, Blank(c));
    KeepsBlankTexts(items, args, cur, quoted);
    FirstWord(Ended(items), Run(items));
  }

  /** Reads one piece that is no blank, unless a shell would treat it specially. */
  method Piece(s: string, i: nat, args: seq<string>, cur: string, quoted: bool, ghost items: seq<Item>)
    returns (ok: bool, word: string, isQuoted: bool, end: nat, ghost item: Item)
    requires ReadTo(s, i, items) && i < |s| && !IsBlank(s[i]) && AllowedTo(s, |items|)
    requires Keeps(items, args, cur, quoted)
    ensures !ok ==> Split(s) == None
    ensures ok ==> i < end <= |s| && ReadTo(s, end, items + [item]) && AllowedTo(s, |items| + 1)
    ensures ok ==> !item.Blank? && word == cur + Unquoted(item) && isQuoted == (quoted || IsQuoting(item))
  {
    var c := s[i];
    assert s[i..][1..] == s[i + 1..];
    ok, word, isQuoted, end, item := true, cur, quoted, i + 1, Plain(c);
    if IsQuote(c) {
      ok, word, isQuoted, end, item := Quoting(s, i, cur, quoted);
      if !ok {
        RefuseBad(s, i, items);
        return;
      }
      ReadMore(s, i, items, item, end);
    } else {
      ReadMore(s, i, items, item, end);
      if ((c == '#' || c == '~') && !quoted && cur == "") || c in OPERATORS || (c == '=' && args == [] && !quoted && IsName(cur)) {
        Refuse(s, items, item, ItemsOf(ReadLine(s[end..])));
        ok := false;
        return;
      }
      word := cur + [c];
    }
    AllowMore(s, items, item, ItemsOf(ReadLine(s[end..])));
  }

  /** Reads a quoted piece, or a joined line. */
  method Quoting(s: string, i: nat, cur: string, quoted: bool)
    returns (ok: bool, word: string, isQuoted: bool, end: nat, ghost item: Item)
    requires i < |s| && IsQuote(s[i])
    ensures !ok ==> ReadItem(s[i..]).Bad?
    ensures ok ==> i < end <= |s| && ReadItem(s[i..]) == Found(item, s[end..])
    ensures ok ==> !item.Blank? && !item.Plain? && word == cur + Unquoted(item) && isQuoted == (quoted || IsQuoting(item))
  {
    var c := s[i];
    assert s[i..][1..] == s[i + 1..];
    word, isQuoted, end, item := cur, quoted, i, Join;
    if c == '\'' {
      var text;
      ok, text, end := SingleQuoted(s, i + 1);
      word, isQuoted, item := cur + text, true, Single(text);
    } else if c == '"' {
      var text;
      ghost var parts;
      ok, text, end, parts := DoubleQuoted(s, i + 1);
      word, isQuoted, item := cur + text, true, Double(parts);
    } else if i + 1 == |s| {
      ok := false;
    } else {
      var d := s[i + 1];
      assert s[i..][2..] == s[i + 2..];
      ok, end := true, i + 2;
      if d == '\n' {
        assert cur + "" == cur;
      } else {
        word, isQuoted, item := cur + [d], true, Escaped(d);
      }
    }
  }

  /** Ends the word before a blank, unless a shell would treat the word or the blank specially. */
  method AtBlank(s: string, i: nat, args: seq<string>, cur: string, quoted: bool, ghost items: seq<Item>)
    returns (ok: bool, ended: seq<string>)
    requires ReadTo(s, i, items) && i < |s| && IsBlank(s[i]) && AllowedTo(s, |items|)
    requires Keeps(items, args, cur, quoted)
    ensures !ok ==> Split(s) == None
    ensures ok ==> ReadTo(s, i + 1, items + [Blank(s[i])]) && AllowedTo(s, |items| + 1)
    ensures ok ==> Keeps(items + [Blank(s[i])], ended, "", false)
  {
    var c := s[i];
    ok, ended := WordEnd(s, i, args, cur, quoted, items);
    if !ok {
      return;
    }
    assert s[i..][1..] == s[i + 1..];
    ReadMore(s, i, items, Blank(c), i + 1);
    KeepsBlankTexts(items, args, cur, quoted);
    if c == '\n' && ended != [] && !Blanks(s[i + 1..]) {
      RefuseNewline(s, i + 1, items);
      ok := false;
      return;
    }
    KeepsBlank(items, args, cur, quoted, c);
    AllowBlank(s, i + 1, items, c);
  }

  /** Ends the word before a blank or the end of the line, if there is one. */
  method WordEnd(s: string, i: nat, args: seq<string>, cur: string, quoted: bool, ghost items: seq<Item>)
    returns (ok: bool, ended: seq<string>)
    requires ReadTo(s, i, items) && (i < |s| ==> IsBlank(s[i]))
    requires Keeps(items, args, cur, quoted)
    ensures !ok ==> Split(s) == None
    ensures ok ==> ended == (if quoted || cur != "" then args + [cur] else args)
    ensures ok && args == [] && IsWord(Run(items)) ==> !IsKeyword(Run(items))
  {
    KeepsBlankTexts(items, args, cur, quoted);
    ok, ended := true, args;
    if quoted || cur != "" {
      ok, ended := EndWord(args, cur, quoted, items);
      if !ok {
        RefuseKeyword(s, items, ItemsOf(ReadLine(s[i..])));
      }
    }
  }

  /** How far the loop is: what is read, that it is allowed, and what is kept of it. */
  ghost predicate Reached(s: string, i: nat, items: seq<Item>, args: seq<string>, cur: string, quoted: bool) {
    ReadTo(s, i, items) && AllowedTo(s, |items|) && Keeps(items, args, cur, quoted)
  }

  /** Reads a blank or a piece of a word. */
  method ReadOne(s: string, i: nat, args: seq<string>, cur: string, quoted: bool, ghost items: seq<Item>)
    returns (ok: bool, ended: seq<string>, word: string, isQuoted: bool, end: nat, ghost more: seq<Item>)
    requires Reached(s, i, items, args, cur, quoted) && i < |s|
    ensures !ok ==> Split(s) == None
    ensures ok ==> i < end && Reached(s, end, more, ended, word, isQuoted)
  {
    ended, word, isQuoted, end, more := args, "", false, i + 1, items;
    if IsBlank(s[i]) {
      ok, ended := AtBlank(s, i, args, cur, quoted, items);
      more := items + [Blank(s[i])];
    } else {
      ghost var item;
      ok, word, isQuoted, end, item := Piece(s, i, args, cur, quoted, items);
      if ok {
        KeepsWord(items, args, cur, quoted, item);
      }
      more := items + [item];
    }
  }

  method SplitArgv(s: string) returns (argv: Option<seq<string>>)
    ensures argv == Split(s)
  {
    var args: seq<string>, cur: string, quoted, i := [], "", false, 0;
    ghost var items: seq<Item> := [];
    ReadNone(s);
    while i < |s|
      invariant Reached(s, i, items, args, cur, quoted)
    {
      var ok;
      ok, args, cur, quoted, i, items := ReadOne(s, i, args, cur, quoted, items);
      if !ok {
        return None;
      }
    }
    ReadAll(s, items);
    var ok, ended := WordEnd(s, i, args, cur, quoted, items);
    if !ok {
      return None;
    }
    Finish(items, args, cur, quoted);
    return if ended == [] then None else Some(ended);
  }

  lemma Finish(items: seq<Item>, args: seq<string>, cur: string, quoted: bool)
    requires Keeps(items, args, cur, quoted)
    requires args == [] && IsWord(Run(items)) ==> !IsKeyword(Run(items))
    ensures Texts(Words(items)) == if quoted || cur != "" then args + [cur] else args
    ensures Words(items) != [] ==> !IsKeyword(Words(items)[0])
  {
    KeepsBlankTexts(items, args, cur, quoted);
    KeepsBlank(items, args, cur, quoted, ' ');
    RunMore(items, Blank(' '));
  }

  lemma ReadNone(s: string)
    ensures ReadTo(s, 0, [])
  {
    assert s[0..] == s;
    if ReadLine(s).Some? {
      assert [] + ReadLine(s).value == ReadLine(s).value;
    }
  }

  lemma ReadAll(s: string, items: seq<Item>)
    requires ReadTo(s, |s|, items) && AllowedTo(s, |items|)
    ensures ReadLine(s) == Some(items) && AllAllowed(items)
  {
    assert s[|s|..] == "";
    assert items + [] == items;
  }

  lemma KeepsBlankTexts(items: seq<Item>, args: seq<string>, cur: string, quoted: bool)
    requires Keeps(items, args, cur, quoted)
    ensures Texts(Words(items)) == if quoted || cur != "" then args + [cur] else args
    ensures quoted || cur != "" <==> IsWord(Run(items))
    ensures args == [] <==> Ended(items) == []
  {
    TextsMore(Ended(items), Run(items));
    assert Ended(items) + [] == Ended(items);
  }
}
