/** Joining words into a line that the splitter takes apart into the same words. */
module ShellJoin {
  import opened Specs
  import opened ShellLex
  import opened ShellSplit

  /** Characters a word can have without quotes. */
  predicate IsPlain(c: char) {
    IsLetter(c) || IsDigit(c) || c in "-_./:=,+@%^~" || c >= 128 as char
  }

  /** Words written bare: of plain characters only, and in front none that splitting would refuse or change. */
  predicate NeedsNoQuotes(arg: string, first: bool) {
    && arg != "" && arg[0] != '~' && (forall c | c in arg :: IsPlain(c))
    && (first ==> Split(arg) == Some([arg]))
  }

  function EscapeAll(arg: string): string {
    if arg == "" then ""
    else
      var (init, last) := (arg[..|arg| - 1], arg[|arg| - 1]);
      EscapeAll(init) + if EscapedInDouble(last) then ['\\', last] else [last]
  }

  function JoinWord(arg: string, first: bool): string {
    if NeedsNoQuotes(arg, first) then arg
    else if '\'' !in arg then "'" + arg + "'"
    else "\"" + EscapeAll(arg) + "\""
  }

  function JoinArgv(argv: seq<string>): string {
    if argv == [] then ""
    else if |argv| == 1 then JoinWord(argv[0], true)
    else JoinArgv(argv[..|argv| - 1]) + " " + JoinWord(argv[|argv| - 1], false)
  }

  // ----- The pieces of what is joined -----

  function PlainItems(arg: string): seq<Item> {
    if arg == "" then [] else PlainItems(arg[..|arg| - 1]) + [Plain(arg[|arg| - 1])]
  }

  function DoubleParts(arg: string): seq<Part> {
    if arg == "" then []
    else
      var last := arg[|arg| - 1];
      DoubleParts(arg[..|arg| - 1]) + [if EscapedInDouble(last) then Escape(last) else Char(last)]
  }

  function WordItems(arg: string, first: bool): seq<Item> {
    if NeedsNoQuotes(arg, first) then PlainItems(arg)
    else if '\'' !in arg then [Single(arg)]
    else [Double(DoubleParts(arg))]
  }

  function JoinItems(argv: seq<string>): seq<Item> {
    if argv == [] then []
    else if |argv| == 1 then WordItems(argv[0], true)
    else JoinItems(argv[..|argv| - 1]) + [Blank(' ')] + WordItems(argv[|argv| - 1], false)
  }

  lemma InitChars(arg: string)
    requires arg != ""
    ensures arg == arg[..|arg| - 1] + [arg[|arg| - 1]] && arg[|arg| - 1] in arg
    ensures forall c | c in arg[..|arg| - 1] :: c in arg
  {
  }

  lemma LineMore(items: seq<Item>, item: Item)
    ensures Line(items + [item]) == Line(items) + ItemLine(item)
  {
    LineSum(items, [item]);
    assert [item][1..] == [];
    assert Line([item]) == ItemLine(item) + "";
  }

  lemma AllOkMore(items: seq<Item>, item: Item)
    requires AllOk(items) && ItemOk(item)
    ensures AllOk(items + [item])
  {
  }

  /** Neither a blank, nor a quote, nor special wherever it is. */
  predicate Ordinary(c: char) {
    !IsBlank(c) && !IsQuote(c) && c !in OPERATORS && c != '#'
  }

  lemma PlainIsOrdinary(arg: string)
    requires forall c | c in arg :: IsPlain(c)
    ensures forall c | c in arg :: Ordinary(c)
  {
  }

  /** Unquoted characters are their own pieces. */
  lemma {:induction false} PlainLine(arg: string)
    requires forall c | c in arg :: Ordinary(c)
    ensures Line(PlainItems(arg)) == arg && AllOk(PlainItems(arg))
  {
    if arg != "" {
      var (init, last) := (arg[..|arg| - 1], Plain(arg[|arg| - 1]));
      InitChars(arg);
      PlainLine(init);
      LineMore(PlainItems(init), last);
      AllOkMore(PlainItems(init), last);
    }
  }

  lemma {:induction false} PlainText(arg: string)
    ensures TextOf(PlainItems(arg)) == arg && !Quoted(PlainItems(arg))
    ensures forall x | x in PlainItems(arg) :: !x.Blank?
  {
    if arg != "" {
      var (init, last) := (arg[..|arg| - 1], Plain(arg[|arg| - 1]));
      PlainText(init);
      TextMore(PlainItems(init), last);
    }
  }

  lemma {:induction false} PartsLineMore(parts: seq<Part>, part: Part)
    ensures PartsLine(parts + [part]) == PartsLine(parts) + PartLine(part)
  {
    if parts == [] {
      assert [part][1..] == [];
    } else {
      assert (parts + [part])[1..] == parts[1..] + [part];
      PartsLineMore(parts[1..], part);
    }
  }

  lemma {:induction false} DoubleLine(arg: string)
    ensures PartsLine(DoubleParts(arg)) == EscapeAll(arg) && PartsText(DoubleParts(arg)) == arg
    ensures forall part | part in DoubleParts(arg) :: PartOk(part)
  {
    if arg != "" {
      var (init, last) := (arg[..|arg| - 1], arg[|arg| - 1]);
      var part := if EscapedInDouble(last) then Escape(last) else Char(last);
      InitChars(arg);
      DoubleLine(init);
      PartsLineMore(DoubleParts(init), part);
      PartsTextSum(DoubleParts(init), part);
    }
  }

  lemma TextOfOne(item: Item)
    ensures TextOf([item]) == Unquoted(item) && (Quoted([item]) <==> IsQuoting(item))
  {
    assert [item][..0] == [];
    TextMore([], item);
    assert [] + [item] == [item];
  }

  lemma PlainWord(arg: string)
    requires arg != "" && forall c | c in arg :: IsPlain(c)
    ensures var items := PlainItems(arg);
            Line(items) == arg && AllOk(items) && TextOf(items) == arg && IsWord(items) && forall x | x in items :: !x.Blank?
  {
    PlainIsOrdinary(arg);
    PlainLine(arg);
    PlainText(arg);
  }

  lemma OneItemWord(item: Item)
    requires ItemOk(item) && IsQuoting(item)
    ensures Line([item]) == ItemLine(item) && AllOk([item]) && TextOf([item]) == Unquoted(item) && IsWord([item])
  {
    TextOfOne(item);
    LineMore([], item);
    assert [] + [item] == [item];
  }

  /** A word's pieces are written as the word is, and stand for it. */
  lemma WordLine(arg: string, first: bool)
    ensures var items := WordItems(arg, first);
            && Line(items) == JoinWord(arg, first) && AllOk(items)
            && TextOf(items) == arg && IsWord(items) && forall x | x in items :: !x.Blank?
  {
    if NeedsNoQuotes(arg, first) {
      PlainWord(arg);
    } else if '\'' !in arg {
      OneItemWord(Single(arg));
    } else {
      DoubleLine(arg);
      OneItemWord(Double(DoubleParts(arg)));
    }
  }

  // ----- The line is a command -----

  /** Pieces with no newline among them, all allowed, after which a word is being read. */
  ghost predicate Reading(items: seq<Item>, ended: seq<seq<Item>>, run: seq<Item>) {
    AllAllowed(items) && Blank('\n') !in items && Ended(items) == ended && Run(items) == run
  }

  lemma AllowedWithMore(before: seq<Item>, item: Item, rest: seq<Item>, more: seq<Item>)
    requires Allowed(before, item, rest) && item != Blank('\n')
    ensures Allowed(before, item, rest + more)
  {
  }

  lemma ReadingMore(items: seq<Item>, ended: seq<seq<Item>>, run: seq<Item>, item: Item)
    requires Reading(items, ended, run) && Allowed(items, item, []) && item != Blank('\n')
    ensures Reading(items + [item], if item.Blank? then ended + WordIn(run) else ended, if item.Blank? then [] else run + [item])
  {
    var all := items + [item];
    RunMore(items, item);
    forall i | 0 <= i < |all| ensures Allowed(all[..i], all[i], all[i + 1..]) {
      if i < |items| {
        assert all[..i] == items[..i] && all[i + 1..] == items[i + 1..] + [item];
        assert items[i] in items;
        AllowedWithMore(items[..i], items[i], items[i + 1..], [item]);
      } else {
        assert all[..i] == items && all[i + 1..] == [];
      }
    }
  }

  lemma AllowedPlain(before: seq<Item>, c: char)
    requires Ordinary(c) && Ended(before) != [] && (c == '~' ==> IsWord(Run(before)))
    ensures Allowed(before, Plain(c), [])
  {
  }

  lemma PlainIsWord(arg: string)
    ensures IsWord(PlainItems(arg)) <==> arg != ""
  {
    PlainText(arg);
  }

  /** After the program, a plain word is read as it is. */
  lemma {:induction false} ReadingPlain(items: seq<Item>, ended: seq<seq<Item>>, arg: string)
    requires Reading(items, ended, []) && ended != []
    requires (forall c | c in arg :: Ordinary(c)) && (arg != "" ==> arg[0] != '~')
    ensures Reading(items + PlainItems(arg), ended, PlainItems(arg))
  {
    if arg == "" {
      assert items + [] == items;
    } else {
      var (init, last) := (arg[..|arg| - 1], arg[|arg| - 1]);
      InitChars(arg);
      ReadingPlain(items, ended, init);
      PlainIsWord(init);
      var before := items + PlainItems(init);
      AllowedPlain(before, last);
      ReadingMore(before, ended, PlainItems(init), Plain(last));
      assert items + PlainItems(arg) == before + [Plain(last)];
    }
  }

  lemma ReadingWord(items: seq<Item>, ended: seq<seq<Item>>, arg: string)
    requires Reading(items, ended, []) && ended != []
    ensures Reading(items + WordItems(arg, false), ended, WordItems(arg, false))
  {
    if NeedsNoQuotes(arg, false) {
      PlainIsOrdinary(arg);
      ReadingPlain(items, ended, arg);
    } else {
      ReadingMore(items, ended, [], WordItems(arg, false)[0]);
      assert [] + WordItems(arg, false) == WordItems(arg, false);
    }
  }

  lemma {:induction false} RunOfNoBlanks(items: seq<Item>)
    requires forall x | x in items :: !x.Blank?
    ensures Run(items) == items && Ended(items) == []
  {
    if items != [] {
      var init := items[..|items| - 1];
      assert items == init + [items[|items| - 1]];
      assert items[|items| - 1] in items;
      forall x | x in init ensures !x.Blank? {
        assert x in items;
      }
      RunOfNoBlanks(init);
    }
  }

  /** The program is read as it is. */
  lemma ReadingFirst(arg: string)
    ensures Reading(WordItems(arg, true), [], WordItems(arg, true))
    ensures !IsKeyword(WordItems(arg, true))
  {
    var items := WordItems(arg, true);
    WordLine(arg, true);
    RunOfNoBlanks(items);
    if NeedsNoQuotes(arg, true) {
      ReadLineLine(items);
      assert Accepted(items);
      assert Words(items) == [items];
    } else {
      TextOfOne(items[0]);
      assert items[..0] == [] && items[1..] == [];
    }
  }

  /** A joined line is written of the pieces of its words. */
  lemma {:induction false} JoinedLine(argv: seq<string>)
    ensures Line(JoinItems(argv)) == JoinArgv(argv) && AllOk(JoinItems(argv))
    decreases |argv|
  {
    if argv != [] {
      var word := WordItems(argv[|argv| - 1], |argv| == 1);
      WordLine(argv[|argv| - 1], |argv| == 1);
      if |argv| > 1 {
        var items := JoinItems(argv[..|argv| - 1]);
        JoinedLine(argv[..|argv| - 1]);
        LineMore(items, Blank(' '));
        LineSum(items + [Blank(' ')], word);
        AllOkMore(items, Blank(' '));
      }
    }
  }

  lemma ReadingNext(items: seq<Item>, arg: string)
    requires AllAllowed(items) && Blank('\n') !in items && Words(items) != []
    ensures var more := items + [Blank(' ')] + WordItems(arg, false);
            AllAllowed(more) && Blank('\n') !in more && Words(more) == Words(items) + [WordItems(arg, false)]
  {
    WordLine(arg, false);
    ReadingMore(items, Ended(items), Run(items), Blank(' '));
    ReadingWord(items + [Blank(' ')], Words(items), arg);
  }

  /** What a joined line is read as: its words. */
  lemma {:induction false} ReadingJoined(argv: seq<string>)
    requires argv != []
    ensures AllAllowed(JoinItems(argv)) && Blank('\n') !in JoinItems(argv)
    ensures Texts(Words(JoinItems(argv))) == argv
    ensures Words(JoinItems(argv))[0] == JoinItems([argv[0]])
    decreases |argv|
  {
    if |argv| == 1 {
      assert argv == [argv[0]];
      ReadingOne(argv[0]);
    } else {
      var (init, last) := (argv[..|argv| - 1], argv[|argv| - 1]);
      ReadingJoined(init);
      assert argv == init + [last];
      JoinedMore(init, JoinItems(init), last, JoinItems([argv[0]]), WordItems(last, false), JoinItems(argv));
    }
  }

  lemma JoinedMore(init: seq<string>, items: seq<Item>, last: string, program: seq<Item>, word: seq<Item>, more: seq<Item>)
    requires AllAllowed(items) && Blank('\n') !in items && Texts(Words(items)) == init
    requires Words(items) != [] && Words(items)[0] == program
    requires word == WordItems(last, false) && more == items + [Blank(' ')] + word
    ensures AllAllowed(more) && Blank('\n') !in more
    ensures Texts(Words(more)) == init + [last] && Words(more) != [] && Words(more)[0] == program
  {
    ReadingNext(items, last);
    WordText(last);
    TextsMore(Words(items), word);
  }

  lemma WordText(arg: string)
    ensures TextOf(WordItems(arg, false)) == arg
  {
    WordLine(arg, false);
  }

  lemma ReadingOne(arg: string)
    ensures var items := WordItems(arg, true);
            AllAllowed(items) && Blank('\n') !in items && Texts(Words(items)) == [arg] && Words(items)[0] == items
  {
    var items := WordItems(arg, true);
    ReadingFirst(arg);
    WordLine(arg, true);
    assert Words(items) == [items];
    TextsMore([], items);
    assert [] + [items] == [items];
  }

  /** Any argv but the empty one, joined into a line, splits back into itself. */
  lemma JoinSplits(argv: seq<string>)
    requires argv != []
    ensures Split(JoinArgv(argv)) == Some(argv)
  {
    ReadingJoined(argv);
    JoinedLine(argv);
    ReadLineLine(JoinItems(argv));
    ReadingFirst(argv[0]);
    assert Words(JoinItems(argv)) != [];
  }

  /** The empty argv is the one that does not. */
  lemma EmptyDoesNot()
    ensures Split(JoinArgv([])) == None
  {
  }
}
