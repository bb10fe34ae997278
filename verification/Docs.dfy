/**
 A config file as lines, and edits as runs of lines replaced. Whatever is not
 replaced stays byte for byte.
 */
module Docs {
  import opened Specs

  const BOM := '\U{FEFF}'

  /** A file split at its line endings, and how they were written. */
  datatype Doc = Doc(lines: seq<string>, crlf: bool, finalEol: bool, bom: bool) {
    function Eol(): string { EolOf(crlf) }
  }

  predicate StartsWith(s: string, prefix: string) {
    |prefix| <= |s| && s[..|prefix|] == prefix
  }

  predicate EndsWith(s: string, suffix: string) {
    |s| >= |suffix| && s[|s| - |suffix|..] == suffix
  }

  function CountOf(s: string, c: char): nat {
    if s == "" then 0 else CountOf(s[..|s| - 1], c) + if s[|s| - 1] == c then 1 else 0
  }

  /** How many times `\r\n` is in a text. */
  function CountCrLf(s: string): nat {
    if |s| < 2 then 0 else CountCrLf(s[..|s| - 1]) + if s[|s| - 2..] == "\r\n" then 1 else 0
  }

  /** The parts of a text between separators. */
  function SplitOn(s: string, sep: string): (parts: seq<string>)
    requires sep != ""
    ensures parts != []
    decreases |s|
  {
    if s == "" then [""]
    else if StartsWith(s, sep) then [""] + SplitOn(s[|sep|..], sep)
    else
      var rest := SplitOn(s[1..], sep);
      [[s[0]] + rest[0]] + rest[1..]
  }

  function JoinWith(parts: seq<string>, sep: string): string {
    if parts == [] then ""
    else if |parts| == 1 then parts[0]
    else parts[0] + sep + JoinWith(parts[1..], sep)
  }

  function EolOf(crlf: bool): string { if crlf then "\r\n" else "\n" }

  /** A text as lines, without its last line ending. */
  function DocOf(text: string, crlf: bool, bom: bool): Doc {
    var eol := EolOf(crlf);
    var body := if EndsWith(text, eol) then text[..|text| - |eol|] else text;
    Doc(if text == "" then [] else SplitOn(body, eol), crlf, text == "" || EndsWith(text, "\n"), bom)
  }

  /** Refused when only some newlines are `\r\n`. */
  function Parse(whole: string): Option<Doc> {
    var bom := StartsWith(whole, [BOM]);
    var text := if bom then whole[1..] else whole;
    var crlf := CountCrLf(text) > 0;
    if crlf && CountOf(text, '\n') != CountCrLf(text) then None else Some(DocOf(text, crlf, bom))
  }

  function Written(doc: Doc): string {
    (if doc.bom then [BOM] else "") + JoinWith(doc.lines, doc.Eol()) +
    if doc.finalEol && doc.lines != [] then doc.Eol() else ""
  }

  // ----- Every accepted text is written back as it was -----

  lemma JoinMore(first: string, rest: seq<string>, sep: string)
    requires rest != []
    ensures JoinWith([first] + rest, sep) == first + sep + JoinWith(rest, sep)
  {
    assert ([first] + rest)[1..] == rest;
  }

  lemma JoinFirst(c: char, parts: seq<string>, sep: string)
    requires parts != []
    ensures JoinWith([[c] + parts[0]] + parts[1..], sep) == [c] + JoinWith(parts, sep)
  {
    if |parts| > 1 {
      JoinMore([c] + parts[0], parts[1..], sep);
      assert ([c] + parts[0]) + sep == [c] + (parts[0] + sep);
    }
  }

  lemma JoinAtSeparator(s: string, sep: string)
    requires sep != "" && s != "" && StartsWith(s, sep)
    requires JoinWith(SplitOn(s[|sep|..], sep), sep) == s[|sep|..]
    ensures JoinWith(SplitOn(s, sep), sep) == s
  {
    var (after, rest) := (s[|sep|..], SplitOn(s[|sep|..], sep));
    JoinMore("", rest, sep);
    SepFirst(s, sep, after, JoinWith([""] + rest, sep));
  }

  lemma SepFirst(s: string, sep: string, after: string, joined: string)
    requires StartsWith(s, sep) && after == s[|sep|..] && joined == "" + sep + after
    ensures joined == s
  {
  }

  lemma JoinAtChar(s: string, sep: string)
    requires sep != "" && s != "" && !StartsWith(s, sep)
    requires JoinWith(SplitOn(s[1..], sep), sep) == s[1..]
    ensures JoinWith(SplitOn(s, sep), sep) == s
  {
    JoinFirst(s[0], SplitOn(s[1..], sep), sep);
    assert s == [s[0]] + s[1..];
  }

  lemma {:induction false} JoinSplit(s: string, sep: string)
    requires sep != ""
    ensures JoinWith(SplitOn(s, sep), sep) == s
    decreases |s|
  {
    if s == "" {
    } else if StartsWith(s, sep) {
      JoinSplit(s[|sep|..], sep);
      JoinAtSeparator(s, sep);
    } else {
      JoinSplit(s[1..], sep);
      JoinAtChar(s, sep);
    }
  }

  /** No more `\r\n` than newlines; as many only when each newline ends one. */
  lemma {:induction false} CrLfCounts(s: string)
    ensures CountCrLf(s) <= CountOf(s, '\n')
    ensures CountCrLf(s) == CountOf(s, '\n') && EndsWith(s, "\n") ==> EndsWith(s, "\r\n")
    decreases |s|
  {
    if |s| >= 2 {
      CrLfCounts(s[..|s| - 1]);
      LastTwo(s);
    } else if |s| == 1 {
      assert CountOf(s[..0], '\n') == 0;
      assert s[|s| - 1..] == [s[|s| - 1]];
    }
  }

  lemma LastTwo(s: string)
    requires |s| >= 2
    ensures s[|s| - 2..] == [s[|s| - 2], s[|s| - 1]] && s[|s| - 1..] == [s[|s| - 1]]
  {
  }

  lemma EndsInNewline(s: string)
    requires EndsWith(s, "\r\n")
    ensures EndsWith(s, "\n")
  {
    assert s[|s| - 1..] == s[|s| - 2..][1..];
  }

  lemma EndsAlike(text: string, crlf: bool)
    requires crlf ==> CountCrLf(text) == CountOf(text, '\n')
    requires !crlf ==> CountCrLf(text) == 0
    ensures EndsWith(text, EolOf(crlf)) <==> EndsWith(text, "\n")
  {
    CrLfCounts(text);
    if crlf && EndsWith(text, "\r\n") {
      EndsInNewline(text);
    }
  }

  lemma DocWritten(text: string, crlf: bool, bom: bool)
    requires EndsWith(text, EolOf(crlf)) <==> EndsWith(text, "\n")
    ensures Written(DocOf(text, crlf, bom)) == (if bom then [BOM] else "") + text
  {
    var eol := EolOf(crlf);
    if text != "" {
      var body := if EndsWith(text, eol) then text[..|text| - |eol|] else text;
      JoinSplit(body, eol);
      assert text == body + if EndsWith(text, eol) then eol else "";
    }
  }

  /** Reading a text as lines and writing them gives the text: with or without a byte order mark or a final newline. */
  lemma WrittenIsRead(whole: string)
    requires Parse(whole).Some?
    ensures Written(Parse(whole).value) == whole
  {
    var bom := StartsWith(whole, [BOM]);
    var text := if bom then whole[1..] else whole;
    EndsAlike(text, CountCrLf(text) > 0);
    DocWritten(text, CountCrLf(text) > 0, bom);
    assert whole == (if bom then [BOM] else "") + text;
  }

  // ----- Splices -----

  // ----- Which texts are accepted, and what their lines are -----

  predicate HasAt(s: string, sep: string, i: int) {
    0 <= i <= i + |sep| <= |s| && s[i..i + |sep|] == sep
  }

  /** A newline that is not the end of a `\r\n`. */
  predicate LoneNewline(s: string, i: int) {
    0 <= i < |s| && s[i] == '\n' && !(i > 0 && s[i - 1] == '\r')
  }

  lemma {:induction false} EndingsCounted(s: string)
    ensures CountCrLf(s) <= CountOf(s, '\n')
    ensures CountCrLf(s) > 0 <==> exists i :: HasAt(s, "\r\n", i)
    ensures CountOf(s, '\n') != CountCrLf(s) <==> exists i :: LoneNewline(s, i)
  {
    if s != "" {
      var (init, n) := (s[..|s| - 1], |s|);
      EndingsCounted(init);
      EndingsMore(s);
      assert n < 2 ==> CountCrLf(init) == 0;
    }
  }

  /** What one character more adds. */
  lemma EndingsMore(s: string)
    requires s != ""
    ensures var init := s[..|s| - 1];
            && ((exists i :: HasAt(s, "\r\n", i)) <==> (exists i :: HasAt(init, "\r\n", i)) || (|s| >= 2 && s[|s| - 2..] == "\r\n"))
            && ((exists i :: LoneNewline(s, i)) <==> (exists i :: LoneNewline(init, i)) || LoneNewline(s, |s| - 1))
            && (|s| >= 2 && s[|s| - 2..] == "\r\n" <==> s[|s| - 1] == '\n' && !LoneNewline(s, |s| - 1))
  {
    var (init, n) := (s[..|s| - 1], |s|);
    forall i | HasAt(init, "\r\n", i) ensures HasAt(s, "\r\n", i) {
      assert s[i..i + 2] == init[i..i + 2];
    }
    forall i | HasAt(s, "\r\n", i) ensures HasAt(init, "\r\n", i) || (n >= 2 && s[n - 2..] == "\r\n") {
      if i + 2 < n {
        assert s[i..i + 2] == init[i..i + 2];
      } else {
        assert s[i..i + 2] == s[n - 2..];
      }
    }
    if n >= 2 && s[n - 2..] == "\r\n" {
      assert s[n - 2..][0] == s[n - 2] && s[n - 2..][1] == s[n - 1];
      assert HasAt(s, "\r\n", n - 2);
    }
    if n >= 2 && s[n - 2] == '\r' && s[n - 1] == '\n' {
      assert s[n - 2..] == "\r\n";
    }
    forall i | LoneNewline(init, i) ensures LoneNewline(s, i) {
    }
    forall i | LoneNewline(s, i) && i < n - 1 ensures LoneNewline(init, i) {
    }
  }

  /** A text is accepted exactly when it has no `\r\n`, or no newline but in one; its byte order mark set aside. */
  lemma AcceptedIff(whole: string)
    ensures var text := if StartsWith(whole, [BOM]) then whole[1..] else whole;
            Parse(whole).Some? <==> !(exists i :: HasAt(text, "\r\n", i)) || !(exists i :: LoneNewline(text, i))
  {
    EndingsCounted(if StartsWith(whole, [BOM]) then whole[1..] else whole);
  }

  /** The parts are what is between separators: none has one in it. */
  lemma {:induction false} PartsHaveNone(s: string, sep: string)
    requires sep != ""
    ensures forall part, i | part in SplitOn(s, sep) :: !HasAt(part, sep, i)
    decreases |s|
  {
    if s == "" {
    } else if StartsWith(s, sep) {
      PartsHaveNone(s[|sep|..], sep);
    } else {
      var rest := SplitOn(s[1..], sep);
      PartsHaveNone(s[1..], sep);
      FirstIsPrefix(s[1..], sep);
      forall i ensures !HasAt([s[0]] + rest[0], sep, i) {
        if HasAt([s[0]] + rest[0], sep, i) {
          InFirst(s, rest[0], sep, i);
        }
      }
    }
  }

  /** What is in a part with a character before it is in the part, or starts the text. */
  lemma InFirst(s: string, part: string, sep: string, i: int)
    requires s != "" && part <= s[1..] && HasAt([s[0]] + part, sep, i)
    ensures StartsWith(s, sep) || HasAt(part, sep, i - 1)
  {
    var first := [s[0]] + part;
    if i == 0 {
      assert first[..|sep|] == s[..|sep|];
    } else {
      assert first[i..i + |sep|] == part[i - 1..i - 1 + |sep|];
    }
  }

  lemma FirstIsPrefix(s: string, sep: string)
    requires sep != ""
    ensures SplitOn(s, sep)[0] <= s
  {
    var parts := SplitOn(s, sep);
    JoinSplit(s, sep);
    if |parts| > 1 {
      assert s == parts[0] + (sep + JoinWith(parts[1..], sep));
    }
  }

  /** The lines of an accepted text have none of its line endings in them. */
  lemma LinesAreLines(whole: string, line: string, i: int)
    requires Parse(whole).Some? && line in Parse(whole).value.lines
    ensures !HasAt(line, Parse(whole).value.Eol(), i)
  {
    var text := if StartsWith(whole, [BOM]) then whole[1..] else whole;
    DocHasLines(text, CountCrLf(text) > 0, StartsWith(whole, [BOM]), line, i);
  }

  lemma DocHasLines(text: string, crlf: bool, bom: bool, line: string, i: int)
    requires line in DocOf(text, crlf, bom).lines
    ensures !HasAt(line, EolOf(crlf), i)
  {
    var eol := EolOf(crlf);
    PartsHaveNone(if EndsWith(text, eol) then text[..|text| - |eol|] else text, eol);
  }

  /** A range of lines, and what stands there instead. */
  datatype Splice = Splice(start: nat, end: nat, lines: seq<string>)

  ghost predicate Fits(splices: seq<Splice>, count: nat) {
    forall s | s in splices :: s.start <= s.end <= count
  }

  /** No two start at one line, nor share any. */
  ghost predicate Apart(splices: seq<Splice>) {
    && (forall i, j | 0 <= i < j < |splices| :: splices[i].start != splices[j].start)
    && (forall s, t | s in splices && t in splices && s != t :: s.end <= t.start || t.end <= s.start)
  }

  // All at once: by where each line is in the file as it was.

  function PutAt(splices: seq<Splice>, line: nat): seq<string> {
    if splices == [] then []
    else if splices[0].start == line then splices[0].lines
    else PutAt(splices[1..], line)
  }

  predicate Replaced(splices: seq<Splice>, line: nat) {
    exists s | s in splices :: s.start <= line < s.end
  }

  /** The file from a line on: at each line what is put there, and the line itself when it is not replaced. */
  function AtOnce(lines: seq<string>, splices: seq<Splice>, from: nat): seq<string>
    requires from <= |lines|
    decreases |lines| - from
  {
    PutAt(splices, from) +
    if from == |lines| then []
    else (if Replaced(splices, from) then [] else [lines[from]]) + AtOnce(lines, splices, from + 1)
  }

  // One by one, from the bottom up.

  function Spliced(lines: seq<string>, s: Splice): seq<string>
    requires s.start <= s.end <= |lines|
  {
    lines[..s.start] + s.lines + lines[s.end..]
  }

  function InsertDown(sorted: seq<Splice>, s: Splice): seq<Splice> {
    if sorted == [] || sorted[0].start < s.start then [s] + sorted
    else [sorted[0]] + InsertDown(sorted[1..], s)
  }

  /** The lowest first; those with one start in their order. */
  function SortDown(splices: seq<Splice>): seq<Splice> {
    if splices == [] then [] else InsertDown(SortDown(splices[..|splices| - 1]), splices[|splices| - 1])
  }

  /** Each starts above the one before. */
  ghost predicate Downwards(splices: seq<Splice>) {
    forall i, j | 0 <= i < j < |splices| :: splices[i].start > splices[j].start
  }

  lemma {:induction false} InsertDownHas(sorted: seq<Splice>, s: Splice)
    requires Downwards(sorted) && forall t | t in sorted :: t.start != s.start
    ensures Downwards(InsertDown(sorted, s)) && forall t :: t in InsertDown(sorted, s) <==> t == s || t in sorted
  {
    if sorted == [] || sorted[0].start < s.start {
    } else {
      var (first, rest) := (sorted[0], sorted[1..]);
      assert first in sorted && sorted == [first] + rest;
      InsertDownHas(rest, s);
      var all := [first] + InsertDown(rest, s);
      forall i, j | 0 <= i < j < |all| ensures all[i].start > all[j].start {
        assert all[j] in InsertDown(rest, s);
      }
    }
  }

  lemma {:induction false} SortDownHas(splices: seq<Splice>)
    requires forall i, j | 0 <= i < j < |splices| :: splices[i].start != splices[j].start
    ensures Downwards(SortDown(splices)) && forall t :: t in SortDown(splices) <==> t in splices
  {
    if splices != [] {
      var (init, last) := (splices[..|splices| - 1], splices[|splices| - 1]);
      assert splices == init + [last];
      SortDownHas(init);
      InsertDownHas(SortDown(init), last);
    }
  }

  // ----- One by one is all at once -----

  /** What is put at a line by the splice that starts there. */
  lemma {:induction false} PutByOne(splices: seq<Splice>, i: nat)
    requires forall k, l | 0 <= k < l < |splices| :: splices[k].start != splices[l].start
    requires i < |splices|
    ensures PutAt(splices, splices[i].start) == splices[i].lines
  {
    if i > 0 {
      assert splices[1..][i - 1] == splices[i];
      PutByOne(splices[1..], i - 1);
    }
  }

  lemma {:induction false} PutByNone(splices: seq<Splice>, line: nat)
    requires forall s | s in splices :: s.start != line
    ensures PutAt(splices, line) == []
  {
    if splices != [] {
      assert splices[0] in splices;
      PutByNone(splices[1..], line);
    }
  }

  /** Lines replaced with nothing put among them are gone. */
  lemma {:induction false} GoneLines(lines: seq<string>, splices: seq<Splice>, from: nat, to: nat)
    requires from <= to <= |lines|
    requires forall k: nat | from <= k < to :: PutAt(splices, k) == [] && Replaced(splices, k)
    ensures AtOnce(lines, splices, from) == AtOnce(lines, splices, to)
    decreases |lines| - from
  {
    if from < to {
      GoneLines(lines, splices, from + 1, to);
    }
  }

  /** Lines that are not replaced, with nothing put among them, are there as they were. */
  lemma {:induction false} KeptLines(lines: seq<string>, splices: seq<Splice>, from: nat, to: nat)
    requires from <= to <= |lines|
    requires forall k: nat | from <= k < to :: PutAt(splices, k) == [] && !Replaced(splices, k)
    ensures AtOnce(lines, splices, from) == lines[from..to] + AtOnce(lines, splices, to)
    decreases |lines| - from
  {
    if from < to {
      KeptLines(lines, splices, from + 1, to);
      assert lines[from..to] == [lines[from]] + lines[from + 1..to];
    }
  }

  /** A line that is not replaced is in the edited file, between what comes of the lines before and after it. */
  lemma {:induction false} LineStays(lines: seq<string>, splices: seq<Splice>, from: nat, line: nat) returns (before: seq<string>)
    requires from <= line < |lines| && !Replaced(splices, line)
    ensures AtOnce(lines, splices, from) == before + [lines[line]] + AtOnce(lines, splices, line + 1)
    decreases line - from
  {
    if from == line {
      before := PutAt(splices, line);
    } else {
      var rest := LineStays(lines, splices, from + 1, line);
      before := PutAt(splices, from) + (if Replaced(splices, from) then [] else [lines[from]]) + rest;
    }
  }

  /** Where the lines replaced so far, from the bottom up, start. */
  function Reached(lines: seq<string>, down: seq<Splice>, k: nat): nat
    requires k <= |down|
  {
    if k == 0 then |lines| else down[k - 1].start
  }

  /** What the file is from there on. */
  function Below(lines: seq<string>, down: seq<Splice>, k: nat): seq<string>
    requires k <= |down| && Reached(lines, down, k) <= |lines|
  {
    if k == 0 then [] else AtOnce(lines, down, down[k - 1].start)
  }

  /** Between one splice and the next one down, no other starts. */
  lemma NonePut(down: seq<Splice>, k: nat, line: nat)
    requires Downwards(down) && k <= |down|
    requires (k < |down| ==> down[k].start < line) && (k > 0 ==> line < down[k - 1].start)
    ensures PutAt(down, line) == []
  {
    forall s | s in down ensures s.start != line {
      var i :| 0 <= i < |down| && down[i] == s;
    }
    PutByNone(down, line);
  }

  /** Nor does any replace a line there. */
  lemma NoneReplaced(down: seq<Splice>, k: nat, line: nat)
    requires Apart(down) && Downwards(down) && k <= |down|
    requires (k < |down| ==> down[k].start <= down[k].end <= line) && (k > 0 ==> line < down[k - 1].start)
    ensures !Replaced(down, line)
  {
    forall s | s in down ensures !(s.start <= line < s.end) {
      var i :| 0 <= i < |down| && down[i] == s;
      if i > k {
        assert down[k] in down && s.start < down[k].start;
      }
    }
  }

  /** One line of the file. */
  lemma AtLine(lines: seq<string>, splices: seq<Splice>, line: nat, replaced: bool)
    requires line < |lines| && Replaced(splices, line) == replaced
    ensures AtOnce(lines, splices, line) ==
            PutAt(splices, line) + ((if replaced then [] else [lines[line]]) + AtOnce(lines, splices, line + 1))
  {
  }

  lemma GoneBetween(down: seq<Splice>, k: nat)
    requires Downwards(down) && k < |down| && (k > 0 ==> down[k].end <= down[k - 1].start)
    ensures forall line: nat | down[k].start < line < down[k].end :: PutAt(down, line) == [] && Replaced(down, line)
    ensures down[k].start < down[k].end ==> Replaced(down, down[k].start)
  {
    assert down[k] in down;
    forall line: nat | down[k].start < line < down[k].end ensures PutAt(down, line) == [] && Replaced(down, line) {
      NonePut(down, k, line);
    }
  }

  /** What a splice replaces is gone. */
  lemma StretchGone(lines: seq<string>, down: seq<Splice>, s: Splice)
    requires s.start < s.end <= |lines| && PutAt(down, s.start) == s.lines && Replaced(down, s.start)
    requires AtOnce(lines, down, s.start + 1) == AtOnce(lines, down, s.end)
    ensures AtOnce(lines, down, s.start) == s.lines + AtOnce(lines, down, s.end)
  {
    AtLine(lines, down, s.start, true);
  }

  lemma AboveReached(lines: seq<string>, down: seq<Splice>, k: nat)
    requires Apart(down) && Downwards(down) && Fits(down, |lines|) && k < |down|
    ensures Reached(lines, down, k) <= |lines| && down[k].start <= down[k].end <= Reached(lines, down, k)
    ensures k > 0 ==> down[k].start < down[k - 1].start
  {
    assert down[k] in down && (k > 0 ==> down[k - 1] in down && down[k - 1] != down[k]);
  }

  /** From where a splice starts, the file is its lines, the lines down to the next one reached, and what is below. */
  lemma Stretch(lines: seq<string>, down: seq<Splice>, k: nat)
    requires Apart(down) && Downwards(down) && Fits(down, |lines|) && k < |down|
    ensures Reached(lines, down, k) <= |lines| && down[k].start <= down[k].end <= Reached(lines, down, k)
    ensures AtOnce(lines, down, down[k].start) ==
            down[k].lines + lines[down[k].end..Reached(lines, down, k)] + Below(lines, down, k)
  {
    var s := down[k];
    AboveReached(lines, down, k);
    if s.start < s.end {
      GoneBetween(down, k);
      PutByOne(down, k);
      GoneLines(lines, down, s.start + 1, s.end);
      StretchGone(lines, down, s);
      StretchKept(lines, down, k, s.end);
      ThreeParts(s.lines, lines[s.end..Reached(lines, down, k)], Below(lines, down, k));
    } else {
      StretchInsert(lines, down, k);
    }
  }

  lemma ThreeParts(a: seq<string>, b: seq<string>, c: seq<string>)
    ensures a + (b + c) == a + b + c
  {
  }

  /** The same where nothing is replaced. */
  lemma StretchInsert(lines: seq<string>, down: seq<Splice>, k: nat)
    requires Apart(down) && Downwards(down) && Fits(down, |lines|) && k < |down| && down[k].start == down[k].end
    ensures Reached(lines, down, k) <= |lines| && down[k].end <= Reached(lines, down, k)
    ensures AtOnce(lines, down, down[k].start) ==
            down[k].lines + lines[down[k].end..Reached(lines, down, k)] + Below(lines, down, k)
  {
    var (s, to) := (down[k], Reached(lines, down, k));
    AboveReached(lines, down, k);
    PutByOne(down, k);
    if s.start < |lines| {
      NoneReplaced(down, k, s.start);
      AtLine(lines, down, s.start, false);
      StretchKept(lines, down, k, s.start + 1);
      OneMoreLine(lines, s.lines, s.start, to, Below(lines, down, k));
    }
  }

  lemma OneMoreLine(lines: seq<string>, put: seq<string>, from: nat, to: nat, below: seq<string>)
    requires from < to <= |lines|
    ensures put + ([lines[from]] + (lines[from + 1..to] + below)) == put + lines[from..to] + below
  {
  }

  lemma StretchKept(lines: seq<string>, down: seq<Splice>, k: nat, from: nat)
    requires Apart(down) && Downwards(down) && Fits(down, |lines|) && k <= |down|
    requires k < |down| ==> down[k].start <= down[k].end <= from && down[k].start < from
    requires Reached(lines, down, k) <= |lines| && from <= Reached(lines, down, k)
    ensures AtOnce(lines, down, from) == lines[from..Reached(lines, down, k)] + Below(lines, down, k)
  {
    var to := Reached(lines, down, k);
    forall line: nat | from <= line < to ensures PutAt(down, line) == [] && !Replaced(down, line) {
      NonePut(down, k, line);
      NoneReplaced(down, k, line);
    }
    KeptLines(lines, down, from, to);
    if k == 0 {
      NonePut(down, k, |lines|);
    }
  }

  // ----- The loop -----

  /** The same splices in another order replace the same. */
  lemma {:induction false} SameAtOnce(lines: seq<string>, a: seq<Splice>, b: seq<Splice>, from: nat)
    requires from <= |lines| && Apart(a) && Apart(b) && forall s :: s in a <==> s in b
    ensures AtOnce(lines, a, from) == AtOnce(lines, b, from)
    decreases |lines| - from
  {
    SamePut(a, b, from);
    if from < |lines| {
      SameAtOnce(lines, a, b, from + 1);
    }
  }

  lemma SamePut(a: seq<Splice>, b: seq<Splice>, line: nat)
    requires Apart(a) && Apart(b) && forall s :: s in a <==> s in b
    ensures PutAt(a, line) == PutAt(b, line)
  {
    if i :| 0 <= i < |a| && a[i].start == line {
      assert a[i] in b;
      var j :| 0 <= j < |b| && b[j] == a[i];
      PutByOne(a, i);
      PutByOne(b, j);
    } else {
      PutByNone(a, line);
      PutByNone(b, line);
    }
  }

  lemma SortedApart(splices: seq<Splice>)
    requires Apart(splices)
    ensures Apart(SortDown(splices)) && Downwards(SortDown(splices))
    ensures forall s :: s in SortDown(splices) <==> s in splices
  {
    SortDownHas(splices);
  }

  /**
   Splices applied from the bottom up, each by the line numbers of the file as it
   was, come to the same as all of them at once.
   */
  method ApplySplices(lines: seq<string>, splices: seq<Splice>) returns (edited: seq<string>)
    requires Fits(splices, |lines|) && Apart(splices)
    ensures edited == AtOnce(lines, splices, 0)
  {
    var down := SortDown(splices);
    SortedApart(splices);
    SameAtOnce(lines, splices, down, 0);
    edited := lines;
    for k := 0 to |down|
      invariant Done(lines, down, k, edited)
    {
      OneMoreSplice(lines, down, k, edited);
      edited := Spliced(edited, down[k]);
    }
    Lowest(lines, down);
  }

  /** The file once the first `k` splices from the bottom up are applied. */
  ghost predicate Done(lines: seq<string>, down: seq<Splice>, k: nat, edited: seq<string>)
    requires k <= |down|
  {
    Reached(lines, down, k) <= |lines| && edited == lines[..Reached(lines, down, k)] + Below(lines, down, k)
  }

  /** A splice above what is done replaces the lines it says. */
  lemma SplicedAbove(lines: seq<string>, s: Splice, to: nat, below: seq<string>)
    requires s.start <= s.end <= to <= |lines|
    ensures Spliced(lines[..to] + below, s) == lines[..s.start] + (s.lines + lines[s.end..to] + below)
  {
  }

  /** The next splice down replaces its lines above what is done. */
  lemma OneMoreSplice(lines: seq<string>, down: seq<Splice>, k: nat, edited: seq<string>)
    requires Apart(down) && Downwards(down) && Fits(down, |lines|) && k < |down| && Done(lines, down, k, edited)
    ensures down[k].start <= down[k].end <= |edited| && Done(lines, down, k + 1, Spliced(edited, down[k]))
  {
    Stretch(lines, down, k);
    SplicedAbove(lines, down[k], Reached(lines, down, k), Below(lines, down, k));
  }

  /** Above the lowest splice nothing is replaced. */
  lemma Lowest(lines: seq<string>, down: seq<Splice>)
    requires Apart(down) && Downwards(down) && Fits(down, |lines|) && Reached(lines, down, |down|) <= |lines|
    ensures AtOnce(lines, down, 0) == lines[..Reached(lines, down, |down|)] + Below(lines, down, |down|)
  {
    StretchKept(lines, down, |down|, 0);
  }
}
