/** How a line of a config is scanned for comments, quotes, flow collections and anchors. */
module Scanning {
  import opened Specs
  import opened Quoting

  datatype Special = Anchor | Alias | Tag | ComplexKey

  /** What is carried through a line, and what is found on it. */
  datatype Lex = Lex(
    quote: Option<char>,
    depth: nat,
    block: Option<nat>,
    tok: bool,
    ws: bool,
    owner: nat,
    scalar: nat,
    comment: Option<nat>,
    special: Option<Special>,
    anchor: bool)

  predicate IsWs(c: char) { c == ' ' || c == '\t' }

  predicate IsFlowIndicator(c: char) { c == ',' || c == '[' || c == ']' || c == '{' || c == '}' }

  /** A separator, or the end, at a place; in a flow collection an indicator is one too. */
  predicate Sep(b: string, j: nat, flow: bool) {
    j >= |b| || IsWs(b[j]) || (flow && IsFlowIndicator(b[j]))
  }

  /** The last place of a name that starts before `i + 1`. */
  function NameEnd(b: string, i: nat): (end: nat)
    requires i < |b|
    ensures i <= end < |b|
    decreases |b| - i
  {
    if i + 1 < |b| && !IsWs(b[i + 1]) && !IsFlowIndicator(b[i + 1]) then NameEnd(b, i + 1) else i
  }

  function FirstSpecial(st: Lex, special: Special): Lex {
    if st.special.None? then st.(special := Some(special)) else st
  }

  datatype Stepped = Stepped(st: Lex, next: nat)

  /** One character where a token can start. */
  function StartToken(b: string, i: nat, st: Lex): (r: Stepped)
    requires i < |b|
    ensures r.next > i
  {
    var (c, flow) := (b[i], st.depth > 0);
    if c == '"' || c == '\'' then Stepped(st.(quote := Some(c), scalar := i), i + 1)
    else if c == '[' || c == '{' then Stepped(st.(depth := st.depth + 1), i + 1)
    else if c == ']' || c == '}' then Stepped(st.(depth := if st.depth > 0 then st.depth - 1 else 0, tok := false), i + 1)
    else if c == ',' && flow then Stepped(st, i + 1)
    else if c == '&' || c == '*' || c == '!' then
      var found := FirstSpecial(st, if c == '&' then Anchor else if c == '*' then Alias else Tag);
      Stepped(found.(anchor := st.anchor || c == '&', tok := c != '*'), NameEnd(b, i) + 1)
    else if (c == '|' || c == '>') && !flow then Stepped(st.(block := Some(st.owner), tok := false), i + 1)
    else if (c == '-' || c == '?' || c == ':') && Sep(b, i + 1, flow) then
      var owned := if c == '-' && !flow then st.(owner := i) else st;
      Stepped(if c == '?' then FirstSpecial(owned, ComplexKey) else owned, i + 1)
    else Stepped(st.(tok := false, scalar := i), i + 1)
  }

  /** One character inside a plain scalar, or after a token. */
  function InToken(b: string, i: nat, st: Lex): Stepped
    requires i < |b|
  {
    var (c, flow) := (b[i], st.depth > 0);
    if c == ':' && Sep(b, i + 1, flow) then Stepped(st.(owner := if flow then st.owner else st.scalar, tok := true), i + 1)
    else if c == ',' && flow then Stepped(st.(tok := true), i + 1)
    else if (c == '[' || c == '{') && flow then Stepped(st.(depth := st.depth + 1, tok := true), i + 1)
    else if (c == ']' || c == '}') && flow then Stepped(st.(depth := st.depth - 1), i + 1)
    else Stepped(st, i + 1)
  }

  /** One character inside a quoted scalar, or two that go together there. */
  function InQuote(b: string, i: nat, st: Lex): (r: Stepped)
    requires i < |b| && st.quote.Some?
    ensures r.next > i
  {
    var (c, q) := (b[i], st.quote.value);
    if q == '"' && c == '\\' then Stepped(st, i + 2)
    else if c == q && q == '\'' && i + 1 < |b| && b[i + 1] == '\'' then Stepped(st, i + 2)
    else if c == q then Stepped(st.(quote := None, tok := false, ws := false), i + 1)
    else Stepped(st.(ws := false), i + 1)
  }

  predicate StartsComment(b: string, i: nat, st: Lex)
    requires i < |b|
  {
    st.quote.None? && b[i] == '#' && st.ws
  }

  function Step(b: string, i: nat, st: Lex): (r: Stepped)
    requires i < |b|
    ensures r.next > i
  {
    if st.quote.Some? then InQuote(b, i, st)
    else if IsWs(b[i]) then Stepped(st.(ws := true), i + 1)
    else if st.tok then StartToken(b, i, st.(ws := false))
    else InToken(b, i, st.(ws := false))
  }

  /** What is found from a place to the end of the line, or to its comment. */
  function ScanFrom(b: string, i: nat, st: Lex): Lex
    decreases |b| - i
  {
    if i >= |b| then st
    else if StartsComment(b, i, st) then st.(comment := Some(i))
    else ScanFrom(b, Step(b, i, st).next, Step(b, i, st).st)
  }

  /** Scans a line from its indent, carrying what the lines before it left open. */
  method Scan(b: string, from: nat, quote: Option<char>, depth: nat) returns (st: Lex)
    ensures st == ScanFrom(b, from, Lex(quote, depth, None, true, true, from, from, None, None, false))
  {
    st := Lex(quote, depth, None, true, true, from, from, None, None, false);
    ghost var start := st;
    var i := from;
    while i < |b|
      invariant ScanFrom(b, i, st) == ScanFrom(b, from, start)
      decreases |b| - i
    {
      var c := b[i];
      if st.quote.Some? {
        var q := st.quote.value;
        if q == '"' && c == '\\' {
          i := i + 2;
          continue;
        }
        if c == q {
          if q == '\'' && i + 1 < |b| && b[i + 1] == '\'' {
            i := i + 2;
            continue;
          }
          st := st.(quote := None, tok := false);
        }
        st, i := st.(ws := false), i + 1;
        continue;
      }
      if IsWs(c) {
        st, i := st.(ws := true), i + 1;
        continue;
      }
      if c == '#' && st.ws {
        st := st.(comment := Some(i));
        return;
      }
      st := st.(ws := false);
      var step := if st.tok then StartToken(b, i, st) else InToken(b, i, st);
      st, i := step.st, step.next;
    }
  }

  // ----- A quoted scalar is passed over whole -----

  /** From inside a quote, the scan goes on right after the quote that closes it; or the line ends inside. */
  lemma {:induction false} PassQuote(b: string, i: nat, st: Lex)
    requires st.quote.Some? && (st.quote == Some('"') || st.quote == Some('\''))
    ensures var end := CloseFrom(b, st.quote.value, i);
            if end < |b| then
              ScanFrom(b, i, st) == ScanFrom(b, end + 1, st.(quote := None, tok := false, ws := false))
            else ScanFrom(b, i, st).quote == st.quote
    decreases |b| - i
  {
    if i < |b| {
      var step := InQuote(b, i, st);
      if step.st.quote.Some? {
        PassQuote(b, step.next, step.st);
      }
    }
  }

  /** What the scan is after a quoted scalar that starts at a place. */
  function AfterScalar(st: Lex, i: nat): Lex {
    st.(quote := None, tok := false, ws := false, scalar := i)
  }

  lemma EntersQuote(b: string, i: nat, st: Lex)
    requires i < |b| && st.quote.None? && st.tok && (b[i] == '"' || b[i] == '\'')
    ensures ScanFrom(b, i, st) == ScanFrom(b, i + 1, st.(quote := Some(b[i]), scalar := i, ws := false))
  {
  }

  /** A quoted scalar is passed over up to the quote that closes it. */
  lemma PassScalar(b: string, i: nat, end: nat, st: Lex)
    requires i < end < |b| && st.quote.None? && st.tok && (b[i] == '"' || b[i] == '\'')
    requires end == CloseFrom(b, b[i], i + 1)
    ensures ScanFrom(b, i, st) == ScanFrom(b, end + 1, AfterScalar(st, i))
  {
    EntersQuote(b, i, st);
    PassQuote(b, i + 1, st.(quote := Some(b[i]), scalar := i, ws := false));
  }

  lemma QuotesGrouped(pre: string, q: string, text: string, rest: string)
    requires |q| == 1
    ensures var b := pre + (q + text + q) + rest;
            b == (pre + q) + text + q + rest && b[|pre|] == q[0] && |b| >= |pre| + |text| + 2
  {
  }

  lemma DoubleEnds(b: string, pre: string, s: string, rest: string)
    requires b == (pre + "\"") + QuotedChars(s) + "\"" + rest
    ensures CloseFrom(b, '"', |pre| + 1) == |pre| + |QuotedChars(s)| + 1
  {
    PassQuotedChars(pre + "\"", s, rest);
  }

  /** A double-quoted scalar where a token can start is closed by its last quote. */
  lemma DoublePassed(b: string, pre: string, s: string, rest: string, st: Lex)
    requires st.quote.None? && st.tok && b == pre + DoubleQuoted(s) + rest
    ensures ScanFrom(b, |pre|, st) == ScanFrom(b, |pre| + |DoubleQuoted(s)|, AfterScalar(st, |pre|))
  {
    DoubleIs(s);
    QuotesGrouped(pre, "\"", QuotedChars(s), rest);
    DoubleEnds(b, pre, s, rest);
    PassScalar(b, |pre|, |pre| + |DoubleQuoted(s)| - 1, st);
  }

  lemma DoubleIs(s: string)
    ensures DoubleQuoted(s) == "\"" + QuotedChars(s) + "\"" && |DoubleQuoted(s)| == |QuotedChars(s)| + 2
  {
  }

  lemma DoubledEnds(b: string, pre: string, s: string, rest: string)
    requires b == (pre + "'") + Doubled(s) + "'" + rest && (rest == "" || rest[0] != '\'')
    ensures CloseFrom(b, '\'', |pre| + 1) == |pre| + |Doubled(s)| + 1
  {
    PassDoubled(pre + "'", s, rest);
  }

  lemma DoubledPassed(b: string, pre: string, s: string, rest: string, st: Lex)
    requires st.quote.None? && st.tok && (rest == "" || rest[0] != '\'')
    requires b == pre + ("'" + Doubled(s) + "'") + rest
    ensures ScanFrom(b, |pre|, st) == ScanFrom(b, |pre| + |Doubled(s)| + 2, AfterScalar(st, |pre|))
  {
    QuotesGrouped(pre, "'", Doubled(s), rest);
    DoubledEnds(b, pre, s, rest);
    PassScalar(b, |pre|, |pre| + |Doubled(s)| + 1, st);
  }

  lemma SingleIs(s: string, quoted: string)
    requires SingleQuoted(s) == Some(quoted)
    ensures quoted == "'" + Doubled(s) + "'" && |quoted| == |Doubled(s)| + 2
  {
  }

  /** So is a single-quoted one, with no quote right after it. */
  lemma SinglePassed(b: string, pre: string, s: string, quoted: string, rest: string, st: Lex)
    requires st.quote.None? && st.tok && SingleQuoted(s) == Some(quoted) && (rest == "" || rest[0] != '\'')
    requires b == pre + quoted + rest
    ensures ScanFrom(b, |pre|, st) == ScanFrom(b, |pre| + |quoted|, AfterScalar(st, |pre|))
  {
    SingleIs(s, quoted);
    DoubledPassed(b, pre, s, rest, st);
  }

  // ----- Comments -----

  /** Where a comment can start: at a `#` that follows a blank, or that starts the text. */
  predicate CommentAt(b: string, from: nat, i: nat) {
    from <= i < |b| && b[i] == '#' && (i == from || IsWs(b[i - 1]))
  }

  predicate IsFirstComment(b: string, from: nat, i: nat) {
    CommentAt(b, from, i) && forall j | from <= j < i :: !CommentAt(b, from, j)
  }

  predicate NoQuotes(b: string) {
    forall c | c in b :: c != '"' && c != '\''
  }

  /** The scan is at a place outside quotes, and knows whether a blank is before it. */
  predicate AtPlace(b: string, from: nat, i: nat, st: Lex) {
    && from <= i && st.quote.None? && st.comment.None?
    && (i <= |b| ==> (st.ws <==> i == from || IsWs(b[i - 1])))
  }

  lemma {:induction false} NameHasNoBlank(b: string, i: nat)
    requires i < |b|
    ensures forall j | i < j <= NameEnd(b, i) :: !IsWs(b[j])
    decreases |b| - i
  {
    if i + 1 < |b| && !IsWs(b[i + 1]) && !IsFlowIndicator(b[i + 1]) {
      NameHasNoBlank(b, i + 1);
    }
  }

  /** A step passes over no comment, and no blank but the one it is at. */
  lemma StepIsAtPlace(b: string, from: nat, i: nat, st: Lex)
    requires NoQuotes(b) && i < |b| && AtPlace(b, from, i, st) && !StartsComment(b, i, st)
    ensures var step := Step(b, i, st);
            AtPlace(b, from, step.next, step.st) && step.next <= |b| && forall j | i <= j < step.next :: !CommentAt(b, from, j)
  {
    assert b[i] in b;
    NameHasNoBlank(b, i);
  }

  /** In a text without quotes the comment found is the first there is, and with none there is none. */
  lemma {:induction false} CommentFound(b: string, from: nat, i: nat, st: Lex)
    requires NoQuotes(b) && i <= |b| && AtPlace(b, from, i, st) && forall j | from <= j < i :: !CommentAt(b, from, j)
    ensures var comment := ScanFrom(b, i, st).comment;
            if comment.Some? then IsFirstComment(b, from, comment.value) else forall j :: !CommentAt(b, from, j)
    decreases |b| - i
  {
    if i < |b| && !StartsComment(b, i, st) {
      StepIsAtPlace(b, from, i, st);
      CommentFound(b, from, Step(b, i, st).next, Step(b, i, st).st);
    }
  }

  // ----- Flow collections -----

  /** How many collections a text opens, less those it closes. */
  function Opened(text: string): int {
    if text == "" then 0 else Opened(text[..|text| - 1]) + Opening(text[|text| - 1])
  }

  function Opening(c: char): int {
    if c == '[' || c == '{' then 1 else if c == ']' || c == '}' then -1 else 0
  }

  /** Neither a quote, nor what starts a comment or a name. */
  predicate IsFlowChar(c: char) {
    c != '"' && c != '\'' && c != '#' && c != '&' && c != '*' && c != '!'
  }

  lemma OpenedMore(b: string, from: nat, i: nat)
    requires from <= i < |b|
    ensures Opened(b[from..i + 1]) == Opened(b[from..i]) + Opening(b[i])
  {
    assert b[from..i + 1][..i - from] == b[from..i];
  }

  lemma FlowStep(b: string, i: nat, st: Lex)
    requires i < |b| && IsFlowChar(b[i]) && st.quote.None? && st.depth > 0
    ensures var step := Step(b, i, st);
            step.next == i + 1 && step.st.quote.None? && step.st.depth == st.depth + Opening(b[i]) && !StartsComment(b, i, st)
  {
  }

  /** Inside a flow collection, what is open at the end is what was and what the text opens, while it stays inside. */
  lemma {:induction false} FlowDepth(b: string, from: nat, i: nat, depth: nat, st: Lex)
    requires from <= i <= |b| && st.quote.None? && forall j | from <= j < |b| :: IsFlowChar(b[j])
    requires forall j | from <= j < |b| :: depth + Opened(b[from..j]) > 0
    requires st.depth == depth + Opened(b[from..i])
    ensures ScanFrom(b, i, st).depth == depth + Opened(b[from..]) && ScanFrom(b, i, st).quote.None?
    decreases |b| - i
  {
    if i < |b| {
      OpenedMore(b, from, i);
      FlowStep(b, i, st);
      FlowDepth(b, from, i + 1, depth, Step(b, i, st).st);
    } else {
      assert b[from..i] == b[from..];
    }
  }

  // ----- Block scalars -----

  predicate IsKeyChar(c: char) {
    ('a' <= c <= 'z') || ('A' <= c <= 'Z') || ('0' <= c <= '9') || c == '_'
  }

  lemma {:induction false} InKey(b: string, i: nat, end: nat, st: Lex)
    requires i <= end < |b| && (forall j | i <= j < end :: IsKeyChar(b[j])) && !st.tok && st.quote.None? && !st.ws
    ensures ScanFrom(b, i, st) == ScanFrom(b, end, st)
    decreases end - i
  {
    if i < end {
      assert IsKeyChar(b[i]) && Step(b, i, st) == Stepped(st, i + 1);
      InKey(b, i + 1, end, st);
    }
  }

  /** A block scalar's header after a key belongs to the key's column, and one after a `-` to that of the dash. */
  lemma BlockIsKeys(b: string, from: nat, end: nat, st: Lex)
    requires from < end && end + 3 == |b| && (forall j | from <= j < end :: IsKeyChar(b[j]))
    requires b[end] == ':' && b[end + 1] == ' ' && b[end + 2] == '|'
    requires st.quote.None? && st.tok && st.depth == 0
    ensures ScanFrom(b, from, st).block == Some(from)
  {
    var first := st.(ws := false, tok := false, scalar := from);
    assert IsKeyChar(b[from]) && Step(b, from, st) == Stepped(first, from + 1);
    InKey(b, from + 1, end, first);
    AfterKey(b, end, first);
  }

  lemma AfterKey(b: string, end: nat, st: Lex)
    requires end + 3 == |b| && b[end] == ':' && b[end + 1] == ' ' && b[end + 2] == '|'
    requires st.quote.None? && !st.tok && !st.ws && st.depth == 0
    ensures ScanFrom(b, end, st).block == Some(st.scalar)
  {
    var keyed := st.(owner := st.scalar, tok := true);
    OneStep(b, end, st, keyed);
    OneStep(b, end + 1, keyed, keyed.(ws := true));
    OneStep(b, end + 2, keyed.(ws := true), keyed.(block := Some(st.scalar), tok := false));
  }

  lemma OneStep(b: string, i: nat, st: Lex, now: Lex)
    requires i < |b| && !StartsComment(b, i, st) && Step(b, i, st) == Stepped(now, i + 1)
    ensures ScanFrom(b, i, st) == ScanFrom(b, i + 1, now)
  {
  }

  lemma BlockIsDashs(b: string, from: nat, st: Lex)
    requires from + 3 == |b| && b[from] == '-' && b[from + 1] == ' ' && b[from + 2] == '|'
    requires st.quote.None? && st.tok && st.depth == 0
    ensures ScanFrom(b, from, st).block == Some(from)
  {
    var dashed := st.(ws := false, owner := from);
    OneStep(b, from, st, dashed);
    OneStep(b, from + 1, dashed, dashed.(ws := true));
    OneStep(b, from + 2, dashed.(ws := true), dashed.(block := Some(from), tok := false));
  }

  // ----- Anchors, aliases and tags -----

  /** Where a token starts, one of these is noted, the first of a line for good, and the name after it passed over. */
  lemma SpecialNoted(b: string, i: nat, st: Lex)
    requires i < |b| && st.quote.None? && st.tok && (b[i] == '&' || b[i] == '*' || b[i] == '!')
    ensures var (found, end) := (if b[i] == '&' then Anchor else if b[i] == '*' then Alias else Tag, NameEnd(b, i));
            && ScanFrom(b, i, st) == ScanFrom(b, end + 1, st.(ws := false, tok := b[i] != '*', anchor := st.anchor || b[i] == '&',
                                                             special := if st.special.None? then Some(found) else st.special))
            && (end + 1 < |b| ==> IsWs(b[end + 1]) || IsFlowIndicator(b[end + 1]))
            && forall j | i < j <= end :: !IsWs(b[j]) && !IsFlowIndicator(b[j])
  {
    NameEnds(b, i);
  }

  lemma {:induction false} NameEnds(b: string, i: nat)
    requires i < |b|
    ensures var end := NameEnd(b, i);
            && (end + 1 < |b| ==> IsWs(b[end + 1]) || IsFlowIndicator(b[end + 1]))
            && forall j | i < j <= end :: !IsWs(b[j]) && !IsFlowIndicator(b[j])
    decreases |b| - i
  {
    if i + 1 < |b| && !IsWs(b[i + 1]) && !IsFlowIndicator(b[i + 1]) {
      NameEnds(b, i + 1);
    }
  }

  predicate IsPlainText(b: string) {
    forall c | c in b :: IsFlowChar(c) && Opening(c) == 0 && c != '?' && c != '|' && c != '>'
  }

  /** A text with none of those characters has nothing in it. */
  lemma {:induction false} PlainHasNothing(b: string, i: nat, st: Lex)
    requires IsPlainText(b) && i <= |b| && st.quote.None?
    ensures var end := ScanFrom(b, i, st);
            && end.quote == st.quote && end.depth == st.depth && end.block == st.block && end.comment == st.comment
            && end.special == st.special && end.anchor == st.anchor
    decreases |b| - i
  {
    if i < |b| {
      assert b[i] in b;
      PlainHasNothing(b, Step(b, i, st).next, Step(b, i, st).st);
    }
  }
}
