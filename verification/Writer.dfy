/** Task edits written back into a config file: only what parses to the edited value is returned. */
module Writer {
  import opened Specs
  import opened Docs
  import opened Yaml

  /** What the YAML parser makes of a text; none when it refuses it. */
  type Parser = string -> Option<Yaml>

  /** The splices an edit takes, found by scanning the lines; none when the edit is refused. */
  type Planner = (seq<string>, Edit, Yaml) -> Option<seq<Splice>>

  /** The splices of any edit are of lines there are, and apart. */
  ghost predicate PlansApart(plan: Planner) {
    forall lines, edit, value :: plan(lines, edit, value).Some? ==>
      Fits(plan(lines, edit, value).value, |lines|) && Apart(plan(lines, edit, value).value)
  }

  /** The lines after each edit's splices in turn, each planned on the lines and value it finds. */
  ghost function EditedLines(lines: seq<string>, value: Yaml, edits: seq<Edit>, plan: Planner): Option<seq<string>> {
    if edits == [] then Some(lines)
    else
      var (init, last) := (edits[..|edits| - 1], edits[|edits| - 1]);
      var (before, was) := (EditedLines(lines, value, init, plan), ApplyValues(value, init));
      if before.None? || was.None? || plan(before.value, last, was.value).None? then None
      else Some(AtOnce(before.value, plan(before.value, last, was.value).value, 0))
  }

  lemma EditMore(lines: seq<string>, value: Yaml, edits: seq<Edit>, edit: Edit, plan: Planner)
    ensures EditedLines(lines, value, edits + [edit], plan) ==
            var (before, was) := (EditedLines(lines, value, edits, plan), ApplyValues(value, edits));
            if before.None? || was.None? || plan(before.value, edit, was.value).None? then None
            else Some(AtOnce(before.value, plan(before.value, edit, was.value).value, 0))
    ensures ApplyValues(value, edits + [edit]) ==
            if ApplyValues(value, edits).None? then None else ApplyValue(ApplyValues(value, edits).value, edit)
  {
    assert (edits + [edit])[..|edits|] == edits;
  }

  /** One edit made on the lines and on the value, which must come to the same. */
  method EditOnce(doc: Doc, edit: Edit, value: Yaml, parse: Parser, plan: Planner)
    returns (ok: bool, lines: seq<string>, wanted: Yaml)
    requires PlansApart(plan)
    ensures ok ==> ApplyValue(value, edit) == Some(wanted) && parse(Written(doc.(lines := lines))) == Some(wanted)
    ensures ok <==> Holds(doc, value, edit, parse, plan)
    ensures ok ==> plan(doc.lines, edit, value).Some? && lines == AtOnce(doc.lines, plan(doc.lines, edit, value).value, 0)
  {
    ok, lines, wanted := false, doc.lines, value;
    var splices := plan(doc.lines, edit, value);
    if splices.None? {
      return;
    }
    lines := ApplySplices(doc.lines, splices.value);
    var edited := ApplyValue(value, edit);
    if edited.None? {
      return;
    }
    wanted := edited.value;
    var got := parse(Written(doc.(lines := lines)));
    if got.Some? {
      SameIsEqual(got.value, wanted);
      ok := Same(got.value, wanted);
    }
  }

  /** An edit can be made on a file and its value, and what it leaves parses to what it should. */
  ghost predicate Holds(doc: Doc, value: Yaml, edit: Edit, parse: Parser, plan: Planner) {
    && plan(doc.lines, edit, value).Some? && ApplyValue(value, edit).Some?
    && parse(Written(doc.(lines := AtOnce(doc.lines, plan(doc.lines, edit, value).value, 0)))) == ApplyValue(value, edit)
  }

  /** So does each edit, on what those before it leave. */
  ghost predicate AllHold(doc: Doc, value: Yaml, edits: seq<Edit>, parse: Parser, plan: Planner) {
    edits != [] ==>
      var (init, last) := (edits[..|edits| - 1], edits[|edits| - 1]);
      && AllHold(doc, value, init, parse, plan)
      && EditedLines(doc.lines, value, init, plan).Some? && ApplyValues(value, init).Some?
      && Holds(doc.(lines := EditedLines(doc.lines, value, init, plan).value), ApplyValues(value, init).value, last, parse, plan)
  }

  lemma OneMoreHolds(doc: Doc, value: Yaml, edits: seq<Edit>, parse: Parser, plan: Planner, k: nat)
    requires k < |edits|
    ensures AllHold(doc, value, edits[..k + 1], parse, plan) <==>
            && AllHold(doc, value, edits[..k], parse, plan)
            && EditedLines(doc.lines, value, edits[..k], plan).Some? && ApplyValues(value, edits[..k]).Some?
            && Holds(doc.(lines := EditedLines(doc.lines, value, edits[..k], plan).value), ApplyValues(value, edits[..k]).value,
                     edits[k], parse, plan)
  {
    assert edits[..k + 1][..k] == edits[..k];
  }

  lemma {:induction false} HeldBefore(doc: Doc, value: Yaml, edits: seq<Edit>, parse: Parser, plan: Planner, k: nat)
    requires k <= |edits| && AllHold(doc, value, edits, parse, plan)
    ensures AllHold(doc, value, edits[..k], parse, plan)
    decreases |edits|
  {
    if k < |edits| {
      assert edits[..|edits| - 1][..k] == edits[..k];
      HeldBefore(doc, value, edits[..|edits| - 1], parse, plan, k);
    } else {
      assert edits[..k] == edits;
    }
  }

  /**
   Any text returned parses to the edits made on the parsed file, and is the file
   with exactly the edits' splices made in its lines. One is returned exactly when
   each edit in turn can be made, and what it leaves parses to what it should.
   `analyzed` says whether the file has no tabs and one document.
   */
  method Apply(text: string, edits: seq<Edit>, parse: Parser, analyzed: seq<string> -> bool, plan: Planner)
    returns (result: Option<string>)
    requires PlansApart(plan)
    ensures result.Some? ==> Parse(text).Some? && parse(text).Some?
    ensures result.Some? ==> ApplyValues(parse(text).value, edits).Some?
    ensures result.Some? ==> parse(result.value) == ApplyValues(parse(text).value, edits)
    ensures result.Some? ==>
              var doc := Parse(text).value;
              var lines := EditedLines(doc.lines, parse(text).value, edits, plan);
              lines.Some? && result.value == Written(doc.(lines := lines.value))
    ensures result.Some? && edits == [] ==> result.value == text
    ensures result.Some? <==>
            && Parse(text).Some? && analyzed(Parse(text).value.lines) && parse(text).Some? && AsMap(parse(text).value).Some?
            && AllHold(Parse(text).value, parse(text).value, edits, parse, plan)
  {
    var parsed := Parse(text);
    if parsed.None? || !analyzed(parsed.value.lines) {
      return None;
    }
    var value := parse(text);
    if value.None? || AsMap(value.value).None? {
      return None;
    }
    WrittenIsRead(text);
    var ok, doc := ApplyAll(parsed.value, value.value, edits, parse, plan);
    if !ok {
      return None;
    }
    result := Some(Written(doc));
  }

  /** The edits one after the other, each made on what the one before left. */
  method ApplyAll(first: Doc, value: Yaml, edits: seq<Edit>, parse: Parser, plan: Planner) returns (ok: bool, doc: Doc)
    requires PlansApart(plan) && parse(Written(first)) == Some(value)
    ensures ok <==> AllHold(first, value, edits, parse, plan)
    ensures ok ==> doc == first.(lines := doc.lines) && EditedLines(first.lines, value, edits, plan) == Some(doc.lines)
    ensures ok ==> ApplyValues(value, edits).Some? && parse(Written(doc)) == ApplyValues(value, edits)
    ensures edits == [] ==> ok && doc == first
  {
    var expected := value;
    doc := first;
    assert edits[..0] == [] && edits[..|edits|] == edits;
    for k := 0 to |edits|
      invariant Reached(first, value, edits[..k], parse, plan, doc, expected)
    {
      var lines, wanted;
      ok, lines, wanted := EditOnce(doc, edits[k], expected, parse, plan);
      if !ok {
        NotReached(first, value, edits, parse, plan, k, doc, expected);
        return;
      }
      ReachedMore(first, value, edits, parse, plan, k, doc, expected);
      doc, expected := doc.(lines := lines), wanted;
    }
    ok := true;
  }

  /** Where some edits, all of which hold, lead to. */
  ghost predicate Reached(first: Doc, value: Yaml, edits: seq<Edit>, parse: Parser, plan: Planner, doc: Doc, expected: Yaml) {
    && doc == first.(lines := doc.lines) && parse(Written(doc)) == Some(expected)
    && ApplyValues(value, edits) == Some(expected) && EditedLines(first.lines, value, edits, plan) == Some(doc.lines)
    && AllHold(first, value, edits, parse, plan) && (edits == [] ==> doc == first)
  }

  lemma ReachedMore(first: Doc, value: Yaml, edits: seq<Edit>, parse: Parser, plan: Planner, k: nat, doc: Doc, expected: Yaml)
    requires k < |edits| && Reached(first, value, edits[..k], parse, plan, doc, expected)
    requires Holds(doc, expected, edits[k], parse, plan)
    ensures var now := doc.(lines := AtOnce(doc.lines, plan(doc.lines, edits[k], expected).value, 0));
            Reached(first, value, edits[..k + 1], parse, plan, now, ApplyValue(expected, edits[k]).value)
  {
    EditMore(first.lines, value, edits[..k], edits[k], plan);
    assert edits[..k + 1] == edits[..k] + [edits[k]];
    OneMoreHolds(first, value, edits, parse, plan, k);
  }

  lemma NotReached(first: Doc, value: Yaml, edits: seq<Edit>, parse: Parser, plan: Planner, k: nat, doc: Doc, expected: Yaml)
    requires k < |edits| && Reached(first, value, edits[..k], parse, plan, doc, expected)
    requires !Holds(doc, expected, edits[k], parse, plan)
    ensures !AllHold(first, value, edits, parse, plan)
  {
    OneMoreHolds(first, value, edits, parse, plan, k);
    if AllHold(first, value, edits, parse, plan) {
      HeldBefore(first, value, edits, parse, plan, k + 1);
    }
  }
}
