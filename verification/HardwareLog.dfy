/** The hardware validation log: the tool that prints a new one, and the three tools that parse one,
    count its outcomes and decide. */
module HardwareLog {
  import opened Prelude
  import opened Ordering

  const SCENARIO_IDS: seq<string> := [
    "HW-ENV-01", "HW-ENV-02", "HW-ENV-03", "HW-ENV-04",
    "HW-NET-01", "HW-NET-02", "HW-NET-03", "HW-NET-04",
    "HW-PWR-01", "HW-PWR-02", "HW-PWR-03", "HW-PWR-04",
    "HW-OPS-01", "HW-OPS-02", "HW-OPS-03", "HW-OPS-04",
    "HW-SAFE-01", "HW-SAFE-02", "HW-SAFE-03", "HW-SAFE-04"]

  // ---------------------------------------------------------------- text

  /** The characters at which a text is cut into lines. */
  predicate IsBreak(c: char) {
    var n := c as int;
    10 <= n <= 13 || 28 <= n <= 30 || n == 133 || n == 8232 || n == 8233
  }

  predicate IsSpace(c: char) {
    var n := c as int;
    9 <= n <= 13 || 28 <= n <= 32 || n == 133 || n == 160 || n == 5760 || 8192 <= n <= 8202
    || n == 8232 || n == 8233 || n == 8239 || n == 8287 || n == 12288
  }

  /** splitlines: a carriage return and line feed together are one break, and a final break adds no line. */
  function Lines(text: string, current: string): seq<string>
    decreases |text|
  {
    if text == "" then (if current == "" then [] else [current])
    else if !IsBreak(text[0]) then Lines(text[1..], current + [text[0]])
    else [current] + Lines(if text[0] == '\r' && |text| > 1 && text[1] == '\n' then text[2..] else text[1..], "")
  }

  function Strip(s: string): string {
    if s == "" then ""
    else if IsSpace(s[0]) then Strip(s[1..])
    else if IsSpace(s[|s| - 1]) then Strip(s[..|s| - 1])
    else s
  }

  /** split("|"). */
  function Cells(line: string, current: string): (cells: seq<string>)
    ensures cells != []
  {
    if line == "" then [current]
    else if line[0] == '|' then [current] + Cells(line[1..], "")
    else Cells(line[1..], current + [line[0]])
  }

  function NotTick(): char -> bool { (c: char) => c != '`' }

  function WithoutTicks(s: string): string { Filter(NotTick(), s) }

  function Join(lines: seq<string>): string {
    if lines == [] then "" else if |lines| == 1 then lines[0] else lines[0] + "\n" + Join(lines[1..])
  }

  // ---------------------------------------------------------------- the printer

  function Intro(date: string, session: string, tag: string): seq<string> {
    ["# Hardware Validation Log (" + date + " / Session " + session + ")", "",
     "Auto-generated session file for physical validation run.",
     "Status at creation: `not executed` (no physical run data yet).", "",
     "## Session Metadata", "",
     "- Date: " + date, "- Operator:", "- Location/Bench:", "- Server node (Raspberry Pi ID):",
     "- Build/Tag under test: `" + tag + "`", "- Notes:", "",
     "## Device Matrix", "",
     "| profile_id | physical unit id | firmware ref | included in run |", "| --- | --- | --- | --- |"]
  }

  const RESULT_HEADER: seq<string> := [
    "", "## Scenario Results", "",
    "| scenario_id | result (`pass`/`fail`/`blocked`) | evidence pointer | notes |", "| --- | --- | --- | --- |"]

  function Row(id: string): string { "| `" + id + "` | | | |" }

  function Rows(ids: seq<string>): seq<string> { seq(|ids|, i requires 0 <= i < |ids| => Row(ids[i])) }

  const TAIL_LINES: seq<string> := [
    "", "## Summary", "", "- Total scenarios: 20", "- Passed:", "- Failed:", "- Blocked:",
    "- Field-ready recommendation:", "- Follow-up actions:", ""]

  /** Everything above the scenario rows. */
  function HeadLines(date: string, session: string, tag: string, profiles: seq<string>): seq<string> {
    Intro(date, session, tag) + Rows(profiles) + RESULT_HEADER
  }

  /** The new log's text. */
  function Printed(date: string, session: string, tag: string, profiles: seq<string>): string {
    Join(HeadLines(date, session, tag, profiles) + Rows(SCENARIO_IDS) + TAIL_LINES)
  }

  method BuildMarkdown(date: string, session: string, tag: string, profiles: seq<string>) returns (text: string)
    ensures text == Printed(date, session, tag, profiles)
  {
    var lines := Intro(date, session, tag);
    lines := AppendRows(lines, profiles);
    lines := lines + RESULT_HEADER;
    lines := AppendRows(lines, SCENARIO_IDS);
    lines := lines + TAIL_LINES;
    return Join(lines);
  }

  method AppendRows(start: seq<string>, ids: seq<string>) returns (lines: seq<string>)
    ensures lines == start + Rows(ids)
  {
    lines := start;
    for i := 0 to |ids|
      invariant lines == start + Rows(ids[..i])
    {
      lines := lines + ["| `" + ids[i] + "` | | | |"];
      assert Rows(ids[..i + 1]) == Rows(ids[..i]) + [Row(ids[i])];
    }
    assert ids[..|ids|] == ids;
  }

  // ---------------------------------------------------------------- the parsers

  /** A table row about a scenario: its id and its result cell. */
  function ScenarioRow(raw: string): Option<(string, string)> {
    var line := Strip(raw);
    if !("|" <= line) then None else
      var cells := Cells(line, "");
      if |cells| < 4 then None
      else if !("HW-" <= WithoutTicks(Strip(cells[1]))) then None
      else Some((WithoutTicks(Strip(cells[1])), Strip(cells[2])))
  }

  /** What the first evaluator keeps: the raw result cell of each id, the last row winning. */
  function RawCells(lines: seq<string>): map<string, string> {
    if lines == [] then map[] else
      var before, row := RawCells(lines[..|lines| - 1]), ScenarioRow(lines[|lines| - 1]);
      if row.None? then before else before[row.value.0 := row.value.1]
  }

  datatype Outcome = Pass | Fail | Blocked | Pending

  /** How a result cell is read. `lower` is the text library's lower-casing. */
  function Reading(lower: string -> string, cell: string): Outcome {
    var value := WithoutTicks(lower(Strip(cell)));
    if value == "pass" then Pass else if value == "fail" then Fail else if value == "blocked" then Blocked else Pending
  }

  function Outcomes(lower: string -> string, lines: seq<string>): map<string, Outcome> {
    ReadAll(lower, RawCells(lines))
  }

  function ReadAll(lower: string -> string, raw: map<string, string>): map<string, Outcome> {
    map id | id in raw :: Reading(lower, raw[id])
  }

  method ParseRaw(text: string) returns (result: map<string, string>)
    ensures result == RawCells(Lines(text, ""))
  {
    var lines := Lines(text, "");
    result := map[];
    for i := 0 to |lines|
      invariant result == RawCells(lines[..i])
    {
      assert lines[..i + 1][..i] == lines[..i];
      var line := Strip(lines[i]);
      if !("|" <= line) { continue; }
      var cells := Cells(line, "");
      if |cells| < 4 { continue; }
      var scenario := WithoutTicks(Strip(cells[1]));
      if !("HW-" <= scenario) { continue; }
      result := result[scenario := Strip(cells[2])];
    }
    assert lines[..|lines|] == lines;
  }

  method ParseOutcomes(lower: string -> string, text: string) returns (result: map<string, Outcome>)
    ensures result == Outcomes(lower, Lines(text, ""))
  {
    var lines := Lines(text, "");
    result := map[];
    for i := 0 to |lines|
      invariant result == Outcomes(lower, lines[..i])
    {
      assert lines[..i + 1][..i] == lines[..i];
      var line := Strip(lines[i]);
      if !("|" <= line) { continue; }
      var cells := Cells(line, "");
      if |cells| < 4 { continue; }
      var scenario := WithoutTicks(Strip(cells[1]));
      if !("HW-" <= scenario) { continue; }
      var outcome := Reading(lower, Strip(cells[2]));
      result := result[scenario := outcome];
    }
    assert lines[..|lines|] == lines;
  }

  // ---------------------------------------------------------------- counting and deciding

  function Get(outcomes: map<string, Outcome>, id: string): Outcome {
    if id in outcomes then outcomes[id] else Pending
  }

  /** How many of the ids have an outcome. */
  function Count(outcomes: map<string, Outcome>, ids: seq<string>, o: Outcome): nat {
    if ids == [] then 0
    else Count(outcomes, ids[..|ids| - 1], o) + if Get(outcomes, ids[|ids| - 1]) == o then 1 else 0
  }

  datatype Counts = Counts(passed: nat, failed: nat, blocked: nat, pending: nat)

  function Tally(outcomes: map<string, Outcome>, ids: seq<string>): Counts {
    Counts(Count(outcomes, ids, Pass), Count(outcomes, ids, Fail), Count(outcomes, ids, Blocked),
           Count(outcomes, ids, Pending))
  }

  datatype Decision = Go | NoGo | Undecided

  method CountOutcomes(outcomes: map<string, Outcome>, ids: seq<string>) returns (c: Counts)
    ensures c == Tally(outcomes, ids)
  {
    var passed: nat, failed: nat, blocked: nat, pending: nat := 0, 0, 0, 0;
    for i := 0 to |ids|
      invariant Counts(passed, failed, blocked, pending) == Tally(outcomes, ids[..i])
    {
      assert ids[..i + 1][..i] == ids[..i];
      match Get(outcomes, ids[i])
      case Pass => passed := passed + 1;
      case Fail => failed := failed + 1;
      case Blocked => blocked := blocked + 1;
      case Pending => pending := pending + 1;
    }
    assert ids[..|ids|] == ids;
    return Counts(passed, failed, blocked, pending);
  }

  function MissingFrom(parsed: map<string, string>): string -> bool { (id: string) => id !in parsed }

  /** The single-log evaluator's own count, which reads the cells as it goes. */
  method CountRaw(lower: string -> string, parsed: map<string, string>, ids: seq<string>) returns (c: Counts)
    requires lower("") == ""
    ensures c == Tally(ReadAll(lower, parsed), ids)
  {
    var passed: nat, failed: nat, blocked: nat, pending: nat := 0, 0, 0, 0;
    for i := 0 to |ids|
      invariant Counts(passed, failed, blocked, pending) == Tally(ReadAll(lower, parsed), ids[..i])
    {
      assert ids[..i + 1][..i] == ids[..i];
      var value := lower(Strip(if ids[i] in parsed then parsed[ids[i]] else ""));
      value := WithoutTicks(value);
      assert ids[i] !in parsed ==> value == "";
      if value == "pass" {
        passed := passed + 1;
      } else if value == "fail" {
        failed := failed + 1;
      } else if value == "blocked" {
        blocked := blocked + 1;
      } else {
        pending := pending + 1;
      }
    }
    assert ids[..|ids|] == ids;
    return Counts(passed, failed, blocked, pending);
  }

  /** The single-log evaluator: its own parse, its own count, and missing rows in the decision. */
  method EvaluateOne(lower: string -> string, text: string, ids: seq<string>)
      returns (c: Counts, missing: seq<string>, d: Decision)
    requires lower("") == ""
    ensures c == Tally(Outcomes(lower, Lines(text, "")), ids)
    ensures missing == Filter(MissingFrom(RawCells(Lines(text, ""))), ids)
    ensures d == DecideOne(c, missing)
  {
    var parsed := ParseRaw(text);
    missing := Filter(MissingFrom(parsed), ids);
    c := CountRaw(lower, parsed, ids);
    d := if c.failed > 0 then NoGo else if c.blocked > 0 || c.pending > 0 || missing != [] then Undecided else Go;
  }

  function DecideOne(c: Counts, missing: seq<string>): Decision {
    if c.failed > 0 then NoGo else if c.blocked > 0 || c.pending > 0 || missing != [] then Undecided else Go
  }

  function DecideAmongAll(c: Counts): Decision {
    if c.failed > 0 then NoGo else if c.blocked > 0 || c.pending > 0 then Undecided else Go
  }

  /** The evaluator of all logs, on one of them. */
  method EvaluateAmongAll(lower: string -> string, text: string, ids: seq<string>) returns (c: Counts, d: Decision)
    ensures c == Tally(Outcomes(lower, Lines(text, "")), ids)
    ensures d == DecideAmongAll(c)
  {
    var outcomes := ParseOutcomes(lower, text);
    c := CountOutcomes(outcomes, ids);
    d := if c.failed > 0 then NoGo else if c.blocked > 0 || c.pending > 0 then Undecided else Go;
  }

  // ---------------------------------------------------------------- the field-ready gate

  datatype Gate = GatePass | GateFail | GatePending

  function HardwareGate(c: Counts): Gate {
    if c.failed > 0 then GateFail else if c.blocked > 0 || c.pending > 0 then GatePending else GatePass
  }

  function BlockedGate(c: Counts): Gate { if c.blocked > 0 then GatePending else GatePass }

  /** The operator evidence: the operation and safety scenarios. */
  function EvidenceGate(outcomes: map<string, Outcome>, ids: seq<string>): Gate {
    if exists i :: 0 <= i < |ids| && Get(outcomes, ids[i]).Fail? then GateFail
    else if forall i :: 0 <= i < |ids| ==> Get(outcomes, ids[i]).Pass? then GatePass
    else GatePending
  }

  /** The states of the five gates. */
  datatype Gates = Gates(software: Gate, hardware: Gate, blocked: Gate, limitations: Gate, evidence: Gate) {
    predicate AnyFails() {
      software.GateFail? || hardware.GateFail? || blocked.GateFail? || limitations.GateFail? || evidence.GateFail?
    }

    predicate AllPass() {
      software.GatePass? && hardware.GatePass? && blocked.GatePass? && limitations.GatePass? && evidence.GatePass?
    }
  }

  /** `accepted` and `limitations` say what the two other documents show; the operation and safety
      scenarios are the last eight. */
  function GateDecision(outcomes: map<string, Outcome>, ids: seq<string>, accepted: bool, limitations: bool): Decision
    requires |ids| >= 8
  {
    var c := Tally(outcomes, ids);
    var gates := Gates(if accepted then GatePass else GatePending, HardwareGate(c), BlockedGate(c),
                       if limitations then GatePass else GatePending, EvidenceGate(outcomes, ids[|ids| - 8..]));
    if gates.AnyFails() then NoGo else if gates.AllPass() then Go else Undecided
  }

  /** The field-ready gate on one log. */
  method EvaluateFieldReady(lower: string -> string, text: string, ids: seq<string>, accepted: bool, limitations: bool)
      returns (c: Counts, d: Decision)
    requires |ids| >= 8
    ensures c == Tally(Outcomes(lower, Lines(text, "")), ids)
    ensures d == GateDecision(Outcomes(lower, Lines(text, "")), ids, accepted, limitations)
  {
    var outcomes := ParseOutcomes(lower, text);
    c := CountOutcomes(outcomes, ids);
    var gates := Gates(if accepted then GatePass else GatePending, HardwareGate(c), BlockedGate(c),
                       if limitations then GatePass else GatePending, EvidenceGate(outcomes, ids[|ids| - 8..]));
    if gates.AnyFails() {
      d := NoGo;
    } else if gates.AllPass() {
      d := Go;
    } else {
      d := Undecided;
    }
  }

  // ---------------------------------------------------------------- counting laws

  lemma {:induction false} CountsCover(outcomes: map<string, Outcome>, ids: seq<string>)
    ensures var c := Tally(outcomes, ids); c.passed + c.failed + c.blocked + c.pending == |ids|
  {
    if ids != [] { CountsCover(outcomes, ids[..|ids| - 1]); }
  }

  lemma {:induction false} CountPositive(outcomes: map<string, Outcome>, ids: seq<string>, o: Outcome)
    ensures Count(outcomes, ids, o) <= |ids|
    ensures Count(outcomes, ids, o) > 0 <==> exists i :: 0 <= i < |ids| && Get(outcomes, ids[i]) == o
    ensures Count(outcomes, ids, o) == |ids| <==> forall i :: 0 <= i < |ids| ==> Get(outcomes, ids[i]) == o
  {
    if ids != [] { CountPositive(outcomes, ids[..|ids| - 1], o); }
  }

  /** The gate's promise, both ways: NO-GO exactly when some scenario failed, and GO exactly when all
      of them passed and both documents are in order. */
  lemma GateDecides(outcomes: map<string, Outcome>, ids: seq<string>, accepted: bool, limitations: bool)
    requires |ids| >= 8
    ensures var d := GateDecision(outcomes, ids, accepted, limitations);
            && (d == NoGo <==> exists i :: 0 <= i < |ids| && Get(outcomes, ids[i]) == Fail)
            && (d == Go <==> accepted && limitations && forall i :: 0 <= i < |ids| ==> Get(outcomes, ids[i]) == Pass)
  {
    CountsCover(outcomes, ids);
    CountPositive(outcomes, ids, Fail);
    CountPositive(outcomes, ids, Pass);
    var evidence := ids[|ids| - 8..];
    forall i | 0 <= i < 8 ensures evidence[i] == ids[|ids| - 8 + i] {}
  }

  // ---------------------------------------------------------------- reading a printed log

  predicate NoBreaks(s: string) { forall i :: 0 <= i < |s| ==> !IsBreak(s[i]) }

  /** A line break typed by the printer always ends a line, whatever precedes it. */
  lemma {:induction false} LinesSplit(a: string, b: string, current: string)
    ensures Lines(a + "\n" + b, current) == Lines(a + "\n", current) + Lines(b, "")
    decreases |a|
  {
    var all, first := a + "\n" + b, a + "\n";
    if a == "" {
      assert all[1..] == b && first[1..] == "";
    } else {
      assert all[0] == a[0] == first[0];
      assert all[1..] == a[1..] + "\n" + b && first[1..] == a[1..] + "\n";
      if !IsBreak(a[0]) {
        LinesSplit(a[1..], b, current + [a[0]]);
      } else if a[0] == '\r' && first[1] == '\n' {
        assert all[1] == first[1];
        if |a| > 1 {
          assert all[2..] == a[2..] + "\n" + b && first[2..] == a[2..] + "\n";
          LinesSplit(a[2..], b, "");
        } else {
          assert all[2..] == b && first[2..] == "";
        }
      } else {
        assert all[1] == first[1];
        LinesSplit(a[1..], b, "");
      }
    }
  }

  lemma {:induction false} LineStands(line: string, current: string)
    requires NoBreaks(line)
    ensures Lines(line + "\n", current) == [current + line]
    ensures Lines(line, current) == if current + line == "" then [] else [current + line]
    decreases |line|
  {
    if line == "" {
      assert current + line == current && (line + "\n")[1..] == "";
    } else {
      assert (line + "\n")[1..] == line[1..] + "\n" && (line + "\n")[0] == line[0];
      LineStands(line[1..], current + [line[0]]);
      assert current + [line[0]] + line[1..] == current + line;
    }
  }

  function WithoutFinalEmpty(lines: seq<string>): seq<string> {
    if lines != [] && lines[|lines| - 1] == "" then lines[..|lines| - 1] else lines
  }

  /** Joined lines without breaks of their own are read back as they were, up to a final empty one. */
  lemma {:induction false} LinesOfJoin(lines: seq<string>)
    requires lines != [] && forall i :: 0 <= i < |lines| ==> NoBreaks(lines[i])
    ensures Lines(Join(lines), "") == WithoutFinalEmpty(lines)
  {
    LineStands(lines[0], "");
    assert "" + lines[0] == lines[0];
    if |lines| == 1 {
      assert lines == [lines[0]];
    } else {
      LinesOfJoin(lines[1..]);
      LinesSplit(lines[0], Join(lines[1..]), "");
      assert [lines[0]] + WithoutFinalEmpty(lines[1..]) == WithoutFinalEmpty(lines);
    }
  }

  lemma {:induction false} JoinSplit(a: seq<string>, b: seq<string>)
    requires a != [] && b != []
    ensures Join(a + b) == Join(a) + "\n" + Join(b)
  {
    if |a| == 1 {
      assert (a + b)[1..] == b;
    } else {
      assert (a + b)[1..] == a[1..] + b;
      JoinSplit(a[1..], b);
      assert a[0] + "\n" + (Join(a[1..]) + "\n" + Join(b)) == (a[0] + "\n" + Join(a[1..])) + "\n" + Join(b);
    }
  }

  /** A scenario id as the printer has them: no separators, ticks, blanks or breaks. */
  predicate Plain(c: char) { 'A' <= c <= 'Z' || '0' <= c <= '9' || c == '-' }

  predicate PlainId(id: string) { "HW-" <= id && forall i :: 0 <= i < |id| ==> Plain(id[i]) }

  lemma {:induction false} CellEnds(a: string, b: string, current: string)
    requires forall i :: 0 <= i < |a| ==> a[i] != '|'
    ensures Cells(a + "|" + b, current) == [current + a] + Cells(b, "")
    decreases |a|
  {
    if a == "" {
      assert (a + "|" + b)[1..] == b && current + a == current;
    } else {
      assert (a + "|" + b)[1..] == a[1..] + "|" + b && (a + "|" + b)[0] == a[0];
      CellEnds(a[1..], b, current + [a[0]]);
      assert current + [a[0]] + a[1..] == current + a;
    }
  }

  lemma {:induction false} TicksGone(s: string)
    requires forall i :: 0 <= i < |s| ==> s[i] != '`'
    ensures WithoutTicks("`" + s + "`") == s
  {
    FilterConcat(NotTick(), "`" + s, "`");
    FilterConcat(NotTick(), "`", s);
    NoTicks(s);
  }

  lemma {:induction false} NoTicks(s: string)
    requires forall i :: 0 <= i < |s| ==> s[i] != '`'
    ensures Filter(NotTick(), s) == s
  {
    if s != "" { NoTicks(s[1..]); }
  }

  lemma StripPadded(core: string)
    requires |core| >= 2 && !IsSpace(core[0]) && !IsSpace(core[|core| - 1])
    ensures Strip(" " + core + " ") == core && Strip(core) == core
  {
    var padded := " " + core + " ";
    assert padded[1..] == core + " ";
    assert (core + " ")[..|core|] == core && (core + " ")[0] == core[0] && (core + " ")[|core|] == ' ';
    assert Strip(core) == core;
    assert Strip(core + " ") == core;
  }

  lemma FirstThreeCells(a: string, b: string, rest: string)
    requires (forall i :: 0 <= i < |a| ==> a[i] != '|') && forall i :: 0 <= i < |b| ==> b[i] != '|'
    ensures Cells("|" + (a + "|" + (b + "|" + rest)), "") == ["", a, b] + Cells(rest, "")
  {
    CellEnds(b, rest, "");
    CellEnds(a, b + "|" + rest, "");
    CellEnds("", a + "|" + (b + "|" + rest), "");
    assert "" + ("|" + (a + "|" + (b + "|" + rest))) == "|" + (a + "|" + (b + "|" + rest));
    assert "" + "|" + (a + "|" + (b + "|" + rest)) == "|" + (a + "|" + (b + "|" + rest));
    assert "" + a == a && "" + b == b && "" + "" == "";
    assert [""] + ([a] + ([b] + Cells(rest, ""))) == ["", a, b] + Cells(rest, "");
  }

  /** A printed row is read as a row about its scenario, with an empty result. */
  lemma RowReadsBack(id: string)
    requires PlainId(id)
    ensures ScenarioRow(Row(id)) == Some((id, "")) && NoBreaks(Row(id))
  {
    var ticked := "`" + id + "`";
    var cell := " " + ticked + " ";
    assert Row(id) == "|" + (cell + "|" + (" " + "|" + " | |"));
    FirstThreeCells(cell, " ", " | |");
    StripPadded(ticked);
    TicksGone(id);
    assert Strip(" ") == "";
    assert Strip(Row(id)) == Row(id);
  }

  // ---------------------------------------------------------------- the main results

  /** Rows seen later are laid over rows seen before. */
  lemma {:induction false} RawCellsAppend(a: seq<string>, b: seq<string>)
    ensures RawCells(a + b) == RawCells(a) + RawCells(b)
  {
    if b == [] {
      assert a + b == a;
    } else {
      assert (a + b)[..|a + b| - 1] == a + b[..|b| - 1];
      RawCellsAppend(a, b[..|b| - 1]);
    }
  }

  lemma {:induction false} RowsReadBack(ids: seq<string>)
    requires forall i :: 0 <= i < |ids| ==> PlainId(ids[i])
    ensures RawCells(Rows(ids)) == map id | id in ids :: ""
    ensures forall i :: 0 <= i < |ids| ==> NoBreaks(Rows(ids)[i])
  {
    if ids != [] {
      var init, id := ids[..|ids| - 1], ids[|ids| - 1];
      RowsReadBack(init);
      RowReadsBack(id);
      assert Rows(ids)[..|ids| - 1] == Rows(init);
      forall i | 0 <= i < |ids| - 1 ensures NoBreaks(Rows(ids)[i]) { assert Rows(ids)[i] == Rows(init)[i]; }
    }
  }

  /** A line that is empty or starts with some other visible character is no table row. */
  lemma OtherLine(line: string)
    requires line == "" || (!IsSpace(line[0]) && line[0] != '|')
    ensures ScenarioRow(line).None?
  {
    StripKeepsFirst(line);
  }

  lemma {:induction false} StripKeepsFirst(line: string)
    requires line == "" || !IsSpace(line[0])
    ensures line == "" ==> Strip(line) == ""
    ensures line != "" ==> Strip(line) != "" && Strip(line)[0] == line[0]
  {
    if |line| > 1 && IsSpace(line[|line| - 1]) { StripKeepsFirst(line[..|line| - 1]); }
  }

  lemma {:induction false} OtherLines(lines: seq<string>)
    requires forall i :: 0 <= i < |lines| ==> lines[i] == "" || (!IsSpace(lines[i][0]) && lines[i][0] != '|')
    ensures RawCells(lines) == map[]
  {
    if lines != [] {
      OtherLines(lines[..|lines| - 1]);
      OtherLine(lines[|lines| - 1]);
    }
  }

  lemma ScenarioIdsPlain()
    ensures forall i :: 0 <= i < |SCENARIO_IDS| ==> PlainId(SCENARIO_IDS[i])
  {
  }

  predicate TailLine(line: string) {
    NoBreaks(line) && (line == "" || (!IsSpace(line[0]) && line[0] != '|'))
  }

  lemma SummaryLines()
    ensures TailLine("") && TailLine("## Summary") && TailLine("- Total scenarios: 20")
    ensures TailLine("- Passed:") && TailLine("- Failed:") && TailLine("- Blocked:")
  {
  }

  lemma ClosingLines()
    ensures TailLine("- Field-ready recommendation:") && TailLine("- Follow-up actions:")
  {
  }

  lemma TailIsPlain()
    ensures forall i :: 0 <= i < |TAIL_LINES| ==> TailLine(TAIL_LINES[i])
  {
    SummaryLines();
    ClosingLines();
  }

  /** Every id has a row with an empty result. */
  ghost predicate AllUnfilled(raw: map<string, string>, ids: seq<string>) {
    forall id :: id in ids ==> id in raw && raw[id] == ""
  }

  /** The lines of a text whose lower part was printed line by line. */
  lemma LinesBelow(head: seq<string>, below: seq<string>)
    requires head != [] && below != [] && below[|below| - 1] == ""
    requires forall i :: 0 <= i < |below| ==> NoBreaks(below[i])
    ensures Lines(Join(head + below), "") == Lines(Join(head) + "\n", "") + below[..|below| - 1]
  {
    JoinSplit(head, below);
    LinesSplit(Join(head), Join(below), "");
    LinesOfJoin(below);
  }

  lemma BelowHasNoBreaks(rows: seq<string>, tail: seq<string>)
    requires (forall i :: 0 <= i < |rows| ==> NoBreaks(rows[i])) && forall i :: 0 <= i < |tail| ==> TailLine(tail[i])
    ensures forall i :: 0 <= i < |rows + tail| ==> NoBreaks((rows + tail)[i])
  {
    forall i | |rows| <= i < |rows + tail| ensures NoBreaks((rows + tail)[i]) {
      assert TailLine(tail[i - |rows|]);
    }
  }

  /** Whatever stands above, rows followed by other lines are read back as those rows. */
  lemma {:induction false} RowsBelowReadBack(head: seq<string>, ids: seq<string>, tail: seq<string>)
    requires head != [] && tail != [] && tail[|tail| - 1] == ""
    requires (forall i :: 0 <= i < |ids| ==> PlainId(ids[i])) && forall i :: 0 <= i < |tail| ==> TailLine(tail[i])
    ensures AllUnfilled(RawCells(Lines(Join(head + Rows(ids) + tail), "")), ids)
  {
    RowsReadBack(ids);
    var rest := tail[..|tail| - 1];
    assert tail == rest + [""];
    assert forall i :: 0 <= i < |rest| ==> rest[i] == tail[i];
    PartsReadBack(head, ids, Rows(ids), rest);
  }

  lemma PartsReadBack(head: seq<string>, ids: seq<string>, rows: seq<string>, rest: seq<string>)
    requires head != []
    requires rows == Rows(ids) && RawCells(rows) == map id | id in ids :: ""
    requires (forall i :: 0 <= i < |rows| ==> NoBreaks(rows[i])) && forall i :: 0 <= i < |rest| ==> TailLine(rest[i])
    ensures AllUnfilled(RawCells(Lines(Join(head + rows + (rest + [""])), "")), ids)
  {
    var below := rows + (rest + [""]);
    assert head + rows + (rest + [""]) == head + below;
    BelowHasNoBreaks(rows, rest + [""]);
    LinesBelow(head, below);
    assert below[..|below| - 1] == rows + rest;
    OverlaidRows(Lines(Join(head) + "\n", ""), ids, rest);
  }

  lemma OverlaidRows(above: seq<string>, ids: seq<string>, rest: seq<string>)
    requires RawCells(Rows(ids)) == map id | id in ids :: ""
    requires forall i :: 0 <= i < |rest| ==> TailLine(rest[i])
    ensures AllUnfilled(RawCells(above + (Rows(ids) + rest)), ids)
  {
    RawCellsAppend(above, Rows(ids) + rest);
    RawCellsAppend(Rows(ids), rest);
    OtherLines(rest);
  }

  /** Print and parse: whatever the date, session, tag and profile texts are, even if they contain
      line breaks or table rows of their own, a freshly printed log is read as having all twenty
      scenarios present and each without a result. */
  lemma {:induction false} PrintedLogReadsBack(date: string, session: string, tag: string, profiles: seq<string>)
    ensures AllUnfilled(RawCells(Lines(Printed(date, session, tag, profiles), "")), SCENARIO_IDS)
  {
    ScenarioIdsPlain();
    TailIsPlain();
    RowsBelowReadBack(HeadLines(date, session, tag, profiles), SCENARIO_IDS, TAIL_LINES);
  }

  lemma {:induction false} UnfilledGet(lower: string -> string, raw: map<string, string>, ids: seq<string>)
    requires lower("") == "" && AllUnfilled(raw, ids)
    ensures forall i :: 0 <= i < |ids| ==> Get(ReadAll(lower, raw), ids[i]) == Pending
    ensures Filter(MissingFrom(raw), ids) == []
  {
    forall i | 0 <= i < |ids| ensures Get(ReadAll(lower, raw), ids[i]) == Pending {
      assert ids[i] in ids && raw[ids[i]] == "";
    }
    forall id | id in ids ensures !MissingFrom(raw)(id) {}
    FilterNone(MissingFrom(raw), ids);
  }

  lemma UnfilledTally(outcomes: map<string, Outcome>, ids: seq<string>)
    requires forall i :: 0 <= i < |ids| ==> Get(outcomes, ids[i]) == Pending
    ensures Tally(outcomes, ids) == Counts(0, 0, 0, |ids|)
  {
    CountPositive(outcomes, ids, Pending);
    CountsCover(outcomes, ids);
  }

  lemma UnfilledGate(outcomes: map<string, Outcome>, ids: seq<string>, accepted: bool, limitations: bool)
    requires |ids| >= 8 && forall i :: 0 <= i < |ids| ==> Get(outcomes, ids[i]) == Pending
    ensures GateDecision(outcomes, ids, accepted, limitations) == Undecided
  {
    GateDecides(outcomes, ids, accepted, limitations);
    assert Get(outcomes, ids[0]) == Pending;
  }

  /** Where every row is there without a result, every evaluator counts only pending scenarios and
      none decides. */
  lemma {:induction false} UnfilledIsPending(lower: string -> string, raw: map<string, string>, ids: seq<string>,
                                             accepted: bool, limitations: bool)
    requires lower("") == "" && AllUnfilled(raw, ids) && |ids| >= 8
    ensures Tally(ReadAll(lower, raw), ids) == Counts(0, 0, 0, |ids|) && Filter(MissingFrom(raw), ids) == []
    ensures DecideAmongAll(Tally(ReadAll(lower, raw), ids)) == Undecided
    ensures GateDecision(ReadAll(lower, raw), ids, accepted, limitations) == Undecided
  {
    UnfilledGet(lower, raw, ids);
    UnfilledTally(ReadAll(lower, raw), ids);
    UnfilledGate(ReadAll(lower, raw), ids, accepted, limitations);
  }

  /** A freshly printed log: all three evaluators count twenty pending scenarios, miss none and decide nothing. */
  lemma {:induction false} PrintedLogIsPending(lower: string -> string, date: string, session: string, tag: string,
                                               profiles: seq<string>, accepted: bool, limitations: bool)
    requires lower("") == ""
    ensures var raw := RawCells(Lines(Printed(date, session, tag, profiles), ""));
            && Tally(ReadAll(lower, raw), SCENARIO_IDS) == Counts(0, 0, 0, 20)
              && Filter(MissingFrom(raw), SCENARIO_IDS) == []
            && DecideAmongAll(Tally(ReadAll(lower, raw), SCENARIO_IDS)) == Undecided
            && GateDecision(ReadAll(lower, raw), SCENARIO_IDS, accepted, limitations) == Undecided
  {
    PrintedLogReadsBack(date, session, tag, profiles);
    UnfilledIsPending(lower, RawCells(Lines(Printed(date, session, tag, profiles), "")), SCENARIO_IDS, accepted,
                      limitations);
  }

  /** Agreement: on every text whatsoever the single-log evaluator and the evaluator of all logs
      reach the same decision on the same counts, which cover all scenarios; missing rows never make a
      difference, because they are counted as pending. */
  lemma {:induction false} EvaluatorsAgree(lower: string -> string, text: string, ids: seq<string>)
    ensures var raw := RawCells(Lines(text, ""));
            var c := Tally(ReadAll(lower, raw), ids);
            && c.passed + c.failed + c.blocked + c.pending == |ids|
            && DecideOne(c, Filter(MissingFrom(raw), ids)) == DecideAmongAll(c)
  {
    var raw := RawCells(Lines(text, ""));
    var outcomes, missing := ReadAll(lower, raw), Filter(MissingFrom(raw), ids);
    CountsCover(outcomes, ids);
    CountPositive(outcomes, ids, Pending);
    FilterMembers(MissingFrom(raw), ids);
    if missing != [] {
      assert missing[0] in missing;
      var i :| 0 <= i < |ids| && ids[i] == missing[0];
      assert Get(outcomes, ids[i]) == Pending;
    }
  }

  // ---------------------------------------------------------------- reading a filled log

  /** What an operator writes into a scenario's row: a word, with ticks around it or not, and whatever
      goes into the cells behind it. */
  datatype Entry = Entry(id: string, word: string, ticked: bool, notes: string)

  predicate LowerCase(word: string) { forall i :: 0 <= i < |word| ==> 'a' <= word[i] <= 'z' }

  function CellText(x: Entry): string { if x.ticked then "`" + x.word + "`" else x.word }

  function FilledRow(x: Entry): string { "| `" + x.id + "` | " + CellText(x) + " |" + x.notes + "|" }

  function FilledRows(entries: seq<Entry>): (rows: seq<string>)
    ensures |rows| == |entries|
  {
    if entries == [] then [] else FilledRows(entries[..|entries| - 1]) + [FilledRow(entries[|entries| - 1])]
  }

  function FilledLog(head: seq<string>, entries: seq<Entry>, tail: seq<string>): string {
    Join(head + FilledRows(entries) + tail)
  }

  function IdsOf(entries: seq<Entry>): (ids: seq<string>)
    ensures |ids| == |entries|
  {
    if entries == [] then [] else IdsOf(entries[..|entries| - 1]) + [entries[|entries| - 1].id]
  }

  /** How many entries say this word. */
  function Saying(entries: seq<Entry>, word: string): nat {
    if entries == [] then 0
    else Saying(entries[..|entries| - 1], word) + if entries[|entries| - 1].word == word then 1 else 0
  }

  /** An entry is a lower-case word, if any, for a plain id; lower-casing leaves it alone. */
  predicate Tidy(lower: string -> string, x: Entry) {
    PlainId(x.id) && LowerCase(x.word) && NoBreaks(x.notes) && lower(CellText(x)) == CellText(x)
  }

  ghost predicate AllTidy(lower: string -> string, entries: seq<Entry>) {
    && (forall i :: 0 <= i < |entries| ==> Tidy(lower, entries[i]))
    && forall i, j :: 0 <= i < j < |entries| ==> entries[i].id != entries[j].id
  }

  lemma CellReads(lower: string -> string, x: Entry)
    requires Tidy(lower, x)
    ensures Strip(" " + CellText(x) + " ") == CellText(x) && WithoutTicks(lower(Strip(CellText(x)))) == x.word
  {
    NoTicks(x.word);
    TicksGone(x.word);
    if CellText(x) == "" {
      assert " " + CellText(x) + " " == "  ";
      assert "  "[1..] == " ";
      assert Strip(" ") == "";
    } else {
      StripWord(CellText(x));
    }
  }

  lemma StripWord(core: string)
    requires core != "" && !IsSpace(core[0]) && !IsSpace(core[|core| - 1])
    ensures Strip(" " + core + " ") == core && Strip(core) == core
  {
    var padded := " " + core + " ";
    assert padded[1..] == core + " ";
    assert (core + " ")[..|core|] == core && (core + " ")[0] == core[0] && (core + " ")[|core|] == ' ';
    assert Strip(core + " ") == core;
  }

  /** A filled row is read as its id and its cell. */
  lemma FilledRowReads(lower: string -> string, x: Entry)
    requires Tidy(lower, x)
    ensures ScenarioRow(FilledRow(x)) == Some((x.id, CellText(x)))
  {
    var ticked := "`" + x.id + "`";
    var cell, result, rest := " " + ticked + " ", " " + CellText(x) + " ", x.notes + "|";
    assert FilledRow(x) == "|" + (cell + "|" + (result + "|" + rest));
    FirstThreeCells(cell, result, rest);
    assert WithoutTicks(Strip(cell)) == x.id by {
      StripPadded(ticked);
      TicksGone(x.id);
    }
    CellReads(lower, x);
    assert Strip(FilledRow(x)) == FilledRow(x) by { StripWord(FilledRow(x)); }
  }

  /** A row whose result cell is not closed is no row. */
  lemma OpenRowIsIgnored(id: string, word: string)
    requires PlainId(id) && LowerCase(word) && word != ""
    ensures ScenarioRow("| `" + id + "` | " + word) == None
  {
    var line, cell := "| `" + id + "` | " + word, " `" + id + "` ";
    assert line == "|" + (cell + "|" + (" " + word));
    StripWord(line);
    CellEnds("", cell + "|" + (" " + word), "");
    assert "" + "|" + (cell + "|" + (" " + word)) == line;
    CellEnds(cell, " " + word, "");
    LastCell(" " + word, "");
  }

  lemma {:induction false} LastCell(text: string, current: string)
    requires forall i :: 0 <= i < |text| ==> text[i] != '|'
    ensures Cells(text, current) == [current + text]
    decreases |text|
  {
    if text == "" {
      assert current + text == current;
    } else {
      LastCell(text[1..], current + [text[0]]);
      assert current + [text[0]] + text[1..] == current + text;
    }
  }

  lemma FilledRowHasNoBreaks(lower: string -> string, x: Entry)
    requires Tidy(lower, x)
    ensures NoBreaks(FilledRow(x))
  {
    var a, b := "| `" + x.id + "` | ", CellText(x) + " |";
    assert NoBreaks(a) && NoBreaks(b) && NoBreaks(x.notes + "|");
    assert FilledRow(x) == a + b + (x.notes + "|");
  }

  /** Every entry's row is there, with its cell. */
  ghost predicate Filled(raw: map<string, string>, entries: seq<Entry>) {
    forall i :: 0 <= i < |entries| ==> entries[i].id in raw && raw[entries[i].id] == CellText(entries[i])
  }

  lemma {:induction false} FilledRowsRead(lower: string -> string, entries: seq<Entry>)
    requires AllTidy(lower, entries)
    ensures Filled(RawCells(FilledRows(entries)), entries)
    ensures forall i :: 0 <= i < |entries| ==> NoBreaks(FilledRows(entries)[i])
  {
    if entries != [] {
      var init, x := entries[..|entries| - 1], entries[|entries| - 1];
      FilledRowsRead(lower, init);
      FilledRowReads(lower, x);
      FilledRowHasNoBreaks(lower, x);
      assert FilledRows(entries)[..|entries| - 1] == FilledRows(init);
      assert forall i :: 0 <= i < |init| ==> entries[i] == init[i] && FilledRows(entries)[i] == FilledRows(init)[i];
    }
  }

  /** The lines of a log filled between some head and plain closing lines. */
  lemma FilledLogLines(lower: string -> string, head: seq<string>, entries: seq<Entry>, tail: seq<string>)
    requires AllTidy(lower, entries) && head != [] && tail != [] && tail[|tail| - 1] == ""
    requires forall i :: 0 <= i < |tail| ==> TailLine(tail[i])
    ensures Lines(FilledLog(head, entries, tail), "")
         == Lines(Join(head) + "\n", "") + (FilledRows(entries) + tail[..|tail| - 1])
  {
    var rows := FilledRows(entries);
    FilledRowsRead(lower, entries);
    BelowHasNoBreaks(rows, tail);
    assert head + rows + tail == head + (rows + tail);
    LinesBelow(head, rows + tail);
    assert (rows + tail)[..|rows + tail| - 1] == rows + tail[..|tail| - 1];
  }

  lemma FilledLogReads(lower: string -> string, head: seq<string>, entries: seq<Entry>, tail: seq<string>)
    requires AllTidy(lower, entries) && head != [] && tail != [] && tail[|tail| - 1] == ""
    requires forall i :: 0 <= i < |tail| ==> TailLine(tail[i])
    ensures Filled(RawCells(Lines(FilledLog(head, entries, tail), "")), entries)
  {
    var rest := tail[..|tail| - 1];
    FilledLogLines(lower, head, entries, tail);
    FilledRowsRead(lower, entries);
    assert RawCells(rest) == map[] by {
      forall i | 0 <= i < |rest| ensures TailLine(rest[i]) { assert rest[i] == tail[i]; }
      OtherLines(rest);
    }
    LaidOver(Lines(Join(head) + "\n", ""), FilledRows(entries), rest, entries);
  }

  lemma LaidOver(above: seq<string>, rows: seq<string>, rest: seq<string>, entries: seq<Entry>)
    requires Filled(RawCells(rows), entries) && RawCells(rest) == map[]
    ensures Filled(RawCells(above + (rows + rest)), entries)
  {
    RawCellsAppend(above, rows + rest);
    RawCellsAppend(rows, rest);
  }

  /** The reading of every entry, by the word it says. */
  ghost predicate ReadAs(outcomes: map<string, Outcome>, x: Entry) {
    && (Get(outcomes, x.id) == Pass <==> x.word == "pass")
    && (Get(outcomes, x.id) == Fail <==> x.word == "fail")
    && (Get(outcomes, x.id) == Blocked <==> x.word == "blocked")
  }

  lemma EntryRead(lower: string -> string, raw: map<string, string>, x: Entry)
    requires Tidy(lower, x) && x.id in raw && raw[x.id] == CellText(x)
    ensures ReadAs(ReadAll(lower, raw), x)
  {
    CellReads(lower, x);
  }

  /** One count for each word, and the other entries pending. */
  predicate CountsWords(c: Counts, entries: seq<Entry>) {
    && c.passed == Saying(entries, "pass") && c.failed == Saying(entries, "fail")
    && c.blocked == Saying(entries, "blocked")
    && c.passed + c.failed + c.blocked + c.pending == |entries|
  }

  lemma {:induction false} SayingCounts(outcomes: map<string, Outcome>, entries: seq<Entry>)
    requires forall i :: 0 <= i < |entries| ==> ReadAs(outcomes, entries[i])
    ensures CountsWords(Tally(outcomes, IdsOf(entries)), entries)
  {
    if entries != [] {
      var init, x := entries[..|entries| - 1], entries[|entries| - 1];
      SayingCounts(outcomes, init);
      assert IdsOf(entries)[..|IdsOf(entries)| - 1] == IdsOf(init);
      assert ReadAs(outcomes, x);
    }
  }

  lemma {:induction false} SayingIff(entries: seq<Entry>, word: string)
    ensures Saying(entries, word) <= |entries|
    ensures Saying(entries, word) > 0 <==> exists i :: 0 <= i < |entries| && entries[i].word == word
    ensures Saying(entries, word) == |entries| <==> forall i :: 0 <= i < |entries| ==> entries[i].word == word
  {
    if entries != [] { SayingIff(entries[..|entries| - 1], word); }
  }

  lemma {:induction false} NthId(entries: seq<Entry>, i: nat)
    requires i < |entries|
    ensures IdsOf(entries)[i] == entries[i].id
  {
    var init := entries[..|entries| - 1];
    if i < |init| { NthId(init, i); }
  }

  predicate SomeFail(entries: seq<Entry>) { exists i :: 0 <= i < |entries| && entries[i].word == "fail" }

  predicate AllPass(entries: seq<Entry>) { forall i :: 0 <= i < |entries| ==> entries[i].word == "pass" }

  lemma OutcomesRead(lower: string -> string, raw: map<string, string>, entries: seq<Entry>)
    requires AllTidy(lower, entries) && Filled(raw, entries)
    ensures forall i :: 0 <= i < |entries| ==> ReadAs(ReadAll(lower, raw), entries[i])
    ensures forall i :: 0 <= i < |entries| ==> IdsOf(entries)[i] == entries[i].id
    ensures Filter(MissingFrom(raw), IdsOf(entries)) == []
  {
    forall i | 0 <= i < |entries|
      ensures ReadAs(ReadAll(lower, raw), entries[i]) && IdsOf(entries)[i] == entries[i].id
    {
      EntryRead(lower, raw, entries[i]);
      NthId(entries, i);
    }
    FilterNone(MissingFrom(raw), IdsOf(entries));
  }

  /** Fill and parse: whatever stands above, a log whose rows say lower-case words is read by all
      three evaluators as those words. None is missing, and each count is that of its word. */
  lemma FilledLogCounts(lower: string -> string, head: seq<string>, entries: seq<Entry>, tail: seq<string>)
    requires AllTidy(lower, entries) && head != [] && tail != [] && tail[|tail| - 1] == ""
    requires forall i :: 0 <= i < |tail| ==> TailLine(tail[i])
    ensures var raw := RawCells(Lines(FilledLog(head, entries, tail), ""));
            && Filter(MissingFrom(raw), IdsOf(entries)) == []
            && CountsWords(Tally(ReadAll(lower, raw), IdsOf(entries)), entries)
  {
    var raw := RawCells(Lines(FilledLog(head, entries, tail), ""));
    FilledLogReads(lower, head, entries, tail);
    OutcomesRead(lower, raw, entries);
    SayingCounts(ReadAll(lower, raw), entries);
  }

  /** Both evaluators of a filled log decide NO-GO exactly when some entry says fail, and GO exactly
      when every entry says pass. */
  lemma FilledLogDecides(lower: string -> string, head: seq<string>, entries: seq<Entry>, tail: seq<string>)
    requires AllTidy(lower, entries) && head != [] && tail != [] && tail[|tail| - 1] == ""
    requires forall i :: 0 <= i < |tail| ==> TailLine(tail[i])
    ensures var raw := RawCells(Lines(FilledLog(head, entries, tail), ""));
            var c := Tally(ReadAll(lower, raw), IdsOf(entries));
            var one, all := DecideOne(c, Filter(MissingFrom(raw), IdsOf(entries))), DecideAmongAll(c);
            && (one == NoGo <==> SomeFail(entries)) && (all == NoGo <==> SomeFail(entries))
            && (one == Go <==> AllPass(entries)) && (all == Go <==> AllPass(entries))
  {
    FilledLogCounts(lower, head, entries, tail);
    CountsDecide(Tally(Outcomes(lower, Lines(FilledLog(head, entries, tail), "")), IdsOf(entries)), entries);
  }

  lemma CountsDecide(c: Counts, entries: seq<Entry>)
    requires CountsWords(c, entries)
    ensures DecideOne(c, []) == NoGo <==> SomeFail(entries)
    ensures DecideOne(c, []) == Go <==> AllPass(entries)
    ensures DecideAmongAll(c) == DecideOne(c, [])
  {
    SayingIff(entries, "pass");
    SayingIff(entries, "fail");
    TotalDecides(c, |entries|);
  }

  lemma TotalDecides(c: Counts, total: nat)
    requires c.passed + c.failed + c.blocked + c.pending == total
    ensures DecideOne(c, []) == NoGo <==> c.failed > 0
    ensures DecideOne(c, []) == Go <==> c.passed == total
    ensures DecideAmongAll(c) == DecideOne(c, [])
  {
  }

  /** The field-ready gate on a filled log decides NO-GO exactly when some entry says fail, and GO
      exactly when every entry says pass and both documents are in order. */
  lemma FilledLogAtGate(lower: string -> string, head: seq<string>, entries: seq<Entry>, tail: seq<string>,
                        accepted: bool, limitations: bool)
    requires AllTidy(lower, entries) && head != [] && tail != [] && tail[|tail| - 1] == "" && |entries| >= 8
    requires forall i :: 0 <= i < |tail| ==> TailLine(tail[i])
    ensures var outcomes := Outcomes(lower, Lines(FilledLog(head, entries, tail), ""));
            var d := GateDecision(outcomes, IdsOf(entries), accepted, limitations);
            && (d == NoGo <==> SomeFail(entries))
            && (d == Go <==> AllPass(entries) && accepted && limitations)
  {
    var raw := RawCells(Lines(FilledLog(head, entries, tail), ""));
    FilledLogReads(lower, head, entries, tail);
    OutcomesRead(lower, raw, entries);
    RowsAtGate(ReadAll(lower, raw), entries, accepted, limitations);
  }

  lemma RowsAtGate(outcomes: map<string, Outcome>, entries: seq<Entry>, accepted: bool, limitations: bool)
    requires |entries| >= 8 && forall i :: 0 <= i < |entries| ==> ReadAs(outcomes, entries[i])
    requires forall i :: 0 <= i < |entries| ==> IdsOf(entries)[i] == entries[i].id
    ensures var d := GateDecision(outcomes, IdsOf(entries), accepted, limitations);
            && (d == NoGo <==> SomeFail(entries))
            && (d == Go <==> AllPass(entries) && accepted && limitations)
  {
    var ids := IdsOf(entries);
    GateDecides(outcomes, ids, accepted, limitations);
    forall i | 0 <= i < |ids|
      ensures Get(outcomes, ids[i]) == Fail <==> entries[i].word == "fail"
      ensures Get(outcomes, ids[i]) == Pass <==> entries[i].word == "pass"
    {
      assert ReadAs(outcomes, entries[i]);
    }
  }
}
