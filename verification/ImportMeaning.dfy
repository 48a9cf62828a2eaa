/** Which transcript lines are the same event, how many events a transcript holds and what a line
    is stored as (internal/admin/import_jsonl.go:94-185). */
module ImportMeaning {
  import opened Capture
  import opened Outcomes
  import opened TranscriptImport

  // ---------------------------------------------------------------- numerals

  predicate Digits(s: string) {
    forall i :: 0 <= i < |s| ==> '0' <= s[i] <= '9'
  }

  /** The number a string of digits stands for. */
  function Value(s: string): nat
    requires Digits(s)
  {
    if s == "" then 0 else Value(s[..|s| - 1]) * 10 + (s[|s| - 1] as int - '0' as int)
  }

  /** `s` writes `n` without a leading zero. */
  predicate Writes(s: string, n: nat) {
    s != "" && Digits(s) && (|s| > 1 ==> s[0] != '0') && Value(s) == n
  }

  /** Every number is written in one way, and the line numbers are written that way. */
  lemma {:induction false} DecimalIff(s: string, n: nat)
    ensures Writes(s, n) <==> s == Decimal(n)
    decreases n
  {
    if n >= 10 {
      DecimalIff(Decimal(n / 10), n / 10);
      DecimalShift(n);
    } else {
      OneDigit(Decimal(n));
    }
    if Writes(s, n) {
      var rest := s[..|s| - 1];
      assert s == rest + [s[|s| - 1]];
      if rest == "" {
        OneDigit(s);
      } else {
        assert rest[0] == s[0] && Digits(rest);
        PositiveValue(rest);
        assert n / 10 == Value(rest);
        DecimalIff(rest, n / 10);
      }
    }
  }

  lemma OneDigit(s: string)
    requires |s| == 1 && Digits(s)
    ensures Value(s) == s[0] as int - '0' as int
  {
    assert s[..0] == "";
  }

  lemma DecimalShift(n: nat)
    requires n >= 10 && Writes(Decimal(n / 10), n / 10)
    ensures Writes(Decimal(n), n)
  {
    var front, s := Decimal(n / 10), Decimal(n);
    assert s[..|s| - 1] == front && s[0] == front[0];
    if |front| == 1 {
      OneDigit(front);
    }
  }

  lemma {:induction false} PositiveValue(s: string)
    requires s != "" && Digits(s) && s[0] != '0'
    ensures Value(s) > 0
    decreases |s|
  {
    if |s| > 1 {
      PositiveValue(s[..|s| - 1]);
    }
  }

  // ---------------------------------------------------------------- equal events

  /** `id` is the one a line without an id gets at `lineNo`. */
  predicate NamesLine(id: string, lineNo: nat) {
    |id| > 5 && id[..5] == "line:" && Writes(id[5..], lineNo)
  }

  lemma LineIdIff(id: string, lineNo: nat)
    ensures id == "line:" + Decimal(lineNo) <==> NamesLine(id, lineNo)
  {
    DecimalIff(Decimal(lineNo), lineNo);
    if |id| > 5 {
      DecimalIff(id[5..], lineNo);
      assert id == id[..5] + id[5..];
      assert id == "line:" + Decimal(lineNo) ==> id[5..] == Decimal(lineNo) && id[..5] == "line:";
    }
  }

  /** Two lines are one event iff they carry the same id, or are the same line, or one carries no id
      and the other one carries "line:" and its number. */
  lemma SameEventIff(a: Line, i: nat, b: Line, j: nat)
    requires a.Entry? && b.Entry?
    ensures EventId(a, i) == EventId(b, j) <==>
      if a.eventId != "" && b.eventId != "" then a.eventId == b.eventId
      else if a.eventId != "" then NamesLine(a.eventId, j)
      else if b.eventId != "" then NamesLine(b.eventId, i)
      else i == j
  {
    LineIdIff(a.eventId, j);
    LineIdIff(b.eventId, i);
    LineIdIff("line:" + Decimal(i), i);
    if a.eventId == "" && b.eventId == "" && EventId(a, i) == EventId(b, j) {
      LineIdIff("line:" + Decimal(i), j);
    }
  }

  // ---------------------------------------------------------------- counting events

  /** The entries without an id, by position. */
  ghost function Unnamed(lines: seq<Line>): set<nat> {
    set i | 0 <= i < |lines| && lines[i].Entry? && lines[i].eventId == ""
  }

  ghost function WrittenIds(lines: seq<Line>): set<string> {
    set i | 0 <= i < |lines| && lines[i].Entry? && lines[i].eventId != "" :: lines[i].eventId
  }

  /** No entry carries an id of the form "line:" and digits. */
  predicate NoLineIds(lines: seq<Line>) {
    forall i :: 0 <= i < |lines| && lines[i].Entry? && |lines[i].eventId| > 5 && lines[i].eventId[..5] == "line:" ==>
      !Digits(lines[i].eventId[5..])
  }

  lemma {:induction false} EventsMembers(src: Source, lines: seq<Line>, key: (string, string))
    ensures key in Events(src, lines) <==> exists i: nat :: IsEventAt(src, lines, i, key)
    decreases |lines|
  {
    hide EventId;
    if lines != [] {
      var n := |lines| - 1;
      EventsMembers(src, lines[..n], key);
      assert forall i: nat :: i < n ==> (IsEventAt(src, lines, i, key) <==> IsEventAt(src, lines[..n], i, key));
      assert IsEventAt(src, lines, n, key) <==> key in EventOf(src, lines[n], n + 1);
    }
  }

  predicate IsEventAt(src: Source, lines: seq<Line>, i: nat, key: (string, string)) {
    i < |lines| && lines[i].Entry? && key == (src.path, EventId(lines[i], i + 1))
  }

  /** An entry is a new event iff it carries no id or one no earlier entry carries. */
  lemma LastEvent(src: Source, lines: seq<Line>)
    requires lines != [] && NoLineIds(lines) && lines[|lines| - 1].Entry?
    ensures var n := |lines| - 1;
      (src.path, EventId(lines[n], n + 1)) in Events(src, lines[..n])
      <==> lines[n].eventId != "" && lines[n].eventId in WrittenIds(lines[..n])
  {
    hide EventId, Events, Writes, Digits;
    var n := |lines| - 1;
    var rest, last := lines[..n], lines[n];
    var key := (src.path, EventId(last, n + 1));
    EventsMembers(src, rest, key);
    forall i | 0 <= i < n && rest[i].Entry?
      ensures EventId(rest[i], i + 1) == EventId(last, n + 1) <==> last.eventId != "" && rest[i].eventId == last.eventId
    {
      assert rest[i] == lines[i];
      SameEventIff(rest[i], i + 1, last, n + 1);
      NotLine(lines, i, n + 1);
      NotLine(lines, n, i + 1);
    }
    assert forall i: nat :: IsEventAt(src, rest, i, key) <==>
      i < n && rest[i].Entry? && last.eventId != "" && rest[i].eventId == last.eventId;
  }

  lemma NotLine(lines: seq<Line>, i: nat, lineNo: nat)
    requires NoLineIds(lines) && i < |lines| && lines[i].Entry?
    ensures !NamesLine(lines[i].eventId, lineNo)
  {
  }

  lemma {:induction false} EventsCount(src: Source, lines: seq<Line>)
    requires NoLineIds(lines)
    ensures |Events(src, lines)| == |Unnamed(lines)| + |WrittenIds(lines)|
    decreases |lines|
  {
    if lines == [] {
      assert Unnamed(lines) == {} && WrittenIds(lines) == {};
    } else {
      hide EventId, NoLineIds;
      var n := |lines| - 1;
      ShorterHasNone(lines);
      EventsCount(src, lines[..n]);
      NextUnnamed(lines);
      NextWritten(lines);
      NextEvents(src, lines);
      if lines[n].Entry? {
        LastEvent(src, lines);
      }
    }
  }

  lemma NextEvents(src: Source, lines: seq<Line>)
    requires lines != []
    ensures var n := |lines| - 1;
      |Events(src, lines)| == |Events(src, lines[..n])|
        + if lines[n].Entry? && (src.path, EventId(lines[n], n + 1)) !in Events(src, lines[..n]) then 1 else 0
  {
    hide EventId;
    var n := |lines| - 1;
    var earlier, more := Events(src, lines[..n]), EventOf(src, lines[n], n + 1);
    assert Events(src, lines) == if more <= earlier then earlier else earlier + more;
  }

  lemma ShorterHasNone(lines: seq<Line>)
    requires NoLineIds(lines) && lines != []
    ensures NoLineIds(lines[..|lines| - 1])
  {
    assert forall i :: 0 <= i < |lines| - 1 ==> lines[..|lines| - 1][i] == lines[i];
  }

  lemma NextUnnamed(lines: seq<Line>)
    requires lines != []
    ensures var n := |lines| - 1;
      |Unnamed(lines)| == |Unnamed(lines[..n])| + if lines[n].Entry? && lines[n].eventId == "" then 1 else 0
  {
    var n := |lines| - 1;
    assert forall i :: 0 <= i < n ==> lines[..n][i] == lines[i];
    assert Unnamed(lines) == Unnamed(lines[..n]) + if lines[n].Entry? && lines[n].eventId == "" then {n} else {};
  }

  lemma NextWritten(lines: seq<Line>)
    requires lines != []
    ensures var n := |lines| - 1;
      |WrittenIds(lines)| == |WrittenIds(lines[..n])|
        + if lines[n].Entry? && lines[n].eventId != "" && lines[n].eventId !in WrittenIds(lines[..n]) then 1 else 0
  {
    var n := |lines| - 1;
    assert forall i :: 0 <= i < n ==> lines[..n][i] == lines[i];
    assert WrittenIds(lines) == WrittenIds(lines[..n])
      + if lines[n].Entry? && lines[n].eventId != "" then {lines[n].eventId} else {};
  }

  /** A first import of a clean transcript stores one row for every entry without an id and one for
      every distinct id its entries carry. */
  lemma FirstImportCounts(src: Source, db: Database, lines: seq<Line>, clock: nat -> int)
    requires Sound(db) && Clean(lines) && NoLineIds(lines)
    requires forall key :: key in db.recorded ==> key.0 != src.path
    ensures var p := ScanAll(src, db, lines, clock);
      && !p.failed
      && p.stats.imported == |Unnamed(lines)| + |WrittenIds(lines)|
      && |p.db.store.observations| == |db.store.observations| + |Unnamed(lines)| + |WrittenIds(lines)|
  {
    hide Sound, EventId, ScanAll;
    ScanCounts(src, db, lines, clock);
    EventsCount(src, lines);
    forall key | key in Events(src, lines) ensures key !in db.recorded {
      EventsMembers(src, lines, key);
    }
    assert Events(src, lines) - db.recorded.Keys == Events(src, lines);
  }

  // ---------------------------------------------------------------- stored lines

  /** The row of a new event: the line's own columns, its session named by the line or the file, its
      project by the line or the command, its time by the line or the run. */
  lemma LineIsStored(src: Source, p: Progress, line: Line, lineNo: nat, importedAt: int)
    requires Sound(p.db) && !p.failed && line.Entry? && (src.path, EventId(line, lineNo)) !in p.db.recorded
    ensures var q := Scan(src, p, line, lineNo, importedAt);
      && q.db.store.observations == p.db.store.observations
           + [Observation("claude-code:" + if line.sessionId != "" then line.sessionId else src.baseName,
                          if line.cwd != "" then line.cwd else src.defaultProject,
                          if line.ts.Some? then line.ts.value else importedAt,
                          line.kind, line.tool, line.payload, Imported(src.path, EventId(line, lineNo)))]
      && q.db.recorded == p.db.recorded[(src.path, EventId(line, lineNo)) := importedAt]
      && q.stats == Stats(p.stats.imported + 1, p.stats.skipped) && !q.failed
  {
    hide EventId;
    FreshEventAccepted(src, p.db, line, lineNo, importedAt);
    assert "claude-code" + ":" == "claude-code:";
  }

  /** A recorded event is skipped, a blank line is nothing, a bad line stops the scan. */
  lemma LineIsPassed(src: Source, p: Progress, line: Line, lineNo: nat, importedAt: int)
    requires p.failed || !line.Entry? || (src.path, EventId(line, lineNo)) in p.db.recorded
    ensures var q := Scan(src, p, line, lineNo, importedAt);
      && q.db == p.db && q.stats.imported == p.stats.imported
      && q.stats.skipped == p.stats.skipped + (if !p.failed && line.Entry? then 1 else 0)
      && q.failed == (p.failed || line.Bad?)
  {
  }
}
