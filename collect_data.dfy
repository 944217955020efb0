/**
 * The "Collect System Information" report of tabs/collect_data.py: configuration rows grouped into
 * sections of shell commands with an echo header before each new subtitle, the summary that pairs
 * every header with the command after it, and the run of all commands, which writes each output
 * (or a fallback text) to the report and marks the summary items of failed commands.
 */
module CollectData {
  import opened Base
  import opened Text
  import opened Config
  import opened Shell
  import OrderedDict

  /** A report section: its title and its shell commands, subtitle headers included. */
  datatype Section = Section(title: string, commands: seq<string>)

  /** The grouping loop's variables: the closed sections, the section being filled and the subtitle last seen. */
  datatype Grouping = Grouping(closed: seq<Section>, current: Section, subtitle: string)

  const HeaderPrefix := "echo '\n--- "

  /** The echo command announcing a subtitle (collect_data.py:50). */
  function HeaderCommand(sub: string): (cmd: string)
    ensures StartsWith(cmd, HeaderPrefix) && StartsWith(cmd, "echo")
  {
    HeaderPrefix + sub + " ---'\n"
  }

  /**
   * Whether row `i` opens a new section (collect_data.py:41): its title differs from the previous
   * row's title and that title was not empty.
   */
  predicate Boundary(rows: seq<ConfigRow>, i: nat)
    requires i < |rows|
  {
    0 < i && rows[i].section != rows[i - 1].section && rows[i - 1].section != ""
  }

  /** One pass of the grouping loop (collect_data.py:36-55). */
  function GroupRow(g: Grouping, row: ConfigRow, iface: string): Grouping
  {
    var g1 := if row.section != g.current.title && g.current.title != "" then Grouping(g.closed + [g.current], Section(row.section, []), "") else g;
    var header := row.subsection != "" && row.subsection != g1.subtitle;
    var cmds := g1.current.commands + (if header then [HeaderCommand(row.subsection)] else []) + [Substitute(row.command, iface)];
    Grouping(g1.closed, Section(row.section, cmds), if header then row.subsection else g1.subtitle)
  }

  /** The grouping loop's variables after `rows`. */
  function Group(rows: seq<ConfigRow>, iface: string): Grouping
  {
    if rows == [] then Grouping([], Section("", []), "")
    else GroupRow(Group(rows[..|rows| - 1], iface), rows[|rows| - 1], iface)
  }

  /** The sections after the loop (collect_data.py:58-59): the last one is kept only when titled. */
  function Finish(g: Grouping): seq<Section>
  {
    g.closed + (if g.current.title != "" then [g.current] else [])
  }

  /** All the commands of a list of sections, in order. */
  function SectionCommands(secs: seq<Section>): seq<string>
  {
    if secs == [] then [] else SectionCommands(secs[..|secs| - 1]) + secs[|secs| - 1].commands
  }

  // An account of the grouping that does not mention the loop's variables: which subtitle is
  // in force before each row, which header lines each row adds, and where sections break.

  /** The subtitle in force after `rows`: the last non-empty one since the last section boundary. */
  function Tracked(rows: seq<ConfigRow>): string
  {
    if rows == [] then ""
    else
      var n := |rows| - 1;
      if rows[n].subsection != "" then rows[n].subsection
      else if Boundary(rows, n) then ""
      else Tracked(rows[..n])
  }

  /** The subtitle in force just before row `i`. */
  function TrackedBefore(rows: seq<ConfigRow>, i: nat): string
    requires i < |rows|
  {
    if i == 0 || Boundary(rows, i) then "" else Tracked(rows[..i])
  }

  /** The lines row `i` adds: a header when its subtitle is new, then its command with `{iface}` substituted. */
  function RowLines(rows: seq<ConfigRow>, i: nat, iface: string): (lines: seq<string>)
    requires i < |rows|
  {
    var sub := rows[i].subsection;
    (if sub != "" && sub != TrackedBefore(rows, i) then [HeaderCommand(sub)] else []) + [Substitute(rows[i].command, iface)]
  }

  /** The lines of all rows, in row order. */
  function Lines(rows: seq<ConfigRow>, iface: string): seq<string>
  {
    if rows == [] then [] else Lines(rows[..|rows| - 1], iface) + RowLines(rows, |rows| - 1, iface)
  }

  /** The number of section boundaries among `rows`. */
  function Boundaries(rows: seq<ConfigRow>): nat
  {
    if rows == [] then 0 else Boundaries(rows[..|rows| - 1]) + (if Boundary(rows, |rows| - 1) then 1 else 0)
  }

  /** Whether the row after grouping state `g` closes the open section. */
  predicate Closes(g: Grouping, row: ConfigRow)
  {
    row.section != g.current.title && g.current.title != ""
  }

  /** The grouping is built one row at a time, at the end. */
  lemma GroupSnoc(rows: seq<ConfigRow>, iface: string)
    requires rows != []
    ensures Group(rows, iface) == GroupRow(Group(rows[..|rows| - 1], iface), rows[|rows| - 1], iface)
    ensures Boundaries(rows) == Boundaries(rows[..|rows| - 1]) + (if Boundary(rows, |rows| - 1) then 1 else 0)
  {
  }

  /**
   * The sections the loop closes: one per boundary, each titled, while the open section carries
   * the last row's title.
   */
  lemma {:induction false} GroupTitles(rows: seq<ConfigRow>, iface: string)
    ensures var g := Group(rows, iface);
            && |g.closed| == Boundaries(rows)
            && (forall k :: 0 <= k < |g.closed| ==> g.closed[k].title != "")
            && g.current.title == (if rows == [] then "" else rows[|rows| - 1].section)
  {
    if rows != [] {
      var n := |rows| - 1;
      var pre := rows[..n];
      GroupTitles(pre, iface);
      GroupSnoc(rows, iface);
      var g := Group(pre, iface);
      assert n > 0 ==> pre[n - 1] == rows[n - 1];
      assert Closes(g, rows[n]) == Boundary(rows, n);
    }
  }

  /** The loop's subtitle tracker holds the subtitle in force. */
  lemma {:induction false} GroupSubtitle(rows: seq<ConfigRow>, iface: string)
    ensures Group(rows, iface).subtitle == Tracked(rows)
  {
    if rows != [] {
      var n := |rows| - 1;
      var pre := rows[..n];
      GroupSubtitle(pre, iface);
      GroupTitles(pre, iface);
      GroupSnoc(rows, iface);
      var g := Group(pre, iface);
      assert n > 0 ==> pre[n - 1] == rows[n - 1];
      assert Closes(g, rows[n]) == Boundary(rows, n);
    }
  }

  lemma SectionCommandsSnoc(secs: seq<Section>, s: Section)
    ensures SectionCommands(secs + [s]) == SectionCommands(secs) + s.commands
  {
    assert (secs + [s])[..|secs|] == secs;
  }

  /** The subtitle the loop compares a row against is the one in force before that row. */
  lemma {:induction false} GroupSubtitleBefore(rows: seq<ConfigRow>, iface: string)
    requires rows != []
    ensures var g := Group(rows[..|rows| - 1], iface);
            var n := |rows| - 1;
            (if Closes(g, rows[n]) then "" else g.subtitle) == TrackedBefore(rows, n)
  {
    var n := |rows| - 1;
    GroupSubtitle(rows[..n], iface);
    GroupCloses(rows, iface);
  }

  /** The loop closes the open section at row `n` exactly when row `n` is a boundary. */
  lemma GroupCloses(rows: seq<ConfigRow>, iface: string)
    requires rows != []
    ensures var n := |rows| - 1; Closes(Group(rows[..n], iface), rows[n]) <==> n > 0 && Boundary(rows, n)
  {
    var n := |rows| - 1;
    var pre := rows[..n];
    GroupTitles(pre, iface);
    assert n > 0 ==> pre[n - 1] == rows[n - 1];
  }

  /** The commands of the closed sections, then those of the open one, are every row's lines in row order. */
  lemma {:induction false} GroupLines(rows: seq<ConfigRow>, iface: string)
    ensures var g := Group(rows, iface);
            SectionCommands(g.closed) + g.current.commands == Lines(rows, iface)
  {
    if rows != [] {
      var n := |rows| - 1;
      var pre := rows[..n];
      GroupLines(pre, iface);
      GroupStep(rows, iface);
      var g := Group(pre, iface);
      var tail := RowLines(rows, n, iface);
      if Closes(g, rows[n]) {
        SectionCommandsSnoc(g.closed, g.current);
      }
      ConcatAssoc(SectionCommands(g.closed), g.current.commands, tail);
    }
  }

  /**
   * Where the title runs among the first `m` rows start: the first row and every boundary, in row
   * order. Run `k` is the rows from its start up to the next start (or row `m`).
   */
  function RunStarts(rows: seq<ConfigRow>, m: nat): (s: seq<nat>)
    requires m <= |rows|
    ensures forall k :: 0 <= k < |s| ==> s[k] < m
    ensures forall k, l :: 0 <= k < l < |s| ==> s[k] < s[l]
    ensures m > 0 ==> s != [] && s[0] == 0
  {
    if m == 0 then [] else RunStarts(rows, m - 1) + (if m == 1 || Boundary(rows, m - 1) then [m - 1] else [])
  }

  /** The runs start exactly at the first row and at the boundaries. */
  lemma {:induction false} RunStartsAreBoundaries(rows: seq<ConfigRow>, m: nat)
    requires m <= |rows|
    ensures forall i :: 0 <= i < m ==> (i in RunStarts(rows, m) <==> i == 0 || Boundary(rows, i))
  {
    if m > 0 {
      RunStartsAreBoundaries(rows, m - 1);
    }
  }

  /** The lines rows `a` to `b - 1` add, in row order. */
  function RunLines(rows: seq<ConfigRow>, a: nat, b: nat, iface: string): seq<string>
    requires a <= b <= |rows|
    decreases b
  {
    if b == a then [] else RunLines(rows, a, b - 1, iface) + RowLines(rows, b - 1, iface)
  }

  /** The lines a row adds depend only on the rows up to it. */
  lemma RowLinesPrefix(rows: seq<ConfigRow>, m: nat, iface: string)
    requires m < |rows|
    ensures RowLines(rows[..m + 1], m, iface) == RowLines(rows, m, iface)
  {
    var pre := rows[..m + 1];
    assert pre[..m] == rows[..m];
    assert m > 0 ==> pre[m - 1] == rows[m - 1];
  }

  /** One pass of the loop: at a boundary the open section is closed and a new one holds the row's lines. */
  lemma GroupStep(rows: seq<ConfigRow>, iface: string)
    requires rows != []
    ensures var n := |rows| - 1;
            var g, g' := Group(rows[..n], iface), Group(rows, iface);
            var tail := RowLines(rows, n, iface);
            && (Closes(g, rows[n]) <==> n > 0 && Boundary(rows, n))
            && (Closes(g, rows[n]) ==> g'.closed == g.closed + [g.current] && g'.current == Section(rows[n].section, tail))
            && (!Closes(g, rows[n]) ==> g'.closed == g.closed && g'.current == Section(rows[n].section, g.current.commands + tail))
  {
    var n := |rows| - 1;
    var pre := rows[..n];
    GroupCloses(rows, iface);
    GroupSnoc(rows, iface);
    GroupSubtitleBefore(rows, iface);
    var g, row := Group(pre, iface), rows[n];
    var g1 := if Closes(g, row) then Grouping(g.closed + [g.current], Section(row.section, []), "") else g;
    var sub, cmd := row.subsection, Substitute(row.command, iface);
    var header := if sub != "" && sub != g1.subtitle then [HeaderCommand(sub)] else [];
    assert RowLines(rows, n, iface) == header + [cmd];
    assert Group(rows, iface).current.commands == g1.current.commands + header + [cmd];
    if Closes(g, row) {
      assert g1.current.commands + header + [cmd] == header + [cmd];
    } else {
      ConcatAssoc(g.current.commands, header, [cmd]);
    }
  }

  /**
   * The grouping state `g` after the first `m` rows partitions them into their title runs: closed
   * section `k` is run `k`, carrying the title of the run's last row and exactly the lines of the
   * run's rows, and the open section is the last run.
   */
  predicate Partitioned(rows: seq<ConfigRow>, m: nat, g: Grouping, iface: string)
    requires m <= |rows|
  {
    var s := RunStarts(rows, m);
    && |s| == |g.closed| + (if m == 0 then 0 else 1)
    && (forall k :: 0 <= k < |g.closed| ==>
          g.closed[k] == Section(rows[s[k + 1] - 1].section, RunLines(rows, s[k], s[k + 1], iface)))
    && (m > 0 ==> g.current == Section(rows[m - 1].section, RunLines(rows, s[|s| - 1], m, iface)))
  }

  /** At a boundary the open run is closed and row `n` starts the next one. */
  lemma PartitionClose(rows: seq<ConfigRow>, n: nat, g: Grouping, sub: string, iface: string)
    requires 0 < n < |rows| && Boundary(rows, n) && Partitioned(rows, n, g, iface)
    ensures Partitioned(rows, n + 1, Grouping(g.closed + [g.current], Section(rows[n].section, RowLines(rows, n, iface)), sub), iface)
  {
    var prev, s := RunStarts(rows, n), RunStarts(rows, n + 1);
    assert s == prev + [n];
    assert RunLines(rows, n, n + 1, iface) == RowLines(rows, n, iface);
    var closed := g.closed + [g.current];
    forall k | 0 <= k < |closed|
      ensures closed[k] == Section(rows[s[k + 1] - 1].section, RunLines(rows, s[k], s[k + 1], iface))
    {
      if k < |g.closed| {
        assert s[k] == prev[k] && s[k + 1] == prev[k + 1];
      } else {
        assert s[k] == prev[|prev| - 1] && s[k + 1] == n;
      }
    }
  }

  /** Away from a boundary row `n` joins the open run. */
  lemma PartitionExtend(rows: seq<ConfigRow>, n: nat, g: Grouping, sub: string, iface: string)
    requires n < |rows| && !(n > 0 && Boundary(rows, n)) && Partitioned(rows, n, g, iface)
    requires n == 0 ==> g.current.commands == []
    ensures Partitioned(rows, n + 1, Grouping(g.closed, Section(rows[n].section, g.current.commands + RowLines(rows, n, iface)), sub), iface)
  {
    var prev, s := RunStarts(rows, n), RunStarts(rows, n + 1);
    if n == 0 {
      assert s == [0] && g.closed == [];
      assert RunLines(rows, 0, 1, iface) == RowLines(rows, 0, iface);
    } else {
      assert s == prev + [] == prev;
      var a := s[|s| - 1];
      assert RunLines(rows, a, n + 1, iface) == RunLines(rows, a, n, iface) + RowLines(rows, n, iface);
      assert g.current.commands == RunLines(rows, a, n, iface);
    }
  }

  /** The grouping loop partitions the rows into their title runs. */
  lemma {:induction false} GroupRuns(rows: seq<ConfigRow>, m: nat, iface: string)
    requires m <= |rows|
    ensures Partitioned(rows, m, Group(rows[..m], iface), iface)
  {
    if m > 0 {
      var n := m - 1;
      var cur := rows[..m];
      GroupRuns(rows, n, iface);
      assert cur[..n] == rows[..n];
      GroupStep(cur, iface);
      RowLinesPrefix(rows, n, iface);
      assert n > 0 ==> cur[n - 1] == rows[n - 1] && cur[n] == rows[n];
      var g := Group(rows[..n], iface);
      if n > 0 && Boundary(rows, n) {
        PartitionClose(rows, n, g, Group(cur, iface).subtitle, iface);
      } else {
        PartitionExtend(rows, n, g, Group(cur, iface).subtitle, iface);
      }
    }
  }

  /**
   * The section made of run `k` of all the rows: the title of the run's last row, and the lines of
   * the run's rows in order.
   */
  function RunAsSection(rows: seq<ConfigRow>, k: nat, iface: string): Section
    requires k < |RunStarts(rows, |rows|)|
  {
    var s := RunStarts(rows, |rows|);
    var end := if k + 1 < |s| then s[k + 1] else |rows|;
    Section(rows[end - 1].section, RunLines(rows, s[k], end, iface))
  }

  /**
   * The grouping loop (collect_data.py:31-59), over the loaded rows and the detected interface.
   * Section `k` is made of the k-th title run (untitled rows join the run that follows them), and
   * every section is titled; sections break exactly at the boundaries, the last run being dropped
   * when untitled; and, when the last row is titled, its commands are every row's lines in row order.
   */
  method BuildSections(rows: seq<ConfigRow>, iface: string) returns (sections: seq<Section>)
    ensures sections == Finish(Group(rows, iface))
    ensures |sections| <= |RunStarts(rows, |rows|)|
    ensures forall k :: 0 <= k < |sections| ==> sections[k] == RunAsSection(rows, k, iface)
    ensures forall k :: 0 <= k < |sections| ==> sections[k].title != ""
    ensures |sections| == Boundaries(rows) + (if rows != [] && rows[|rows| - 1].section != "" then 1 else 0)
    ensures rows == [] || rows[|rows| - 1].section != "" ==> SectionCommands(sections) == Lines(rows, iface)
  {
    sections := [];
    var title := "";
    var commands: seq<string> := [];
    var currentSubtitle := "";
    for i := 0 to |rows|
      invariant Grouping(sections, Section(title, commands), currentSubtitle) == Group(rows[..i], iface)
    {
      var row := rows[i];
      if row.section != title && title != "" {
        sections := sections + [Section(title, commands)];
        title, commands := row.section, [];
        currentSubtitle := "";
      }
      title := row.section;
      if row.subsection != "" && row.subsection != currentSubtitle {
        commands := commands + [HeaderCommand(row.subsection)];
        currentSubtitle := row.subsection;
      }
      commands := commands + [Substitute(row.command, iface)];
      assert rows[..i + 1][..i] == rows[..i];
    }
    assert rows[..|rows|] == rows;
    if title != "" {
      sections := sections + [Section(title, commands)];
    }
    FinishShape(rows, iface);
  }

  /**
   * The finished sections are the title runs in order, the last one kept only when titled: all are
   * titled, one per boundary plus the last, and together they hold every line in order.
   */
  lemma FinishShape(rows: seq<ConfigRow>, iface: string)
    ensures var sections := Finish(Group(rows, iface));
            && |sections| <= |RunStarts(rows, |rows|)|
            && (forall k :: 0 <= k < |sections| ==> sections[k] == RunAsSection(rows, k, iface))
            && (forall k :: 0 <= k < |sections| ==> sections[k].title != "")
            && |sections| == Boundaries(rows) + (if rows != [] && rows[|rows| - 1].section != "" then 1 else 0)
            && (rows == [] || rows[|rows| - 1].section != "" ==> SectionCommands(sections) == Lines(rows, iface))
  {
    FinishRuns(rows, iface);
    GroupTitles(rows, iface);
    GroupLines(rows, iface);
    var g := Group(rows, iface);
    if g.current.title != "" {
      SectionCommandsSnoc(g.closed, g.current);
    }
  }

  /** The finished sections are the first title runs, in order. */
  lemma FinishRuns(rows: seq<ConfigRow>, iface: string)
    ensures var sections := Finish(Group(rows, iface));
            && |sections| <= |RunStarts(rows, |rows|)|
            && (forall k :: 0 <= k < |sections| ==> sections[k] == RunAsSection(rows, k, iface))
  {
    GroupRuns(rows, |rows|, iface);
    assert rows[..|rows|] == rows;
    var g := Group(rows, iface);
    var sections := Finish(g);
    forall k | 0 <= k < |sections| ensures sections[k] == RunAsSection(rows, k, iface) {
      PartitionedRun(rows, g, k, iface);
    }
  }

  /** In a partition of all the rows, closed section `k` is run `k`, and the open section is the last run. */
  lemma PartitionedRun(rows: seq<ConfigRow>, g: Grouping, k: nat, iface: string)
    requires rows != [] && Partitioned(rows, |rows|, g, iface) && k <= |g.closed|
    ensures (if k < |g.closed| then g.closed[k] else g.current) == RunAsSection(rows, k, iface)
  {
    var s := RunStarts(rows, |rows|);
    if k < |g.closed| {
      assert g.closed[k] == Section(rows[s[k + 1] - 1].section, RunLines(rows, s[k], s[k + 1], iface));
    } else {
      assert k + 1 == |s|;
    }
  }

  // ---------------------------------------------------------------------------------------------
  // The summary (collect_data.py:67-77)

  datatype Status = Success | Failed

  /** A summary item: the subtitle, the command it stands for, its status and the failure reason. */
  datatype Item = Item(subtitle: string, command: string, status: Status, reason: string)

  /** The summary: section title to items, in the order titles first appear. */
  type Summary = OrderedDict.Dict<string, seq<Item>>

  predicate IsEcho(cmd: string)
  {
    StartsWith(cmd, "echo")
  }

  /** A subtitle header: a command that starts like the headers the grouping inserts. */
  predicate IsHeader(cmd: string)
  {
    StartsWith(cmd, HeaderPrefix)
  }

  lemma HeaderHasDashes(cmd: string)
    requires IsHeader(cmd)
    ensures Contains(cmd, "---") && IsEcho(cmd)
  {
    assert cmd[7..10] == cmd[..|HeaderPrefix|][7..10] == HeaderPrefix[7..10] == "---";
    assert MatchesAt(cmd, "---", 7);
    assert cmd[..4] == cmd[..|HeaderPrefix|][..4] == "echo";
  }

  /** `cmd.split("---")[1].strip()`: the text between the first two dash runs, trimmed. */
  function SubtitleOf(cmd: string): string
    requires IsHeader(cmd)
  {
    HeaderHasDashes(cmd);
    SplitAtLeastTwo(cmd, "---");
    Trim(Split(cmd, "---")[1])
  }

  /**
   * The subtitle read back from a header is the subtitle the header was made for, provided it has
   * no surrounding whitespace (loaded subtitles are trimmed) and no "---" of its own.
   */
  lemma HeaderSubtitleRoundTrip(sub: string)
    requires sub != [] && !IsSpace(sub[0]) && !IsSpace(sub[|sub| - 1]) && !Contains(sub, "---")
    ensures IsHeader(HeaderCommand(sub)) && SubtitleOf(HeaderCommand(sub)) == sub
  {
    var a, padded, tail := "echo '\n", " " + sub + " ", "'\n";
    var b := padded + "---" + tail;
    var cmd := HeaderCommand(sub);
    assert cmd == a + "---" + b;
    forall i | 0 <= i < |a| ensures !MatchesAt(cmd, "---", i) {
      assert cmd[i] == a[i];
    }
    SplitAtFirst(a, "---", b);
    PaddedHasNoDashes(sub, tail);
    SplitAtFirst(padded, "---", tail);
    TrimPadded(sub);
  }

  /** No run of three dashes starts inside a space-padded subtitle that has none of its own. */
  lemma PaddedHasNoDashes(sub: string, tail: string)
    requires !Contains(sub, "---")
    ensures forall i :: 0 <= i < |sub| + 2 ==> !MatchesAt(" " + sub + " " + "---" + tail, "---", i)
  {
    var b := " " + sub + " " + "---" + tail;
    forall i | 0 <= i < |sub| + 2 ensures !MatchesAt(b, "---", i) {
      if i == 0 {
        assert b[0] == ' ';
      } else if i + 3 <= |sub| + 1 {
        assert b[i..i + 3] == sub[i - 1..i + 2];
        assert !MatchesAt(sub, "---", i - 1);
      } else {
        assert b[|sub| + 1] == ' ';
        assert i <= |sub| + 1 < i + 3 && |b| >= i + 3 ==> b[i..i + 3][|sub| + 1 - i] == ' ';
      }
    }
  }

  /** The first command of `cmds` that is not an echo, or "" when there is none. */
  function FirstReal(cmds: seq<string>): string
  {
    if cmds == [] then ""
    else if !IsEcho(cmds[0]) then cmds[0]
    else FirstReal(cmds[1..])
  }

  /**
   * `FirstReal` is "" when every command is an echo, and otherwise the command at the first
   * position that is not.
   */
  lemma {:induction false} FirstRealSpec(cmds: seq<string>)
    ensures (forall k :: 0 <= k < |cmds| ==> IsEcho(cmds[k])) ==> FirstReal(cmds) == ""
    ensures !(forall k :: 0 <= k < |cmds| ==> IsEcho(cmds[k])) ==>
              exists k :: 0 <= k < |cmds| && FirstReal(cmds) == cmds[k] && !IsEcho(cmds[k]) && forall m :: 0 <= m < k ==> IsEcho(cmds[m])
  {
    if cmds != [] && IsEcho(cmds[0]) {
      FirstRealSpec(cmds[1..]);
      assert forall k :: 1 <= k < |cmds| ==> cmds[k] == cmds[1..][k - 1];
      if !(forall k :: 0 <= k < |cmds| ==> IsEcho(cmds[k])) {
        var k :| 0 <= k < |cmds[1..]| && FirstReal(cmds[1..]) == cmds[1..][k] && !IsEcho(cmds[1..][k]) && forall m :: 0 <= m < k ==> IsEcho(cmds[1..][m]);
        assert forall m :: 0 <= m < k + 1 ==> IsEcho(cmds[m]);
      }
    }
  }

  /** The item for the header at position `j`: its subtitle and the first real command after it. */
  function MakeItem(cmds: seq<string>, j: nat): (item: Item)
    requires j < |cmds| && IsHeader(cmds[j])
  {
    Item(SubtitleOf(cmds[j]), FirstReal(cmds[j + 1..]), Success, "")
  }

  /** The items of the headers among the first `n` commands, in command order. */
  function ItemsUpTo(cmds: seq<string>, n: nat): seq<Item>
    requires n <= |cmds|
  {
    if n == 0 then [] else ItemsUpTo(cmds, n - 1) + ItemIfHeader(cmds, n - 1)
  }

  /** The item of the command at position `i`, when it is a header. */
  function ItemIfHeader(cmds: seq<string>, i: nat): (items: seq<Item>)
    requires i < |cmds|
    ensures |items| == (if IsHeader(cmds[i]) then 1 else 0)
  {
    if IsHeader(cmds[i]) then [MakeItem(cmds, i)] else []
  }

  /** The items of a section's commands. */
  function ItemsOf(cmds: seq<string>): seq<Item>
  {
    ItemsUpTo(cmds, |cmds|)
  }

  /** The number of headers among the first `n` commands. */
  function HeadersUpTo(cmds: seq<string>, n: nat): nat
    requires n <= |cmds|
  {
    if n == 0 then 0 else HeadersUpTo(cmds, n - 1) + (if IsHeader(cmds[n - 1]) then 1 else 0)
  }

  /** A section's items are one per header. */
  lemma {:induction false} ItemsCount(cmds: seq<string>, n: nat)
    requires n <= |cmds|
    ensures |ItemsUpTo(cmds, n)| == HeadersUpTo(cmds, n)
  {
    if n > 0 {
      ItemsCount(cmds, n - 1);
    }
  }

  /**
   * The `k`-th item of a section belongs to the header with exactly `k` headers before it: it holds
   * that header's subtitle and the first non-echo command after it (or ""), and starts as a success
   * with no reason.
   */
  lemma {:induction false} ItemAt(cmds: seq<string>, n: nat, k: nat) returns (j: nat)
    requires n <= |cmds| && k < |ItemsUpTo(cmds, n)|
    ensures j < n && IsHeader(cmds[j]) && HeadersUpTo(cmds, j) == k
    ensures ItemsUpTo(cmds, n)[k] == MakeItem(cmds, j)
  {
    if k < |ItemsUpTo(cmds, n - 1)| {
      j := ItemAt(cmds, n - 1, k);
      ItemsUpToKeeps(cmds, n, k);
    } else {
      ItemsCount(cmds, n - 1);
      j := n - 1;
      ItemsUpToLast(cmds, n);
    }
  }

  lemma ItemsUpToLast(cmds: seq<string>, n: nat)
    requires 0 < n <= |cmds| && IsHeader(cmds[n - 1])
    ensures ItemsUpTo(cmds, n)[|ItemsUpTo(cmds, n - 1)|] == MakeItem(cmds, n - 1)
  {
    var prev, item := ItemsUpTo(cmds, n - 1), MakeItem(cmds, n - 1);
    assert ItemIfHeader(cmds, n - 1) == [item];
    assert ItemsUpTo(cmds, n) == prev + [item];
    assert (prev + [item])[|prev|] == item;
  }

  lemma ItemsUpToKeeps(cmds: seq<string>, n: nat, k: nat)
    requires 0 < n <= |cmds| && k < |ItemsUpTo(cmds, n - 1)|
    ensures ItemsUpTo(cmds, n)[k] == ItemsUpTo(cmds, n - 1)[k]
  {
  }

  /** Every item starts as a success with an empty reason. */
  lemma {:induction false} ItemsStartSuccessful(cmds: seq<string>, n: nat)
    requires n <= |cmds|
    ensures forall it :: it in ItemsUpTo(cmds, n) ==> it.status == Success && it.reason == ""
  {
    if n > 0 {
      ItemsStartSuccessful(cmds, n - 1);
    }
  }

  /** A header followed directly by a command that is not an echo stands for that command. */
  lemma HeaderPairsNextCommand(cmds: seq<string>, j: nat)
    requires j + 1 < |cmds| && IsHeader(cmds[j]) && !IsEcho(cmds[j + 1])
    ensures MakeItem(cmds, j).command == cmds[j + 1]
  {
    assert cmds[j + 1..][0] == cmds[j + 1];
  }

  /** The first position holding `x`: Python's `list.index`. */
  function IndexOf(s: seq<string>, x: string): (i: nat)
    requires x in s
    ensures i < |s| && s[i] == x && forall m :: 0 <= m < i ==> s[m] != x
  {
    if s[0] == x then 0 else 1 + IndexOf(s[1..], x)
  }

  /**
   * The item as collect_data.py:75 computes it: the search for the next real command starts after
   * the FIRST command equal to the header, which is another header when a subtitle comes back later
   * in the same section.
   */
  function MakeItemAsWritten(cmds: seq<string>, j: nat): (item: Item)
    requires j < |cmds| && IsHeader(cmds[j])
    ensures item.subtitle == MakeItem(cmds, j).subtitle
  {
    Item(SubtitleOf(cmds[j]), FirstReal(cmds[IndexOf(cmds, cmds[j]) + 1..]), Success, "")
  }

  /** The two agree whenever the header does not occur earlier in the section. */
  lemma AsWrittenAgreesOnFirstHeader(cmds: seq<string>, j: nat)
    requires j < |cmds| && IsHeader(cmds[j]) && cmds[j] !in cmds[..j]
    ensures MakeItemAsWritten(cmds, j) == MakeItem(cmds, j)
  {
  }

  /**
   * A section whose subtitles go X, Y, X: as written, the second X item is paired with the first X
   * command; the intended pairing is with the command after the second X header.
   */
  lemma RepeatedSubtitleMispaired()
    ensures var cmds := [HeaderCommand("X"), "c1", HeaderCommand("Y"), "c2", HeaderCommand("X"), "c3"];
            && IsHeader(cmds[4])
            && MakeItemAsWritten(cmds, 4).command == "c1"
            && MakeItem(cmds, 4).command == "c3"
  {
    var cmds := [HeaderCommand("X"), "c1", HeaderCommand("Y"), "c2", HeaderCommand("X"), "c3"];
    assert IsHeader(cmds[0]);
    assert IndexOf(cmds, cmds[4]) == 0;
    assert cmds[1..][0] == "c1" && !IsEcho("c1");
    assert cmds[5..] == ["c3"] && !IsEcho("c3");
  }

  /** The (title, items) pairs the summary loop stores, one per section in order. */
  function SummaryPairs(sections: seq<Section>): (pairs: seq<(string, seq<Item>)>)
    ensures |pairs| == |sections|
    ensures forall i :: 0 <= i < |sections| ==> pairs[i] == (sections[i].title, ItemsOf(sections[i].commands))
  {
    seq(|sections|, i requires 0 <= i < |sections| => (sections[i].title, ItemsOf(sections[i].commands)))
  }

  /** The summary of a list of sections: each assignment `summary[title] = [...]` in section order. */
  function SummaryOf(sections: seq<Section>): Summary
  {
    OrderedDict.FromPairs(SummaryPairs(sections))
  }

  /**
   * The summary holds each title once, in the order titles first appear, and under each title the
   * items of the LAST section with that title (an earlier section with the same title is reset).
   */
  lemma SummaryContents(sections: seq<Section>)
    ensures OrderedDict.Valid(SummaryOf(sections))
    ensures OrderedDict.Keys(SummaryOf(sections)) == OrderedDict.FirstAppearance(OrderedDict.Keys(SummaryPairs(sections)))
    ensures forall i :: 0 <= i < |sections| && (forall m :: i < m < |sections| ==> sections[m].title != sections[i].title) ==>
              OrderedDict.Get(SummaryOf(sections), sections[i].title) == Some(ItemsOf(sections[i].commands))
  {
    var pairs := SummaryPairs(sections);
    OrderedDict.FromPairsContents(pairs);
    forall i | 0 <= i < |sections| && (forall m :: i < m < |sections| ==> sections[m].title != sections[i].title)
      ensures OrderedDict.LastValue(pairs, sections[i].title) == Some(ItemsOf(sections[i].commands))
    {
      OrderedDict.LastValueAt(pairs, i);
    }
  }

  /** The summary loop (collect_data.py:68-77). */
  method BuildSummary(sections: seq<Section>) returns (summary: Summary)
    ensures summary == SummaryOf(sections)
  {
    summary := [];
    for i := 0 to |sections|
      invariant summary == OrderedDict.FromPairs(SummaryPairs(sections[..i]))
    {
      var sec := sections[i];
      var items := SectionItems(sec.commands);
      // the list stored under the title is the one the inner loop fills
      summary := OrderedDict.Put(summary, sec.title, items);
      SummaryPairsSnoc(sections, i);
    }
    assert sections[..|sections|] == sections;
  }

  lemma SummaryPairsSnoc(sections: seq<Section>, i: nat)
    requires i < |sections|
    ensures SummaryPairs(sections[..i + 1]) == SummaryPairs(sections[..i]) + [(sections[i].title, ItemsOf(sections[i].commands))]
  {
  }

  /** The inner summary loop: one item per header of a section, in order. */
  method SectionItems(cmds: seq<string>) returns (items: seq<Item>)
    ensures items == ItemsOf(cmds)
  {
    items := [];
    for j := 0 to |cmds|
      invariant items == ItemsUpTo(cmds, j)
    {
      var cmd := cmds[j];
      if IsHeader(cmd) {
        var subtitle := SubtitleOf(cmd);
        var realCmd := FirstReal(cmds[j + 1..]);
        items := items + [Item(subtitle, realCmd, Success, "")];
      }
    }
  }

  // ---------------------------------------------------------------------------------------------
  // The run (collect_data.py:17-25, 80-105)

  const StartPrefix := "System metrics collection started at "
  const NoIfaceWarning := "Warning: No network interface detected (excluding lo).\n\n"

  /**
   * The start of the report and the interface used in commands (collect_data.py:17-25): the start
   * line, then the warning exactly when detection gave nothing but whitespace.
   */
  method Start(ctime: string, detected: string) returns (text: string, iface: string)
    ensures iface == ResolveIface(detected)
    ensures IsBlank(detected) ==> text == StartPrefix + ctime + "\n\n" + NoIfaceWarning
    ensures !IsBlank(detected) ==> text == StartPrefix + ctime + "\n\n"
  {
    text := StartPrefix + ctime + "\n\n";
    iface := Trim(detected);
    if iface == "" {
      iface := UnknownIface;
      text := text + NoIfaceWarning;
    }
  }

  /**
   * Whether a command counts as failed: only commands that are not echoes, when the shell exits
   * non-zero or when `sensors` completes with blank output.
   */
  predicate Fails(cmd: string, r: RunResult)
  {
    !IsEcho(cmd) && (r.NonZeroExit? || SilentSensors(cmd, r))
  }

  /** What one command adds to the report (collect_data.py:83-105). */
  function CommandText(cmd: string, r: RunResult): string
  {
    if Fails(cmd, r) then Fallback(cmd)
    else if r.Completed? then r.output
    else ""
  }

  /** The outputs of a run of commands, in order. */
  function Outputs(cmds: seq<string>, run: string -> RunResult): string
  {
    if cmds == [] then "" else Outputs(cmds[..|cmds| - 1], run) + CommandText(cmds[|cmds| - 1], run(cmds[|cmds| - 1]))
  }

  function Heading(title: string): string
  {
    "\n=== " + title + " ===\n"
  }

  /** The body of the report: each section's heading, then its commands' outputs. */
  function Body(sections: seq<Section>, run: string -> RunResult): string
  {
    if sections == [] then ""
    else
      var last := sections[|sections| - 1];
      Body(sections[..|sections| - 1], run) + Heading(last.title) + Outputs(last.commands, run)
  }

  /** The commands among `cmds` that fail. */
  function FailedIn(cmds: seq<string>, run: string -> RunResult): set<string>
  {
    if cmds == [] then {}
    else
      var c := cmds[|cmds| - 1];
      FailedIn(cmds[..|cmds| - 1], run) + (if Fails(c, run(c)) then {c} else {})
  }

  /** The commands of all sections that fail. */
  function FailedCommands(sections: seq<Section>, run: string -> RunResult): set<string>
  {
    if sections == [] then {}
    else FailedCommands(sections[..|sections| - 1], run) + FailedIn(sections[|sections| - 1].commands, run)
  }

  lemma {:induction false} FailedInMembers(cmds: seq<string>, run: string -> RunResult)
    ensures forall c :: c in FailedIn(cmds, run) <==> c in cmds && Fails(c, run(c))
  {
    if cmds != [] {
      FailedInMembers(cmds[..|cmds| - 1], run);
      assert cmds == cmds[..|cmds| - 1] + [cmds[|cmds| - 1]];
    }
  }

  /** The failed commands are exactly the commands of some section that fail. */
  lemma {:induction false} FailedCommandsMembers(sections: seq<Section>, run: string -> RunResult, c: string)
    ensures c in FailedCommands(sections, run) <==>
              Fails(c, run(c)) && exists i :: 0 <= i < |sections| && c in sections[i].commands
  {
    if sections != [] {
      var n := |sections| - 1;
      FailedCommandsMembers(sections[..n], run, c);
      FailedInMembers(sections[n].commands, run);
      if c in FailedCommands(sections[..n], run) {
        var i :| 0 <= i < n && c in sections[..n][i].commands;
        assert sections[i] == sections[..n][i];
      }
      if Fails(c, run(c)) && exists i :: 0 <= i < |sections| && c in sections[i].commands {
        var i :| 0 <= i < |sections| && c in sections[i].commands;
        if i < n {
          assert sections[..n][i] == sections[i];
        }
      }
    }
  }

  /** An item after the failure marking: failed, with the reason, when its command is among `failed`. */
  function MarkItem(it: Item, failed: set<string>): Item
  {
    if it.command in failed then it.(status := Failed, reason := FailureReason) else it
  }

  /** Every item of the summary after the failure marking. */
  function MarkAll(summary: Summary, failed: set<string>): Summary
  {
    seq(|summary|, e requires 0 <= e < |summary| =>
      (summary[e].0, seq(|summary[e].1|, k requires 0 <= k < |summary[e].1| => MarkItem(summary[e].1[k], failed))))
  }

  /** Marking keeps the titles and their order. */
  lemma MarkAllKeys(summary: Summary, failed: set<string>)
    ensures OrderedDict.Keys(MarkAll(summary, failed)) == OrderedDict.Keys(summary)
  {
    assert OrderedDict.Keys(MarkAll(summary, failed)) == OrderedDict.Keys(summary);
  }

  /**
   * Marking keeps the number of items under each title and every item's subtitle and command; an
   * item ends up failed exactly when it already was or its command is among the failed ones, and
   * only those items take the failure reason.
   */
  lemma MarkAllItem(summary: Summary, failed: set<string>, t: string, k: nat)
    requires OrderedDict.Get(summary, t).Some? && k < |OrderedDict.Get(summary, t).value|
    ensures OrderedDict.Get(MarkAll(summary, failed), t).Some?
    ensures var before, after := OrderedDict.Get(summary, t).value, OrderedDict.Get(MarkAll(summary, failed), t).value;
            && |after| == |before|
            && after[k].subtitle == before[k].subtitle && after[k].command == before[k].command
            && (after[k].status == Failed <==> before[k].status == Failed || before[k].command in failed)
            && after[k].reason == (if before[k].command in failed then FailureReason else before[k].reason)
  {
    var m := MarkAll(summary, failed);
    MarkAllKeys(summary, failed);
    var i := OrderedDict.IndexOfKey(summary, t);
    OrderedDict.GetAt(summary, t, i);
    OrderedDict.GetAt(m, t, i);
  }

  /** Marking one failed command after others marks their union. */
  lemma MarkAllTwice(summary: Summary, a: set<string>, b: set<string>)
    ensures MarkAll(MarkAll(summary, a), b) == MarkAll(summary, a + b)
  {
    var l, r := MarkAll(MarkAll(summary, a), b), MarkAll(summary, a + b);
    forall e | 0 <= e < |summary| ensures l[e] == r[e] {
      assert l[e].1 == r[e].1;
    }
  }

  lemma MarkAllNone(summary: Summary)
    ensures MarkAll(summary, {}) == summary
  {
    var m := MarkAll(summary, {});
    forall e | 0 <= e < |summary| ensures m[e] == summary[e] {
      assert m[e].1 == summary[e].1;
    }
  }

  /**
   * After the run, a summary item is failed exactly when its command is a command of some section
   * and that command failed; a failed item carries the failure reason and every other item none.
   */
  lemma FinalStatus(sections: seq<Section>, run: string -> RunResult, t: string, k: nat)
    requires OrderedDict.Get(SummaryOf(sections), t).Some? && k < |OrderedDict.Get(SummaryOf(sections), t).value|
    ensures OrderedDict.Get(MarkAll(SummaryOf(sections), FailedCommands(sections, run)), t).Some?
    ensures k < |OrderedDict.Get(MarkAll(SummaryOf(sections), FailedCommands(sections, run)), t).value|
    ensures var item := OrderedDict.Get(MarkAll(SummaryOf(sections), FailedCommands(sections, run)), t).value[k];
            && (item.status == Failed <==> Fails(item.command, run(item.command)) && exists i :: 0 <= i < |sections| && item.command in sections[i].commands)
            && item.reason == (if item.status == Failed then FailureReason else "")
  {
    var summary := SummaryOf(sections);
    var items: seq<Item> := OrderedDict.Get(summary, t).value;
    var pairs := SummaryPairs(sections);
    OrderedDict.FromPairsEntries(pairs);
    assert (t, items) in pairs;
    var i :| 0 <= i < |pairs| && pairs[i] == (t, items);
    ItemsStartSuccessful(sections[i].commands, |sections[i].commands|);
    assert items[k] in items;
    MarkAllItem(summary, FailedCommands(sections, run), t, k);
    FailedCommandsMembers(sections, run, items[k].command);
  }

  /**
   * Marks every item whose command is `cmd` as failed (collect_data.py:97-101); nothing else
   * changes.
   */
  method MarkFailed(summary: Summary, cmd: string) returns (marked: Summary)
    ensures marked == MarkAll(summary, {cmd})
  {
    ghost var target := MarkAll(summary, {cmd});
    marked := [];
    for e := 0 to |summary|
      invariant marked == target[..e]
    {
      var items := summary[e].1;
      var updated: seq<Item> := [];
      for k := 0 to |items|
        invariant updated == target[e].1[..k]
      {
        var item := items[k];
        if item.command == cmd {
          item := item.(status := Failed, reason := FailureReason);
        }
        updated := updated + [item];
      }
      assert updated == target[e].1;
      assert target[..e + 1] == target[..e] + [target[e]];
      marked := marked + [(summary[e].0, updated)];
    }
  }

  /**
   * The run of every command (collect_data.py:80-105): the report body is each section's heading
   * followed by its commands' outputs or fallbacks, and the summary ends up marked for exactly the
   * commands that failed.
   */
  method Execute(sections: seq<Section>, run: string -> RunResult, summary0: Summary) returns (body: string, summary: Summary)
    ensures body == Body(sections, run)
    ensures summary == MarkAll(summary0, FailedCommands(sections, run))
  {
    body := "";
    summary := summary0;
    MarkAllNone(summary0);
    for i := 0 to |sections|
      invariant body == Body(sections[..i], run)
      invariant summary == MarkAll(summary0, FailedCommands(sections[..i], run))
    {
      var sec := sections[i];
      assert sections[..i + 1][..i] == sections[..i];
      var text;
      text, summary := RunSection(sec, run, summary);
      body := body + text;
      MarkAllTwice(summary0, FailedCommands(sections[..i], run), FailedIn(sec.commands, run));
    }
    assert sections[..|sections|] == sections;
  }

  /** One section of the run: its heading, then each command's output or fallback, marking failures. */
  method RunSection(sec: Section, run: string -> RunResult, summary0: Summary) returns (text: string, summary: Summary)
    ensures text == Heading(sec.title) + Outputs(sec.commands, run)
    ensures summary == MarkAll(summary0, FailedIn(sec.commands, run))
  {
    text := Heading(sec.title);
    summary := summary0;
    MarkAllNone(summary0);
    var cmds := sec.commands;
    for j := 0 to |cmds|
      invariant text == Heading(sec.title) + Outputs(cmds[..j], run)
      invariant summary == MarkAll(summary0, FailedIn(cmds[..j], run))
    {
      var cmd := cmds[j];
      var out, failed := RunCommand(cmd, run(cmd));
      RunStep(cmds, j, run);
      if failed {
        summary := MarkFailed(summary, cmd);
        MarkAllTwice(summary0, FailedIn(cmds[..j], run), {cmd});
        assert FailedIn(cmds[..j + 1], run) == FailedIn(cmds[..j], run) + {cmd};
      } else {
        assert FailedIn(cmds[..j + 1], run) == FailedIn(cmds[..j], run);
      }
      ConcatAssoc(Heading(sec.title), Outputs(cmds[..j], run), out);
      text := text + out;
    }
    assert cmds[..|cmds|] == cmds;
  }

  lemma RunStep(cmds: seq<string>, j: nat, run: string -> RunResult)
    requires j < |cmds|
    ensures Outputs(cmds[..j + 1], run) == Outputs(cmds[..j], run) + CommandText(cmds[j], run(cmds[j]))
    ensures FailedIn(cmds[..j + 1], run) == FailedIn(cmds[..j], run) + (if Fails(cmds[j], run(cmds[j])) then {cmds[j]} else {})
  {
    assert cmds[..j + 1][..j] == cmds[..j];
  }

  /**
   * One command of the run (collect_data.py:83-105): an echo writes its output, or nothing when it
   * fails; any other command writes its output unless it fails or is `sensors` with blank output,
   * in which case it writes the fallback for its first word and is reported as failed.
   */
  method RunCommand(cmd: string, r: RunResult) returns (out: string, failed: bool)
    ensures failed <==> Fails(cmd, r)
    ensures out == CommandText(cmd, r)
    ensures failed ==> out == Fallback(cmd)
    ensures !failed && r.Completed? ==> out == r.output
    ensures IsEcho(cmd) ==> !failed
  {
    failed := false;
    out := "";
    if IsEcho(cmd) {
      if r.Completed? {
        out := r.output;
      }
    } else if r.Completed? && !SilentSensors(cmd, r) {
      out := r.output;
    } else {
      failed := true;
      out := Fallback(cmd);
    }
  }
}
