/**
 * The "Collect System Information" tab of tabs/collect_data_tab.py: the configuration rows cleaned
 * up into an ordered table of sections, each an ordered table of subsections holding one command
 * entry; the run of every non-blank command, which records each entry's output, status and reason;
 * and the summary of the commands that were run.
 */
module CollectDataTab {
  import opened Base
  import opened Text
  import opened Config
  import opened Shell
  import opened OrderedDict
  import CollectData

  datatype EntryStatus = Pending | Success | Failed

  /** A subsection's entry: its command, type, and what running it gave. */
  datatype Entry = Entry(command: string, kind: string, output: string, status: EntryStatus, reason: string)

  /** Subsection title to entry, in insertion order. */
  type Subsections = Dict<string, Entry>

  /** Section title to its subsections, in the order titles first appear. */
  type Sections = Dict<string, Subsections>

  const NanText := "nan"
  const UntitledText := "Untitled"
  const StaticKind := "static"

  // ---------------------------------------------------------------------------------------------
  // Row clean-up (collect_data_tab.py:46-62)

  /** The trimmed subtitle, with any spelling of "nan" replaced by "Untitled". */
  function CleanSubtitle(s: string): string
  {
    var t := Trim(s);
    if Lower(t) == NanText then UntitledText else t
  }

  /** The trimmed command, with any spelling of "nan" replaced by "". */
  function CleanCommand(s: string): string
  {
    var t := Trim(s);
    if Lower(t) == NanText then "" else t
  }

  /** The trimmed type, with any spelling of "nan" replaced by "static". */
  function CleanKind(s: string): string
  {
    var t := Trim(s);
    if Lower(t) == NanText then StaticKind else t
  }

  /** "Untitled" and "static" are already trimmed and are not "nan". */
  lemma DefaultsClean()
    ensures Trim(UntitledText) == UntitledText && Lower(UntitledText) != NanText
    ensures Trim(StaticKind) == StaticKind && Lower(StaticKind) != NanText
  {
    UntitledTrimmed();
    StaticTrimmed();
    assert |Lower(UntitledText)| != |NanText|;
    assert |Lower(StaticKind)| != |NanText|;
  }

  lemma UntitledTrimmed()
    ensures Trim(UntitledText) == UntitledText
  {
    var u := UntitledText;
    assert |u| == 8 && u[0] == 'U' && u[7] == 'd';
    assert !IsSpace(u[0]) && !IsSpace(u[|u| - 1]);
  }

  lemma StaticTrimmed()
    ensures Trim(StaticKind) == StaticKind
  {
    var k := StaticKind;
    assert |k| == 6 && k[0] == 's' && k[5] == 'c';
    assert !IsSpace(k[0]) && !IsSpace(k[|k| - 1]);
  }

  /** The subtitle clean-up leaves no "nan" in any letter case, and a second clean-up changes nothing. */
  lemma CleanSubtitleSettles(s: string)
    ensures Lower(CleanSubtitle(s)) != NanText
    ensures CleanSubtitle(CleanSubtitle(s)) == CleanSubtitle(s)
  {
    TrimIdempotent(s);
    DefaultsClean();
  }

  /** The command clean-up leaves no "nan" in any letter case, and a second clean-up changes nothing. */
  lemma CleanCommandSettles(s: string)
    ensures Lower(CleanCommand(s)) != NanText
    ensures CleanCommand(CleanCommand(s)) == CleanCommand(s)
  {
    TrimIdempotent(s);
    assert Lower("") == "";
  }

  /** The type clean-up leaves no "nan" in any letter case, and a second clean-up changes nothing. */
  lemma CleanKindSettles(s: string)
    ensures Lower(CleanKind(s)) != NanText
    ensures CleanKind(CleanKind(s)) == CleanKind(s)
  {
    TrimIdempotent(s);
    DefaultsClean();
  }

  /** A kept row: its section title, its subsection title and its new entry. */
  datatype Cleaned = Cleaned(title: string, subtitle: string, entry: Entry)

  /**
   * One row after clean-up (collect_data_tab.py:47-77): dropped when its trimmed title is empty;
   * otherwise a pending entry whose command has `{iface}` substituted.
   */
  function CleanRow(row: ConfigRow, iface: string): (c: Option<Cleaned>)
    ensures c.None? <==> Trim(row.section) == ""
    ensures c.Some? ==> c.value.title != "" && c.value.entry.status == Pending
                        && c.value.entry.output == "" && c.value.entry.reason == ""
  {
    var title := Trim(row.section);
    if title == "" then None
    else
      var cmd := Substitute(CleanCommand(row.command), iface);
      Some(Cleaned(title, CleanSubtitle(row.subsection), Entry(cmd, CleanKind(row.kind), "", Pending, "")))
  }

  /** The kept rows, in row order. */
  function Kept(rows: seq<ConfigRow>, iface: string): (cs: seq<Cleaned>)
    ensures |cs| <= |rows|
  {
    if rows == [] then []
    else
      var c := CleanRow(rows[|rows| - 1], iface);
      Kept(rows[..|rows| - 1], iface) + (if c.Some? then [c.value] else [])
  }

  /** One row is kept exactly when it cleans to an entry, and then as that entry. */
  lemma KeptSingle(row: ConfigRow, iface: string)
    ensures Kept([row], iface) == if CleanRow(row, iface).Some? then [CleanRow(row, iface).value] else []
  {
  }

  /** Keeping distributes over concatenation, so the kept rows stay in row order. */
  lemma {:induction false} KeptAppend(a: seq<ConfigRow>, b: seq<ConfigRow>, iface: string)
    ensures Kept(a + b, iface) == Kept(a, iface) + Kept(b, iface)
  {
    if b == [] {
      assert a + b == a;
    } else {
      var n := |b| - 1;
      var ab := a + b;
      AppendDropLast(a, b);
      var c := CleanRow(b[n], iface);
      var last := if c.Some? then [c.value] else [];
      assert Kept(ab, iface) == Kept(a + b[..n], iface) + last;
      assert Kept(b, iface) == Kept(b[..n], iface) + last;
      KeptAppend(a, b[..n], iface);
      ConcatAssoc(Kept(a, iface), Kept(b[..n], iface), last);
    }
  }

  // ---------------------------------------------------------------------------------------------
  // The section table (collect_data_tab.py:68-77)

  /** The subsections under a title, or a fresh empty table. */
  function SubsOf(t: Sections, title: string): Subsections
  {
    match Get(t, title)
    case None => []
    case Some(d) => d
  }

  /** `sections[title][subtitle] = entry`, creating the section when it is new. */
  function AddRow(t: Sections, c: Cleaned): Sections
  {
    Put(t, c.title, Put(SubsOf(t, c.title), c.subtitle, c.entry))
  }

  /** The table after the kept rows, in order. */
  function TableOf(cs: seq<Cleaned>): Sections
  {
    if cs == [] then [] else AddRow(TableOf(cs[..|cs| - 1]), cs[|cs| - 1])
  }

  /** The section titles of the kept rows, in order, with repetitions. */
  function Titles(cs: seq<Cleaned>): (ts: seq<string>)
    ensures |ts| == |cs| && forall i :: 0 <= i < |cs| ==> ts[i] == cs[i].title
  {
    seq(|cs|, i requires 0 <= i < |cs| => cs[i].title)
  }

  /** The (subtitle, entry) pairs of the kept rows with a given title, in order. */
  function RowsUnder(cs: seq<Cleaned>, title: string): seq<(string, Entry)>
  {
    if cs == [] then []
    else
      var c := cs[|cs| - 1];
      RowsUnder(cs[..|cs| - 1], title) + (if c.title == title then [(c.subtitle, c.entry)] else [])
  }

  lemma TitlesSnoc(cs: seq<Cleaned>)
    requires cs != []
    ensures Titles(cs) == Titles(cs[..|cs| - 1]) + [cs[|cs| - 1].title]
  {
  }

  /** The table holds each section title once, in the order titles first appear among the kept rows. */
  lemma {:induction false} TableKeys(cs: seq<Cleaned>)
    ensures Valid(TableOf(cs))
    ensures Keys(TableOf(cs)) == FirstAppearance(Titles(cs))
  {
    if cs != [] {
      var n := |cs| - 1;
      var prev, c := TableOf(cs[..n]), cs[n];
      TableKeys(cs[..n]);
      PutValid(prev, c.title, Put(SubsOf(prev, c.title), c.subtitle, c.entry));
      assert TableOf(cs) == AddRow(prev, c);
      TitlesSnoc(cs);
      FirstAppearanceMembers(Titles(cs[..n]));
    }
  }

  lemma RowsUnderSnoc(cs: seq<Cleaned>, t: string)
    requires cs != []
    ensures var n := |cs| - 1;
            RowsUnder(cs, t) == RowsUnder(cs[..n], t) + (if cs[n].title == t then [(cs[n].subtitle, cs[n].entry)] else [])
  {
  }

  lemma FromPairsSnoc<K(!new), V(!new)>(pairs: seq<(K, V)>, p: (K, V))
    ensures FromPairs(pairs + [p]) == Put(FromPairs(pairs), p.0, p.1)
  {
    assert (pairs + [p])[..|pairs|] == pairs;
  }

  /**
   * Under each title the table holds the table built from that title's rows alone, so a repeated
   * (title, subtitle) pair keeps its first position and takes the later entry; a title no kept row
   * has is absent.
   */
  lemma {:induction false} TableSection(cs: seq<Cleaned>, t: string)
    ensures Get(TableOf(cs), t) == (if t in Titles(cs) then Some(FromPairs(RowsUnder(cs, t))) else None)
  {
    if cs != [] {
      var n := |cs| - 1;
      var init, c := cs[..n], cs[n];
      TableSection(init, t);
      TitlesSnoc(cs);
      RowsUnderSnoc(cs, t);
      assert TableOf(cs) == AddRow(TableOf(init), c);
      if t == c.title {
        if t !in Titles(init) {
          RowsUnderAbsent(init, t);
        }
        assert SubsOf(TableOf(init), t) == FromPairs(RowsUnder(init, t));
        FromPairsSnoc(RowsUnder(init, t), (c.subtitle, c.entry));
      } else {
        assert Get(TableOf(cs), t) == Get(TableOf(init), t);
        assert RowsUnder(cs, t) == RowsUnder(init, t);
      }
    }
  }

  /** A title no kept row has has no rows. */
  lemma {:induction false} RowsUnderAbsent(cs: seq<Cleaned>, t: string)
    requires t !in Titles(cs)
    ensures RowsUnder(cs, t) == []
  {
    if cs != [] {
      TitlesSnoc(cs);
      RowsUnderAbsent(cs[..|cs| - 1], t);
    }
  }

  /**
   * The entry stored for a (title, subtitle) pair is the entry of the last kept row with that
   * pair, and a pair no kept row has is absent.
   */
  lemma EntryOfPair(cs: seq<Cleaned>, t: string, s: string)
    requires t in Titles(cs)
    ensures Get(SubsOf(TableOf(cs), t), s) == LastValue(RowsUnder(cs, t), s)
  {
    TableSection(cs, t);
    FromPairsContents(RowsUnder(cs, t));
  }

  /** The row loop (collect_data_tab.py:46-77), on the loaded rows and the detected interface. */
  method BuildTable(rows: seq<ConfigRow>, iface: string) returns (sections: Sections)
    ensures sections == TableOf(Kept(rows, iface))
  {
    sections := [];
    for i := 0 to |rows|
      invariant sections == TableOf(Kept(rows[..i], iface))
    {
      KeptSnoc(rows, i, iface);
      var c := CleanRow(rows[i], iface);
      if c.Some? {
        TableSnoc(Kept(rows[..i], iface), c.value);
      } else {
        assert Kept(rows[..i + 1], iface) == Kept(rows[..i], iface);
      }
      var title, subtitle, cmdTemplate, cmdType := CleanFields(rows[i]);
      if title == "" {
        continue;
      }
      var cmd := Substitute(cmdTemplate, iface);
      sections := AddEntry(sections, title, subtitle, Entry(cmd, cmdType, "", Pending, ""));
    }
    assert rows[..|rows|] == rows;
  }

  lemma KeptSnoc(rows: seq<ConfigRow>, i: nat, iface: string)
    requires i < |rows|
    ensures var c := CleanRow(rows[i], iface);
            Kept(rows[..i + 1], iface) == Kept(rows[..i], iface) + (if c.Some? then [c.value] else [])
  {
    assert rows[..i + 1][..i] == rows[..i];
  }

  lemma TableSnoc(cs: seq<Cleaned>, c: Cleaned)
    ensures TableOf(cs + [c]) == AddRow(TableOf(cs), c)
  {
    assert (cs + [c])[..|cs|] == cs;
  }

  /** The four field clean-ups of collect_data_tab.py:47-58. */
  method CleanFields(row: ConfigRow) returns (title: string, subtitle: string, cmdTemplate: string, cmdType: string)
    ensures title == Trim(row.section)
    ensures subtitle == CleanSubtitle(row.subsection)
    ensures cmdTemplate == CleanCommand(row.command)
    ensures cmdType == CleanKind(row.kind)
  {
    title := Trim(row.section);
    subtitle := Trim(row.subsection);
    cmdTemplate := Trim(row.command);
    cmdType := Trim(row.kind);
    if Lower(subtitle) == NanText {
      subtitle := UntitledText;
    }
    if Lower(cmdTemplate) == NanText {
      cmdTemplate := "";
    }
    if Lower(cmdType) == NanText {
      cmdType := StaticKind;
    }
  }

  /** `if title not in sections: sections[title] = OrderedDict()`, then `sections[title][subtitle] = entry`. */
  method AddEntry(sections: Sections, title: string, subtitle: string, entry: Entry) returns (r: Sections)
    ensures r == AddRow(sections, Cleaned(title, subtitle, entry))
  {
    r := sections;
    if title !in Keys(r) {
      r := Put(r, title, []);
    }
    var subs := Get(r, title).value;
    assert subs == SubsOf(sections, title);
    r := Put(r, title, Put(subs, subtitle, entry));
    if title !in Keys(sections) {
      PutTwice(sections, title, [], Put(subs, subtitle, entry));
    }
  }

  // ---------------------------------------------------------------------------------------------
  // The run (collect_data_tab.py:88-113)

  /**
   * An entry after its command ran (collect_data_tab.py:95-112): a failure, or `sensors` completing
   * with blank output, makes it failed with the reason and the fallback for its command's first
   * word; otherwise it succeeds with the raw output. A blank command is not run.
   */
  function Executed(e: Entry, r: RunResult): Entry
  {
    if IsBlank(e.command) then e
    else if r.NonZeroExit? || SilentSensors(Trim(e.command), r) then
      e.(output := Fallback(e.command), status := Failed, reason := FailureReason)
    else
      e.(output := r.output, status := Success, reason := "")
  }

  /** The steps the source takes on one non-blank entry: success first, then failure if it failed. */
  method RunEntry(e: Entry, r: RunResult) returns (d: Entry)
    requires !IsBlank(e.command)
    ensures d == Executed(e, r)
    ensures d.command == e.command && d.kind == e.kind
    ensures d.status == Failed <==> r.NonZeroExit? || SilentSensors(Trim(e.command), r)
    ensures d.status == Failed ==> d.reason == FailureReason && d.output == Fallback(e.command)
    ensures d.status != Failed ==> d.status == Success && d.reason == "" && r == Completed(d.output)
  {
    d := e;
    var failed := false;
    match r {
      case Completed(out) =>
        d := d.(output := out, status := Success, reason := "");
        if Trim(d.command) == SensorsCommand && IsBlank(out) {
          failed := true;
        }
      case NonZeroExit =>
        failed := true;
    }
    if failed {
      d := d.(status := Failed, reason := FailureReason, output := Fallback(d.command));
    }
  }

  /** A section's subsections after the run. */
  function RunSubs(subs: Subsections, run: string -> RunResult): (r: Subsections)
    ensures |r| == |subs|
    ensures forall k :: 0 <= k < |subs| ==> r[k] == (subs[k].0, Executed(subs[k].1, run(subs[k].1.command)))
  {
    seq(|subs|, k requires 0 <= k < |subs| => (subs[k].0, Executed(subs[k].1, run(subs[k].1.command))))
  }

  /** The table after the run: same titles and subtitles, every entry run once. */
  function RunTable(t: Sections, run: string -> RunResult): (r: Sections)
    ensures |r| == |t|
    ensures forall e :: 0 <= e < |t| ==> r[e] == (t[e].0, RunSubs(t[e].1, run))
  {
    seq(|t|, e requires 0 <= e < |t| => (t[e].0, RunSubs(t[e].1, run)))
  }

  /** What a run subsection adds to the report: nothing for a blank command, else its heading and output. */
  function EntryText(sub: string, e: Entry): string
  {
    if IsBlank(e.command) then "" else "\n--- " + sub + " ---\n" + e.output
  }

  function SubsText(subs: Subsections): string
  {
    if subs == [] then "" else SubsText(subs[..|subs| - 1]) + EntryText(subs[|subs| - 1].0, subs[|subs| - 1].1)
  }

  /** The report body written from the run table: each section's heading, then its subsections' text. */
  function ReportBody(t: Sections): string
  {
    if t == [] then ""
    else ReportBody(t[..|t| - 1]) + "\n=== " + t[|t| - 1].0 + " ===\n" + SubsText(t[|t| - 1].1)
  }

  lemma SubsTextSnoc(subs: Subsections, p: (string, Entry))
    ensures SubsText(subs + [p]) == SubsText(subs) + EntryText(p.0, p.1)
  {
    assert (subs + [p])[..|subs|] == subs;
  }

  lemma ReportBodySnoc(t: Sections, p: (string, Subsections))
    ensures ReportBody(t + [p]) == ReportBody(t) + "\n=== " + p.0 + " ===\n" + SubsText(p.1)
  {
    assert (t + [p])[..|t|] == t;
  }

  /**
   * The run loop (collect_data_tab.py:88-113): every non-blank command runs once, in table order,
   * and the report shows each section heading, then for each non-blank entry its heading and the
   * output stored in the run table.
   */
  method RunAll(table: Sections, run: string -> RunResult) returns (report: string, ran: Sections)
    ensures ran == RunTable(table, run)
    ensures report == ReportBody(ran)
  {
    report := "";
    ran := [];
    for e := 0 to |table|
      invariant ran == RunTable(table[..e], run)
      invariant report == ReportBody(ran)
    {
      var title, subs := table[e].0, table[e].1;
      report := report + "\n=== " + title + " ===\n";
      var subsRan := RunSection(subs, run);
      report := report + SubsText(subsRan);
      ReportBodySnoc(ran, (title, subsRan));
      RunTableSnoc(table, e, run);
      ran := ran + [(title, subsRan)];
    }
    assert table[..|table|] == table;
  }

  lemma RunTableSnoc(table: Sections, e: nat, run: string -> RunResult)
    requires e < |table|
    ensures RunTable(table[..e + 1], run) == RunTable(table[..e], run) + [(table[e].0, RunSubs(table[e].1, run))]
  {
  }

  lemma RunSubsSnoc(subs: Subsections, k: nat, run: string -> RunResult)
    requires k < |subs|
    ensures RunSubs(subs[..k + 1], run) == RunSubs(subs[..k], run) + [(subs[k].0, Executed(subs[k].1, run(subs[k].1.command)))]
  {
  }

  /** The inner loop of the run over one section's subsections. */
  method RunSection(subs: Subsections, run: string -> RunResult) returns (subsRan: Subsections)
    ensures subsRan == RunSubs(subs, run)
  {
    subsRan := [];
    for k := 0 to |subs|
      invariant subsRan == RunSubs(subs[..k], run)
    {
      var subtitle, entry := subs[k].0, subs[k].1;
      var d := entry;
      if !IsBlank(entry.command) {
        d := RunEntry(entry, run(entry.command));
      }
      RunSubsSnoc(subs, k, run);
      subsRan := subsRan + [(subtitle, d)];
    }
    assert subs[..|subs|] == subs;
  }

  /** Running keeps the section titles in place and runs each section's subsections. */
  lemma RunTableGet(table: Sections, run: string -> RunResult, t: string)
    requires t in Keys(table)
    ensures Keys(RunTable(table, run)) == Keys(table)
    ensures Get(RunTable(table, run), t) == Some(RunSubs(Get(table, t).value, run))
  {
    var ran := RunTable(table, run);
    assert Keys(ran) == Keys(table);
    var i := IndexOfKey(table, t);
    GetAt(table, t, i);
    GetAt(ran, t, i);
  }

  /** Running keeps the subtitles in place and runs each entry once. */
  lemma RunSubsGet(subs: Subsections, run: string -> RunResult, s: string)
    requires s in Keys(subs)
    ensures Keys(RunSubs(subs, run)) == Keys(subs)
    ensures var before := Get(subs, s).value;
            Get(RunSubs(subs, run), s) == Some(Executed(before, run(before.command)))
  {
    var rs := RunSubs(subs, run);
    assert Keys(rs) == Keys(subs);
    var k := IndexOfKey(subs, s);
    GetAt(subs, s, k);
    GetAt(rs, s, k);
  }

  /** Running keeps the titles and subtitles in place and runs each entry once. */
  lemma RunTableAt(table: Sections, run: string -> RunResult, t: string, s: string)
    requires Get(table, t).Some? && Get(Get(table, t).value, s).Some?
    ensures Keys(RunTable(table, run)) == Keys(table)
    ensures Get(RunTable(table, run), t).Some?
    ensures Get(Get(RunTable(table, run), t).value, s).Some?
    ensures var before := Get(Get(table, t).value, s).value;
            Get(Get(RunTable(table, run), t).value, s).value == Executed(before, run(before.command))
  {
    RunTableGet(table, run, t);
    RunSubsGet(Get(table, t).value, run, s);
  }

  /**
   * Running a pending entry leaves it pending exactly when its command is blank; a failed entry
   * carries the reason and the fallback for its command's first word, a successful one the raw
   * output and no reason.
   */
  lemma ExecutedOutcome(e: Entry, r: RunResult)
    requires e.status == Pending
    ensures Executed(e, r).command == e.command
    ensures Executed(e, r).status == Pending <==> IsBlank(e.command)
    ensures Executed(e, r).status == Failed ==> Executed(e, r).reason == FailureReason && Executed(e, r).output == Fallback(e.command)
    ensures Executed(e, r).status == Success ==> Executed(e, r).reason == "" && r == Completed(Executed(e, r).output)
  {
  }

  /** Every entry of the table is still pending. */
  predicate AllPending(table: Sections)
  {
    forall p :: p in table ==> forall q :: q in p.1 ==> q.1.status == Pending
  }

  /** Adding a pending entry keeps every entry pending. */
  lemma AddRowPending(table: Sections, c: Cleaned)
    requires AllPending(table) && c.entry.status == Pending
    ensures AllPending(AddRow(table, c))
  {
    var subs := SubsOf(table, c.title);
    assert forall q :: q in subs ==> q.1.status == Pending by {
      if Get(table, c.title).Some? {
        var i :| 0 <= i < |table| && table[i] == (c.title, subs);
        assert table[i] in table;
      }
    }
    var subs' := Put(subs, c.subtitle, c.entry);
    PutEntries(subs, c.subtitle, c.entry);
    assert forall q :: q in subs' ==> q.1.status == Pending;
    PutEntries(table, c.title, subs');
  }

  /** Every entry of a table built from the configuration is pending. */
  lemma {:induction false} TablePending(rows: seq<ConfigRow>, iface: string)
    ensures AllPending(TableOf(Kept(rows, iface)))
  {
    if rows != [] {
      var n := |rows| - 1;
      TablePending(rows[..n], iface);
      var prev := Kept(rows[..n], iface);
      var c := CleanRow(rows[n], iface);
      if c.Some? {
        assert Kept(rows, iface) == prev + [c.value];
        TableSnoc(prev, c.value);
        AddRowPending(TableOf(prev), c.value);
      } else {
        assert Kept(rows, iface) == prev;
      }
    }
  }

  /**
   * After the run, an entry of a table whose entries are all pending (as every table built from
   * the configuration is) is still pending exactly when its command is blank; a failed entry
   * carries the reason and the fallback for its command's first word; a successful one the raw
   * output and no reason.
   */
  lemma RunOutcome(table: Sections, run: string -> RunResult, t: string, s: string)
    requires AllPending(table)
    requires Get(table, t).Some? && Get(Get(table, t).value, s).Some?
    ensures Get(RunTable(table, run), t).Some?
    ensures Get(Get(RunTable(table, run), t).value, s).Some?
    ensures var before := Get(Get(table, t).value, s).value;
            var e := Get(Get(RunTable(table, run), t).value, s).value;
            && e.command == before.command
            && (e.status == Pending <==> IsBlank(e.command))
            && (e.status == Failed ==> e.reason == FailureReason && e.output == Fallback(e.command))
            && (e.status == Success ==> e.reason == "" && run(e.command) == Completed(e.output))
  {
    RunTableAt(table, run, t, s);
    var before := Get(Get(table, t).value, s).value;
    assert before.status == Pending;
    ExecutedOutcome(before, run(before.command));
  }

  // ---------------------------------------------------------------------------------------------
  // The summary (collect_data_tab.py:118-133)

  const SummaryHeader := "### Data Collection Summary\n\n"
  const SuccessIcon := "\U{2705}"
  const FailureIcon := "\U{274C}"

  /** The summary lists an entry exactly when its command is not blank. */
  predicate Listed(e: Entry)
  {
    !IsBlank(e.command)
  }

  /** A section appears in the summary when any of its entries is listed. */
  predicate SectionHasItems(subs: Subsections)
  {
    exists k :: 0 <= k < |subs| && Listed(subs[k].1)
  }

  /** The summary has content when any section has a listed entry. */
  predicate HasContent(t: Sections)
  {
    exists e :: 0 <= e < |t| && SectionHasItems(t[e].1)
  }

  function ReasonPart(reason: string): string
  {
    if reason == "" then "" else " (" + reason + ")"
  }

  /** One listed entry: the success icon only for a successful entry, then the reason if it has one. */
  function SummaryLine(sub: string, e: Entry): string
  {
    (if e.status == Success then SuccessIcon else FailureIcon)
      + " **" + sub + "** \U{2192} `" + e.command + "`" + ReasonPart(e.reason) + "\n\n"
  }

  function SubsSummary(subs: Subsections): string
  {
    if subs == [] then ""
    else
      var last := subs[|subs| - 1];
      SubsSummary(subs[..|subs| - 1]) + (if Listed(last.1) then SummaryLine(last.0, last.1) else "")
  }

  function SectionSummary(title: string, subs: Subsections): string
  {
    if SectionHasItems(subs) then "**" + title + "**\n\n" + SubsSummary(subs) + "---\n\n" else ""
  }

  function SectionsSummary(t: Sections): string
  {
    if t == [] then "" else SectionsSummary(t[..|t| - 1]) + SectionSummary(t[|t| - 1].0, t[|t| - 1].1)
  }

  function SummaryText(t: Sections): string
  {
    SummaryHeader + SectionsSummary(t)
  }

  /** A section's lines are empty exactly when it has no listed entry. */
  lemma {:induction false} SubsSummaryEmpty(subs: Subsections)
    ensures SubsSummary(subs) == "" <==> !SectionHasItems(subs)
  {
    if subs != [] {
      var n := |subs| - 1;
      SubsSummaryEmpty(subs[..n]);
      if SectionHasItems(subs[..n]) {
        var k :| 0 <= k < n && Listed(subs[..n][k].1);
        assert Listed(subs[k].1);
      }
      if SectionHasItems(subs) && !Listed(subs[n].1) {
        var k :| 0 <= k < |subs| && Listed(subs[k].1);
        assert subs[..n][k] == subs[k];
      }
    }
  }

  /** The summary is its header alone exactly when no section has a listed entry. */
  lemma {:induction false} SummaryWithoutContent(t: Sections)
    ensures SummaryText(t) == SummaryHeader <==> !HasContent(t)
  {
    SectionsSummaryEmpty(t);
  }

  lemma {:induction false} SectionsSummaryEmpty(t: Sections)
    ensures SectionsSummary(t) == "" <==> !HasContent(t)
  {
    if t != [] {
      var n := |t| - 1;
      SectionsSummaryEmpty(t[..n]);
      HasContentSnoc(t);
      var prev, cur := SectionsSummary(t[..n]), SectionSummary(t[n].0, t[n].1);
      assert |SectionsSummary(t)| == |prev| + |cur|;
      assert cur == "" <==> !SectionHasItems(t[n].1);
    }
  }

  /** A table has content when its earlier sections do or its last section has a listed entry. */
  lemma HasContentSnoc(t: Sections)
    requires t != []
    ensures HasContent(t) <==> HasContent(t[..|t| - 1]) || SectionHasItems(t[|t| - 1].1)
  {
    var n := |t| - 1;
    if HasContent(t[..n]) {
      var e :| 0 <= e < n && SectionHasItems(t[..n][e].1);
      assert SectionHasItems(t[e].1);
    }
    if HasContent(t) && !SectionHasItems(t[n].1) {
      var e :| 0 <= e < |t| && SectionHasItems(t[e].1);
      assert t[..n][e] == t[e];
    }
  }

  /**
   * A pending entry with a command, once run, is listed with the success icon and no reason when
   * its command succeeded, and with the failure icon and the failure reason when it failed.
   */
  lemma SummaryLineAfterRun(sub: string, e: Entry, r: RunResult)
    requires e.status == Pending && Listed(e)
    ensures var failed := r.NonZeroExit? || SilentSensors(Trim(e.command), r);
            SummaryLine(sub, Executed(e, r))
              == (if failed then FailureIcon else SuccessIcon) + " **" + sub + "** \U{2192} `" + e.command + "`"
                 + (if failed then " (" + FailureReason + ")" else "") + "\n\n"
  {
  }

  /** Running changes no command, so it changes neither which entries are listed nor whether there is content. */
  lemma RunKeepsListing(t: Sections, run: string -> RunResult)
    ensures forall e :: 0 <= e < |t| ==> (SectionHasItems(RunTable(t, run)[e].1) <==> SectionHasItems(t[e].1))
    ensures HasContent(RunTable(t, run)) <==> HasContent(t)
  {
    var ran := RunTable(t, run);
    forall e | 0 <= e < |t|
      ensures SectionHasItems(ran[e].1) <==> SectionHasItems(t[e].1)
    {
      var subs, rs := t[e].1, ran[e].1;
      assert rs == RunSubs(subs, run);
      assert forall k :: 0 <= k < |subs| ==> (Listed(rs[k].1) <==> Listed(subs[k].1));
    }
  }

  /**
   * The summary loop (collect_data_tab.py:118-133) over the run table: the summary text and
   * whether it has content.
   */
  method Summarize(t: Sections) returns (text: string, hasContent: bool)
    ensures text == SummaryText(t)
    ensures hasContent == HasContent(t)
  {
    text := SummaryHeader;
    hasContent := false;
    for e := 0 to |t|
      invariant text == SummaryHeader + SectionsSummary(t[..e])
      invariant hasContent <==> HasContent(t[..e])
    {
      var sectionHasItems;
      text, sectionHasItems := AppendSection(text, t[e].0, t[e].1);
      if sectionHasItems {
        hasContent := true;
      }
      SummaryStep(t, e);
    }
    assert t[..|t|] == t;
  }

  /** One section of the summary loop: its title, its lines and the rule, when it has a listed entry. */
  method AppendSection(text0: string, title: string, subs: Subsections) returns (text: string, sectionHasItems: bool)
    ensures text == text0 + SectionSummary(title, subs)
    ensures sectionHasItems == SectionHasItems(subs)
  {
    text := text0;
    sectionHasItems := AnyListed(subs);
    if sectionHasItems {
      text := text + "**" + title + "**\n\n";
      text := AppendLines(text, subs);
      text := text + "---\n\n";
    }
  }

  lemma SummaryStep(t: Sections, e: nat)
    requires e < |t|
    ensures SectionsSummary(t[..e + 1]) == SectionsSummary(t[..e]) + SectionSummary(t[e].0, t[e].1)
    ensures HasContent(t[..e + 1]) <==> HasContent(t[..e]) || SectionHasItems(t[e].1)
  {
    assert t[..e + 1][..e] == t[..e];
    if HasContent(t[..e]) {
      var j :| 0 <= j < e && SectionHasItems(t[..e][j].1);
      assert t[..e + 1][j] == t[j];
    }
    if HasContent(t[..e + 1]) && !SectionHasItems(t[e].1) {
      var j :| 0 <= j < e + 1 && SectionHasItems(t[..e + 1][j].1);
      assert t[..e][j] == t[j];
    }
  }

  /** `any(data["command"].strip() for data in ...)`. */
  method AnyListed(subs: Subsections) returns (b: bool)
    ensures b == SectionHasItems(subs)
  {
    b := false;
    for k := 0 to |subs|
      invariant b <==> exists j :: 0 <= j < k && Listed(subs[j].1)
    {
      if !IsBlank(subs[k].1.command) {
        b := true;
      }
    }
  }

  /** The loop over one section's listed entries, appending a line for each. */
  method AppendLines(text0: string, subs: Subsections) returns (text: string)
    ensures text == text0 + SubsSummary(subs)
  {
    text := text0;
    for k := 0 to |subs|
      invariant text == text0 + SubsSummary(subs[..k])
    {
      var subtitle, data := subs[k].0, subs[k].1;
      SubsSummarySnoc(subs, k);
      if !IsBlank(data.command) {
        text := AppendLine(text, subtitle, data);
      }
    }
    assert subs[..|subs|] == subs;
  }

  /** One listed entry's line: its icon, subtitle and command, and its reason when it has one. */
  method AppendLine(text0: string, subtitle: string, data: Entry) returns (text: string)
    ensures text == text0 + SummaryLine(subtitle, data)
  {
    var icon := if data.status == Success then SuccessIcon else FailureIcon;
    var reasonPart := if data.reason != "" then " (" + data.reason + ")" else "";
    text := text0 + (icon + " **" + subtitle + "** \U{2192} `" + data.command + "`" + reasonPart + "\n\n");
  }

  lemma SubsSummarySnoc(subs: Subsections, k: nat)
    requires k < |subs|
    ensures SubsSummary(subs[..k + 1]) == SubsSummary(subs[..k]) + (if Listed(subs[k].1) then SummaryLine(subs[k].0, subs[k].1) else "")
  {
    assert subs[..k + 1][..k] == subs[..k];
  }

  // ---------------------------------------------------------------------------------------------
  // The whole collection (collect_data_tab.py:22-138)

  /**
   * The start of the report and the interface as collect_data_tab.py:28-38 writes them: the
   * warning line sits after the `if`, not inside it, so it is written whatever was detected.
   */
  function PreambleAsWritten(ctime: string, detected: string): (r: (string, string))
    ensures r.1 == ResolveIface(detected)
    ensures |r.0| >= |CollectData.NoIfaceWarning| && r.0[|r.0| - |CollectData.NoIfaceWarning|..] == CollectData.NoIfaceWarning
  {
    (CollectData.StartPrefix + ctime + "\n\n" + CollectData.NoIfaceWarning, ResolveIface(detected))
  }

  /** An interface is detected ("eth0"), commands use it, and the report still says none was. */
  lemma WarningDespiteInterface()
    ensures PreambleAsWritten("now", "eth0").1 == "eth0"
    ensures PreambleAsWritten("now", "eth0").0 == CollectData.StartPrefix + "now\n\n" + CollectData.NoIfaceWarning
  {
    EthResolved();
  }

  lemma EthResolved()
    ensures ResolveIface("eth0") == "eth0"
  {
    var d := "eth0";
    assert d[0] == 'e' && d[|d| - 1] == '0';
    ResolveTrimmed(d);
  }

  /** What the tab keeps once the collection is over. */
  datatype Collected = Collected(report: string, summary: string, hasContent: bool, sections: Sections)

  /**
   * One press of the button: the start of the report (with the warning only when no interface was
   * detected), then the configuration, whose load failure stops the tab, then the table, the run
   * and the summary.
   */
  method Collect(ctime: string, detected: string, loaded: Result<Table, ConfigError>, run: string -> RunResult)
    returns (r: Result<Collected, ConfigError>)
    ensures loaded.Err? ==> r == Err(loaded.error)
    ensures loaded.Ok? ==> r.Ok?
    ensures r.Ok? && loaded.Ok? ==>
              var ran := RunTable(TableOf(Kept(loaded.value.rows, ResolveIface(detected))), run);
              && r.value.sections == ran
              && r.value.report == CollectData.StartPrefix + ctime + "\n\n"
                                   + (if IsBlank(detected) then CollectData.NoIfaceWarning else "") + ReportBody(ran)
              && r.value.summary == SummaryText(ran)
              && r.value.hasContent == HasContent(ran)
  {
    var preamble, iface := CollectData.Start(ctime, detected);
    if loaded.Err? {
      return Err(loaded.error);
    }
    var sections := BuildTable(loaded.value.rows, iface);
    var body, ran := RunAll(sections, run);
    var summary, hasContent := Summarize(ran);
    ghost var warning := if IsBlank(detected) then CollectData.NoIfaceWarning else "";
    assert preamble == CollectData.StartPrefix + ctime + "\n\n" + warning;
    r := Ok(Collected(preamble + body, summary, hasContent, ran));
  }
}
