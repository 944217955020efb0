/**
 * The "HFT Performance Optimizer" tab of tabs/performance_tab.py: the profile preview filter, the
 * recommendations' risk display and checkbox defaults, the list of selected recommendation ids
 * that the checkboxes and the Select All / Deselect All buttons edit, and the tuning script and
 * report that `generate_tuning_files` writes.
 */
module Performance {
  import opened Base
  import opened Text
  import opened Config
  import opened OrderedDict
  import CollectDataTab

  /**
   * One recommendation of an analysis, each field None when its key is absent: the ids and commands
   * are what the selection and the script use, the rest is shown.
   */
  datatype Rec = Rec(id: Option<string>, title: Option<string>, description: Option<string>,
                     risk: Option<string>, commands: Option<seq<string>>)

  /** `rec.get(key, "")`. */
  function OrEmpty(v: Option<string>): string
  {
    if v.Some? then v.value else ""
  }

  /** `rec.get("commands", [])`. */
  function CommandsOf(r: Rec): seq<string>
  {
    if r.commands.Some? then r.commands.value else []
  }

  // ---------------------------------------------------------------------------------------------
  // Risk (performance_tab.py:91-98)

  const HighRisk := "high"
  const LowLabel := "\U{1F7E2} Low"
  const MediumLabel := "\U{1F7E1} Medium"
  const HighLabel := "\U{1F534} High"

  /** The displayed risk: the label of a known risk, Medium for anything else. */
  function RiskLabel(risk: Option<string>): string
  {
    if risk == Some("low") then LowLabel
    else if risk == Some(HighRisk) then HighLabel
    else MediumLabel
  }

  /** A recommendation's checkbox starts ticked unless its risk is "high". */
  predicate IncludedByDefault(r: Rec)
  {
    r.risk != Some(HighRisk)
  }

  /**
   * A recommendation is shown as high risk exactly when its checkbox starts unticked; an unknown
   * or missing risk is shown as Medium and starts ticked.
   */
  lemma RiskDefaults(r: Rec)
    ensures RiskLabel(r.risk) == HighLabel <==> !IncludedByDefault(r)
    ensures r.risk !in {Some("low"), Some("medium"), Some(HighRisk)} ==> RiskLabel(r.risk) == MediumLabel && IncludedByDefault(r)
  {
    assert HighLabel[0] != LowLabel[0] && HighLabel[0] != MediumLabel[0];
  }

  // ---------------------------------------------------------------------------------------------
  // The selected ids (performance_tab.py:86-111)

  /** `list.remove(x)`: the first occurrence of `x` goes, if there is one. */
  function RemoveFirst<T(==)>(s: seq<T>, x: T): seq<T>
  {
    if s == [] then []
    else if s[0] == x then s[1..]
    else [s[0]] + RemoveFirst(s[1..], x)
  }

  /** Removing from a list without duplicates takes out exactly that element, keeping the rest. */
  lemma {:induction false} RemoveFirstSpec<T>(s: seq<T>, x: T)
    requires NoDup(s)
    ensures NoDup(RemoveFirst(s, x))
    ensures x !in RemoveFirst(s, x)
    ensures forall y :: y != x ==> (y in RemoveFirst(s, x) <==> y in s)
    ensures |RemoveFirst(s, x)| == if x in s then |s| - 1 else |s|
  {
    if s != [] {
      assert NoDup(s[1..]);
      RemoveFirstSpec(s[1..], x);
      if s[0] == x {
        assert x !in s[1..];
      } else {
        assert s[0] !in s[1..];
        assert s == [s[0]] + s[1..];
      }
    }
  }

  /** What a checkbox does to the selected ids: ticked adds the id if absent, unticked removes it. */
  function Toggled(s: seq<Option<string>>, id: Option<string>, ticked: bool): seq<Option<string>>
  {
    if ticked then (if id in s then s else s + [id]) else RemoveFirst(s, id)
  }

  /** A checkbox leaves its id selected exactly when ticked, touches no other id and adds no duplicate. */
  lemma ToggledSpec(s: seq<Option<string>>, id: Option<string>, ticked: bool)
    requires NoDup(s)
    ensures NoDup(Toggled(s, id, ticked))
    ensures id in Toggled(s, id, ticked) <==> ticked
    ensures forall y :: y != id ==> (y in Toggled(s, id, ticked) <==> y in s)
  {
    if !ticked {
      RemoveFirstSpec(s, id);
    }
  }

  /** The ids after the checkboxes of `recs`, in order, were ticked as `ticked` says. */
  function Synced(s: seq<Option<string>>, recs: seq<Rec>, ticked: seq<bool>): seq<Option<string>>
    requires |ticked| == |recs|
  {
    if recs == [] then s
    else
      var n := |recs| - 1;
      Toggled(Synced(s, recs[..n], ticked[..n]), recs[n].id, ticked[n])
  }

  /** The tick of the last checkbox with this id, if any checkbox has it. */
  function Decision(recs: seq<Rec>, ticked: seq<bool>, y: Option<string>): Option<bool>
    requires |ticked| == |recs|
  {
    if recs == [] then None
    else
      var n := |recs| - 1;
      if recs[n].id == y then Some(ticked[n]) else Decision(recs[..n], ticked[..n], y)
  }

  /**
   * After the checkboxes, the selection holds no duplicate, and an id is selected exactly when the
   * last checkbox with that id is ticked, or, when no checkbox has it, when it was selected before.
   */
  lemma {:induction false} SyncedSpec(s: seq<Option<string>>, recs: seq<Rec>, ticked: seq<bool>)
    requires NoDup(s) && |ticked| == |recs|
    ensures NoDup(Synced(s, recs, ticked))
    ensures forall y :: y in Synced(s, recs, ticked) <==>
              Decision(recs, ticked, y) == Some(true) || (Decision(recs, ticked, y).None? && y in s)
  {
    if recs != [] {
      var n := |recs| - 1;
      SyncedSpec(s, recs[..n], ticked[..n]);
      ToggledSpec(Synced(s, recs[..n], ticked[..n]), recs[n].id, ticked[n]);
    }
  }

  /** The last checkbox with an id decides it. */
  lemma {:induction false} DecisionAt(recs: seq<Rec>, ticked: seq<bool>, k: nat)
    requires |ticked| == |recs| && k < |recs|
    requires forall m :: k < m < |recs| ==> recs[m].id != recs[k].id
    ensures Decision(recs, ticked, recs[k].id) == Some(ticked[k])
  {
    var n := |recs| - 1;
    if k < n {
      DecisionAt(recs[..n], ticked[..n], k);
    }
  }

  /** Every checkbox at its default: ticked unless the risk is "high". */
  function Defaults(recs: seq<Rec>): (ticked: seq<bool>)
    ensures |ticked| == |recs| && forall k :: 0 <= k < |recs| ==> ticked[k] == IncludedByDefault(recs[k])
  {
    seq(|recs|, k requires 0 <= k < |recs| => IncludedByDefault(recs[k]))
  }

  /**
   * On the first display of an analysis, with nothing selected yet and every checkbox at its
   * default, the selection holds each id once, and a recommendation's id (of the last
   * recommendation with that id) is selected exactly when its risk is not "high".
   */
  lemma FirstDisplay(recs: seq<Rec>, k: nat)
    requires k < |recs|
    requires forall m :: k < m < |recs| ==> recs[m].id != recs[k].id
    ensures NoDup(Synced([], recs, Defaults(recs)))
    ensures recs[k].id in Synced([], recs, Defaults(recs)) <==> recs[k].risk != Some(HighRisk)
  {
    SyncedSpec([], recs, Defaults(recs));
    DecisionAt(recs, Defaults(recs), k);
  }

  /** An id counts for Select All when it is present and not empty. */
  predicate Truthy(id: Option<string>)
  {
    id.Some? && id.value != ""
  }

  /** `[r.get("id") for r in recommendations if r.get("id")]`. */
  function TruthyIds(recs: seq<Rec>): (ids: seq<Option<string>>)
    ensures forall y :: y in ids <==> Truthy(y) && exists r :: r in recs && r.id == y
  {
    if recs == [] then []
    else
      var rest := TruthyIds(recs[1..]);
      assert forall r :: r in recs <==> r == recs[0] || r in recs[1..];
      (if Truthy(recs[0].id) then [recs[0].id] else []) + rest
  }

  /** Select All keeps the order of the recommendation list: the ids of a list cut in two are those of each part in turn. */
  lemma {:induction false} TruthyIdsAppend(a: seq<Rec>, b: seq<Rec>)
    ensures TruthyIds(a + b) == TruthyIds(a) + TruthyIds(b)
  {
    if a == [] {
      assert a + b == b;
    } else {
      assert (a + b)[0] == a[0];
      assert (a + b)[1..] == a[1..] + b;
      TruthyIdsAppend(a[1..], b);
    }
  }

  /** The session's list of selected recommendation ids. */
  class Selection {
    var ids: seq<Option<string>>

    /** `st.session_state.selected_recs = []` on first display. */
    constructor ()
      ensures ids == []
    {
      ids := [];
    }

    /** One checkbox (performance_tab.py:98-102). */
    method Check(id: Option<string>, ticked: bool)
      modifies this
      ensures ids == Toggled(old(ids), id, ticked)
    {
      if ticked && id !in ids {
        ids := ids + [id];
      } else if !ticked && id in ids {
        ids := RemoveFirst(ids, id);
      } else if !ticked {
        assert RemoveFirst(ids, id) == ids by {
          RemoveAbsent(ids, id);
        }
      }
    }

    /** The checkbox loop over the recommendations (performance_tab.py:89-102). */
    method Sync(recs: seq<Rec>, ticked: seq<bool>)
      requires |ticked| == |recs|
      modifies this
      ensures ids == Synced(old(ids), recs, ticked)
    {
      for k := 0 to |recs|
        invariant ids == Synced(old(ids), recs[..k], ticked[..k])
      {
        Check(recs[k].id, ticked[k]);
        assert recs[..k + 1][..k] == recs[..k] && ticked[..k + 1][..k] == ticked[..k];
      }
      assert recs[..|recs|] == recs && ticked[..|ticked|] == ticked;
    }

    /** Select All (performance_tab.py:107). */
    method SelectAll(recs: seq<Rec>)
      modifies this
      ensures ids == TruthyIds(recs)
    {
      ids := TruthyIds(recs);
    }

    /** Deselect All (performance_tab.py:111). */
    method DeselectAll()
      modifies this
      ensures ids == []
    {
      ids := [];
    }
  }

  lemma {:induction false} RemoveAbsent<T>(s: seq<T>, x: T)
    requires x !in s
    ensures RemoveFirst(s, x) == s
  {
    if s != [] {
      assert x !in s[1..];
      RemoveAbsent(s[1..], x);
    }
  }

  // ---------------------------------------------------------------------------------------------
  // The tuning files (performance_tab.py:129-153)

  /** `[r for r in recommendations if r.get("id") in selected_recs]`. */
  function SelectedRecs(recs: seq<Rec>, ids: seq<Option<string>>): (sel: seq<Rec>)
    ensures forall r :: r in sel <==> r in recs && r.id in ids
  {
    Filter(recs, (r: Rec) => r.id in ids)
  }

  /**
   * The selected recommendations keep the order of the recommendation list, and after Select All
   * they are exactly those with a present, non-empty id.
   */
  lemma SelectedRecsSpec(a: seq<Rec>, b: seq<Rec>, ids: seq<Option<string>>)
    ensures SelectedRecs(a + b, ids) == SelectedRecs(a, ids) + SelectedRecs(b, ids)
    ensures forall r :: r in SelectedRecs(a, TruthyIds(a)) <==> r in a && Truthy(r.id)
  {
    FilterAppend(a, b, (r: Rec) => r.id in ids);
  }

  const Shebang := "#!/bin/bash"
  // The two longest lines are written as two literals each: the verifier checks a literal's
  // characters one by one, and cannot show that a single literal this long holds no newline.
  const Banner := "echo -e \"\\033[1;36m" + "=== HFT Performance Tuning ===\\033[0m\""
  const ReadPrompt := "read -p \"Apply this " + "recommendation? (y/N): \" ans"
  const IfLine := "if [[ $ans =~ ^[Yy]$ ]]; then"
  const AppliedLine := "    echo -e \"\\033[32m\U{2705} Applied\\033[0m\""
  const ElseLine := "else"
  const SkippedLine := "    echo -e \"\\033[33m\U{23ED}\U{FE0F} Skipped\\033[0m\""
  const FiLine := "fi"
  const Indent := "    "

  const HeaderStart := "# HFT Tuning Script \U{2014} "
  const HeaderMiddle := " \U{2014} Generated "
  const TitleStart := "echo -e \"\\033[1;33m=== "
  const TitleEnd := " ===\\033[0m\""
  const DescriptionStart := "echo \""
  const Quote := "\""

  function HeaderComment(profile: string, timestamp: string): string
  {
    HeaderStart + profile + HeaderMiddle + timestamp
  }

  function TitleEcho(title: string): string
  {
    TitleStart + title + TitleEnd
  }

  function DescriptionEcho(description: string): string
  {
    DescriptionStart + description + Quote
  }

  /** The script's first three lines. */
  function Header(profile: string, timestamp: string): seq<string>
  {
    [Shebang, HeaderComment(profile, timestamp), Banner]
  }

  function Indented(cmds: seq<string>): (lines: seq<string>)
    ensures |lines| == |cmds| && forall j :: 0 <= j < |cmds| ==> lines[j] == Indent + cmds[j]
  {
    seq(|cmds|, j requires 0 <= j < |cmds| => Indent + cmds[j])
  }

  /** The lines of one recommendation: its prompt, its commands under the `if`, then the two outcomes. */
  function RecLines(r: Rec): seq<string>
  {
    [TitleEcho(OrEmpty(r.title)), DescriptionEcho(OrEmpty(r.description)), ReadPrompt, IfLine]
      + Indented(CommandsOf(r))
      + [AppliedLine, ElseLine, SkippedLine, FiLine]
  }

  /** The blocks of the selected recommendations, in order. */
  function Blocks(rs: seq<Rec>): seq<string>
  {
    if rs == [] then [] else Blocks(rs[..|rs| - 1]) + RecLines(rs[|rs| - 1])
  }

  function ScriptLines(profile: string, timestamp: string, rs: seq<Rec>): seq<string>
  {
    Header(profile, timestamp) + Blocks(rs)
  }

  /** The number of lines the blocks of `rs` take: eight per recommendation plus one per command. */
  function LineCount(rs: seq<Rec>): nat
  {
    if rs == [] then 0 else LineCount(rs[..|rs| - 1]) + 8 + |CommandsOf(rs[|rs| - 1])|
  }

  /**
   * A recommendation's block is its title echo, description echo, prompt and `if`, then each
   * command indented by four spaces in order, then the Applied echo, `else`, the Skipped echo and
   * `fi`: eight lines plus one per command.
   */
  lemma RecLinesLayout(r: Rec)
    ensures var lines, cmds := RecLines(r), CommandsOf(r);
            && |lines| == 8 + |cmds|
            && lines[..4] == [TitleEcho(OrEmpty(r.title)), DescriptionEcho(OrEmpty(r.description)), ReadPrompt, IfLine]
            && (forall j :: 0 <= j < |cmds| ==> lines[4 + j] == Indent + cmds[j])
            && lines[4 + |cmds|..] == [AppliedLine, ElseLine, SkippedLine, FiLine]
  {
  }

  /** Recommendation `k`'s block sits right after the blocks of the recommendations before it. */
  lemma BlockAt(rs: seq<Rec>, k: nat)
    requires k < |rs|
    ensures |Blocks(rs)| == LineCount(rs)
    ensures LineCount(rs[..k]) + |RecLines(rs[k])| <= LineCount(rs)
    ensures Blocks(rs)[LineCount(rs[..k])..LineCount(rs[..k]) + |RecLines(rs[k])|] == RecLines(rs[k])
  {
    var pre, r, post := rs[..k], rs[k], rs[k + 1..];
    assert rs == (pre + [r]) + post;
    BlocksAppend(pre + [r], post);
    BlocksAppend(pre, [r]);
    assert [r][..0] == [];
    assert Blocks([r]) == RecLines(r);
    BlocksCount(pre);
    BlocksCount(rs);
    SliceMiddle(Blocks(pre), RecLines(r), Blocks(post));
  }

  /** The blocks of two runs of recommendations are the blocks of the first followed by those of the second. */
  lemma {:induction false} BlocksAppend(a: seq<Rec>, b: seq<Rec>)
    ensures Blocks(a + b) == Blocks(a) + Blocks(b)
  {
    if b == [] {
      assert a + b == a;
    } else {
      var n := |b| - 1;
      BlocksAppend(a, b[..n]);
      var x := RecLines(b[n]);
      assert (a + b)[..|a + b| - 1] == a + b[..n];
      assert (a + b)[|a + b| - 1] == b[n];
      assert Blocks(a + b) == (Blocks(a) + Blocks(b[..n])) + x;
      assert Blocks(b) == Blocks(b[..n]) + x;
      ConcatAssoc(Blocks(a), Blocks(b[..n]), x);
    }
  }

  lemma SliceMiddle<T>(a: seq<T>, b: seq<T>, c: seq<T>)
    ensures (a + b + c)[|a|..|a| + |b|] == b
  {
  }

  lemma {:induction false} BlocksCount(rs: seq<Rec>)
    ensures |Blocks(rs)| == LineCount(rs)
  {
    if rs != [] {
      BlocksCount(rs[..|rs| - 1]);
      RecLinesLayout(rs[|rs| - 1]);
    }
  }

  /** The report: its heading names the profile, then the analysis text. */
  function Report(profile: string, analysis: string): (md: string)
    ensures var heading := "# Performance Report \U{2014} " + profile + "\n\n";
            |heading| <= |md| && md[..|heading|] == heading && md[|heading|..] == analysis
  {
    "# Performance Report \U{2014} " + profile + "\n\n" + analysis
  }

  /** No line of the script holds a newline when the profile, timestamp and recommendation fields hold none. */
  predicate NoNewline(s: string)
  {
    '\n' !in s
  }

  predicate RecNoNewline(r: Rec)
  {
    NoNewline(OrEmpty(r.title)) && NoNewline(OrEmpty(r.description))
    && forall j :: 0 <= j < |CommandsOf(r)| ==> NoNewline(CommandsOf(r)[j])
  }

  lemma {:induction false} LinesWithoutNewline(profile: string, timestamp: string, rs: seq<Rec>)
    requires NoNewline(profile) && NoNewline(timestamp)
    requires forall k :: 0 <= k < |rs| ==> RecNoNewline(rs[k])
    ensures forall j :: 0 <= j < |ScriptLines(profile, timestamp, rs)| ==> NoNewline(ScriptLines(profile, timestamp, rs)[j])
  {
    ConstantsWithoutNewline();
    BlocksWithoutNewline(rs);
  }

  lemma ConstantsWithoutNewline()
    ensures NoNewline(Shebang) && NoNewline(Banner) && NoNewline(ReadPrompt) && NoNewline(IfLine)
    ensures NoNewline(AppliedLine) && NoNewline(ElseLine) && NoNewline(SkippedLine) && NoNewline(FiLine)
    ensures NoNewline(Indent)
    ensures NoNewline(HeaderStart) && NoNewline(HeaderMiddle)
    ensures NoNewline(TitleStart) && NoNewline(TitleEnd) && NoNewline(DescriptionStart) && NoNewline(Quote)
  {
    // Each literal is checked character by character; one lemma per group keeps each proof small.
    ShebangBanner();
    PromptLines();
    OutcomeLines();
    HeaderPieces();
    EchoPieces();
  }

  lemma ShebangBanner()
    ensures NoNewline(Shebang) && NoNewline(Banner)
  {
    ShebangFree();
    BannerFree();
  }

  lemma ShebangFree() ensures NoNewline(Shebang) {}
  lemma BannerFree() ensures NoNewline(Banner) {}
  lemma PromptFree() ensures NoNewline(ReadPrompt) {}
  lemma IfFree() ensures NoNewline(IfLine) {}

  lemma PromptLines()
    ensures NoNewline(ReadPrompt) && NoNewline(IfLine)
  {
    PromptFree();
    IfFree();
  }

  lemma OutcomeLines()
    ensures NoNewline(AppliedLine) && NoNewline(ElseLine) && NoNewline(SkippedLine) && NoNewline(FiLine)
  {
  }

  lemma HeaderPieces()
    ensures NoNewline(HeaderStart) && NoNewline(HeaderMiddle) && NoNewline(Indent)
  {
  }

  lemma EchoPieces()
    ensures NoNewline(TitleStart) && NoNewline(TitleEnd) && NoNewline(DescriptionStart) && NoNewline(Quote)
  {
  }

  lemma {:induction false} BlocksWithoutNewline(rs: seq<Rec>)
    requires forall k :: 0 <= k < |rs| ==> RecNoNewline(rs[k])
    ensures forall j :: 0 <= j < |Blocks(rs)| ==> NoNewline(Blocks(rs)[j])
  {
    if rs != [] {
      var n := |rs| - 1;
      BlocksWithoutNewline(rs[..n]);
      ConstantsWithoutNewline();
      var r := rs[n];
      assert RecNoNewline(r);
      RecLinesLayout(r);
      var lines := RecLines(r);
      forall j | 0 <= j < |lines|
        ensures NoNewline(lines[j])
      {
        if 4 <= j < 4 + |CommandsOf(r)| {
          assert lines[j] == Indent + CommandsOf(r)[j - 4];
        } else if j < 4 {
          assert lines[j] == lines[..4][j];
        } else {
          assert lines[j] == lines[4 + |CommandsOf(r)|..][j - 4 - |CommandsOf(r)|];
        }
      }
    }
  }

  /**
   * The script file is its lines joined with newlines; when the profile, the timestamp and the
   * recommendation fields hold no newline, splitting the file at newlines gives those lines back.
   */
  lemma ScriptFileLines(profile: string, timestamp: string, rs: seq<Rec>)
    requires NoNewline(profile) && NoNewline(timestamp)
    requires forall k :: 0 <= k < |rs| ==> RecNoNewline(rs[k])
    ensures Split(Join(ScriptLines(profile, timestamp, rs), "\n"), "\n") == ScriptLines(profile, timestamp, rs)
  {
    LinesWithoutNewline(profile, timestamp, rs);
    JoinSplitRoundTrip(ScriptLines(profile, timestamp, rs), '\n');
  }

  /** The two files: the tuning script and the report. */
  datatype Files = Files(script: string, report: string)

  /**
   * `generate_tuning_files`: nothing when no recommendation is selected; otherwise the script made
   * of the header and one block per selected recommendation in list order, and the report.
   */
  method GenerateTuningFiles(profile: string, timestamp: string, analysis: string, recs: seq<Rec>, ids: seq<Option<string>>)
    returns (files: Option<Files>)
    ensures files.None? <==> SelectedRecs(recs, ids) == []
    ensures files.Some? ==> files.value.script == Join(ScriptLines(profile, timestamp, SelectedRecs(recs, ids)), "\n")
    ensures files.Some? ==> files.value.report == Report(profile, analysis)
  {
    var selected := SelectedRecs(recs, ids);
    if selected == [] {
      return None;
    }
    var lines := BuildLines(profile, timestamp, selected);
    files := Some(Files(Join(lines, "\n"), "# Performance Report \U{2014} " + profile + "\n\n" + analysis));
  }

  /** The script's lines: the header, then one block per recommendation. */
  method BuildLines(profile: string, timestamp: string, selected: seq<Rec>) returns (lines: seq<string>)
    ensures lines == ScriptLines(profile, timestamp, selected)
  {
    lines := [Shebang, HeaderComment(profile, timestamp), Banner];
    for k := 0 to |selected|
      invariant lines == Header(profile, timestamp) + Blocks(selected[..k])
    {
      var rec := selected[k];
      lines := AppendRec(lines, rec);
      assert selected[..k + 1][..k] == selected[..k];
    }
    assert selected[..|selected|] == selected;
  }

  /** The appends for one recommendation, with the inner loop over its commands. */
  method AppendRec(lines0: seq<string>, rec: Rec) returns (lines: seq<string>)
    ensures lines == lines0 + RecLines(rec)
  {
    lines := lines0 + [TitleEcho(OrEmpty(rec.title)), DescriptionEcho(OrEmpty(rec.description)), ReadPrompt, IfLine];
    var start := lines;
    var cmds := CommandsOf(rec);
    for j := 0 to |cmds|
      invariant lines == start + Indented(cmds[..j])
    {
      lines := lines + [Indent + cmds[j]];
      assert Indented(cmds[..j + 1]) == Indented(cmds[..j]) + [Indent + cmds[j]];
    }
    assert cmds[..|cmds|] == cmds;
    lines := lines + [AppliedLine, ElseLine, SkippedLine, FiLine];
  }

  // ---------------------------------------------------------------------------------------------
  // The profile preview (performance_tab.py:29-34)

  const AllSections := "All Sections"
  const ProfileColumn := "HFT_Profile"

  /** The section titles the configuration lists under a profile; None when it has no HFT_Profile column. */
  function ProfileTitles(config: Table, profile: string): (titles: Option<set<string>>)
    ensures titles.None? <==> ProfileColumn !in config.columns
    ensures titles.Some? ==> forall t :: t in titles.value <==>
              exists i :: 0 <= i < |config.rows| && config.rows[i].section == t
                          && Lookup(config.columns, config.rows[i].cells, ProfileColumn) == Some(Value(profile))
  {
    if ProfileColumn !in config.columns then None
    else
      Some(set i | 0 <= i < |config.rows| && Lookup(config.columns, config.rows[i].cells, ProfileColumn) == Some(Value(profile))
             :: config.rows[i].section)
  }

  datatype PreviewError = LoadFailed(error: ConfigError) | NoProfileColumn

  /**
   * The sections previewed for a profile: all of them for "All Sections"; otherwise those whose
   * title the configuration lists under the profile, in their order, with their subsections as they are.
   */
  function Preview(all: CollectDataTab.Sections, profile: string, loaded: Result<Table, ConfigError>)
    : (r: Result<CollectDataTab.Sections, PreviewError>)
    ensures profile == AllSections ==> r == Ok(all)
    ensures profile != AllSections && loaded.Err? ==> r == Err(LoadFailed(loaded.error))
    ensures profile != AllSections && loaded.Ok? ==> (r == Err(NoProfileColumn) <==> ProfileColumn !in loaded.value.columns)
    ensures profile != AllSections && loaded.Ok? ==> (r.Ok? <==> ProfileColumn in loaded.value.columns)
    ensures r.Ok? && profile != AllSections ==> loaded.Ok? && ProfileTitles(loaded.value, profile).Some?
    ensures r.Ok? && profile != AllSections ==>
              var titles := ProfileTitles(loaded.value, profile).value;
              && Keys(r.value) == Filter(Keys(all), t => t in titles)
              && forall t :: Get(r.value, t) == if t in titles then Get(all, t) else None
  {
    if profile == AllSections then Ok(all)
    else if loaded.Err? then Err(LoadFailed(loaded.error))
    else match ProfileTitles(loaded.value, profile)
      case None => Err(NoProfileColumn)
      case Some(titles) => Ok(Restrict(all, t => t in titles))
  }

  /**
   * A previewed section keeps its subsections and is one the configuration lists under the
   * profile; every such section of the collected data is previewed.
   */
  lemma PreviewSections(all: CollectDataTab.Sections, profile: string, config: Table, t: string)
    requires profile != AllSections && ProfileColumn in config.columns
    ensures Preview(all, profile, Ok(config)).Ok?
    ensures Get(Preview(all, profile, Ok(config)).value, t).Some? <==>
              Get(all, t).Some?
              && exists i :: 0 <= i < |config.rows| && config.rows[i].section == t
                             && Lookup(config.columns, config.rows[i].cells, ProfileColumn) == Some(Value(profile))
    ensures Get(Preview(all, profile, Ok(config)).value, t).Some? ==>
              Get(Preview(all, profile, Ok(config)).value, t) == Get(all, t)
  {
  }
}
