# HFT dashboard core, modelled in Dafny

This project models the logic at the heart of a Streamlit dashboard for tuning and watching a
high-frequency-trading host. The model takes every shell command's result, the detected network
interface, the clock and the spreadsheet contents as parameters. The parts modelled are:

- **Configuration loading** (`data.py`, module `Config`). The "Sections" sheet is loaded as follows:
  - a missing file is an error, and so is an empty sheet;
  - column names are trimmed, then the missing required columns are reported;
  - every row is normalised.
- **Live monitoring** (`tabs/monitor_tab.py`, module `Monitor`). It covers:
  - the metric definitions, with `{iface}` substituted;
  - one polling tick, in which each metric's output becomes a value or NaN, is checked against optional thresholds and updates the alert table. The value is also pushed onto a per-metric buffer capped at 1000 samples, and a CSV row is appended;
  - the controls: Start/Pause, Stop & Clear, and the checkbox filters.
- **Two system-information collectors**:
  - `tabs/collect_data.py` (module `CollectData`) groups rows into sections and inserts subtitle echo headers. It builds a summary that pairs each header with its command, runs everything and marks failures with a fallback text.
  - `tabs/collect_data_tab.py` (module `CollectDataTab`) builds an ordered section → subsection table with "nan" clean-up. It runs every non-blank command, recording status, reason and output, then writes the report and the summary.
- **History view** (`tabs/history_tab.py`, module `History`), which provides:
  - the sorted metric list and the per-metric filter;
  - the degenerate case, the default 24-hour window and the inclusive range filter;
  - the minimum and maximum over the non-missing values.
- **Performance optimiser** (`tabs/performance_tab.py`, module `Performance`), which covers:
  - the risk display and the checkbox defaults;
  - the selected-id list, which the checkboxes and the Select All / Deselect All buttons edit;
  - the tuning script and report of `generate_tuning_files`;
  - the profile preview filter.

Supporting modules:
- `Base`: Option, Result and filtering.
- `Text`: Python's `strip`, `lower`, `split`, `join` and `replace`, with whitespace as `str.isspace` defines it.
- `OrderedDict`: Python's insertion-ordered `dict`, as a sequence of pairs.
- `Shell`: interface resolution, `{iface}` substitution, command results and the fallback texts.

The imperative parts of the source become methods proved against specification functions. These include:
- the grouping loop and the summary, marking and run loops;
- the table-building, run and summary loops of the second collector;
- the script-building loops;
- the checkbox loop.

The monitoring session and the selected-id list become classes whose methods update their fields.

Two behaviours of the monitor worth stating plainly:
- A sample whose command raises or prints nothing is NaN (`tabs/monitor_tab.py:167-171`); no error text is recorded for it.
- The interface is detected once per render of the tab (`tabs/monitor_tab.py:32-36`), and every sampling pass of that render uses it.

## Model

| member | source | states |
|---|---|---|
| Base.Filter | tabs/history_tab.py:40 | A boolean-mask filter keeps exactly the elements satisfying the predicate and never grows the list |
| Base.FilterAppend | tabs/performance_tab.py:130 | Filtering preserves order: the filter of a concatenation is the concatenation of the filters |
| Text.Trim | data.py:26 | `strip()` yields the slice between leading and trailing whitespace, empty exactly for a blank string, with non-space ends; a string with non-space ends is kept |
| Text.TrimIdempotent | tabs/collect_data_tab.py:47-50 | Stripping twice is stripping once |
| Text.Lower | data.py:29 | `lower()` maps each ASCII capital to its small letter and keeps every other character, keeping the length |
| Text.Split | tabs/collect_data.py:73 | `split(sep)` yields at least one piece |
| Text.SplitLeftmost | tabs/collect_data.py:73 | `split(sep)` cuts at the leftmost occurrence: the first piece runs up to the first match (none before it) and the other pieces are the split of what follows that match; with no match the string is the only piece, so `"----".split("---")` is `["", "-"]` |
| Text.SplitJoinRoundTrip | tabs/collect_data.py:73 | Joining the pieces of `split(sep)` with `sep` gives back the string |
| Text.SplitPiecesFree | tabs/collect_data.py:73 | No piece of a split contains the separator |
| Text.SplitAtLeastTwo | tabs/collect_data.py:73 | A string containing the separator splits into at least two pieces, so `split("---")[1]` exists |
| Text.ReplaceIsSplitJoin | tabs/monitor_tab.py:39 | `replace(pat, rep)` is splitting at every occurrence and joining with `rep` |
| Text.ReplaceAbsent | tabs/collect_data_tab.py:65 | A command without the placeholder is left unchanged by the replacement |
| Text.JoinSplitRoundTrip | tabs/performance_tab.py:152 | Lines without a newline, joined with newlines, split back into the same lines |
| Text.FirstWord | tabs/collect_data.py:104 | `split()[0]`: empty exactly for a blank command; otherwise the leading run of non-whitespace characters once leading whitespace is dropped, ended by whitespace or the end of the text |
| OrderedDict.Get | tabs/collect_data_tab.py:68 | A lookup succeeds exactly when the key is present, and returns a stored value |
| OrderedDict.Put | tabs/collect_data_tab.py:71-77 | Assigning keeps an existing key's position or appends a new key, stores the value and changes no other key |
| OrderedDict.PutValid | tabs/collect_data_tab.py:71-77 | Assigning keeps keys unique |
| OrderedDict.PutTwice | tabs/collect_data_tab.py:71-77 | Assigning a key twice equals assigning the second value |
| OrderedDict.FromPairsContents | tabs/collect_data.py:68-70 | A dict built by successive assignments has its keys in first-appearance order and each key's last assigned value |
| OrderedDict.Restrict | tabs/performance_tab.py:34 | The dict comprehension with a key filter keeps the passing keys in order, with their values, and drops the rest |
| OrderedDict.FilterKeys | tabs/performance_tab.py:34 | In a well-formed dict a key survives an entry filter exactly when its stored entry passes |
| OrderedDict.FilterKeysOrder | tabs/monitor_tab.py:93 | Filtering a dict's entries keeps the surviving keys in the dict's key order |
| Config.TrimAll | data.py:18 | Every column name is stripped, positions kept |
| Config.FillNa | data.py:27-28 | `fillna(d)` keeps a present cell as it is and turns a missing one into the text `d` |
| Config.ColumnIndex | data.py:21 | A column is found exactly when present, at the first position holding that name |
| Config.Lookup | tabs/monitor_tab.py:40-42 | `df.get(column)` yields a cell exactly when the column exists, and then the row's cell under the first column of that name |
| Config.LookupUnique | data.py:26-29 | For a name heading a single column, the cell read is the one under that column, wherever it stands |
| Config.MissingColumnsOf | data.py:20-23 | The missing columns are exactly the required ones absent after trimming, each once, in the required order |
| Config.LoadSections | data.py:6-30 | Each error arises exactly in its own case, checked in this order: a missing file, then an empty sheet, then missing columns (listed exactly, with the trimmed headers found), then a title or subtitle column occurring twice after stripping (named in the error), then an absent Type column, which is the outcome whenever every required column is present once but Type is not, then a Type column occurring twice; otherwise column names are trimmed, row count and order are kept and each row is normalised |
| Config.Normalise | data.py:26-29 | Section_Title stripped, Subsection_Title filled with "" and stripped, Command filled with "" and not stripped, Type lower-cased, for every row in order |
| Shell.ResolveIface | tabs/monitor_tab.py:32-36 | The interface is the stripped detection, or "unknown" when that is empty; never empty |
| Shell.SubstituteSpec | tabs/monitor_tab.py:39 | Substitution replaces every `{iface}` occurrence and nothing else; a command without one is unchanged |
| Shell.Fallback | tabs/collect_data.py:102-104 | The lm-sensors message exactly when the first word is `sensors`, the generic message otherwise |
| Monitor.PrepareMetrics | tabs/monitor_tab.py:26-42 | No `dynamic_single` row gives no definitions and no error; the preparation raises exactly when there are such rows and no Unit column; otherwise one definition per such row in order, named by its subtitle, with `{iface}` substituted, each threshold the coerced cell of its column (unset when the column or the number is missing), and the unit the row's Unit cell with a missing value read as "" |
| Monitor.SubstituteRows | tabs/monitor_tab.py:39 | Every row's command has each placeholder replaced by the interface |
| Monitor.FindDef | tabs/monitor_tab.py:164 | `.iloc[0]` of the name filter: found exactly when some definition has the name, and then it is the first definition with that name |
| Monitor.FindDefFirst | tabs/monitor_tab.py:164 | Whenever definition `i` is the first with a name, the lookup returns definition `i` |
| Monitor.CheckedNames | tabs/monitor_tab.py:87-93 | The selection is the checkboxes' names in first-appearance order, keeping exactly those whose last checkbox is ticked, each once |
| Monitor.SampleValue | tabs/monitor_tab.py:167-171 | A raised command or blank output is NaN; otherwise the parse of the stripped output |
| Monitor.IsBreach | tabs/monitor_tab.py:176-181 | A breach happens exactly when the value is present and is below a set minimum or above a set maximum; so NaN and no thresholds never breach, and with both set a breach is leaving the closed interval |
| Monitor.UpdateAlerts | tabs/monitor_tab.py:183-187 | A breach keeps an existing alert (onset survives) or opens one at the current time; no breach removes the metric's alert; every other alert is untouched |
| Monitor.PushCapped | tabs/monitor_tab.py:189-194 | The buffer grows by one up to 1000 entries, and the new sample is last |
| Monitor.Resolve | tabs/monitor_tab.py:163-164 | Each monitored name is looked up, in order, to the first definition of that name |
| Monitor.Values | tabs/monitor_tab.py:167-171 | One value per command outcome, each the sample value of its outcome, so a failing metric affects only itself |
| Monitor.PushAllKeepsNewest | tabs/monitor_tab.py:189-194 | Successive capped pushes leave exactly the newest 1000 entries of old buffer plus samples (FIFO eviction) |
| Monitor.RunTickStep | tabs/monitor_tab.py:163-209 | A tick over the first i+1 metrics is the tick over the first i followed by metric i's sample |
| Monitor.TickLog | tabs/monitor_tab.py:196-209 | A tick appends one CSV row per metric in order, preceded by the header only when the file did not exist, and the file exists afterwards if any metric ran |
| Monitor.TickKeepsCapped | tabs/monitor_tab.py:189-194 | No buffer exceeds 1000 samples after a tick |
| Monitor.TickLeavesOthers | tabs/monitor_tab.py:163-194 | A metric not sampled in a tick keeps its buffer and its alert |
| Monitor.TickMetricEffect | tabs/monitor_tab.py:175-194 | A sampled metric's alert and buffer after the tick are the results of its own sample |
| Monitor.TickFillsBuffers | tabs/monitor_tab.py:189-192 | After a tick every sampled metric has a non-empty buffer |
| Monitor.Names | tabs/monitor_tab.py:51-54 | The initial selections are the definitions' names in order |
| Monitor.LiveCharts | tabs/monitor_tab.py:238-247 | A chart is drawn exactly for a displayed metric that is monitored and has samples, never more charts than displayed names |
| Monitor.LiveChartsAppend | tabs/monitor_tab.py:238-247 | The charts follow the display order: those of two runs of names are those of the first, then those of the second |
| Monitor.TickChartsEveryDisplayed | tabs/monitor_tab.py:238-247 | Right after a tick every displayed, monitored, sampled metric has its chart |
| Monitor.TickStatusFlags | tabs/monitor_tab.py:175-217 | Right after a tick, the status column flags a monitored metric exactly when its newest sample breached its bounds |
| Monitor.CheckAllSelectsAll | tabs/monitor_tab.py:93 | With every box ticked, every name is selected once in first-appearance order |
| Monitor.ClearAllSelectsNone | tabs/monitor_tab.py:130 | With every box cleared, nothing is selected |
| Monitor.MonitorSession.constructor | tabs/monitor_tab.py:44-54 | A new session is paused with no buffers and no alerts, and monitors and displays every metric |
| Monitor.MonitorSession.SetMonitored | tabs/monitor_tab.py:93 | The monitored list becomes the ticked names; nothing else changes |
| Monitor.MonitorSession.ShowAll | tabs/monitor_tab.py:111-114 | Every monitored metric becomes displayed; nothing else changes |
| Monitor.MonitorSession.HideAll | tabs/monitor_tab.py:116-119 | No metric is displayed; nothing else changes |
| Monitor.MonitorSession.SetDisplayed | tabs/monitor_tab.py:121-130 | The displayed list becomes the ticked graph boxes; nothing else changes |
| Monitor.MonitorSession.StartPause | tabs/monitor_tab.py:139-141 | The running flag is negated; nothing else changes |
| Monitor.MonitorSession.StopAndClear | tabs/monitor_tab.py:143-146 | Running becomes false and both the buffers and the alerts are emptied; the CSV and the selections are kept |
| Monitor.MonitorSession.Tick | tabs/monitor_tab.py:158-209 | When running, the state becomes the tick over the monitored metrics' values, and the cap invariant holds; when paused nothing changes |
| Monitor.MonitorSession.ProcessSample | tabs/monitor_tab.py:175-209 | One metric's alert, buffer and CSV row are updated as one step; the selections are kept |
| Monitor.MonitorSession.CheckBreach | tabs/monitor_tab.py:175-187 | The alert table is updated by the breach check; buffers and CSV are untouched |
| Monitor.MonitorSession.Record | tabs/monitor_tab.py:189-194 | Only the sampled metric's buffer changes, to the capped push |
| Monitor.MonitorSession.AppendRow | tabs/monitor_tab.py:196-209 | The CSV gains the header (if new) then the row, and exists afterwards |
| CollectData.HeaderCommand | tabs/collect_data.py:49-51 | The inserted header starts like the headers the summary looks for and is an echo |
| CollectData.GroupTitles | tabs/collect_data.py:35-59 | Every closed section has a non-empty title; the open section has the last row's title; sections break exactly at title changes |
| CollectData.GroupSubtitle | tabs/collect_data.py:44-51 | The subtitle tracker is the last non-empty subtitle since the section began |
| CollectData.GroupSubtitleBefore | tabs/collect_data.py:49 | Each row is compared with the subtitle in force before it |
| CollectData.GroupLines | tabs/collect_data.py:35-55 | The commands of all sections are every row's header (when its subtitle is new) and substituted command, in row order |
| CollectData.GroupStep | tabs/collect_data.py:36-55 | One loop pass closes the open section exactly at a boundary, opening one that holds the row's lines; otherwise the row's lines join the open section |
| CollectData.RunStartsAreBoundaries | tabs/collect_data.py:41-46 | The title runs start exactly at the first row and at every boundary |
| CollectData.GroupRuns | tabs/collect_data.py:35-55 | After any prefix of the rows, closed section k is title run k (the title of its last row, the lines of all its rows in order, untitled rows included) and the open section is the last run |
| CollectData.FinishRuns | tabs/collect_data.py:58-59 | The finished sections are the first title runs, in order, section k being run k |
| CollectData.BuildSections | tabs/collect_data.py:31-59 | The grouping loop yields titled sections only, section k being the k-th title run with its title and every line of its rows in order, one per boundary plus the last run when titled; when the last row is titled they hold every row's lines in order |
| CollectData.FinishShape | tabs/collect_data.py:58-59 | The sections kept after the loop are the title runs in order, all titled, one per title boundary plus the last titled run, and hold every row's lines in order |
| CollectData.HeaderHasDashes | tabs/collect_data.py:72-73 | A header contains `---` and is an echo |
| CollectData.HeaderSubtitleRoundTrip | tabs/collect_data.py:72-73 | The summary recovers from a header exactly the subtitle it was built from |
| CollectData.FirstRealSpec | tabs/collect_data.py:75-76 | The paired command is "" when all later commands are echoes, else the first non-echo one |
| CollectData.ItemsCount | tabs/collect_data.py:71-77 | A section has one summary item per header |
| CollectData.ItemAt | tabs/collect_data.py:71-77 | The k-th item is the one for the k-th header, paired as intended with the first real command after that header; `CollectData.MakeItemAsWritten` is the pairing as written |
| CollectData.ItemsStartSuccessful | tabs/collect_data.py:77 | Every item starts as a success with an empty reason |
| CollectData.HeaderPairsNextCommand | tabs/collect_data.py:74-76 | A header directly followed by a real command is paired with that command |
| CollectData.IndexOf | tabs/collect_data.py:75 | `list.index` finds the first position holding the value |
| CollectData.MakeItemAsWritten | tabs/collect_data.py:75 | The item as written keeps the subtitle of its header |
| CollectData.AsWrittenAgreesOnFirstHeader | tabs/collect_data.py:75 | As written and intended agree when the header does not occur earlier in the section |
| CollectData.RepeatedSubtitleMispaired | tabs/collect_data.py:75 | For headers X, Y, X the second X item is paired with the first X's command as written |
| CollectData.SummaryPairs | tabs/collect_data.py:68-77 | One (title, items) pair per section, in order |
| CollectData.SummaryContents | tabs/collect_data.py:68-70 | The summary keys are the titles in first-appearance order, each holding the items of its last section |
| CollectData.BuildSummary | tabs/collect_data.py:68-77 | The summary loop builds exactly that summary, with items paired as intended (see Findings; `CollectData.MakeItemAsWritten` is the pairing as written) |
| CollectData.SectionItems | tabs/collect_data.py:71-77 | The inner loop yields one item per header, in order, each paired as intended with the first real command after its own header |
| CollectData.Start | tabs/collect_data.py:16-25 | The interface is resolved, and the warning line is written exactly when detection was blank |
| CollectData.FailedInMembers | tabs/collect_data.py:90-95 | The failing commands of a section are exactly its commands that fail |
| CollectData.FailedCommandsMembers | tabs/collect_data.py:80-95 | The failing commands are exactly those of some section that fail |
| CollectData.MarkAllKeys | tabs/collect_data.py:97-101 | Marking keeps the summary titles and order |
| CollectData.MarkAllItem | tabs/collect_data.py:97-101 | An item becomes failed with the reason exactly when its command failed; its subtitle and command are kept |
| CollectData.MarkAllTwice | tabs/collect_data.py:97-101 | Marking two failures in turn marks their union |
| CollectData.MarkAllNone | tabs/collect_data.py:97-101 | Marking no failure changes nothing |
| CollectData.FinalStatus | tabs/collect_data.py:80-101 | After the run an item is failed exactly when its command is one of the sections' failing commands |
| CollectData.MarkFailed | tabs/collect_data.py:97-101 | The marking loops mark every item whose command equals the failed one, and no other |
| CollectData.Execute | tabs/collect_data.py:80-105 | The run writes each section's heading and its commands' outputs or fallbacks, and marks exactly the failing commands |
| CollectData.RunSection | tabs/collect_data.py:81-105 | One section's text and marking |
| CollectData.RunCommand | tabs/collect_data.py:83-105 | An echo never fails; a non-echo fails on a non-zero exit or silent `sensors`, writing the fallback; otherwise its output is written |
| CollectDataTab.DefaultsClean | tabs/collect_data_tab.py:53-58 | The replacement defaults are already stripped and are not "nan" |
| CollectDataTab.CleanSubtitleSettles | tabs/collect_data_tab.py:48-54 | A cleaned subtitle is never "nan" in any case, and cleaning it again changes nothing |
| CollectDataTab.CleanCommandSettles | tabs/collect_data_tab.py:49-56 | A cleaned command is never "nan" in any case, and cleaning it again changes nothing |
| CollectDataTab.CleanKindSettles | tabs/collect_data_tab.py:50-58 | A cleaned type is never "nan" in any case, and cleaning it again changes nothing |
| CollectDataTab.CleanRow | tabs/collect_data_tab.py:47-77 | A row is dropped exactly when its stripped title is empty; a kept row has a title and a pending entry |
| CollectDataTab.Kept | tabs/collect_data_tab.py:46-62 | The kept rows are never more than the rows |
| CollectDataTab.KeptSingle | tabs/collect_data_tab.py:46-62 | One row is kept exactly when it cleans to an entry, and then as that cleaned entry |
| CollectDataTab.KeptAppend | tabs/collect_data_tab.py:46-62 | Keeping distributes over concatenation, so the kept entries are the cleaned kept rows in row order |
| CollectDataTab.TableKeys | tabs/collect_data_tab.py:68-69 | Section titles are unique and in first-appearance order |
| CollectDataTab.TableSection | tabs/collect_data_tab.py:68-77 | Each title holds the table built from its own rows alone; a title without rows is absent |
| CollectDataTab.EntryOfPair | tabs/collect_data_tab.py:71-77 | A (title, subtitle) pair holds the entry of its last row, so a repeated pair is overwritten |
| CollectDataTab.BuildTable | tabs/collect_data_tab.py:46-77 | The row loop builds exactly the table of the kept rows |
| CollectDataTab.CleanFields | tabs/collect_data_tab.py:47-58 | The four fields are stripped and their "nan" spellings replaced |
| CollectDataTab.AddEntry | tabs/collect_data_tab.py:68-77 | A section is created when new, then the subsection assigned |
| CollectDataTab.RunEntry | tabs/collect_data_tab.py:95-112 | A run entry keeps its command; it fails exactly on a non-zero exit or silent `sensors`, with the reason and fallback; otherwise succeeds with the raw output and no reason |
| CollectDataTab.RunSubs | tabs/collect_data_tab.py:90-113 | Every subsection keeps its subtitle and has its entry run once, in order |
| CollectDataTab.RunTable | tabs/collect_data_tab.py:88-113 | Every section keeps its title and has its subsections run |
| CollectDataTab.RunAll | tabs/collect_data_tab.py:88-113 | The run loop yields the run table and the report written from it |
| CollectDataTab.RunSection | tabs/collect_data_tab.py:90-113 | The inner run loop runs one section's subsections |
| CollectDataTab.RunTableGet | tabs/collect_data_tab.py:88-90 | Running keeps the section titles and runs each section's subsections |
| CollectDataTab.RunSubsGet | tabs/collect_data_tab.py:90-112 | Running keeps the subtitles and runs each entry |
| CollectDataTab.RunTableAt | tabs/collect_data_tab.py:88-112 | A (title, subtitle) entry after the run is its entry before, run once |
| CollectDataTab.ExecutedOutcome | tabs/collect_data_tab.py:91-112 | A pending entry stays pending exactly when blank; a failure carries reason and fallback; a success the raw output |
| CollectDataTab.AddRowPending | tabs/collect_data_tab.py:71-77 | Adding a pending entry keeps every entry pending |
| CollectDataTab.TablePending | tabs/collect_data_tab.py:71-77 | Every entry of the built table starts pending |
| CollectDataTab.RunOutcome | tabs/collect_data_tab.py:88-112 | In the run table built from the configuration, an entry is pending exactly when blank, failed with reason and fallback, or successful with the raw output |
| CollectDataTab.SubsSummaryEmpty | tabs/collect_data_tab.py:121-133 | A section contributes no lines exactly when it has no non-blank command |
| CollectDataTab.SummaryWithoutContent | tabs/collect_data_tab.py:118-133 | The summary is its header alone exactly when no section has a non-blank command |
| CollectDataTab.SectionsSummaryEmpty | tabs/collect_data_tab.py:120-133 | The sections contribute nothing exactly when none has content |
| CollectDataTab.HasContentSnoc | tabs/collect_data_tab.py:121-125 | The table has content exactly when its earlier sections do or its last section lists an entry |
| CollectDataTab.SummaryLineAfterRun | tabs/collect_data_tab.py:130-132 | A listed entry after the run shows the success icon with no reason, or the failure icon with the failure reason |
| CollectDataTab.RunKeepsListing | tabs/collect_data_tab.py:121-125 | Running changes neither which entries are listed nor `has_content` |
| CollectDataTab.Summarize | tabs/collect_data_tab.py:118-133 | The summary loop yields the summary text and `has_content` |
| CollectDataTab.AppendSection | tabs/collect_data_tab.py:121-133 | One section's summary part and whether it has items |
| CollectDataTab.AnyListed | tabs/collect_data_tab.py:121-123 | `any(...)` is true exactly when some command is non-blank |
| CollectDataTab.AppendLines | tabs/collect_data_tab.py:127-132 | The lines of a section's listed entries are appended in order |
| CollectDataTab.AppendLine | tabs/collect_data_tab.py:130-132 | One entry's line is appended |
| CollectDataTab.PreambleAsWritten | tabs/collect_data_tab.py:28-38 | As written, the report start always ends with the no-interface warning while commands use the resolved interface |
| CollectDataTab.WarningDespiteInterface | tabs/collect_data_tab.py:36-38 | With "eth0" detected, commands use "eth0" and the report still says no interface was detected |
| CollectDataTab.Collect | tabs/collect_data_tab.py:22-138 | A load failure stops the collection; otherwise report, run table, summary and `has_content` are those of the run table, with the warning only when detection was blank |
| History.InsertSpec | tabs/history_tab.py:31 | Inserting into a sorted duplicate-free list keeps it sorted and duplicate-free and adds exactly the element |
| History.SortedUniqueSpec | tabs/history_tab.py:31 | `sorted(unique())` is sorted, duplicate-free and holds exactly the input's elements |
| History.SortedDetermined | tabs/history_tab.py:31 | Two sorted duplicate-free lists with the same elements are equal, so the metric list is determined |
| History.AvailableMetricsSpec | tabs/history_tab.py:31-35 | The metric list is sorted, duplicate-free, exactly the log's metrics, and non-empty for a non-empty log |
| History.MetricRows | tabs/history_tab.py:40 | The per-metric view holds exactly the rows of that metric |
| History.SelectedHasRows | tabs/history_tab.py:38-43 | An offered metric always has rows |
| History.MinTime | tabs/history_tab.py:47 | The earliest timestamp bounds all rows and belongs to one |
| History.MaxTime | tabs/history_tab.py:48 | The latest timestamp bounds all rows and belongs to one |
| History.DefaultWindowSpec | tabs/history_tab.py:56-60 | The default window ends at max_t and starts at max(max_t − 24h, min_t), inside the span and at most 24 hours long |
| History.InRange | tabs/history_tab.py:71-74 | The range view keeps exactly the rows with start ≤ time ≤ end |
| History.InRangeOrder | tabs/history_tab.py:71-74 | The range view keeps log order, and a range covering all rows keeps them all |
| History.DefaultWindowShowsNewest | tabs/history_tab.py:56-74 | The default window always contains the newest point |
| History.Values | tabs/history_tab.py:82 | `dropna()` keeps exactly the present values |
| History.MinValue | tabs/history_tab.py:86 | The minimum is a value and bounds all values |
| History.MaxValue | tabs/history_tab.py:88 | The maximum is a value and bounds all values |
| History.StatsOf | tabs/history_tab.py:82-88 | No statistics exactly when every value is missing; otherwise min ≤ max, both attained, bounding every present value |
| History.HistoryView | tabs/history_tab.py:13-88 | Each view is shown exactly in its case: no file, a load error and an empty log short-circuit; a metric without rows shows no data for that metric; a degenerate series shows all its rows; otherwise the zoom window (default when untouched) with its inclusive rows and statistics |
| History.DefaultView | tabs/history_tab.py:38-79 | For an offered metric and an untouched zoom, the tab shows all rows or a non-empty window ending at the newest row, at most 24 hours long |
| Performance.RiskDefaults | tabs/performance_tab.py:91-98 | A recommendation is shown High exactly when its box starts unticked; an unknown or missing risk shows Medium and starts ticked |
| Performance.RemoveFirstSpec | tabs/performance_tab.py:102 | `list.remove` on a duplicate-free list takes out exactly the element |
| Performance.RemoveAbsent | tabs/performance_tab.py:101-102 | Removing an absent id changes nothing |
| Performance.ToggledSpec | tabs/performance_tab.py:98-102 | A checkbox leaves its id selected exactly when ticked, adds no duplicate and touches no other id |
| Performance.SyncedSpec | tabs/performance_tab.py:89-102 | After the checkbox loop an id is selected exactly when its last checkbox is ticked (or it had no checkbox and was selected), without duplicates |
| Performance.DecisionAt | tabs/performance_tab.py:89-102 | The last checkbox with an id decides it |
| Performance.Defaults | tabs/performance_tab.py:98 | Each box defaults to ticked exactly when the risk is not "high" |
| Performance.FirstDisplay | tabs/performance_tab.py:86-102 | On first display the selection has each id once, and an id is selected exactly when its risk is not "high" |
| Performance.TruthyIds | tabs/performance_tab.py:107 | Select All holds exactly the present, non-empty ids of the list |
| Performance.TruthyIdsAppend | tabs/performance_tab.py:107 | Select All keeps the order of the recommendation list |
| Performance.Selection.constructor | tabs/performance_tab.py:86-87 | The selection starts empty |
| Performance.Selection.Check | tabs/performance_tab.py:98-102 | One checkbox toggles its id as `Toggled` says |
| Performance.Selection.Sync | tabs/performance_tab.py:89-102 | The checkbox loop leaves the synced selection |
| Performance.Selection.SelectAll | tabs/performance_tab.py:106-107 | Select All sets the truthy ids |
| Performance.Selection.DeselectAll | tabs/performance_tab.py:110-111 | Deselect All empties the selection |
| Performance.SelectedRecs | tabs/performance_tab.py:130 | A recommendation is selected exactly when its id is in the selection |
| Performance.SelectedRecsSpec | tabs/performance_tab.py:130 | The selected recommendations keep list order; after Select All they are exactly those with a truthy id |
| Performance.Indented | tabs/performance_tab.py:145-146 | Each command line is four spaces then the command, in order |
| Performance.RecLinesLayout | tabs/performance_tab.py:141-150 | A block is the title echo, description echo, prompt and `if`, the indented commands, then Applied, `else`, Skipped and `fi`: eight lines plus one per command |
| Performance.BlocksCount | tabs/performance_tab.py:140-150 | The blocks take 8 lines per recommendation plus one per command |
| Performance.BlocksAppend | tabs/performance_tab.py:140-150 | The blocks of two runs of recommendations are the first run's blocks followed by the second's |
| Performance.BlockAt | tabs/performance_tab.py:140-150 | Recommendation k's block sits right after the blocks of the earlier ones |
| Performance.Report | tabs/performance_tab.py:153 | The report is the heading naming the profile, a blank line, then the analysis |
| Performance.LinesWithoutNewline | tabs/performance_tab.py:135-150 | With newline-free fields no script line holds a newline |
| Performance.ScriptFileLines | tabs/performance_tab.py:152 | Splitting the script file at newlines gives back its lines |
| Performance.GenerateTuningFiles | tabs/performance_tab.py:129-153 | Nothing when no recommendation is selected; otherwise the script is the header and the selected blocks joined with newlines, and the report |
| Performance.BuildLines | tabs/performance_tab.py:135-150 | The script-building loops yield the header then every block in order |
| Performance.AppendRec | tabs/performance_tab.py:141-150 | One recommendation's appends, commands included, yield its block |
| Performance.ProfileTitles | tabs/performance_tab.py:33 | The profile's titles are exactly the sections of rows whose HFT_Profile is the profile; none without the column |
| Performance.Preview | tabs/performance_tab.py:28-34 | "All Sections" previews everything; otherwise a load error propagates, a configuration without an HFT_Profile column is an error exactly then, and the preview keeps, in order, exactly the sections whose title the profile lists |
| Performance.PreviewSections | tabs/performance_tab.py:33-34 | A section is previewed exactly when collected and listed under the profile, with its subsections unchanged |

## Left out

- Streamlit rendering, widgets, reruns and the `@st.fragment` polling loop with its sleep: the model takes one tick at a time as a method on explicit state.
- Running shell commands: results are the parameter `run` (the same command text gives the same result) or a list of outcomes. Interface detection via `ip link` is a string parameter.
- File I/O: reading the workbook, reading and appending the CSV file, and the download buttons. The sheet, the log rows and the file-exists flags are parameters, and the CSV file is a list of lines.
- `datetime.now()` and `time.ctime()`: the time is a parameter. Timestamps are integer seconds, and 24 hours is 86400.
- Floating point: `float()` parsing is the abstract parameter `parse`, NaN is `None`, and values are reals. The mean, the standard deviation and the `:.4f` formatting at tabs/history_tab.py:89-92 are not modelled.
- ai.py, `get_available_hft_profiles`, `perform_hft_analysis`, `build_system_profile`, `load_dynamic_df` and `take_ai_snapshot` are not part of this model. The analysis text and the recommendations are inputs.
- Display-only text is not modelled, as it holds no logic. This covers:
  - the preview text (tabs/performance_tab.py:36-55);
  - the recommendation expanders;
  - the current-values table's formatting;
  - the alert list;
  - the summary display of tabs/collect_data.py:109-122;
  - the tab-status banners.
- History.HistoryView: the "No metrics in history yet" branch (tabs/history_tab.py:33-35) is not modelled as a view. `History.AvailableMetricsSpec` proves it cannot happen for a non-empty log. Rows with a missing metric name are not modelled.
- Config.LoadSections: the absent Type column raises, as `df.get` returns a plain string without `astype` there. It is modelled as an error, not as a default.
- Monitor.PrepareMetrics: an absent Unit column raises only when there is at least one `dynamic_single` row, since the tab returns before line 42 otherwise (tabs/monitor_tab.py:27-29). The model returns an error in exactly that case.
- CollectData.RunCommand: for a blank non-echo command, `cmd.split()[0]` at tabs/collect_data.py:104 would raise. The model assumes the shell exits 0 on a blank command, so that path is not taken, and `Shell.Fallback` of a blank command is the generic text.
- In-place mutation of nested dicts and lists (the summary items of tabs/collect_data.py, the entries of tabs/collect_data_tab.py) is modelled on values returned by methods. Aliasing between the session state and these structures is not modelled.
- Performance.GenerateTuningFiles: `last.get('analysis_md', ...)` is modelled with the analysis always present, because the analysis record always stores that key.
- Text.Lower: only the ASCII capitals A-Z are lower-cased. Python's `str.lower` also maps every other Unicode capital (and a few characters to two), which the model does not.
- Text.Split: its own contract gives only that there is at least one piece. `Text.SplitLeftmost`, `Text.SplitJoinRoundTrip` and `Text.SplitPiecesFree` state which pieces.
- CollectData.GroupTitles: its contract gives the sections' count and titles. Which rows make up each section is stated by `CollectData.GroupRuns` and `CollectData.FinishRuns`.
- CollectDataTab.Kept: its own contract gives only the length bound. `CollectDataTab.KeptSingle` and `CollectDataTab.KeptAppend` state contents and order.
- CollectData.RunCommand: output that is not valid text makes `subprocess.run(..., text=True)` raise a decode error (tabs/collect_data.py:83-104). The model has command results as text, so that error is not modelled.
- Monitor.CheckedNames: the checkbox order is taken as given. The source builds it with `groupby("Section_Title")`, which sorts the sections (tabs/monitor_tab.py:71-73), and that sorting is not modelled. Two rows with the same subtitle share the widget key `monitor_{subtitle}`, which Streamlit rejects with an error (tabs/monitor_tab.py:87-91); that error is not modelled either, and the model keeps the last box's value.
- Performance.SyncedSpec: the checkbox key is `chk_<id>` (tabs/performance_tab.py:98). Two recommendations with the same id, or two without an id (both `chk_unknown`), share a key, and Streamlit rejects the second box with a duplicate-key error. That error is not modelled: the model lets the last box for an id decide.
- Performance.Selection.Sync: the same duplicate-key error is not modelled here, nor in `Performance.Synced`, `Performance.DecisionAt` and `Performance.FirstDisplay`. For recommendations with distinct keys, their contracts describe the source.
- Config.Lookup: two columns whose names become equal after stripping make pandas return a frame instead of a column. `Config.LoadSections` reports this as an error for the title, subtitle and Type columns, whose `.str` calls raise (data.py:26, 27 and 29). For the other columns, the model reads the first such column where the source raises: Command, read with `.str` at tabs/monitor_tab.py:39; Threshold_Min and Threshold_Max, whose `pd.to_numeric` raises at tabs/monitor_tab.py:40-41; Unit at tabs/monitor_tab.py:42; and HFT_Profile, compared with the profile at tabs/performance_tab.py:33, where the source then works on a frame.
- Config.LoadSections: a Command column occurring twice is not reported, because data.py:28 applies no `.str` call to it. The model keeps the first copy, and the monitor's `.str` call on it (tabs/monitor_tab.py:39) is not modelled as failing.
- Performance.Rec: recommendation fields other than id, title, description, risk and commands (impact, why_hft) are display-only and not modelled.

## Findings

| source | as written | input that shows it | evidently intended | confidence | as-written member | corrected member |
|---|---|---|---|---|---|---|
| tabs/collect_data.py:75 | The search for a header's command starts after `commands.index(cmd)`, the FIRST command equal to the header | A section whose subtitles go X, Y, X: the second X item is paired with the command after the first X header | Each item pairs with the first real command after its own header | not executed | CollectData.RepeatedSubtitleMispaired | CollectData.HeaderPairsNextCommand |
| tabs/collect_data_tab.py:38 | The warning line is written after the `if`, so it is written whatever was detected | Detected interface "eth0": commands use "eth0" and the report says no interface was detected | The warning only when detection was blank, as tabs/collect_data.py:23-25 does | not executed | CollectDataTab.WarningDespiteInterface | CollectDataTab.Collect |
