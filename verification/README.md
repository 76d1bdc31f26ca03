# Condor job reporting: the record pipeline

A Dafny model of the `disk-osg` scripts that report on the CLAS12 simulation jobs a
condor scheduler runs for the `gemc` account. The scripts ask the scheduler for its
queue (`condor_q`) and its history (`condor_history`) as JSON. They key every record
by its composite id `ClusterId.ProcId` and munge it: the log path names the user, the
gemc job id and the condor id; wall hours, CPU efficiency and the generator name are
derived; the host name is trimmed; a held job's exit code is read from its error log.
The records are then filtered by a small matching language. Repeated options are
OR'd, a leading dash makes a veto, and site and host match by substring. What is left
is rendered as a job table, a cluster summary, a site summary, an exit-code summary,
an efficiency summary or a timeline entry. The stand-alone probe script and the
back-up copy of the full tool also validate their command line and choose an action
per record (hold, vacate, report a host, tail the logs, add a row).

The model is organised like the library under `disk-osg/lib`:

- `Config`: the constants of `config.py`.
- `Values`: the dynamically typed values the scripts handle.
- `Text`: the Python string operations they use.
- `Jobs`, `LogPath`, `Normalize` and `Tally`: reading, keying, munging and tallying
  (`condor.py`).
- `Matcher` and `Filter`: `matcher.py` and `condor_match`.
- `ClusterSummary`, `SiteSummary`, `ExitSummary` and `EfficiencySummary`:
  `summary.py`.
- `Tools` and `SortDict`: `tools.py`.
- `Tables`: `table.py`.
- `Timeline`: `timeline.py`.
- `Probe`: `condor-probe.py`.
- `Options`: the command-line checks and main loop of `condor-probe_back.py`.

`OrderedMaps` and `Grouping` are shared helpers. They hold insertion-ordered
dictionaries and the group-by fold every summary uses.

Where the code's behaviour differs from what the tool documents about itself, the
model follows the code. The clearest case is `pattern_matches`. The help text
(`disk-osg/condor-probe_back.py:1054-1057`) says repeated criteria are OR'd. The code
looks only at the first positive criterion and tests whether the record's value is a
substring of that criterion, not the other way round. `Matcher.PatternFirstOnly`,
`Matcher.PatternValueInsideCriterion` and `Matcher.PatternMatchesAccepts` state that
behaviour.

## Model

| member | source | states |
|---|---|---|
| Config.StatusOf | disk-osg/lib/config.py:5 | a state code has a status exactly when it is a key of `job_states`, and the status's letter is the table's entry |
| Config.JobStatesShape | disk-osg/lib/config.py:5 | the state codes are exactly 0..6 and no two codes share a letter |
| Config.LetterInjective | disk-osg/lib/config.py:5 | distinct statuses have distinct letters |
| Config.LookupLabel | disk-osg/lib/config.py:7-8 | `exit_codes.get(code)` finds a label exactly when the code is in the table, and the label is the one stored with it |
| Config.ExitCodesShape | disk-osg/lib/config.py:7-8 | the table holds nine distinct codes, so `exit_codes` as a dict loses no entry |
| Config.ExitLabels | disk-osg/lib/config.py:7-8 | 212 is `xrootd`, 202 is `cvmfs`, and 1 has no label |
| Config.XrootdCode | disk-osg/lib/config.py:7-8 | a code is labelled `xrootd` exactly when it is 212 |
| Values.ShowIntRoundTrip | disk-osg/lib/condor.py:48 | the text `str(n)` of an id reads back as the same integer and as the same float |
| Jobs.IdKeyParts | disk-osg/lib/condor.py:48 | splitting the key `'%d.%d'` at the first dot gives the cluster id, and at the last dot the process id |
| Jobs.IdKeyInjective | disk-osg/lib/condor.py:68 | two records get the same key only if their cluster and process ids agree |
| Jobs.AddEntry | disk-osg/lib/condor.py:66-69 | an entry is stored when it has both ids, dropped when either is absent, and is the TypeError of `'%d.%d'` exactly when both are present and one is not an integer |
| Jobs.AddEntries | disk-osg/lib/condor.py:59-74 | adding JSON entries fails, with the TypeError, exactly when some entry has a present id that is not an integer; otherwise the record map keeps its keys distinct |
| Jobs.LastWithKey | disk-osg/lib/condor.py:66-69 | the entry a key ends up with is the last one carrying that key, and no entry carries a key that finds nothing |
| Jobs.AddEntriesGet | disk-osg/lib/condor.py:59-74 | after the entries are added, a key holds its last entry when one exists, and its old record otherwise |
| Jobs.AddEntriesKeepsOrder | disk-osg/lib/condor.py:59-74 | the map's existing keys keep their places at the front, in their order, and the keys the entries bring follow in the order they are first seen (`Jobs.NewKeys`) |
| Jobs.NewKeys | disk-osg/lib/condor.py:59-74 | the keys first brought by the entries are new to the map, carried by some entry, and distinct |
| Jobs.AddEntriesKeySources | disk-osg/lib/condor.py:59-74 | every key afterwards was there before or comes from an entry |
| Jobs.IncompleteDropped | disk-osg/lib/condor.py:66-67 | an entry without a ClusterId or ProcId key changes nothing |
| Jobs.NullIdRaises | disk-osg/lib/condor.py:66-68 | an entry whose ProcId is present but null makes the whole read the TypeError, whatever came before it |
| Jobs.ReadSnapshot | disk-osg/lib/condor.py:42-53 | reading fails exactly for a JSON document that is neither a list nor a dict, or a list with an entry whose present id is not an integer; a dict is taken as the map itself |
| Jobs.ReadListGet | disk-osg/lib/condor.py:45-48 | reading a list without such an entry succeeds, and each key holds the last item carrying it |
| Jobs.ReadListDistinct | disk-osg/lib/condor.py:45-48 | a map read from a list has distinct keys |
| LogPath.FileIds | disk-osg/lib/config.py:4 | a recognised log file name `job.<c>.<p>.` has two non-empty digit runs, and the name starts with them |
| LogPath.SearchFrom | disk-osg/lib/condor.py:129-136 | the search returns the first path position from which the `log_regex` window matches, and none when there is no such position |
| LogPath.Search | disk-osg/lib/condor.py:129-136 | `re.search` of the log pattern finds the leftmost match, and finds nothing exactly when no position matches |
| LogPath.SearchSound | disk-osg/lib/config.py:4 | a match has a lower-case user, digit gemc, cluster and process ids, and its text occurs in the path |
| LogPath.FieldsOf | disk-osg/lib/condor.py:129-136 | the fields are present exactly when the pattern matches; `condor` is cluster.proc; the err and out paths replace the last four characters |
| LogPath.DropLast4 | disk-osg/lib/condor.py:135-136 | `log[0:-4]` is the path without its last four characters, or empty for a shorter path |
| LogPath.ClusterOfCondor | disk-osg/lib/condor.py:230 | the cluster part of the derived condor id is the cluster the path names |
| LogPath.ExamplePath | disk-osg/lib/condor.py:129-136 | a sample log path yields user, gemc id, condor id and both companion logs |
| Normalize.RoundDiv | disk-osg/lib/condor.py:125 | the rounded quotient is within half a divisor of the exact one |
| Normalize.WallCenti | disk-osg/lib/condor.py:180-196 | wall hours exist exactly for a running or completed job with a positive start date, and are the run's seconds over 3600 rounded to hundredths |
| Normalize.TwoHourRun | disk-osg/lib/condor.py:180-196 | a completed job that ran 7200 seconds shows 2.00 wall hours |
| Normalize.Eff | disk-osg/lib/condor.py:145-146 | efficiency exists exactly for a completed job with positive wall hours, and is CPU seconds over wall seconds as its '%.2f' text reads back: the hundredth nearest to the ratio |
| Normalize.EffExample | disk-osg/lib/condor.py:145-146 | 3600 CPU seconds in 2.00 wall hours is an efficiency of 0.5 |
| Normalize.Ceff | disk-osg/lib/condor.py:148-152 | cumulative efficiency exists exactly for a positive slot time; it is CPU over slot time rounded to the nearest hundredth for running or completed jobs and 0 for the rest |
| Normalize.TrimHost | disk-osg/lib/condor.py:140-141 | the host is what follows the last `@`, a suffix of the slot name |
| Normalize.TrimLastHost | disk-osg/lib/condor.py:142-143 | the trimmed LastRemoteHost has no `@` and no `.` |
| Normalize.TrimLastHostIdempotent | disk-osg/lib/condor.py:142-143 | trimming a trimmed host changes nothing, so re-munging is harmless |
| Normalize.TrimLastHostOf | disk-osg/lib/condor.py:142-143 | `slot@name.domain` trims to `name` |
| Normalize.DirName | disk-osg/lib/condor.py:281 | `os.path.dirname` gives a prefix of the path |
| Normalize.RStripSlashes | disk-osg/lib/condor.py:281 | stripping trailing slashes gives a prefix that does not end in a slash |
| Normalize.DirNameOfChild | disk-osg/lib/condor.py:281 | the directory of `d/f` is `d` |
| Normalize.ScriptPath | disk-osg/lib/condor.py:281 | the script read for a log is `nodeScript.sh` two directories up |
| Normalize.NoUpperInLower | disk-osg/lib/condor.py:283-294 | a marker starting with a capital letter is never found in a lower-cased line |
| Normalize.GeneratorTestsOnLowered | disk-osg/lib/condor.py:283-296 | on the lowered line the LUND and INPUT tests never fire, leaving only the generator announcement and the `gemc` prefix |
| Normalize.GeneratorOfAnnouncement | disk-osg/lib/condor.py:284-290 | a line announcing generator `clas12-x` yields `x` |
| Normalize.LowerAll | disk-osg/lib/condor.py:282-283 | every script line is lower-cased in place |
| Normalize.ScriptGenerator | disk-osg/lib/condor.py:279-296 | without a UserLog the generator is `null_field` |
| Normalize.GetGenerator | disk-osg/lib/condor.py:276-297 | the generator cache keeps the only shape it can reach: its one key is the literal text `ClusterId` |
| Normalize.CacheNeverHits | disk-osg/lib/condor.py:276-297 | the cache is looked up with the cluster id (an integer or missing) but filled under the literal key `ClusterId`, so every record rereads its own script |
| Normalize.StatusBucket | disk-osg/lib/condor.py:263-273 | held, idle, running and completed each get their own counter; every other state counts as other |
| Normalize.JoinFirstTwo | disk-osg/lib/condor.py:127 | an empty argument list gives an empty `gemcjob` |
| Normalize.DerivedLogsOpenable | disk-osg/lib/condor.py:135-136 | the derived `.err` and `.out` paths never end in `.gz`, so they are read as text |
| Normalize.MungeWith | disk-osg/lib/condor.py:113-176 | one pass of the loop raises exactly when the record meets one of its errors, and the first it meets, in code order: an unknown JobStatus (KeyError), a missing id (TypeError), a null UserLog (TypeError from `re.search`), a log path naming another condor id (ValueError), a completed job without wall hours (`float(None)`), a missing CumulativeSlotTime (`None > 0`), a restarted running job without wall hours (`float(None)` in `condor_tally`); otherwise the munged record is `MungedFrom` the scheduler record |
| Normalize.MungedRecord | disk-osg/lib/condor.py:117-155 | a record that raises nothing munges to one that keeps its ids and every attribute but the two it rewrites, takes user, gemc id, condor id and both log paths from a matching log path naming its own key (none of them otherwise), holds the trimmed hosts, the wall hours, `eff` and `ceff` of its run, the generator and the first two words of its arguments; with `-parseexit` a held job's exit code is the one read from its error log, and any other keeps its own |
| Normalize.Munge | disk-osg/lib/condor.py:113-156 | with the cache in its reachable shape, a record munges as if its generator were freshly parsed |
| Normalize.MungeLogFields | disk-osg/lib/condor.py:129-136 | user, gemc id, condor id and both companion logs come from the matched log path |
| Normalize.MungeExampleMismatch | disk-osg/lib/condor.py:137-138 | a record with the sample log that munges under key 56.7 is the ValueError under 56.8 |
| Normalize.MungeFrom | disk-osg/lib/condor.py:113-176 | the pass over the map fails exactly when some record's munge fails, and then with the error of the first record that fails; otherwise record i is record i's munge |
| Normalize.MungeFromStep | disk-osg/lib/condor.py:113-124 | the pass fails iff the first record or one of the rest does; a failing first record's error is the error of the pass, and behind a first record that munges, the rest's first failure is the pass's |
| Normalize.FirstFailureCons | disk-osg/lib/condor.py:113-124 | the first failure among the rest, behind a record that munges, is the first failure of all |
| Normalize.FailsFirstFresh | disk-osg/lib/condor.py:113-156 | the error the pass raises is the munge error of some record i, and every record before i munges |
| Normalize.AgreesCons | disk-osg/lib/condor.py:113-124 | a record that munges is followed by the munge of the rest |
| Normalize.FailureCons | disk-osg/lib/condor.py:113-124 | some record fails iff the first one does or one of the rest does |
| Normalize.OutcomeAt | disk-osg/lib/condor.py:113-124 | the pass's outcome at place i is the munge of record i on its own, independent of the records around it |
| Normalize.MungedAsFresh | disk-osg/lib/condor.py:113-124 | in a successful pass, place i holds record i's key and its munge |
| Normalize.FailureFresh | disk-osg/lib/condor.py:113-176 | the pass fails exactly when some record's munge fails, that is when some record meets one of the errors of `condor_munge` |
| Normalize.MungeAll | disk-osg/lib/condor.py:113-176 | `condor_munge` over the map, starting from an empty cache: a failure exactly when some record meets one of its errors, with the error of the first such record, otherwise every record munged in order |
| Counters.Bump | disk-osg/lib/summary.py:32 | `row[key] += 1` raises that counter by one and leaves the other counters and the total |
| Counters.ZeroCountsAreZero | disk-osg/lib/config.py:6 | `job_counts` starts every counter at zero |
| Counters.Tag | disk-osg/lib/condor.py:263-273 | every record is tagged, in order, with the counter `get_status_key` names |
| Tally.Contribution | disk-osg/lib/condor.py:158-176 | a completed job's good side is its last run's wall seconds, its CPU and one attempt; a restarted completed job's bad side is the rest of its slot time, CPU and starts, so the two add up to its totals; a single-start one is all good; a running job that started at most once charges nothing; a restarted running job charges all but its current run as bad; a started job in another state except removed is all bad; a removed job charges nothing |
| Tally.AttemptEntry | disk-osg/lib/condor.py:162-164 | a record adds its start count to `attempts` exactly when it is running or completed and has started |
| Tally.TallyAll | disk-osg/lib/condor.py:158-178 | the totals are set exactly when some record was tallied, and are good plus bad |
| Tally.TallySums | disk-osg/lib/condor.py:158-178 | the tallies are the sums of each record's charge, and the attempts list is the records' entries in order |
| Tally.TallySplit | disk-osg/lib/condor.py:158-178 | tallying two runs of records adds their sums and concatenates their attempts |
| Tally.TallyOrderFree | disk-osg/lib/condor.py:158-178 | the sums do not depend on the order of the records |
| Tally.TallyOne | disk-osg/lib/condor.py:158-178 | a single record's tally is its contribution |
| Tally.TallyExample | disk-osg/lib/condor.py:158-178 | a one-hour completed job and a restarted held job give the expected good and bad figures |
| Tally.DoneContribution | disk-osg/lib/condor.py:165-168 | a completed single-start job adds its wall and CPU seconds as good, with one good attempt |
| Tally.HeldContribution | disk-osg/lib/condor.py:173-176 | a held job adds its slot time and cumulative CPU as bad, with its starts as bad attempts |
| Tally.MungedTallyReady | disk-osg/lib/condor.py:156-176 | a record the pass munged has everything the tally reads, since the pass raises on the others |
| Tally.Records | disk-osg/lib/condor.py:156 | the tally sees the munged records in order |
| Tally.MungePass | disk-osg/lib/condor.py:113-176 | munging and tallying fail exactly when some record meets one of the errors of `condor_munge`, with the error of the first such record; otherwise the records are munged in order and the tallies are those of the munged records |
| Matcher.Build | disk-osg/lib/matcher.py:19-26 | every criterion becomes either a positive value or a veto |
| Matcher.BuildAppend | disk-osg/lib/matcher.py:22-26 | building from two runs of criteria concatenates their values and vetoes |
| Matcher.BuildOne | disk-osg/lib/matcher.py:23-26 | a criterion starting with `-` is a veto without its dash; any other is a positive value as written |
| Matcher.BuildMembers | disk-osg/lib/matcher.py:19-26 | a string is a value iff some criterion spells it, and a veto iff some criterion is it with a dash |
| Matcher.NoPositivesIff | disk-osg/lib/matcher.py:19-26 | there are no positive values exactly when every criterion is a veto |
| Matcher.BuildFirstPositive | disk-osg/lib/matcher.py:22-26 | the first stored value is the first criterion without a dash |
| Matcher.NoVetoContains | disk-osg/lib/matcher.py:41-43 | the veto loop passes exactly when no veto contains the value |
| Matcher.PatternMatches | disk-osg/lib/matcher.py:33-44 | a pattern match means no veto contains the value |
| Matcher.EmptyMatchesAll | disk-osg/lib/matcher.py:27-44 | without criteria, every value matches both ways |
| Matcher.MatchesAccepts | disk-osg/lib/matcher.py:27-32 | `matches` holds iff the value is spelled by a positive criterion (or there is none) and by no veto |
| Matcher.VetoWins | disk-osg/lib/matcher.py:30-31 | a veto for the value rejects it whatever the positive criteria say |
| Matcher.PositiveOr | disk-osg/lib/matcher.py:28-29 | one positive criterion naming the value admits it when no veto names it |
| Matcher.AbsentIsNoneText | disk-osg/lib/matcher.py:28 | an absent value matches exactly as the text `None` does |
| Matcher.VetoLoopIff | disk-osg/lib/matcher.py:41-43 | the veto loop over the built matcher agrees with the criteria read directly |
| Matcher.PositiveStepIff | disk-osg/lib/matcher.py:34-40 | the positive loop passes iff every criterion is a veto, or the first positive criterion contains the value |
| Matcher.PatternMatchesAccepts | disk-osg/lib/matcher.py:33-44 | `pattern_matches` holds iff the first positive criterion (if any) contains the value and no veto does |
| Matcher.FirstPositiveUnique | disk-osg/lib/matcher.py:34-40 | there is only one first positive criterion |
| Matcher.FirstPositive | disk-osg/lib/matcher.py:34-40 | when some criterion is positive, the first one is found |
| Matcher.PatternFirstOnly | disk-osg/lib/matcher.py:34-40 | positive values after the first never change a pattern match |
| Matcher.PatternVetoWins | disk-osg/lib/matcher.py:41-43 | a veto containing the value rejects it |
| Matcher.PatternValueInsideCriterion | disk-osg/lib/matcher.py:36 | a value longer than the only criterion never matches, so a criterion that is part of the value does not admit it |
| Filter.LetterOfIff | disk-osg/lib/condor.py:248-255 | `job_states.get(code)` is a status's letter exactly when the code has that status |
| Filter.Admit | disk-osg/lib/condor.py:213-261 | a record with a condor id is admitted iff it passes the condor, gemc, user and generator matchers, the site and host pattern matchers, the exit test (absence under `-noexit`), the state flags unless plotting, and the end time |
| Filter.NoCriteriaAdmits | disk-osg/lib/condor.py:213-261 | with no criteria, a record that has not completed late is admitted |
| Filter.UserVetoRejects | disk-osg/lib/condor.py:234-235 | vetoing a record's user rejects it |
| Filter.NoExitRejects | disk-osg/lib/condor.py:242-244 | `-noexit` rejects every record with an exit code |
| Filter.PlottingIgnoresFlags | disk-osg/lib/condor.py:247-255 | when plotting, the state flags have no effect |
| Filter.LateCompletionRejects | disk-osg/lib/condor.py:256-258 | a record completed after `-end` is rejected |
| Filter.Admitted | disk-osg/lib/condor.py:201-204 | over records that all have a condor id, the admitted records are exactly those `condor_match` accepts |
| Filter.Reached | disk-osg/lib/condor.py:201-230 | the generator reaches the records before the first one without a condor id, where `split` raises; it reaches them all exactly when they all have one |
| Filter.Yield | disk-osg/lib/condor.py:201-230 | drawing `condor_yield` to the end raises exactly when some record has no condor id, and otherwise gives exactly the admitted records |
| Filter.AdmittedConcat | disk-osg/lib/condor.py:201-204 | filtering two runs of records concatenates the results |
| Filter.AdmittedKeepsOrder | disk-osg/lib/condor.py:201-204 | the admitted records keep the map's order |
| ClusterSummary.AttEntry | disk-osg/lib/summary.py:38-39 | a record adds its start count exactly when it is positive |
| ClusterSummary.EffEntry | disk-osg/lib/summary.py:40-41 | a record adds its efficiency exactly when it has one |
| ClusterSummary.CeffEntry | disk-osg/lib/summary.py:42-43 | the cumulative efficiency is added only after an efficiency was (the `float(None)` raise skips both) |
| ClusterSummary.AddRecord | disk-osg/lib/summary.py:32-45 | folding a record bumps its counter, keeps the group's first record, keeps `done` equal to submitted minus held, idle and running, and extends the lists |
| ClusterSummary.Rows | disk-osg/lib/summary.py:21-45 | the cluster groups have distinct keys |
| ClusterSummary.ClusterKeys | disk-osg/lib/summary.py:25-31 | a cluster has a group exactly when some admitted record belongs to it |
| ClusterSummary.FoldRow | disk-osg/lib/summary.py:26-45 | folding a cluster's records counts each state, and collects exactly their starts and efficiencies |
| ClusterSummary.ClusterGroup | disk-osg/lib/summary.py:21-45 | a cluster's group starts from its first record and counts and collects exactly that cluster's records |
| ClusterSummary.ClusterFirst | disk-osg/lib/summary.py:26-27 | the group copies the first record of the cluster in map order |
| ClusterSummary.Collapse | disk-osg/lib/summary.py:46-49 | the averages are absent for empty lists and otherwise are the lists' means |
| ClusterSummary.Summarize | disk-osg/lib/summary.py:21-50 | the summary has the groups' keys in first-seen order, each collapsed |
| ClusterSummary.CollapseOk | disk-osg/lib/summary.py:33-49 | done, held, idle and running add up to the cluster's submitted jobs; a cumulative efficiency needs an efficiency; the mean of starts is at least one |
| ClusterSummary.SummaryLines | disk-osg/lib/summary.py:21-50 | every summary line has those three properties |
| SiteSummary.WallEntry | disk-osg/lib/summary.py:64-69 | a record adds its wall hours when it has them and is completed, or any job under `-running` |
| SiteSummary.AddRecord | disk-osg/lib/summary.py:62-69 | folding a record raises the total and its status counter by one and appends its wall hours |
| SiteSummary.Rows | disk-osg/lib/summary.py:52-69 | the site groups have distinct keys |
| SiteSummary.SiteKeys | disk-osg/lib/summary.py:57-61 | a site, or the missing site, has a group exactly when some record has it |
| SiteSummary.FoldRow | disk-osg/lib/summary.py:58-69 | folding a site's records counts them all and each state, and collects exactly their wall hours |
| SiteSummary.SiteGroup | disk-osg/lib/summary.py:52-69 | a site's group starts from its first record and counts exactly that site's records |
| SiteSummary.SiteTotals | disk-osg/lib/summary.py:62 | the groups' totals add up to the number of admitted records |
| SiteSummary.Collapse | disk-osg/lib/summary.py:70-74 | the mean and spread of wall hours exist together, for a non-empty list; `done` becomes `null_field` without `-hours` |
| SiteSummary.Collapsed | disk-osg/lib/summary.py:70-74 | every group is collapsed in place |
| SiteSummary.SummaryOrder | disk-osg/lib/summary.py:75 | the result is a permutation of the groups, largest total first, distinct keys, ties in first-seen order |
| SiteSummary.CollapseOk | disk-osg/lib/summary.py:62-72 | the five state counters add up to the total |
| SiteSummary.RowsOk | disk-osg/lib/summary.py:62-63 | every site group's counters add up to its total |
| SiteSummary.SummaryLines | disk-osg/lib/summary.py:52-75 | every line of the sorted summary keeps that balance |
| ExitSummary.Codes | disk-osg/lib/summary.py:79-80 | a code is counted exactly when some record ended with it, and records without an exit code are not counted |
| ExitSummary.Counted | disk-osg/lib/summary.py:78-83 | the code counts have distinct codes |
| ExitSummary.CodeCounts | disk-osg/lib/summary.py:78-83 | a code is listed exactly when some record ended with it, and its count is the number of such records |
| ExitSummary.CountsTotal | disk-osg/lib/summary.py:84 | `tot` is the number of records that have an exit code |
| ExitSummary.Lines | disk-osg/lib/summary.py:87 | each line carries its code, its count and its label |
| ExitSummary.LinePercents | disk-osg/lib/summary.py:87 | each line's percentage times `tot` is its count times 100: the count's share of the total |
| ExitSummary.Summarize | disk-osg/lib/summary.py:77-88 | one line per distinct code |
| ExitSummary.TotalPositive | disk-osg/lib/summary.py:84-87 | the division by `tot` is safe whenever there is a line |
| ExitSummary.PercentsOfLines | disk-osg/lib/summary.py:87 | the shares add up to the counts' total over `tot`, in percent |
| ExitSummary.PercentsOfShares | disk-osg/lib/summary.py:87 | any lines whose percentages are their counts' shares add up to the counts' total share |
| ExitSummary.PercentsOfCounts | disk-osg/lib/summary.py:84-87 | over their own total, the shares add up to 100 |
| ExitSummary.PercentsTotal | disk-osg/lib/summary.py:77-88 | the percentages of a non-empty summary add up to 100 |
| EfficiencySummary.Summarize | disk-osg/lib/summary.py:90-111 | the report is printed exactly when some attempt was recorded; it shows the tallies, their mean attempts, and the utilisation, good fraction and total efficiency only when their divisor is positive |
| EfficiencySummary.TallyReportReady | disk-osg/lib/condor.py:158-178 | the tallies of any munged records can be reported |
| EfficiencySummary.AttemptsPositive | disk-osg/lib/condor.py:162-164 | every recorded attempt count is at least one |
| EfficiencySummary.MeanOfPositive | disk-osg/lib/summary.py:99 | the mean of such counts is at least one |
| EfficiencySummary.MeanAttemptsAtLeastOne | disk-osg/lib/summary.py:94-99 | the reported average number of attempts is at least one |
| EfficiencySummary.NoBadWallAllGood | disk-osg/lib/summary.py:107-108 | without bad wall time the good fraction is 100% |
| Tools.Average | disk-osg/lib/tools.py:20-24 | the average is absent for an empty list and is otherwise the mean |
| Tools.AverageBounds | disk-osg/lib/tools.py:20-24 | the average lies between any bounds on the values |
| Tools.AverageOfEqual | disk-osg/lib/tools.py:20-24 | the average of equal values is that value |
| Tools.Centi | disk-osg/lib/tools.py:22 | `float('%.2f' % x)` is a whole number of hundredths within half a hundredth of x |
| Tools.CentiUnique | disk-osg/lib/tools.py:22 | no other hundredth lies that close, so the rounding is determined |
| Tools.Variance | disk-osg/lib/tools.py:26-32 | the population variance under the standard deviation is absent for an empty list and never negative; deviations are taken from `float(average(...))`, the mean rounded to hundredths |
| Tools.VarianceExample | disk-osg/lib/tools.py:26-32 | 1.00, 1.01, 1.01 have the rounded mean 1.01, so their variance is 0.0001 / 3 rather than that around the exact mean |
| Tools.VarianceOfEqual | disk-osg/lib/tools.py:26-32 | equal values that are whole hundredths have no spread |
| Tools.Lines | disk-osg/lib/tools.py:55-64 | `readlines` gives one stripped line per newline-separated piece, without the empty piece after a final newline |
| Tools.LinesOfRows | disk-osg/lib/tools.py:55-64 | reading back rows written one per line gives the rows |
| Tools.TrailingLines | disk-osg/lib/tools.py:66-91 | the lines read backwards never contain a newline |
| Tools.TrailingLinesWhole | disk-osg/lib/tools.py:66-91 | without a limit, or with few enough lines, the lines read backwards rejoin into the whole text |
| Tools.TrailingLinesLimited | disk-osg/lib/tools.py:66-91 | with more lines than the limit, the reader returns the last lines, newest first, and then an empty piece |
| Tools.ScanReverse | disk-osg/lib/tools.py:66-91 | the character-by-character backward scan computes the trailing lines |
| Tools.ReadlinesReverse | disk-osg/lib/tools.py:66-91 | a missing file reads as no lines |
| Tools.FirstSome | disk-osg/lib/tools.py:107-116 | the first line that yields an exit code is the one used |
| Tools.GetExitCode | disk-osg/lib/tools.py:107-116 | the exit code comes from the first, last line first, of the pieces `readlines_reverse(..., 3)` yields (three lines, or four pieces when the file does not end in a newline) that reports one, and is absent when none does |
| Tools.ExitFromLastLine | disk-osg/lib/tools.py:107-116 | a log whose last line is `exit n` yields n |
| Tools.CheckXrootd | disk-osg/lib/tools.py:101-105 | a record fails the check exactly when its exit code is the `xrootd` code |
| Tools.AnyContains | disk-osg/lib/tools.py:93-99 | some line contains some error string |
| Tools.CheckCvmfs | disk-osg/lib/tools.py:93-99 | the check fails exactly when one of the pieces `readlines_reverse(stdout, 20)` yields (the last twenty lines, or twenty-one pieces when the file does not end in a newline) contains a CVMFS error string; no log passes |
| SortDict.InsertPos | disk-osg/lib/tools.py:34-53 | a new entry goes after every entry at least as large and before the first smaller one |
| SortDict.PlaceMultiset | disk-osg/lib/tools.py:40-52 | placing an entry adds exactly that entry |
| SortDict.PlaceOrdered | disk-osg/lib/tools.py:40-52 | placing an entry keeps the order non-increasing |
| SortDict.PlaceWithScore | disk-osg/lib/tools.py:40-52 | placing an entry appends it after the entries with the same field |
| SortDict.SortPermutes | disk-osg/lib/tools.py:34-53 | `sort_dict` is a permutation of the dictionary's entries |
| SortDict.SortOrdered | disk-osg/lib/tools.py:34-53 | its result is non-increasing in the field |
| SortDict.SortStable | disk-osg/lib/tools.py:34-53 | entries with equal fields keep their order |
| SortDict.SortKeepsEntries | disk-osg/lib/tools.py:34-53 | the result has the same entries and length |
| SortDict.SortedHas | disk-osg/lib/tools.py:34-53 | an entry is in the result iff it is in the dictionary |
| SortDict.SortedFrom | disk-osg/lib/tools.py:34-53 | every result entry comes from the dictionary |
| SortDict.SortDistinct | disk-osg/lib/tools.py:34-53 | distinct keys stay distinct |
| SortDict.SortExample | disk-osg/lib/tools.py:34-53 | totals 5, 9, 3 sort to 9, 5, 3 |
| Tables.ColumnFormat | disk-osg/lib/table.py:19-24 | a column's format `%-ws` is one word |
| Tables.AddColumn | disk-osg/lib/table.py:33-39 | adding something that is not a column is the TypeError; a column is appended with an empty tally list and the width grows by the column plus a separator |
| Tables.FormatSplits | disk-osg/lib/table.py:33-39 | the row format splits back into the columns' formats |
| Tables.RenderShape | disk-osg/lib/table.py:51-58 | a rendered row has the columns' widths plus separators, and each column's slot holds its padded cell |
| Tables.Truncate | disk-osg/lib/table.py:51-58 | a value too wide for its column keeps its tail behind a `*`, at the column's width; others are unchanged |
| Tables.CellShape | disk-osg/lib/table.py:51-58 | a cell shows the stripped value padded, or `*` and its tail when too wide |
| Tables.RowTexts | disk-osg/lib/table.py:51-58 | each value is cut for its own column |
| Tables.ValuesToRow | disk-osg/lib/table.py:51-58 | a row is as wide as the table's format |
| Tables.RowCells | disk-osg/lib/table.py:51-58 | the i-th slot of a row holds the i-th value's cell |
| Tables.Tally | disk-osg/lib/table.py:43-50 | a row adds its numeric values to the tallies of the columns that tally, and changes nothing else |
| Tables.AddRow | disk-osg/lib/table.py:40-42 | adding a row appends its right-stripped text and tallies its values |
| Tables.StoredRow | disk-osg/lib/table.py:40-42 | the stored row is the rendered row without its trailing spaces |
| Tables.Trunc | disk-osg/lib/table.py:60-73 | `int(x)` truncates toward zero |
| Tables.TallyOf | disk-osg/lib/table.py:60-73 | a tally cell is blank without a tally or values; `avg` gives the mean of a positive sum and the raw sum otherwise; other tallies give the whole sum |
| Tables.TallyCells | disk-osg/lib/table.py:60-73 | the tally row starts with its label, then one cell per later column |
| Tables.GetTallies | disk-osg/lib/table.py:60-73 | the tally row fits the table's width |
| Tables.TalliesOpen | disk-osg/lib/table.py:60-73 | the tally row starts with `tally` |
| Tables.Rule | disk-osg/lib/table.py:74-78 | the rule is `null_field` repeated to the table's width, capped |
| Tables.HeaderLines | disk-osg/lib/table.py:74-78 | the header is a rule, the names and a rule |
| Tables.ShowLines | disk-osg/lib/table.py:79-84 | the printed table is header, rows, tallies, header: seven lines plus one per row |
| Tables.AddCondorColumn | disk-osg/lib/table.py:92-93 | a condor column is appended with its attribute name |
| Tables.Munge | disk-osg/lib/table.py:105-128 | a missing value shows `null_field`; only text replaces a value; a valid state code shows its status's letter and any other status value stays; zero starts and a zero date show `null_field`; a signal flag shows `Y` exactly for true; any other attribute is shown unchanged |
| Tables.MungeNeverMissing | disk-osg/lib/table.py:105-128 | a munged value is never missing |
| Tables.MungeStatusInjective | disk-osg/lib/table.py:105-128 | distinct states show distinct letters |
| Tables.MungeStatusIdempotent | disk-osg/lib/table.py:105-128 | munging a status twice changes nothing more |
| Tables.JobToValues | disk-osg/lib/table.py:94-95 | a job's values are its columns' attributes, munged |
| Tables.AddJob | disk-osg/lib/table.py:98-100 | adding a job appends the job's row |
| Tables.AddJobs | disk-osg/lib/table.py:101-104 | adding jobs keeps the columns |
| Tables.AddJobsRows | disk-osg/lib/table.py:101-104 | adding jobs appends their rows in order |
| Tables.AddJobsRow | disk-osg/lib/table.py:101-104 | the k-th new row is the k-th job's |
| Timeline.WeightOfTag | disk-osg/lib/timeline.py:25-31 | the records tagged with a counter are those whose status counts under it |
| Timeline.OverallCounts | disk-osg/lib/timeline.py:25-31 | summed over the clusters, the running, idle, held and other counters count every such record once |
| Timeline.Starts | disk-osg/lib/timeline.py:34-41 | only positive start counts are kept |
| Timeline.MeanStarts | disk-osg/lib/timeline.py:42-44 | the attempts figure is 0 without starts and otherwise their mean |
| Timeline.MeanStartsRange | disk-osg/lib/timeline.py:34-44 | the attempts figure is 0 exactly when nothing started, and at least one otherwise |
| Timeline.SiteRuns | disk-osg/lib/timeline.py:45-48 | a site and figure appear exactly for a named site line with that running count |
| Timeline.MakeEntry | disk-osg/lib/timeline.py:21-53 | the entry is stamped with the clock, has the mean starts, and maps the site summary's named sites to their running counts |
| Timeline.EntryGlobal | disk-osg/lib/timeline.py:25-33 | the global counters are the numbers of running, idle, held and other records |
| SiteSummary.SiteRunning | disk-osg/lib/summary.py:56-63 | a site's group counts its running records |
| Timeline.LineAtSite | disk-osg/lib/timeline.py:45-48 | a named site line belongs to a site some record has, with that site's running count |
| Timeline.SiteHasLine | disk-osg/lib/timeline.py:45-48 | every site some record has gets a line |
| Timeline.EntrySites | disk-osg/lib/timeline.py:45-48 | a site is in the entry exactly when some record has it, with the number of its running records |
| Probe.DeriveFields | disk-osg/condor-probe.py:83-100 | the log fields are derived together, exactly when the log path matches the pattern |
| Probe.MungeAll | disk-osg/condor-probe.py:83-100 | the pass raises the TypeError of `re.search` exactly when some record's UserLog is present but not text; otherwise every record keeps its key and gets its log fields, and a mismatch only adds a warning, under the keys whose parsed id differs |
| Probe.Annotated | disk-osg/condor-probe.py:83-98 | every record keeps its key and its job and gets the fields derived from its log path |
| Probe.Warnings | disk-osg/condor-probe.py:99-100 | a key is warned about exactly when its record's parsed id differs from it |
| Probe.CondorMatch | disk-osg/condor-probe.py:102-117 | the match raises exactly when there is a condor criterion and the record has no condor id; otherwise a record passes iff all three lists are empty or any criterion of any list names the record |
| Probe.UserFilterAgrees | disk-osg/condor-probe.py:102-117 | without dashes, the probe's user test agrees with the pipeline's matcher |
| Probe.DashIsLiteral | disk-osg/condor-probe.py:102-117 | the probe has no vetoes: `-alice` is a literal name, unlike in the pipeline |
| Probe.UnmarkedPrefix | disk-osg/condor-probe.py:221-222 | removing `undefined` never creates a prefix that was not there |
| Probe.NoUndefinedLeft | disk-osg/condor-probe.py:221-222 | after the replacement no `undefined` is left |
| Probe.UnmarkedKeeps | disk-osg/condor-probe.py:221-222 | text without `undefined` is unchanged |
| Probe.UnmarkedTwice | disk-osg/condor-probe.py:221-222 | the replacement is idempotent |
| Probe.Cleaned | disk-osg/condor-probe.py:218-222 | an absent value is `n/a`; a text never keeps `undefined`; numbers pass through |
| Probe.DropFirstWordTokens | disk-osg/condor-probe.py:230-231 | dropping the first word of the arguments removes exactly their first token |
| Probe.StatusText | disk-osg/condor-probe.py:228-229 | a state code shows its letter; text shows as `None` |
| Probe.CellOf | disk-osg/condor-probe.py:217-232 | a date that is absent or zero shows `n/a`; a status shows its letter, or `None` when the table lacks it; the arguments lose their first word; any other cell shows the value with `undefined` replaced |
| Probe.PlainCellClean | disk-osg/condor-probe.py:218-222 | a plain cell never shows `undefined`, and an absent one shows `n/a` |
| Probe.ProbeColumns | disk-osg/condor-probe.py:191-200 | the probe's table is the id column followed by the nine attribute columns |
| Probe.FormatIsTableFormat | disk-osg/condor-probe.py:201-204 | for any attribute list, `%-14.14s` followed by ` %-W.Ws` per attribute is the table module's format of the id column and those attributes, joined by spaces |
| Probe.ProbeWidths | disk-osg/condor-probe.py:191-204 | a probe row is 111 characters wide |
| Probe.Header | disk-osg/condor-probe.py:205-206 | the header line is 111 characters wide |
| Probe.RowTexts | disk-osg/condor-probe.py:215-233 | the first cell is the record's key, the rest its cleaned attributes |
| Probe.TabulateRow | disk-osg/condor-probe.py:215-233 | every row is as wide as the header |
| Probe.RowCell | disk-osg/condor-probe.py:215-233 | the i-th slot of a row holds the i-th cell padded |
| Probe.RowShowsKey | disk-osg/condor-probe.py:215-233 | a row starts with the record's composite id |
| Probe.Admitted | disk-osg/condor-probe.py:269-272 | the loop prints exactly the records that pass the filter |
| Probe.AdmittedConcat | disk-osg/condor-probe.py:269-272 | filtering two runs one after the other concatenates their results, so snapshot order is kept |
| Probe.AdmittedOne | disk-osg/condor-probe.py:271-272 | a single record is kept exactly when `condor_match` admits it |
| Probe.FaultError | disk-osg/condor-probe.py:102-233 | a record without a condor id under a condor criterion raises the `NoneType` split error in `condor_match`; otherwise the record's non-text `Args` raises the split error naming its own type (`int` or `bool`) |
| Probe.FirstFault | disk-osg/condor-probe.py:269-292 | there is no fault exactly when every record tabulates, and otherwise the error is that of the first record the loop raises on |
| Probe.TableBody | disk-osg/condor-probe.py:269-292 | row k is `tabulate_row` of the k-th admitted record, one row of header width per admitted record |
| Probe.TableOutput | disk-osg/condor-probe.py:267-305 | the run raises, printing nothing, exactly when some record makes `condor_match` or `tabulate_row` raise, with the error of the first such record; otherwise nothing is printed without admitted records, and else the admitted records' rows, in order, sit between two headers |
| Probe.Decoded | disk-osg/condor-probe.py:134-137 | an undecodable character reads as `?` |
| Probe.ReadlinesReverse | disk-osg/condor-probe.py:122-145 | the probe's reverse reader returns the generic trailing lines of the decoded text |
| Probe.ReadableAsText | disk-osg/condor-probe.py:122-145 | on readable text it agrees with the pipeline's reader |
| Probe.ContainsJoin | disk-osg/condor-probe.py:147-156 | a needle without newlines occurs in the text iff it occurs in one of its lines |
| Probe.AnyLineHas | disk-osg/condor-probe.py:147-156 | some line contains some error string |
| Probe.CheckCvmfs | disk-osg/condor-probe.py:147-156 | the check fails exactly when the error log exists and contains one of the probe's CVMFS error strings; no log passes |
| Probe.CvmfsByLines | disk-osg/condor-probe.py:147-156 | scanning line by line finds the same errors as scanning the whole text |
| Probe.LinesHave | disk-osg/condor-probe.py:147-156 | for needles without a newline, some line holds some needle exactly when the whole text does |
| Probe.Opts | disk-osg/condor-probe.py:256-259 | `-hold` is passed iff held jobs are asked for, `-run` only for running jobs without held |
| Probe.QueueQuery | disk-osg/condor-probe.py:62-68 | `condor_q gemc`, then the condor criteria unchanged, then the state options |
| Probe.HistoryQuery | disk-osg/condor-probe.py:70-81 | `condor_history gemc`, the criteria and the state options, ending with the start of the window |
| Probe.Commands | disk-osg/condor-probe.py:34-81 | the queue is asked unless only completed jobs are wanted, the history when days are asked for; both carry the account, ids and state options |
| Options.CountSet | disk-osg/condor-probe_back.py:1093-1097 | the number of set flags is at most the number of flags |
| Options.CountZero | disk-osg/condor-probe_back.py:1093-1097 | no flag counts exactly when none is set |
| Options.CountAtMostOne | disk-osg/condor-probe_back.py:1093-1097 | adding booleans gives at most one exactly when no two flags are set |
| Options.Validate | disk-osg/condor-probe_back.py:1087-1110 | `-printexit` lists the codes; otherwise the run proceeds iff at most one state and one action flag is set, `-completed` has `-hours` or `-input`, the host is the submit host or there is `-input`, and a plot has a display; `-exit` turns on `-parseexit`; the state message takes precedence over the action message |
| Options.ValidatedOptions | disk-osg/condor-probe_back.py:1093-1107 | options that pass have at most one state and one action, `-parseexit` with `-exit`, and a window for `-completed` |
| Options.HeldAndRunningRefused | disk-osg/condor-probe_back.py:1093-1094 | asking for held and running jobs together is the state error |
| Options.NegativeText | disk-osg/condor-probe_back.py:47-48 | `str(n)` starts with a dash exactly for a negative n |
| Options.Constraints | disk-osg/condor-probe_back.py:46-48 | the scheduler constraints are the criteria that do not start with a dash |
| Options.ConstraintsOfIds | disk-osg/condor-probe_back.py:46-48 | for integer ids, the constraints are the non-negative ids |
| Options.QueryOpts | disk-osg/condor-probe_back.py:49-53 | `-hold` iff held and `-run` iff running |
| Options.ValidatedOpts | disk-osg/condor-probe_back.py:49-53 | after validation at most one state option is passed |
| Options.QueueCommand | disk-osg/condor-probe_back.py:115-121 | `condor_q gemc` with the constraints, state options and JSON output |
| Options.HistoryCommand | disk-osg/condor-probe_back.py:123-130 | `condor_history gemc` with the constraints, JSON output and the completion window |
| Options.QueryCommands | disk-osg/condor-probe_back.py:54-58 | the queue is asked iff not only completed jobs or a plot is wanted, the history iff hours are positive, queue first |
| Options.JobActions | disk-osg/condor-probe_back.py:1152-1177 | hold comes first iff `-hold`; vacate iff due; the host is reported on a CVMFS or xrootd failure; a row is added only without vacate, cvmfs, xrootd and tail; the log is tailed iff `-tail` |
| Options.LoopActions | disk-osg/condor-probe_back.py:1152-1177 | the loop takes an action for a key iff some record with that key calls for it |
| Options.LoopHas | disk-osg/condor-probe_back.py:1152-1177 | the loop's actions are those of its records |
| Options.MainLoop | disk-osg/condor-probe_back.py:1152-1177 | the loop raises exactly when `condor_yield` does; when it does not, a key gets an action iff an admitted record under it calls for it |
| Options.MungedActionsReady | disk-osg/condor-probe_back.py:155 | every record the munge pass hands on can have its stdout read by `check_cvmfs` (line 755): the derived `.out` path never ends in `.gz` |
| Options.ReachedReady | disk-osg/condor-probe_back.py:1152-1177 | the records the loop reaches and admits are ready for their actions |
| Options.HoldsAdmitted | disk-osg/condor-probe_back.py:1152-1155 | a job is held iff `-hold` is given and the loop reaches and admits the job |
| Options.VacatesDue | disk-osg/condor-probe_back.py:1157-1161 | a job is vacated iff the loop reaches and admits it and it is running and past the wall-hour limit |
| Options.StageOf | disk-osg/condor-probe_back.py:1131-1152 | the loop runs iff none of timeline, json and plot is asked; timeline comes before json |
| Options.RowCount | disk-osg/condor-probe_back.py:1176-1177 | there are no rows exactly when no action added one |
| Options.Sections | disk-osg/condor-probe_back.py:1178-1190 | nothing is reported with `-tail`, `-cvmfs` or no rows; otherwise the chosen table comes first, the exit summary appears iff held or idle with `-parseexit`, and efficiency comes last |
| Options.Report | disk-osg/condor-probe_back.py:1152-1190 | a report is printed only when the loop did not raise |
| Options.ReportNeedsRow | disk-osg/condor-probe_back.py:1176-1190 | a report is printed only when some record added a row |
| Options.VacateSuppressesReport | disk-osg/condor-probe_back.py:1157-1190 | with a positive `-vacate` nothing is reported |

## Left out

- Process calls (`subprocess.check_output` for `condor_q`, `condor_history`, `condor_hold` and `condor_vacate_job`) are not modelled; their JSON replies come in as values, because they are I/O.
- `json.loads`, `json.dumps` and `condor_write` are not modelled; the reply is a `JsonDoc` value, because they are I/O.
- File reading is a parameter `files: map<string, string>`. A `.gz` log is never read: `readlines` and `readlines_reverse` hand it to `gzip.open(filename, errors='replace')`, which raises ValueError because binary mode takes no `errors` argument, so every path read must be openable as text (`Tools.Openable`). The derived `.err` and `.out` paths never end in `.gz` (`Normalize.DerivedLogsOpenable`).
- The clock (`datetime.now`), `-end` parsing and the date text of the tables are parameters (`now`, `end`, `since`, `showDate`, `dateText`), because they read the environment.
- The host name and `$DISPLAY` are the `Options.Env` parameter, because they read the environment.
- Floating-point formatting (`%.2f`, `%.1f`, `%.3e`, `%6.2f`) is a parameter (`fixed1`, `showReal`) or left out, because Dafny has no binary floats.
- Normalize.WallCenti: wall hours are exact hundredths rounded half up rather than a binary float formatted with `%.2f`, so ties may round differently. The code subtracts naive local datetimes made by `fromtimestamp`; the model subtracts epoch seconds, so a run that spans a daylight-saving change can differ by an hour; the time zone is part of the environment and is left out.
- Normalize.MungeWith: the attributes typed as plain values (`Args`, `RemoteUserCpu`, `CumulativeRemoteUserCpu`, `NumJobStarts`, and `JobStatus` as a key) are taken to be present; the KeyError or TypeError of a missing one is not modelled.
- ClusterSummary.AddRecord: `TotalSubmitProcs` is taken to be a present integer (`Jobs.Attrs.totalSubmitProcs`); the KeyError when a cluster's first record lacks it and the TypeError when it is null (`disk-osg/lib/summary.py:33`) are not modelled, because the scheduler writes it for every job of the `gemc` account.
- Filter.Admit: stated for records that have a condor id; the AttributeError `condor_match` raises on the others is modelled by `Filter.Reached` and `Filter.Yield`.
- Jobs.AddEntry: an id is an integer, absent, or not a number; a float id, which `%d` truncates, and a boolean id are not modelled.
- Options.JobActions: the host report prints `MATCH_GLIDEIN_Site + ' ' + LastRemoteHost + ' ' + cid`, which raises a TypeError when the site is missing or null, or when `LastRemoteHost` is present but null. The model treats a null `LastRemoteHost` as absent and emits `ReportHost` without checking the site, so `Options.MainLoop` does not raise on such a record under `-cvmfs` or `-xrootd`.
- Options.MainLoop: raises exactly when `condor_yield` does; the host report's TypeError (see `Options.JobActions`) is not among its raises.
- Tables.TallyOf: `disk-osg/lib/table.py:66` tests `tally is 'avg'`, which depends on string interning; the model reads it as `==`, which is what interned literals give.
- Tally.Contribution: stated for records the tally can charge (`Tally.TallyReady`); every record the munge pass hands on is one (`Tally.MungedTallyReady`), and the pass raises on the others before they are tallied.
- Tables.Munge: an `ExitBySignal` value that is not a flag makes `munge` raise a KeyError; the model requires a flag there (`Tables.MungeDefined`) instead of modelling the error.
- Text.Lower / Text.Strip / Text.ParseFloat / Text.ParseInt: ASCII only. Python's `lower` and `strip` also fold and strip non-ASCII letters and white space (`\x85`, `\xa0`, `\u2028`), `float()` also reads exponents, `inf` and `nan`, and `int()` and `float()` also accept `_` between digits (`"1_0"`); the model does not, because it has no Unicode tables and the scheduler does not write such numbers.
- Tools.Variance: the standard deviation is stated through its square; `math.sqrt` is left out because reals have no square root here. The mean it measures from is rounded as `Tools.Centi` rounds.
- Tools.Centi: '%.2f' rounds the binary double to even at an exact tie; the model rounds an exact real tie up, and computes in exact reals, so a value within a binary rounding error of a tie may round the other way. `Normalize.Eff` and `Normalize.Ceff` are rounded with it, as `eff` and `ceff` are stored as '%.2f' text and read back by `float()`.
- Timeline.MeanStarts: the mean of starts is not rounded to two places.
- ClusterSummary.Collapse: the averages are unrounded reals.
- EfficiencySummary.Summarize: the figures are reals, not their `%.3e` and `%.1f` renderings.
- Plotting (`condor_plot`, `set_histos_max` and `condor_plot.py`) is left out, because it draws with ROOT.
- `disk-cleanup.py` is left out, because it deletes files and is not part of the record pipeline.
- `timeline` (the copying of the JSON file to the web directory) is left out, because it is file I/O; its entry is `Timeline.MakeEntry`.
- `tail_log` is left out, because it prints files; `Options.JobActions` records the `TailLog` action.
- The probe's `__condor_get` and `__crawl` are left out, because they walk the scheduler's files.
- The probe's JSON dump, tail and host printing are left out, because they are output.
- `argparse` itself is left out; the parsed options are `Options.CliArgs`, because parsing is library code.
- `disk-osg/condor-probe.py:79` reads the main block's global `opts` inside `condor_history`. The model passes that value explicitly.
- The generator cache's effect on I/O is left out: `Normalize.CacheNeverHits` shows it never avoids a read, so the model always parses the script.
- Probe.CheckCvmfs: the probe reads the whole error log with `errors='replace'` decoding; the model reads the file as text.

## Copies of the same code

The scripts carry several copies of the library. The model has one module per
concept, and it stands for all of them:

- `disk-osg/condor.py` repeats `lib/condor.py` with the matcher and the summaries.
  The query is at 24-40, munge at 112-156, tally at 157-178, wall hours at 179-199,
  yield at 200-204 and the `Matcher` class at 205-232. `condor_match` is at 240-289
  and `get_status_key` at 290-301. The summaries are at 302-395 and `get_generator`
  at 396-416.
- `disk-osg/tools.py` repeats `lib/tools.py` at 1-117, then `make_timeline_entry`
  at 118-151 and `tail_log` at 189-206.
- `disk-osg/condor-probe_back.py` holds every function again. The query is at 44-58,
  munge at 132-176, tally at 177-197 and `Matcher` at 225-259. `condor_match` is at
  260-309 and the summaries at 336-428. `sort_dict` is at 691-711, the readers and
  checks at 712-779, and `make_timeline_entry` at 802-835. The tables are at
  890-1000, and the command line and main loop at 1051-1190.

The copies use the constants without the `config.` prefix and declare the
module-level matcher variables in other places. The `lib/` modules also leave some
names unresolved that the single-file copies define, so as files of their own they
would stop with a NameError where the copies run:

- `lib/table.py` reads `config.null_field` and `config.job_states` (lines 72, 75,
  77, 108-121) without importing `config`.
- `lib/summary.py` calls `condor_yield` and `get_status_key` (lines 24, 32, 56, 63,
  79), and `lib/timeline.py` calls `condor_yield` (line 35), without importing
  `condor`.
- `tail_log` in `lib/tools.py` reads `args` and `job_table` (lines 121-129), which
  it neither receives nor imports.

The model follows the copies on these points: each name means what the single-file
copies define it to be.
