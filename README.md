# ERA-Interim RAPID batch planner, in Dafny

`era_interim_rapid_process.py` runs the historical ERA-Interim discharge
batch. It cleans week-old logs, catalogues the watershed input folders and
takes an inventory of the runoff files. Then, watershed by watershed, it
looks up the weight table and the routing input files and builds the
downscaling jobs. Last, it sets up the RAPID routing run.

This project models the deterministic planning in that script and proves
what it promises. The external tools are left out: the conversion to
inflow, the worker pool, RAPID itself and the FTP download.

Each module has its own file:

- `results.dfy`: `Option` and `Result`.
- `text.dfy`: the Python 2 string operations the script relies on, all on
  byte strings. These are `split("-")` with its inverse `join`, `endswith`,
  ASCII-only `lower()` and POSIX `os.path.join`.
- `string_order.dfy`: Python 2 string comparison, and a reference sort
  that stands in for `sorted`.
- `file_search.dfy`: `case_insensitive_file_search` over a given directory
  listing. Patterns are made of literals, the wildcard `.` and backslash
  escapes, matched ignoring ASCII case anywhere in the name.
- `catalog.dfy`: the filter on `<io root>/input`. An entry is kept when it
  is a directory whose name has exactly one hyphen. The module also splits
  such a name into watershed and subbasin.
- `inventory.dfy`: the `.nc` files reported by `os.walk`, joined to their
  directory and sorted.
- `downscale.dfy`: the job tuples, the accumulator's `size_time`, and the
  RAPID time constants.
- `batch.dfy`: the lookup patterns, one watershed iteration, the loop over the watersheds, and
  the batch as a whole, starting with the log cleanup.
- `log_stamps.dfy`: `datetime.strptime(name, "%y%m%d%H%M%S.log")` as
  Python 2.7 runs it, the proleptic Gregorian day count of `datetime`, and
  the strict seven-day age test.
- `log_retention.dfy`: `clean_logs`, as a class over the log directory's
  entries whose method removes the expired logs.

File-system state comes in as parameters:

- a listing is a sequence of entries, each a name and whether it is a
  directory;
- `os.walk` is a sequence of (directory, file name) pairs;
- `os.listdir` of a watershed folder is a function from path to names;
- the current UTC time is a `DateTime` value.

## Model

| member | source | states |
|---|---|---|
| Text.SplitCount | era_interim_rapid_process.py:100 | `split("-")` yields one more piece than there are hyphens, so "two pieces" means "exactly one hyphen" |
| Text.SplitPiecesFree | era_interim_rapid_process.py:132-134 | no piece of a split contains the separator |
| Text.SplitJoin | era_interim_rapid_process.py:132-134 | joining the pieces with the separator gives back the name |
| Text.SplitAtSoleSeparator | era_interim_rapid_process.py:132-134 | a name with one separator splits into the text before it and the text after it |
| Text.JoinPath | era_interim_rapid_process.py:135-137 | `os.path.join(a, b)` ends with `b` and, for a relative `b`, starts with `a` |
| StringOrder.LexLeTotal | era_interim_rapid_process.py:120 | any two strings are comparable in the order `sorted` uses |
| StringOrder.LexLeTransitive | era_interim_rapid_process.py:120 | that order is transitive |
| StringOrder.LexLeAntisymmetric | era_interim_rapid_process.py:120 | strings that compare both ways are equal |
| StringOrder.Sort | era_interim_rapid_process.py:120 | the sorted list is ascending and a permutation of its input |
| StringOrder.SortedPermutationUnique | era_interim_rapid_process.py:120 | two ascending arrangements of the same strings are the same list |
| FileSearch.SearchSpec | era_interim_rapid_process.py:42 | `re.search` succeeds exactly when the pattern matches the name at some position |
| FileSearch.MatchesIgnoringCase | era_interim_rapid_process.py:42 | under `re.IGNORECASE` a pattern matches a name at a position exactly when it matches the lower-cased name there |
| FileSearch.SearchIgnoringCase | era_interim_rapid_process.py:42 | so `re.search` finds a name exactly when it finds its lower-cased form |
| FileSearch.FirstMatch | era_interim_rapid_process.py:41-42 | the index found is of a matching name with no matching name before it, and there is none exactly when no name matches |
| FileSearch.FindFile | era_interim_rapid_process.py:35-45 | the lookup succeeds exactly when some name matches, and returns the directory joined with the first match in listing order; otherwise it fails naming the pattern |
| WatershedCatalog.WatershedNames | era_interim_rapid_process.py:97-103 | every kept name has exactly one hyphen |
| WatershedCatalog.ListWatershedDirectories | era_interim_rapid_process.py:97-103 | the append loop yields exactly the filtered names, in listing order |
| WatershedCatalog.WatershedNamesMembership | era_interim_rapid_process.py:98-101 | a name is kept exactly when some listed entry with that name is a directory with one hyphen |
| WatershedCatalog.WatershedNamesAppend | era_interim_rapid_process.py:98-103 | filtering is piecewise: kept names keep their order and a skipped entry affects nothing else |
| WatershedCatalog.WatershedAndSubbasin | era_interim_rapid_process.py:132-134 | the name is watershed, hyphen, subbasin, and neither part has a hyphen |
| WatershedCatalog.AcceptedNameSplits | era_interim_rapid_process.py:99-100 | every `<watershed>-<subbasin>` without further hyphens (empty halves included) is accepted and split back into those two parts |
| RunoffInventory.CollectRunoffFiles | era_interim_rapid_process.py:114-120 | the inventory is sorted and holds exactly the joined paths of the `.nc` files the walk reports, each as often as it is reported |
| RunoffInventory.RunoffPathsMembership | era_interim_rapid_process.py:115-118 | a path is collected exactly when the walk reports a `.nc` file at that path |
| RunoffInventory.RunoffPathsEndInNc | era_interim_rapid_process.py:117-118 | every collected path ends in `.nc` |
| RunoffInventory.RunoffPathsAppend | era_interim_rapid_process.py:115-118 | collecting over two parts of a walk is collecting over each in turn |
| RunoffInventory.RunoffPathsPermutation | era_interim_rapid_process.py:115-118 | a reordered walk collects a reordering of the same paths |
| RunoffInventory.InventoryIndependentOfWalkOrder | era_interim_rapid_process.py:114-120 | after sorting, the inventory does not depend on the order the walk reports files in |
| Downscale.BuildJobs | era_interim_rapid_process.py:157-164 | the `enumerate` loop yields the job list of the inventory |
| Downscale.JobsBijection | era_interim_rapid_process.py:157-164 | N jobs for N files; the time indices are exactly 0..N-1 with no repeats; each job converts the file at its own index; all carry the same weight table and accumulator, and the lower-cased watershed and subbasin |
| Downscale.AccumulatorTimeSize | era_interim_rapid_process.py:154 | the accumulator has one time slot per runoff file plus one |
| Downscale.RoutingParametersFor | era_interim_rapid_process.py:122-128 | `ZS_dtM` is one day, `ZS_TauR` equals it, `ZS_TauM` is N input steps, and `ZS_dtR` is 900 s, a 96th of `ZS_TauR` |
| Downscale.JobsFitAccumulator | era_interim_rapid_process.py:152-164 | every job writes a slot of the accumulator, and none writes the last slot |
| Downscale.AccumulatorMatchesSimulation | era_interim_rapid_process.py:122-155 | the simulation spans N input steps, and the accumulator has exactly one slot more |
| BatchPlan.WeightTablePattern | era_interim_rapid_process.py:147-148 | `weight_era_interim.csv` denotes the literals `weight_era_interim`, a wildcard in place of the dot, then `csv` |
| BatchPlan.ConnectPattern | era_interim_rapid_process.py:178-179 | `rapid_connect\.csv` denotes the literal text `rapid_connect.csv` |
| BatchPlan.ReachIdPattern | era_interim_rapid_process.py:181-182 | `riv_bas_id\.csv` denotes the literal text `riv_bas_id.csv` |
| BatchPlan.CoefficientPatterns | era_interim_rapid_process.py:183-186 | `k\.csv` and `x\.csv` denote the literal texts `k.csv` and `x.csv` |
| BatchPlan.StationPattern | era_interim_rapid_process.py:190-191 | `comid_lat_lon_z\.csv` denotes the literal text `comid_lat_lon_z.csv` |
| BatchPlan.WeightTableDotMatchesAnyChar | era_interim_rapid_process.py:147-148 | the weight-table lookup finds `weight_era_interim` + any character but a newline + `csv` |
| BatchPlan.EscapedDotMatchesOnlyDot | era_interim_rapid_process.py:185-186 | the `k\.csv` lookup refuses `k` + any character other than a dot + `csv` |
| BatchPlan.PlanWatershedOutcome | era_interim_rapid_process.py:147-191 | an iteration finishes exactly when all six lookups succeed; otherwise it reports the first missing pattern in lookup order, having run no job if the weight table was missing and all of them otherwise |
| BatchPlan.PlanWatershedResult | era_interim_rapid_process.py:131-202 | a finished iteration has the split names, the input and output folders, the jobs, `size_time` N+1, `m3_riv_bas_erai.nc` as accumulator, the first match of each pattern, `Qout_erai.nc`, and a `return_periods.nc` exactly when requested |
| BatchPlan.WatershedStepOutcome | era_interim_rapid_process.py:147-191 | one iteration succeeds exactly when the watershed has all its inputs, and its plan or its abort names that watershed |
| BatchPlan.PlanAllStopsAtFirstFailure | era_interim_rapid_process.py:131-202 | the loop finishes a prefix of the directories in order; it stops exactly when that prefix is not all of them, and then with the next directory's failure |
| BatchPlan.PlanAllStopsAtFirstIncomplete | era_interim_rapid_process.py:131-191 | for an iteration that succeeds exactly on complete watersheds, the loop finishes exactly when all are complete and otherwise stops at the first incomplete one |
| BatchPlan.BatchStopsAtFirstIncompleteWatershed | era_interim_rapid_process.py:96-202 | the batch plans the catalogued watersheds in order, each with all its files; it finishes exactly when every one has them, and otherwise stops at and reports the first that lacks one |
| BatchPlan.PlanWatersheds | era_interim_rapid_process.py:131-202 | the loop computes the same progress as the recursive definition |
| BatchPlan.RunBatch | era_interim_rapid_process.py:81-202 | the run first cleans the log directory, leaving what the retention function keeps; then catalogue, inventory, constants and loop together compute the batch function |
| LogStamps.OrdinalWithinYear | era_interim_rapid_process.py:29 | a valid date's day number lies within its year |
| LogStamps.SecondsIncreasing | era_interim_rapid_process.py:29 | a chronologically later valid stamp has strictly more seconds |
| LogStamps.ExpiredEarlier | era_interim_rapid_process.py:29 | when a stamp is more than a week old, so is every earlier one |
| LogStamps.ExpiryBoundary | era_interim_rapid_process.py:22-29 | the week is strict and counts microseconds: more than 7 days back is expired, less is not, exactly 7 days only past the whole second |
| LogStamps.MatchFieldBounded | era_interim_rapid_process.py:28 | a field read by `strptime` is within its directive's range (the year at most 99) |
| LogStamps.CenturyYear | era_interim_rapid_process.py:28 | `%y` maps 69-99 to 1969-1999 and 00-68 to 2000-2068, keeping the last two digits |
| LogStamps.CenturyYearOfLastDigits | era_interim_rapid_process.py:28 | every year 1969-2068 is recovered from its last two digits |
| LogStamps.ParseLogName | era_interim_rapid_process.py:28 | a parsed stamp is a valid date and time in 1969-2068, and the name ends in `.log` in some case |
| LogStamps.MatchRendered | era_interim_rapid_process.py:28 | zero-padded fields followed by `.log` are read back whole, from the first alternatives |
| LogStamps.ParseZeroPadded | era_interim_rapid_process.py:28 | a zero-padded name is read as its fields, and accepted exactly when they form a valid date and time |
| LogStamps.ParseLogNameRoundTrip | era_interim_rapid_process.py:28 | reading back `strftime("%y%m%d%H%M%S.log")` of a valid stamp in 1969-2068 gives the stamp |
| LogStamps.VariableWidthName | era_interim_rapid_process.py:28 | `1611151234.log` is read as 2016-11-15 12:03:04, after backtracking from a two-digit minute |
| LogStamps.RefusedDayOfMonth | era_interim_rapid_process.py:28 | a 31 November is refused |
| LogStamps.RefusedLeapSecond | era_interim_rapid_process.py:28 | second 60 matches the pattern but is refused |
| LogStamps.UnconvertedDataRefused | era_interim_rapid_process.py:28 | anything after `.log` makes the name unparsable |
| LogStamps.RefusedSuffix | era_interim_rapid_process.py:28 | a name ending in `.txt` is unparsable |
| LogRetention.LogDirectory.CleanLogs | era_interim_rapid_process.py:18-33 | after the loop, the directory is what the retention function keeps of the old directory |
| LogRetention.RemainingAfterOneMore | era_interim_rapid_process.py:26-30 | examining one more entry removes it if it is an expired log, and nothing else |
| LogRetention.RetainedEntries | era_interim_rapid_process.py:25-30 | an entry stays exactly when it is not an expired log, unchanged; directories and unparsable names always stay |
| LogRetention.CleanupIdempotent | era_interim_rapid_process.py:18-33 | cleaning twice at the same time removes nothing more |
| LogRetention.LaterCleanupRemovesMore | era_interim_rapid_process.py:22-30 | a later cleanup keeps no entry an earlier one removed |
| LogRetention.LogNameDeletedWhenExpired | era_interim_rapid_process.py:28-30 | a log named from a stamp is removed exactly when that stamp is more than a week old |
| LogRetention.EarlierLogsDeletedFirst | era_interim_rapid_process.py:28-30 | when a log is removed, so is every log of an earlier stamp |

## Behaviours worth knowing

The script does some things a reader might not expect. The model keeps
them:

- An empty runoff inventory is not an error. The batch goes on with
  `size_time` 1, `ZS_TauM` 0 and no jobs.
- A missing required file raises out of the loop, so the whole batch
  stops. The remaining watersheds are not processed.
- The filter accepts names with an empty half, such as `-x` or `x-`.
- The lookup takes the first match in listing order and does not detect
  ambiguity.
- The weight-table pattern `weight_era_interim.csv` leaves its dot
  unescaped, so it also matches any character there.
- The jobs for a watershed run before the routing inputs are looked up.
  An abort on a routing input therefore reports the jobs already run.

## Left out

- The FTP download of the archives (lines 106-110): network I/O.
- The conversion code: `CreateInflowFileFromERAInterimRunoff.execute` and
  `generateOutputInflowFile` are external NetCDF code. The model keeps only
  the arguments they get: the job tuples, `out_nc` and `size_time`.
- The `multiprocessing.Pool` fan-out: concurrency. The model keeps the job
  list and assumes every job completes. A failing job is not modelled.
- RAPID itself: `update_parameters` is modelled as the values handed to it.
  Left out are `update_reach_number_data`, `run`, the CF-compliance
  rewrite and `generate_return_periods`, which are an external executable
  and unseen libraries.
- `os.makedirs` and its ignored `OSError`, the timing and the `print`
  output: I/O and wall-clock logging.
- The recursion of `os.walk` and the order in which `os.listdir` returns
  names: these are given sequences, in whatever order the file system
  returns them.
- `os.remove` failures in `clean_logs`: the model assumes every removal
  succeeds. A removal error would be printed and the file kept.
- FileSearch.Compile: only literals, `.` and backslash escapes are
  modelled. This covers every pattern the script uses; quantifiers,
  classes and anchors of the full regular-expression language are not
  modelled.
- LogStamps.MatchFieldBounded: it bounds only the first field a match
  reads. The other fields' ranges come out of `ValidStamp` after parsing.
- `strptime` whitespace handling: the day's ` [1-9]` alternative is
  modelled. The collapsing of whitespace in the format string is not
  modelled, since the format has none.
- Python 3: the model is of Python 2 byte strings, so `lower()` and
  `re.IGNORECASE` change ASCII letters only.
