/** The planning side of `run_era_interim_rapid_process`: which watershed
    directories are processed, in which order, with which files, jobs and
    RAPID constants, and where the batch stops when a required input file
    is missing. The conversions and RAPID runs themselves are external. */
module BatchPlan {
  import opened Results
  import opened Text
  import opened StringOrder
  import opened FileSearch
  import opened WatershedCatalog
  import opened RunoffInventory
  import opened Downscale
  import LogStamps
  import LogRetention

  /** The lookup patterns, as written in the source (the weight table's
      dot is not escaped). */
  const WEIGHT_TABLE_REGEX := "weight_era_interim.csv"
  const CONNECT_REGEX := "rapid_connect\\.csv"
  const REACH_ID_REGEX := "riv_bas_id\\.csv"
  const K_REGEX := "k\\.csv"
  const X_REGEX := "x\\.csv"
  const STATION_REGEX := "comid_lat_lon_z\\.csv"

  /** What the weight-table pattern denotes: its unescaped dot is a
      wildcard. */
  lemma WeightTablePattern()
    ensures Compile(WEIGHT_TABLE_REGEX) == Literals("weight_era_interim") + [AnyChar] + Literals("csv")
    ensures Compile(WEIGHT_TABLE_REGEX)[18] == AnyChar
  {
    WildcardDotPattern("weight_era_interim", WEIGHT_TABLE_REGEX);
  }

  /** What the patterns of the RAPID inputs denote: their escaped dots
      are literal. */
  lemma ConnectPattern()
    ensures Compile(CONNECT_REGEX) == Literals("rapid_connect.csv")
  {
    EscapedDotPattern("rapid_connect", CONNECT_REGEX, "rapid_connect.csv");
  }

  lemma ReachIdPattern()
    ensures Compile(REACH_ID_REGEX) == Literals("riv_bas_id.csv")
  {
    EscapedDotPattern("riv_bas_id", REACH_ID_REGEX, "riv_bas_id.csv");
  }

  lemma CoefficientPatterns()
    ensures Compile(K_REGEX) == [Literal('k'), Literal('.'), Literal('c'), Literal('s'), Literal('v')]
    ensures Compile(X_REGEX) == Literals("x.csv")
  {
    EscapedDotPattern("k", K_REGEX, "k.csv");
    EscapedDotPattern("x", X_REGEX, "x.csv");
  }

  lemma StationPattern()
    ensures Compile(STATION_REGEX) == Literals("comid_lat_lon_z.csv")
  {
    EscapedDotPattern("comid_lat_lon_z", STATION_REGEX, "comid_lat_lon_z.csv");
  }

  /** `<name>\\.csv` compiles to the literal text `<name>.csv`. */
  lemma EscapedDotPattern(name: string, r: string, text: string)
    requires Plain(name) && r == name + "\\.csv" && text == name + ".csv"
    ensures Compile(r) == Literals(text)
  {
    CompilePlainPrefix(name, "\\.csv");
    CompilePlainPrefix("csv", "");
    assert Compile("\\.csv") == [Literal('.')] + Compile("csv");
    assert Literals(text) == Literals(name) + [Literal('.')] + Literals("csv");
  }

  /** `<name>.csv` compiles to the literals of `<name>`, a wildcard and
      the literals of `csv`. */
  lemma WildcardDotPattern(name: string, r: string)
    requires Plain(name) && r == name + ".csv"
    ensures Compile(r) == Literals(name) + [AnyChar] + Literals("csv")
    ensures Compile(r)[|name|] == AnyChar
  {
    CompilePlainPrefix(name, ".csv");
    CompilePlainPrefix("csv", "");
    assert Compile(".csv") == [AnyChar] + Compile("csv");
  }

  /** Because of the wildcard, the weight-table lookup also accepts a name
      with any other character (but a newline) in place of the dot. */
  lemma WeightTableDotMatchesAnyChar(c: char)
    requires c != '\n'
    ensures Search(Compile(WEIGHT_TABLE_REGEX), "weight_era_interim" + [c] + "csv")
  {
    var name := "weight_era_interim" + [c] + "csv";
    var p := Compile(WEIGHT_TABLE_REGEX);
    WeightTablePattern();
    assert MatchesAt(p, name, 0) by {
      forall k | 0 <= k < |p|
        ensures ElemMatches(p[k], name[k])
      {
        if k < 18 {
          assert p[k] == Literal("weight_era_interim"[k]) && name[k] == "weight_era_interim"[k];
        } else if k > 18 {
          assert p[k] == Literal("csv"[k - 19]) && name[k] == "csv"[k - 19];
        }
      }
    }
    SearchSpec(p, name);
  }

  /** An escaped dot matches only a dot: the `k.csv` lookup refuses a
      name with any other character in its place. */
  lemma EscapedDotMatchesOnlyDot(c: char)
    requires c != '.'
    ensures !Search(Compile(K_REGEX), "k" + [c] + "csv")
  {
    var name := "k" + [c] + "csv";
    var p := Compile(K_REGEX);
    CoefficientPatterns();
    SearchSpec(p, name);
    forall i: nat
      ensures !MatchesAt(p, name, i)
    {
      if i == 0 {
        assert !ElemMatches(p[1], name[1]);
      }
    }
  }

  /** Everything the batch derives for one watershed directory: the
      watershed and subbasin, the input and output folders, the weight
      table and accumulator, the accumulator's time size, the downscaling
      jobs, the RAPID input files and the output files. */
  datatype WatershedPlan = WatershedPlan(
    directory: string, watershed: string, subbasin: string,
    inputDirectory: string, outputDirectory: string,
    weightTable: string, accumulator: string, accumulatorTimeSize: nat, jobs: seq<Job>,
    connectivity: string, reachIds: string, kFile: string, xFile: string,
    stationMetadata: string, discharge: string, returnPeriods: Option<string>)

  /** A missing required file, which ends the whole batch: the watershed
      directory, the pattern that found nothing, and the jobs that had
      already been run for that watershed. */
  datatype Abort = Abort(directory: string, missing: NotFound, jobsRun: seq<Job>)

  function InputDirectory(ioRoot: string, directory: string): string
  {
    JoinPath(JoinPath(ioRoot, "input"), directory)
  }

  function OutputDirectory(ioRoot: string, directory: string): string
  {
    JoinPath(JoinPath(ioRoot, "output"), directory)
  }

  /** The first required file, in the order the source looks them up,
      that the listing lacks. */
  function FirstMissing(directory: string, listing: seq<string>): Option<string>
  {
    if FindFile(directory, WEIGHT_TABLE_REGEX, listing).Failure? then Some(WEIGHT_TABLE_REGEX)
    else if FindFile(directory, CONNECT_REGEX, listing).Failure? then Some(CONNECT_REGEX)
    else if FindFile(directory, REACH_ID_REGEX, listing).Failure? then Some(REACH_ID_REGEX)
    else if FindFile(directory, K_REGEX, listing).Failure? then Some(K_REGEX)
    else if FindFile(directory, X_REGEX, listing).Failure? then Some(X_REGEX)
    else if FindFile(directory, STATION_REGEX, listing).Failure? then Some(STATION_REGEX)
    else None
  }

  /** One iteration of the per-watershed loop, with `listDir` standing for
      `os.listdir` on the watershed's input folder. The lookups run in
      source order: the weight table before the jobs, then the connectivity
      file, reach ids, `k` and `x` files, then the station metadata. */
  function PlanWatershed(ioRoot: string, directory: string, listDir: string -> seq<string>,
                         inventory: seq<string>, returnPeriods: bool): Result<WatershedPlan, Abort>
    requires Count(directory, '-') == 1
  {
    SplitCount(directory, '-');
    var names := WatershedAndSubbasin(directory);
    var inputDirectory := InputDirectory(ioRoot, directory);
    var outputDirectory := OutputDirectory(ioRoot, directory);
    var accumulator := JoinPath(outputDirectory, "m3_riv_bas_erai.nc");
    var listing := listDir(inputDirectory);
    var weightTable := FindFile(inputDirectory, WEIGHT_TABLE_REGEX, listing);
    var connectivity := FindFile(inputDirectory, CONNECT_REGEX, listing);
    var reachIds := FindFile(inputDirectory, REACH_ID_REGEX, listing);
    var kFile := FindFile(inputDirectory, K_REGEX, listing);
    var xFile := FindFile(inputDirectory, X_REGEX, listing);
    var stationMetadata := FindFile(inputDirectory, STATION_REGEX, listing);
    if weightTable.Failure? then Failure(Abort(directory, weightTable.error, []))
    else
      var jobs := JobsFor(names.0, names.1, inventory, weightTable.value, accumulator);
      if connectivity.Failure? then Failure(Abort(directory, connectivity.error, jobs))
      else if reachIds.Failure? then Failure(Abort(directory, reachIds.error, jobs))
      else if kFile.Failure? then Failure(Abort(directory, kFile.error, jobs))
      else if xFile.Failure? then Failure(Abort(directory, xFile.error, jobs))
      else if stationMetadata.Failure? then Failure(Abort(directory, stationMetadata.error, jobs))
      else Success(WatershedPlan(
        directory, names.0, names.1, inputDirectory, outputDirectory,
        weightTable.value, accumulator, AccumulatorTimeSize(|inventory|), jobs,
        connectivity.value, reachIds.value, kFile.value, xFile.value, stationMetadata.value,
        JoinPath(outputDirectory, "Qout_erai.nc"),
        if returnPeriods then Some(JoinPath(outputDirectory, "return_periods.nc")) else None))
  }

  /** Whether one watershed iteration finishes: it does exactly when all
      six required files are found; otherwise it reports the first one
      missing in lookup order, after having run every job of the inventory
      if the weight table was found, and none if it was not. */
  lemma PlanWatershedOutcome(ioRoot: string, directory: string, listDir: string -> seq<string>,
                          inventory: seq<string>, returnPeriods: bool)
    requires Count(directory, '-') == 1
    ensures var r := PlanWatershed(ioRoot, directory, listDir, inventory, returnPeriods);
      var inputDirectory := InputDirectory(ioRoot, directory);
      var listing := listDir(inputDirectory);
      && (r.Success? <==> FirstMissing(inputDirectory, listing).None?)
      && (r.Failure? ==> r.error.directory == directory &&
                         r.error.missing == NotFound(FirstMissing(inputDirectory, listing).value))
      && (r.Failure? && !Finds(WEIGHT_TABLE_REGEX, listing) ==> r.error.jobsRun == [])
      && (r.Failure? && Finds(WEIGHT_TABLE_REGEX, listing) ==>
            |Split(directory, '-')| == 2 &&
            var names := WatershedAndSubbasin(directory);
            r.error.jobsRun == JobsFor(names.0, names.1, inventory,
                                       FindFile(inputDirectory, WEIGHT_TABLE_REGEX, listing).value,
                                       JoinPath(OutputDirectory(ioRoot, directory), "m3_riv_bas_erai.nc")))
  {
    SplitCount(directory, '-');
    var inputDirectory := InputDirectory(ioRoot, directory);
    var listing := listDir(inputDirectory);
    if FindFile(inputDirectory, WEIGHT_TABLE_REGEX, listing).Failure? {
    } else if FindFile(inputDirectory, CONNECT_REGEX, listing).Failure? {
    } else if FindFile(inputDirectory, REACH_ID_REGEX, listing).Failure? {
    } else if FindFile(inputDirectory, K_REGEX, listing).Failure? {
    } else if FindFile(inputDirectory, X_REGEX, listing).Failure? {
    } else if FindFile(inputDirectory, STATION_REGEX, listing).Failure? {
    }
  }

  /** A finished iteration carries the watershed and subbasin on either
      side of the hyphen, one job per inventory file (see JobsBijection),
      an accumulator `m3_riv_bas_erai.nc` in the watershed's output folder
      with one time slot more than there are files, the first file each
      lookup finds, and the discharge and return-period outputs. */
  lemma PlanWatershedResult(ioRoot: string, directory: string, listDir: string -> seq<string>,
                          inventory: seq<string>, returnPeriods: bool)
    requires Count(directory, '-') == 1
    ensures var r := PlanWatershed(ioRoot, directory, listDir, inventory, returnPeriods);
      r.Success? ==> var p := r.value;
      && p.directory == directory
      && directory == p.watershed + "-" + p.subbasin && '-' !in p.watershed && '-' !in p.subbasin
      && p.inputDirectory == InputDirectory(ioRoot, directory)
      && p.outputDirectory == OutputDirectory(ioRoot, directory)
      && p.jobs == JobsFor(p.watershed, p.subbasin, inventory, p.weightTable, p.accumulator)
      && p.accumulatorTimeSize == |inventory| + 1
      && p.accumulator == JoinPath(p.outputDirectory, "m3_riv_bas_erai.nc")
      && FindFile(p.inputDirectory, WEIGHT_TABLE_REGEX, listDir(p.inputDirectory)) == Success(p.weightTable)
      && FindFile(p.inputDirectory, CONNECT_REGEX, listDir(p.inputDirectory)) == Success(p.connectivity)
      && FindFile(p.inputDirectory, REACH_ID_REGEX, listDir(p.inputDirectory)) == Success(p.reachIds)
      && FindFile(p.inputDirectory, K_REGEX, listDir(p.inputDirectory)) == Success(p.kFile)
      && FindFile(p.inputDirectory, X_REGEX, listDir(p.inputDirectory)) == Success(p.xFile)
      && FindFile(p.inputDirectory, STATION_REGEX, listDir(p.inputDirectory)) == Success(p.stationMetadata)
      && p.discharge == JoinPath(p.outputDirectory, "Qout_erai.nc")
      && (returnPeriods <==> p.returnPeriods.Some?)
      && (returnPeriods ==> p.returnPeriods.value == JoinPath(p.outputDirectory, "return_periods.nc"))
  {
    SplitCount(directory, '-');
    var inputDirectory := InputDirectory(ioRoot, directory);
    var listing := listDir(inputDirectory);
    if FindFile(inputDirectory, WEIGHT_TABLE_REGEX, listing).Failure? {
    } else if FindFile(inputDirectory, CONNECT_REGEX, listing).Failure? {
    } else if FindFile(inputDirectory, REACH_ID_REGEX, listing).Failure? {
    } else if FindFile(inputDirectory, K_REGEX, listing).Failure? {
    } else if FindFile(inputDirectory, X_REGEX, listing).Failure? {
    } else if FindFile(inputDirectory, STATION_REGEX, listing).Failure? {
    }
  }

  /** How far the per-watershed loop got: the plans of the watersheds it
      finished, and the missing file that stopped it, if any. */
  datatype Progress = Progress(completed: seq<WatershedPlan>, aborted: Option<Abort>)

  /** One iteration of the loop as a value: the plan of a watershed
      directory, given everything the iterations share. */
  function WatershedStep(ioRoot: string, listDir: string -> seq<string>, inventory: seq<string>,
                         returnPeriods: bool): string --> Result<WatershedPlan, Abort>
  {
    (directory: string) requires Count(directory, '-') == 1 =>
      PlanWatershed(ioRoot, directory, listDir, inventory, returnPeriods)
  }

  /** The per-watershed loop over the catalogued directories, in order; the
      first missing required file raises out of the loop and the remaining
      directories are not processed. */
  function PlanAll(directories: seq<string>, step: string --> Result<WatershedPlan, Abort>): Progress
    requires forall d :: d in directories ==> step.requires(d)
  {
    if directories == [] then Progress([], None)
    else
      assert directories[0] in directories;
      match step(directories[0])
      case Failure(a) => Progress([], Some(a))
      case Success(plan) =>
        var rest := PlanAll(directories[1..], step);
        Progress([plan] + rest.completed, rest.aborted)
  }

  /** The loop plans the directories in order up to the first one whose
      iteration fails: the finished plans are those of a prefix of the
      directories, the batch is aborted exactly when that prefix is not all
      of them, and then the abort is the failure of the next directory. */
  lemma {:induction false} PlanAllStopsAtFirstFailure(directories: seq<string>,
                                                      step: string --> Result<WatershedPlan, Abort>)
    requires forall d :: d in directories ==> step.requires(d)
    ensures var p := PlanAll(directories, step);
      && |p.completed| <= |directories|
      && (forall k :: 0 <= k < |p.completed| ==> step(directories[k]) == Success(p.completed[k]))
      && (p.aborted.None? <==> |p.completed| == |directories|)
      && (p.aborted.Some? ==> step(directories[|p.completed|]) == Failure(p.aborted.value))
  {
    if directories != [] {
      assert directories[0] in directories;
      var rest := directories[1..];
      assert forall d :: d in rest ==> d in directories;
      PlanAllStopsAtFirstFailure(rest, step);
      if step(directories[0]).Success? {
        var p := PlanAll(directories, step);
        var q := PlanAll(rest, step);
        assert p.completed == [step(directories[0]).value] + q.completed;
        forall k | 0 <= k < |p.completed|
          ensures step(directories[k]) == Success(p.completed[k])
        {
          if k > 0 {
            assert directories[k] == rest[k - 1];
            assert p.completed[k] == q.completed[k - 1];
          }
        }
        if p.aborted.Some? {
          assert directories[|p.completed|] == rest[|q.completed|];
        }
      }
    }
  }

  /** Unfolds the loop once at position `i`. */
  lemma PlanAllStep(directories: seq<string>, step: string --> Result<WatershedPlan, Abort>, i: nat)
    requires forall d :: d in directories ==> step.requires(d)
    requires i < |directories|
    ensures directories[i] in directories
    ensures var r := step(directories[i]);
      var rest := PlanAll(directories[i + 1..], step);
      PlanAll(directories[i..], step)
        == if r.Failure? then Progress([], Some(r.error)) else Progress([r.value] + rest.completed, rest.aborted)
  {
    var suffix := directories[i..];
    assert suffix[0] == directories[i] && suffix[1..] == directories[i + 1..];
    assert directories[i] in directories;
  }

  /** Everything one run of the batch decides: the catalogued watershed
      directories, the runoff inventory, the routing constants and how far
      the per-watershed loop gets. */
  datatype BatchRun = BatchRun(directories: seq<string>, inventory: seq<string>,
                               parameters: RoutingParameters, progress: Progress)

  /** The batch as a function of what the file system shows it: the
      listing of `<io root>/input`, the files `os.walk` reports below the
      runoff folder, and the listing of each watershed's input folder. */
  function Batch(ioRoot: string, inputListing: seq<Entry>, walk: seq<WalkFile>,
                 listDir: string -> seq<string>, returnPeriods: bool): BatchRun
  {
    var directories := WatershedNames(inputListing);
    var inventory := Sort(RunoffPaths(walk));
    BatchRun(directories, inventory, RoutingParametersFor(|inventory|),
             PlanAll(directories, WatershedStep(ioRoot, listDir, inventory, returnPeriods)))
  }

  /** Whether a watershed's input folder holds all six required files. */
  predicate HasInputs(ioRoot: string, listDir: string -> seq<string>, directory: string)
  {
    var inputDirectory := InputDirectory(ioRoot, directory);
    FirstMissing(inputDirectory, listDir(inputDirectory)).None?
  }

  /** One iteration succeeds exactly when the watershed has its inputs,
      and its plan or its abort names the watershed's directory. */
  lemma WatershedStepOutcome(ioRoot: string, listDir: string -> seq<string>, inventory: seq<string>,
                             returnPeriods: bool, directory: string)
    requires Count(directory, '-') == 1
    ensures var r := WatershedStep(ioRoot, listDir, inventory, returnPeriods)(directory);
      && (r.Success? <==> HasInputs(ioRoot, listDir, directory))
      && (r.Success? ==> r.value.directory == directory)
      && (r.Failure? ==> r.error.directory == directory)
  {
    PlanWatershedOutcome(ioRoot, directory, listDir, inventory, returnPeriods);
    PlanWatershedResult(ioRoot, directory, listDir, inventory, returnPeriods);
  }

  /** For any iteration that succeeds exactly on the watersheds with all
      their inputs: the loop finishes the watersheds of a prefix of the
      directories, each with its inputs, and stops, if at all, at the first
      watershed without them. */
  lemma PlanAllStopsAtFirstIncomplete(ioRoot: string, listDir: string -> seq<string>, directories: seq<string>,
                                      step: string --> Result<WatershedPlan, Abort>)
    requires forall d :: d in directories ==> step.requires(d)
    requires forall d :: d in directories ==>
      && (step(d).Success? <==> HasInputs(ioRoot, listDir, d))
      && (step(d).Success? ==> step(d).value.directory == d)
      && (step(d).Failure? ==> step(d).error.directory == d)
    ensures var p := PlanAll(directories, step);
      var n := |p.completed|;
      && n <= |directories|
      && (forall k :: 0 <= k < n ==>
            HasInputs(ioRoot, listDir, directories[k]) && p.completed[k].directory == directories[k])
      && (p.aborted.None? <==> forall d :: d in directories ==> HasInputs(ioRoot, listDir, d))
      && (p.aborted.Some? ==>
            n < |directories| && !HasInputs(ioRoot, listDir, directories[n]) &&
            p.aborted.value.directory == directories[n])
  {
    PlanAllStopsAtFirstFailure(directories, step);
    var p := PlanAll(directories, step);
    var n := |p.completed|;
    forall k | 0 <= k < n
      ensures HasInputs(ioRoot, listDir, directories[k]) && p.completed[k].directory == directories[k]
    {
      assert directories[k] in directories;
    }
    if p.aborted.Some? {
      assert directories[n] in directories;
    }
  }

  /** The batch plans the catalogued watersheds in order, each with all
      its required files, and finishes exactly when every catalogued
      watershed has them; otherwise it stops at the first one that lacks
      one, and reports that watershed. */
  lemma BatchStopsAtFirstIncompleteWatershed(ioRoot: string, inputListing: seq<Entry>, walk: seq<WalkFile>,
                                             listDir: string -> seq<string>, returnPeriods: bool)
    ensures var run := Batch(ioRoot, inputListing, walk, listDir, returnPeriods);
      var n := |run.progress.completed|;
      && n <= |run.directories|
      && (forall k :: 0 <= k < n ==>
            HasInputs(ioRoot, listDir, run.directories[k]) &&
            run.progress.completed[k].directory == run.directories[k])
      && (run.progress.aborted.None? <==>
            forall d :: d in run.directories ==> HasInputs(ioRoot, listDir, d))
      && (run.progress.aborted.Some? ==>
            n < |run.directories| && !HasInputs(ioRoot, listDir, run.directories[n]) &&
            run.progress.aborted.value.directory == run.directories[n])
  {
    var directories := WatershedNames(inputListing);
    var inventory := Sort(RunoffPaths(walk));
    forall d | d in directories
      ensures var r := WatershedStep(ioRoot, listDir, inventory, returnPeriods)(d);
        && (r.Success? <==> HasInputs(ioRoot, listDir, d))
        && (r.Success? ==> r.value.directory == d)
        && (r.Failure? ==> r.error.directory == d)
    {
      WatershedStepOutcome(ioRoot, listDir, inventory, returnPeriods, d);
    }
    PlanAllStopsAtFirstIncomplete(ioRoot, listDir, directories, WatershedStep(ioRoot, listDir, inventory, returnPeriods));
  }

  /** The loop over the catalogued watershed directories. */
  method PlanWatersheds(directories: seq<string>, step: string --> Result<WatershedPlan, Abort>)
    returns (progress: Progress)
    requires forall d :: d in directories ==> step.requires(d)
    ensures progress == PlanAll(directories, step)
  {
    var completed: seq<WatershedPlan> := [];
    var aborted: Option<Abort> := None;
    var i := 0;
    assert directories[0..] == directories;
    while i < |directories| && aborted.None?
      invariant 0 <= i <= |directories|
      invariant aborted.None? ==>
        var rest := PlanAll(directories[i..], step);
        PlanAll(directories, step) == Progress(completed + rest.completed, rest.aborted)
      invariant aborted.Some? ==> PlanAll(directories, step) == Progress(completed, aborted)
      decreases |directories| - i, if aborted.None? then 1 else 0
    {
      PlanAllStep(directories, step, i);
      var outcome := step(directories[i]);
      if outcome.Failure? {
        aborted := Some(outcome.error);
      } else {
        completed := completed + [outcome.value];
        i := i + 1;
      }
    }
    if aborted.None? {
      assert directories[i..] == [];
    }
    progress := Progress(completed, aborted);
  }

  /** `run_era_interim_rapid_process` without its external tools: clean the
      log directory at time `now`, catalogue the watersheds, take the
      inventory, fix the routing constants, then plan the watersheds one
      after the other until one lacks a required file. */
  method RunBatch(logs: LogRetention.LogDirectory, now: LogStamps.DateTime,
                  ioRoot: string, inputListing: seq<Entry>, walk: seq<WalkFile>,
                  listDir: string -> seq<string>, returnPeriods: bool) returns (run: BatchRun)
    requires LogStamps.ValidDateTime(now)
    modifies logs
    ensures logs.entries == LogRetention.Retained(old(logs.entries), now)
    ensures run == Batch(ioRoot, inputListing, walk, listDir, returnPeriods)
  {
    logs.CleanLogs(now);
    var directories := ListWatershedDirectories(inputListing);
    var inventory := CollectRunoffFiles(walk);
    SortedPermutationUnique(inventory, Sort(RunoffPaths(walk)));
    var parameters := RoutingParametersFor(|inventory|);
    var progress := PlanWatersheds(directories, WatershedStep(ioRoot, listDir, inventory, returnPeriods));
    run := BatchRun(directories, inventory, parameters, progress);
  }
}
