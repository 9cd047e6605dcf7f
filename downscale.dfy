/** The per-watershed downscaling jobs and the batch-wide sizes: the time
    size of the inflow accumulator and the RAPID routing constants. */
module Downscale {
  import opened Text

  /** One job tuple handed to the worker pool: lower-cased watershed and
      subbasin, the runoff file, its time index, the weight table and the
      inflow accumulator it writes into. */
  datatype Job = Job(watershed: string, subbasin: string, runoffFile: string,
                     timeIndex: nat, weightTable: string, accumulator: string)

  /** The job list of one watershed: job `i` converts inventory file `i`
      into time index `i`. */
  function JobsFor(watershed: string, subbasin: string, inventory: seq<string>,
                   weightTable: string, accumulator: string): seq<Job>
  {
    seq(|inventory|, i requires 0 <= i < |inventory| =>
      Job(Lower(watershed), Lower(subbasin), inventory[i], i, weightTable, accumulator))
  }

  /** The `enumerate` loop that appends one tuple per inventory file. */
  method BuildJobs(watershed: string, subbasin: string, inventory: seq<string>,
                   weightTable: string, accumulator: string) returns (jobs: seq<Job>)
    ensures jobs == JobsFor(watershed, subbasin, inventory, weightTable, accumulator)
  {
    jobs := [];
    for i := 0 to |inventory|
      invariant jobs == JobsFor(watershed, subbasin, inventory[..i], weightTable, accumulator)
    {
      jobs := jobs + [Job(Lower(watershed), Lower(subbasin), inventory[i], i, weightTable, accumulator)];
    }
    assert inventory[..|inventory|] == inventory;
  }

  /** The time indices a job list writes. */
  function TimeIndices(jobs: seq<Job>): set<nat>
  {
    set j | j in jobs :: j.timeIndex
  }

  /** Files and time indices are in one-to-one correspondence: the indices
      the jobs write are exactly 0 .. N-1, no two jobs share one, and each
      job converts the file at its own index. Every job targets the same
      weight table and accumulator and carries the lower-cased names. */
  lemma JobsBijection(watershed: string, subbasin: string, inventory: seq<string>,
                      weightTable: string, accumulator: string)
    ensures var jobs := JobsFor(watershed, subbasin, inventory, weightTable, accumulator);
      && |jobs| == |inventory|
      && (forall t: int :: t in TimeIndices(jobs) <==> 0 <= t < |inventory|)
      && (forall a, b :: 0 <= a < b < |jobs| ==> jobs[a].timeIndex != jobs[b].timeIndex)
      && (forall j :: j in jobs ==> j.runoffFile == inventory[j.timeIndex])
      && (forall j :: j in jobs ==> j.weightTable == weightTable && j.accumulator == accumulator)
      && (forall j :: j in jobs ==> j.watershed == Lower(watershed) && j.subbasin == Lower(subbasin))
  {
    var jobs := JobsFor(watershed, subbasin, inventory, weightTable, accumulator);
    forall t: nat | t < |inventory| ensures t in TimeIndices(jobs) {
      assert jobs[t] in jobs;
    }
    forall t | t in TimeIndices(jobs) ensures t < |inventory| {
      var j :| j in jobs && j.timeIndex == t;
      var k :| 0 <= k < |jobs| && jobs[k] == j;
    }

  }

  /** Seconds in the day that the runoff and routing steps last. */
  const SECONDS_PER_DAY: nat := 24 * 3600

  /** `size_time` of the inflow accumulator for an inventory of `fileCount`
      files: one slot per file and one slot more, which no job writes. */
  function AccumulatorTimeSize(fileCount: nat): (size: nat)
    ensures size >= 1 && size - 1 == fileCount
  {
    fileCount + 1
  }

  /** The four RAPID constants, in seconds: `ZS_TauR` (one routing
      procedure), `ZS_dtR` (internal routing step), `ZS_TauM` (whole
      simulation) and `ZS_dtM` (input step). */
  datatype RoutingParameters = RoutingParameters(tauR: nat, dtR: nat, tauM: nat, dtM: nat)

  /** The constants the batch creates its RAPID manager with. */
  function RoutingParametersFor(fileCount: nat): (p: RoutingParameters)
    ensures p.dtM == SECONDS_PER_DAY && p.tauR == p.dtM
    ensures p.tauM == fileCount * p.dtM
    ensures p.dtR == 15 * 60 && p.tauR == 96 * p.dtR
  {
    RoutingParameters(24 * 3600, 15 * 60, fileCount * 24 * 3600, 24 * 3600)
  }

  /** Every job writes a slot of the accumulator, and none writes its last
      slot, which stays as the accumulator was created. */
  lemma JobsFitAccumulator(watershed: string, subbasin: string, inventory: seq<string>,
                           weightTable: string, accumulator: string)
    ensures forall j :: j in JobsFor(watershed, subbasin, inventory, weightTable, accumulator) ==>
      j.timeIndex < AccumulatorTimeSize(|inventory|) - 1
  {
  }

  /** The simulation covers one input step per runoff file, and the
      accumulator has exactly one time slot beyond those steps. */
  lemma {:induction false} AccumulatorMatchesSimulation(fileCount: nat)
    ensures RoutingParametersFor(fileCount).tauM / RoutingParametersFor(fileCount).dtM == fileCount
    ensures AccumulatorTimeSize(fileCount) ==
            RoutingParametersFor(fileCount).tauM / RoutingParametersFor(fileCount).dtM + 1
  {
    var p := RoutingParametersFor(fileCount);
    assert p.tauM == fileCount * SECONDS_PER_DAY;
  }
}
