/** The way of a request from the trace to its result cell: dealt to ranks, to the processes of a
    rank, and to the schedulers of a process. */
module Journey {
  import opened Common
  import opened RoundRobin
  import Pool

  datatype Place = Place(rank: nat, proc: nat, sched: nat, cell: nat)

  /** How many ranks, processes per rank and schedulers per process there are. */
  datatype Shape = Shape(ranks: nat, procs: nat, scheds: nat)

  ghost predicate Sane(k: Shape) {
    k.ranks > 0 && k.procs > 0 && k.scheds > 0
  }

  function RankTrace<T>(all: seq<T>, k: Shape, r: nat): seq<T>
    requires k.ranks > 0
  {
    Stride(all, r, k.ranks)
  }

  /** `rank_requests[p :: procs]` */
  function ProcTrace<T>(all: seq<T>, k: Shape, r: nat, p: nat): seq<T>
    requires k.ranks > 0 && k.procs > 0
  {
    Stride(RankTrace(all, k, r), p, k.procs)
  }

  /** The scheduler's partition; its positions are the result cells. */
  function Partition<T>(all: seq<T>, k: Shape, r: nat, p: nat, s: nat): seq<T>
    requires k.ranks > 0 && k.procs > 0 && k.scheds > 0
  {
    Stride(ProcTrace(all, k, r, p), s, k.scheds)
  }

  function PlaceOf(g: nat, k: Shape): Place
    requires k.ranks > 0 && k.procs > 0 && k.scheds > 0
  {
    var l := Quot(g, k.ranks);
    var m := Quot(l, k.procs);
    Place(Rem(g, k.ranks), Rem(l, k.procs), Rem(m, k.scheds), Quot(m, k.scheds))
  }

  function IndexOf(at: Place, k: Shape): nat {
    ((at.cell * k.scheds + at.sched) * k.procs + at.proc) * k.ranks + at.rank
  }

  ghost predicate IsPlace<T>(all: seq<T>, k: Shape, at: Place) {
    && Sane(k) && at.rank < k.ranks && at.proc < k.procs && at.sched < k.scheds
    && at.cell < |Partition(all, k, at.rank, at.proc, at.sched)|
  }

  /** Every request has a place, and finds itself there. */
  lemma RequestHasPlace<T>(all: seq<T>, k: Shape, g: nat)
    requires Sane(k) && g < |all|
    ensures IsPlace(all, k, PlaceOf(g, k))
    ensures var at := PlaceOf(g, k); Partition(all, k, at.rank, at.proc, at.sched)[at.cell] == all[g]
    ensures IndexOf(PlaceOf(g, k), k) == g
  {
    var at, l := PlaceOf(g, k), Quot(g, k.ranks);
    var m := Quot(l, k.procs);
    StrideAt(all, g, k.ranks);
    StrideAt(RankTrace(all, k, at.rank), l, k.procs);
    StrideAt(ProcTrace(all, k, at.rank, at.proc), m, k.scheds);
    IndexOfPlace(g, k);
  }

  lemma IndexOfPlace(g: nat, k: Shape)
    requires Sane(k)
    ensures IndexOf(PlaceOf(g, k), k) == g
  {
    var l := Quot(g, k.ranks);
    var m := Quot(l, k.procs);
    QuotRem(m, k.scheds);
    QuotRem(l, k.procs);
    QuotRem(g, k.ranks);
  }

  /** Every place belongs to a request, so the journey is a bijection between trace indices and
      result cells. */
  lemma PlaceHasRequest<T>(all: seq<T>, k: Shape, at: Place)
    requires IsPlace(all, k, at)
    ensures IndexOf(at, k) < |all|
    ensures PlaceOf(IndexOf(at, k), k) == at
  {
    var m := at.cell * k.scheds + at.sched;
    var l := m * k.procs + at.proc;
    StrideBack(ProcTrace(all, k, at.rank, at.proc), at.sched, at.cell, k.scheds);
    StrideBack(RankTrace(all, k, at.rank), at.proc, m, k.procs);
    StrideBack(all, at.rank, l, k.ranks);
  }

  /** Requests of one scheduler keep the order of the trace. */
  lemma PartitionKeepsOrder<T>(all: seq<T>, k: Shape, at: Place, later: Place)
    requires IsPlace(all, k, at) && IsPlace(all, k, later)
    requires later == at.(cell := later.cell) && at.cell < later.cell
    ensures IndexOf(at, k) < IndexOf(later, k)
  {
    MulBound(at.cell, later.cell, k.scheds);
    var m, m' := at.cell * k.scheds + at.sched, later.cell * k.scheds + at.sched;
    MulBound(m, m', k.procs);
    var l, l' := m * k.procs + at.proc, m' * k.procs + at.proc;
    MulBound(l, l', k.ranks);
  }

  /** A trace sorted by time stays sorted within every scheduler. */
  lemma SortedTraceStaysSorted<T>(all: seq<T>, time: T -> real, k: Shape, r: nat, p: nat, s: nat, i: nat, j: nat)
    requires forall a, b :: 0 <= a < b < |all| ==> time(all[a]) <= time(all[b])
    requires Sane(k) && r < k.ranks && p < k.procs && s < k.scheds
    requires i < j < |Partition(all, k, r, p, s)|
    ensures time(Partition(all, k, r, p, s)[i]) <= time(Partition(all, k, r, p, s)[j])
  {
    var a, b := Place(r, p, s, i), Place(r, p, s, j);
    PlaceHasRequest(all, k, a);
    PlaceHasRequest(all, k, b);
    PartitionKeepsOrder(all, k, a, b);
    RequestHasPlace(all, k, IndexOf(a, k));
    RequestHasPlace(all, k, IndexOf(b, k));
  }

  /** A process's dispatcher works on the partitions of its schedulers. */
  function PoolConfig(all: seq<nat>, k: Shape, r: nat, p: nat, workers: nat, queue: nat): Pool.Config
    requires k.ranks > 0 && k.procs > 0 && k.scheds > 0
  {
    Pool.Config(seq(k.scheds, s requires 0 <= s < k.scheds => Partition(all, k, r, p, s)),
                workers, queue, workers + queue)
  }

  /** Every request of the trace is dispatched exactly once: when its process has finished without
      being cancelled, the cell at its place was written once, with this request. */
  lemma EveryRequestIsDispatchedOnce(all: seq<nat>, k: Shape, g: nat, workers: nat, queue: nat, steps: seq<Pool.Step>)
    requires Sane(k) && g < |all| && workers >= 1
    requires var cfg := PoolConfig(all, k, PlaceOf(g, k).rank, PlaceOf(g, k).proc, workers, queue);
             && Pool.Exec(cfg, steps).Some? && Pool.Final(Pool.Exec(cfg, steps).value)
             && !Pool.Exec(cfg, steps).value.cancelled
    ensures var at := PlaceOf(g, k);
            var st := Pool.Exec(PoolConfig(all, k, at.rank, at.proc, workers, queue), steps).value;
            && Sum(Pool.Is(Pool.Item(at.sched, at.cell, all[g])), st.log) == 1
            && (at.sched, at.cell) in st.results && st.results[(at.sched, at.cell)] == all[g]
  {
    var at := PlaceOf(g, k);
    var cfg := PoolConfig(all, k, at.rank, at.proc, workers, queue);
    RequestHasPlace(all, k, g);
    assert cfg.partitions[at.sched] == Partition(all, k, at.rank, at.proc, at.sched);
    Pool.ExactlyOnce(cfg, steps, at.sched, at.cell);
  }
}
