/** The job bookkeeping of the 08.1 host program `host_hm.cpp`: one `job_type` per
    compute unit, counting the kernel runs it starts, checking the kernel's output and
    adding up the runs of all jobs at the end of the test.

    The OpenCL calls are not part of this model; a run is only its counter update, and
    the completion callbacks are given as a sequence of job numbers, each delivered with
    the value `stop` had when it fired. */
module HostJobs {
  import opened Words
  import LaneAdd
  import opened HostText

  // ---------------------------------------------------------------------------
  // 32-bit integers as the host sees them

  /** The bits of an `int` read as an unsigned 32-bit lane. */
  function Unsigned(a: Int32): (x: U32)
    ensures (x - a) % 0x1_0000_0000 == 0
  {
    if a < 0 then a + 0x1_0000_0000 else a
  }

  /** The bits of a 32-bit lane read as an `int`. */
  function Signed(x: U32): (a: Int32)
    ensures Unsigned(a) == x
  {
    if x >= 0x8000_0000 then x - 0x1_0000_0000 else x
  }

  /** `in1_mapped[idx] + in2_mapped[idx]` as the compiled host computes it: the sum in
      two's complement, equal to the true sum whenever that fits in an `int`. */
  function WrapAdd(a: Int32, b: Int32): (r: Int32)
    ensures (r - (a + b)) % 0x1_0000_0000 == 0
    ensures -0x8000_0000 <= a + b < 0x8000_0000 ==> r == a + b
  {
    Signed((Unsigned(a) + Unsigned(b)) % 0x1_0000_0000)
  }

  /** The value the host expects in element k is what the 08.5 kernel stores in that
      element's lane: the lane-wise sum of the two input words, read as an `int`. */
  lemma HostCheckMatchesKernel(w1: Word, w2: Word, k: nat)
    requires k < VECTOR_SIZE
    ensures Signed(LaneAdd.SumWord(w1, w2)[k]) == WrapAdd(Signed(w1[k]), Signed(w2[k]))
  {
  }

  // ---------------------------------------------------------------------------
  // The input vector (a finding: see `InputAsWritten`)

  /** `std::vector::reserve`: it changes the capacity only, never the contents. */
  function Reserve(v: seq<Int32>, n: nat): seq<Int32>
  {
    v
  }

  /** `std::vector::resize` to `n` elements, new elements being 0. */
  function Resize(v: seq<Int32>, n: nat): (r: seq<Int32>)
    ensures |r| == n
    ensures forall k :: 0 <= k < n && k < |v| ==> r[k] == v[k]
  {
    seq(n, k requires 0 <= k < n => if k < |v| then v[k] else 0)
  }

  /** `std::iota(v.begin(), v.end(), start)`: every existing element, in order, gets
      the next value counting up from `start`; the length is unchanged. */
  function Iota(v: seq<Int32>, start: Int32): (r: seq<Int32>)
    requires start + |v| <= 0x8000_0000
    ensures |r| == |v|
    ensures forall k :: 0 <= k < |r| ==> r[k] == start + k
  {
    seq(|v|, k requires 0 <= k < |v| => start + k)
  }

  /** The constructor's `input.reserve(nelements)` then `iota(begin, end, 0)`, as
      written: the vector is still empty afterwards. */
  function InputAsWritten(nelements: nat): (r: seq<Int32>)
    ensures r == []
  {
    Iota(Reserve([], nelements), 0)
  }

  /** The evidently intended input, made with `resize` in place of `reserve`: the
      values `0 .. nelements - 1`. */
  function InputCorrected(nelements: nat): (r: seq<Int32>)
    requires nelements <= 0x8000_0000
    ensures |r| == nelements
    ensures forall k :: 0 <= k < nelements ==> r[k] == k
  {
    Iota(Resize([], nelements), 0)
  }

  /** For the 1024 * 512 elements `run` asks for, the vector as written holds none of
      the values the buffers are then copied from. */
  lemma InputAsWrittenIsEmpty()
    ensures |InputAsWritten(1024 * 512)| == 0
    ensures InputAsWritten(1024 * 512) != InputCorrected(1024 * 512)
  {
    assert |InputCorrected(1024 * 512)| == 1024 * 512;
  }

  // ---------------------------------------------------------------------------
  // A job

  /** The outcome of `verify_results`: it returns, or it throws at the first element
      whose result differs from the expected sum. */
  datatype Verdict = Passed | Failed(index: nat, got: Int32, expected: Int32)

  class Job {
    var runs: int
    const nelements: nat
    const kernelName: string
    const input: seq<Int32>
    /** The host-only buffers `in1`, `in2` and `io`, as mapped into the host. */
    const in1Mapped: array<Int32>
    const in2Mapped: array<Int32>
    const ioMapped: array<Int32>

    ghost predicate Valid()
      reads this
    {
      in1Mapped.Length == nelements && in2Mapped.Length == nelements && ioMapped.Length == nelements
    }

    /** `job_type(c, q, p, kname, nelements)`, with the corrected input: both input
        buffers receive the values `0 .. nelements - 1`, and no run has started. The
        contents of `io` are whatever the device last wrote; they start at 0 here. */
    constructor(kname: string, nelements: nat)
      requires nelements <= 0x8000_0000
      ensures Valid()
      ensures runs == 0 && kernelName == kname && this.nelements == nelements
      ensures input == InputCorrected(nelements)
      ensures in1Mapped[..] == input && in2Mapped[..] == input
      ensures fresh(in1Mapped) && fresh(in2Mapped) && fresh(ioMapped)
    {
      var v := InputCorrected(nelements);
      this.nelements := nelements;
      kernelName := kname;
      input := v;
      in1Mapped := new Int32[nelements](k requires 0 <= k < nelements => v[k]);
      in2Mapped := new Int32[nelements](k requires 0 <= k < nelements => v[k]);
      ioMapped := new Int32[nelements](_ => 0);
      runs := 0;
    }

    /** `run()`: counts one more run, and starts it. */
    method Run()
      modifies this
      ensures runs == old(runs) + 1
    {
      runs := runs + 1;
    }

    /** `done()`, the completion callback: it starts the next run unless `stop` is set,
        so once `stop` is set the count no longer changes. */
    method Done(stop: bool)
      modifies this
      ensures runs == if stop then old(runs) else old(runs) + 1
    {
      if !stop {
        Run();
      }
    }

    /** `verify_results()`: passes exactly when every element of `io` is the sum of the
        elements of `in1` and `in2`, and otherwise reports the first element that is
        not. */
    method VerifyResults() returns (v: Verdict)
      requires Valid()
      ensures v.Passed? <==>
        forall k :: 0 <= k < nelements ==> ioMapped[k] == WrapAdd(in1Mapped[k], in2Mapped[k])
      ensures v.Failed? ==> v.index < nelements && v.got == ioMapped[v.index] && v.got != v.expected
      ensures v.Failed? ==> v.expected == WrapAdd(in1Mapped[v.index], in2Mapped[v.index])
      ensures v.Failed? ==> forall k :: 0 <= k < v.index ==> ioMapped[k] == WrapAdd(in1Mapped[k], in2Mapped[k])
    {
      var idx := 0;
      while idx < nelements
        invariant 0 <= idx <= nelements
        invariant forall k :: 0 <= k < idx ==> ioMapped[k] == WrapAdd(in1Mapped[k], in2Mapped[k])
        decreases nelements - idx
      {
        var expected := WrapAdd(in1Mapped[idx], in2Mapped[idx]);
        if ioMapped[idx] != expected {
          return Failed(idx, ioMapped[idx], expected);
        }
        idx := idx + 1;
      }
      return Passed;
    }
  }

  // ---------------------------------------------------------------------------
  // run_test

  /** How many of the callbacks in `s` are for job `a`. */
  function Count(s: seq<nat>, a: nat): nat
  {
    if |s| == 0 then 0 else Count(s[..|s| - 1], a) + (if s[|s| - 1] == a then 1 else 0)
  }

  /** Callbacks summed over jobs `0 .. n - 1`. */
  function CountSum(s: seq<nat>, n: nat): nat
  {
    if n == 0 then 0 else CountSum(s, n - 1) + Count(s, n - 1)
  }

  /** `runs` summed over jobs `0 .. n - 1`, when each has run once from `run_test` and
      once more for each callback in `s`. */
  function TotalRuns(s: seq<nat>, n: nat): nat
  {
    if n == 0 then 0 else TotalRuns(s, n - 1) + 1 + Count(s, n - 1)
  }

  lemma {:induction false} TotalRunsSplit(s: seq<nat>, n: nat)
    ensures TotalRuns(s, n) == n + CountSum(s, n)
  {
    if n > 0 {
      TotalRunsSplit(s, n - 1);
    }
  }

  /** One more callback adds one to the sum when its job is among the first n. */
  lemma {:induction false} CountSumSnoc(s: seq<nat>, x: nat, n: nat)
    ensures CountSum(s + [x], n) == CountSum(s, n) + (if x < n then 1 else 0)
  {
    assert (s + [x])[..|s|] == s;
    if n > 0 {
      CountSumSnoc(s, x, n - 1);
    }
  }

  /** Every callback belongs to exactly one job. */
  lemma {:induction false} CountsAddUp(s: seq<nat>, n: nat)
    requires forall i :: 0 <= i < |s| ==> s[i] < n
    ensures CountSum(s, n) == |s|
  {
    if |s| > 0 {
      var t := s[..|s| - 1];
      assert s == t + [s[|s| - 1]];
      CountsAddUp(t, n);
      CountSumSnoc(t, s[|s| - 1], n);
    } else {
      CountSumNone(s, n);
    }
  }

  lemma {:induction false} CountSumNone(s: seq<nat>, n: nat)
    requires |s| == 0
    ensures CountSum(s, n) == 0
  {
    if n > 0 {
      CountSumNone(s, n - 1);
    }
  }

  /** The aggregate of `run_test` counts the first run of each job and one run for every
      callback that fired before `stop` was set. */
  lemma TotalRunsCountsCallbacks(s: seq<nat>)
    requires forall i :: 0 <= i < |s| ==> s[i] < NCU
    ensures TotalRuns(s, NCU) == NCU + |s|
  {
    TotalRunsSplit(s, NCU);
    CountsAddUp(s, NCU);
  }

  /** `run_test(context, queue, program, nelements)`: makes job j for kernel name j,
      runs every job once, delivers the callbacks `early` (fired before `stop` is set)
      and `late` (fired after), and returns `total_kernel_execution`, the sum of the
      jobs' `runs`. */
  method RunTest(nelements: nat, early: seq<nat>, late: seq<nat>) returns (total: int, jobs: seq<Job>)
    requires nelements <= 0x8000_0000
    requires forall i :: 0 <= i < |early| ==> early[i] < NCU
    requires forall i :: 0 <= i < |late| ==> late[i] < NCU
    ensures |jobs| == NCU
    ensures forall j :: 0 <= j < NCU ==> jobs[j].kernelName == KERNEL_NAMES[j]
    ensures forall j :: 0 <= j < NCU ==> jobs[j].runs == 1 + Count(early, j)
    ensures total == TotalRuns(early, NCU) == NCU + |early|
  {
    jobs := [];
    for j := 0 to NCU
      invariant |jobs| == j
      invariant forall a :: 0 <= a < j ==> fresh(jobs[a]) && jobs[a].runs == 0
      invariant forall a :: 0 <= a < j ==> jobs[a].kernelName == KERNEL_NAMES[a]
      invariant forall a, b :: 0 <= a < b < j ==> jobs[a] != jobs[b]
    {
      var job := new Job(KERNEL_NAMES[j], nelements);
      jobs := jobs + [job];
    }
    for j := 0 to NCU
      invariant forall a :: 0 <= a < NCU ==> jobs[a].runs == if a < j then 1 else 0
    {
      jobs[j].Run();
    }
    for c := 0 to |early|
      invariant forall a :: 0 <= a < NCU ==> jobs[a].runs == 1 + Count(early[..c], a)
    {
      assert early[..c + 1][..c] == early[..c];
      jobs[early[c]].Done(false);
    }
    assert early[..|early|] == early;
    for c := 0 to |late|
      invariant forall a :: 0 <= a < NCU ==> jobs[a].runs == 1 + Count(early, a)
    {
      jobs[late[c]].Done(true);
    }
    total := 0;
    for j := 0 to NCU
      invariant total == TotalRuns(early, j)
    {
      total := total + jobs[j].runs;
    }
    TotalRunsCountsCallbacks(early);
  }
}
