// The allocation counters of src/alloc_count.rs: any number of threads, each atomic update one step,
// in any interleaving.
module AllocCounters {

  const WORD := 0x1_0000_0000_0000_0000

  function Wrapped(n: int): nat {
    n % WORD
  }

  /**
   * Where a thread is. A note counts `size` bytes and, in a reallocation, has already discounted the
   * `prior` ones; afterwards the system's allocator answers.
   */
  datatype Pc =
    | Idle
    | NoteAllocations(size: nat, prior: int)
    | NoteBytes(size: nat, prior: int)
    | NoteLive(size: nat, prior: int)
    | NotePeak(size: nat, prior: int, live: nat)
    | Answering(size: nat, prior: int)
    | Discount(size: nat)
    | DiscountFirst(taken: nat, size: nat)
    | StorePeak(live: nat)

  /** No old block: a plain allocation. */
  const FRESH := -1

  /** `blocks` are the sizes of what the program has in hand, `drift` what failed calls left behind. */
  datatype State = State(allocations: nat, bytes: nat, live: nat, peak: nat, blocks: seq<nat>, threads: seq<Pc>,
    drift: int)

  datatype Step =
    | Alloc(t: nat, size: nat)
    | Dealloc(t: nat, block: nat)
    | Realloc(t: nat, block: nat, size: nat)
    | Advance(t: nat)
    | Fail(t: nat)
    | LoadForReset(t: nat)

  predicate Quiescent(s: State) {
    forall t :: 0 <= t < |s.threads| ==> s.threads[t].Idle?
  }

  predicate Enabled(s: State, step: Step) {
    match step
    case Alloc(t, _) => t < |s.threads| && s.threads[t].Idle?
    case Dealloc(t, block) => t < |s.threads| && s.threads[t].Idle? && block < |s.blocks|
    case Realloc(t, block, _) => t < |s.threads| && s.threads[t].Idle? && block < |s.blocks|
    case Advance(t) => t < |s.threads| && !s.threads[t].Idle?
    case Fail(t) => t < |s.threads| && s.threads[t].Answering?
    case LoadForReset(t) => t < |s.threads| && s.threads[t].Idle?
  }

  function Without(blocks: seq<nat>, i: nat): seq<nat>
    requires i < |blocks|
  {
    blocks[..i] + blocks[i + 1..]
  }

  /** One atomic update of the thread's own call. */
  function Advanced(s: State, t: nat): State
    requires t < |s.threads|
  {
    match s.threads[t]
    case Idle => s
    case NoteAllocations(size, prior) =>
      s.(allocations := Wrapped(s.allocations + 1), threads := s.threads[t := NoteBytes(size, prior)])
    case NoteBytes(size, prior) =>
      s.(bytes := Wrapped(s.bytes + size), threads := s.threads[t := NoteLive(size, prior)])
    case NoteLive(size, prior) =>
      s.(live := Wrapped(s.live + size), threads := s.threads[t := NotePeak(size, prior, Wrapped(s.live + size))])
    case NotePeak(size, prior, live) => s.(peak := Max(s.peak, live), threads := s.threads[t := Answering(size, prior)])
    case Answering(size, prior) => s.(blocks := s.blocks + [size], threads := s.threads[t := Idle])
    case Discount(size) => s.(live := Wrapped(s.live - size), threads := s.threads[t := Idle])
    case DiscountFirst(prior, size) =>
      s.(live := Wrapped(s.live - prior), threads := s.threads[t := NoteAllocations(size, prior)])
    case StorePeak(live) => s.(peak := live, threads := s.threads[t := Idle])
  }

  function Max(a: nat, b: nat): nat {
    if a < b then b else a
  }

  /** A failed allocation gives no block, and a failed reallocation leaves the old one. */
  function Failed(s: State, t: nat): State
    requires t < |s.threads| && s.threads[t].Answering?
  {
    var call := s.threads[t];
    var idle := s.(threads := s.threads[t := Idle]);
    if call.prior < 0 then idle.(drift := s.drift + call.size)
    else idle.(drift := s.drift + call.size - call.prior, blocks := s.blocks + [call.prior])
  }

  function Next(s: State, step: Step): State
    requires Enabled(s, step)
  {
    match step
    case Alloc(t, size) => s.(threads := s.threads[t := NoteAllocations(size, FRESH)])
    case Dealloc(t, block) =>
      s.(threads := s.threads[t := Discount(s.blocks[block])], blocks := Without(s.blocks, block))
    case Realloc(t, block, size) =>
      s.(threads := s.threads[t := DiscountFirst(s.blocks[block], size)], blocks := Without(s.blocks, block))
    case Advance(t) => Advanced(s, t)
    case Fail(t) => Failed(s, t)
    case LoadForReset(t) => s.(threads := s.threads[t := StorePeak(s.live)])
  }

  ghost predicate IsRun(s: State, steps: seq<Step>)
    decreases steps
  {
    steps == [] || (Enabled(s, steps[0]) && IsRun(Next(s, steps[0]), steps[1..]))
  }

  ghost function After(s: State, steps: seq<Step>): State
    requires IsRun(s, steps)
    decreases steps
  {
    if steps == [] then s else After(Next(s, steps[0]), steps[1..])
  }

  // MARK: What is live

  function Total(sizes: seq<nat>): nat {
    if sizes == [] then 0 else sizes[0] + Total(sizes[1..])
  }

  /** The bytes a call has counted, or not yet discounted, for a block that nobody has in hand. */
  function Held(pc: Pc): nat {
    match pc
    case NotePeak(size, _, _) => size
    case Answering(size, _) => size
    case Discount(size) => size
    case DiscountFirst(prior, _) => prior
    case _ => 0
  }

  function AllHeld(threads: seq<Pc>): nat {
    if threads == [] then 0 else Held(threads[0]) + AllHeld(threads[1..])
  }

  function Exact(s: State): int {
    Total(s.blocks) + AllHeld(s.threads) + s.drift
  }

  predicate Counted(s: State) {
    s.live == Wrapped(Exact(s))
  }

  lemma {:induction false} HeldChanges(threads: seq<Pc>, t: nat, pc: Pc)
    requires t < |threads|
    ensures AllHeld(threads[t := pc]) == AllHeld(threads) - Held(threads[t]) + Held(pc)
  {
    if t == 0 {
      assert threads[t := pc][1..] == threads[1..];
    } else {
      HeldChanges(threads[1..], t - 1, pc);
      assert threads[t := pc][1..] == threads[1..][t - 1 := pc];
    }
  }

  lemma {:induction false} TotalWithout(blocks: seq<nat>, i: nat)
    requires i < |blocks|
    ensures Total(Without(blocks, i)) == Total(blocks) - blocks[i]
  {
    if i == 0 {
      assert Without(blocks, 0) == blocks[1..];
    } else {
      TotalWithout(blocks[1..], i - 1);
      assert Without(blocks, i)[1..] == Without(blocks[1..], i - 1) && Without(blocks, i)[0] == blocks[0];
    }
  }

  lemma {:induction false} TotalWith(blocks: seq<nat>, size: nat)
    ensures Total(blocks + [size]) == Total(blocks) + size
  {
    if blocks == [] {
      assert [size][1..] == [] && [] + [size] == [size];
    } else {
      TotalWith(blocks[1..], size);
      assert (blocks + [size])[1..] == blocks[1..] + [size];
    }
  }

  lemma WrapStep(exact: int, k: int)
    ensures Wrapped(Wrapped(exact) + k) == Wrapped(exact + k)
  {
  }

  lemma SmallWrap(n: int)
    requires 0 <= n < WORD
    ensures Wrapped(n) == n
  {
  }

  /** Each update keeps the live counter at the bytes in hand, in calls under way, and lost to failures. */
  lemma StepKeepsCount(s: State, step: Step)
    requires Enabled(s, step) && Counted(s)
    ensures Counted(Next(s, step))
  {
    hide Wrapped;
    match step {
      case Alloc(t, size) => HeldChanges(s.threads, t, NoteAllocations(size, FRESH));
      case Dealloc(t, block) =>
        HeldChanges(s.threads, t, Discount(s.blocks[block]));
        TotalWithout(s.blocks, block);
      case Realloc(t, block, size) =>
        HeldChanges(s.threads, t, DiscountFirst(s.blocks[block], size));
        TotalWithout(s.blocks, block);
      case Advance(t) => AdvanceKeepsCount(s, t);
      case Fail(t) =>
        var call := s.threads[t];
        HeldChanges(s.threads, t, Idle);
        if call.prior >= 0 {
          TotalWith(s.blocks, call.prior);
        }
      case LoadForReset(t) => HeldChanges(s.threads, t, StorePeak(s.live));
    }
  }

  lemma AdvanceKeepsCount(s: State, t: nat)
    requires t < |s.threads| && Counted(s)
    ensures Counted(Advanced(s, t))
  {
    hide Wrapped;
    HeldChanges(s.threads, t, Advanced(s, t).threads[t]);
    match s.threads[t] {
      case NoteLive(size, _) => WrapStep(Exact(s), size);
      case Answering(size, _) => TotalWith(s.blocks, size);
      case Discount(size) => WrapStep(Exact(s), 0 - size as int);
      case DiscountFirst(prior, _) => WrapStep(Exact(s), 0 - prior as int);
      case _ =>
    }
  }

  lemma {:induction false} RunKeepsCount(s: State, steps: seq<Step>)
    requires IsRun(s, steps) && Counted(s)
    ensures Counted(After(s, steps))
    decreases steps
  {
    hide Next, Enabled, Counted;
    if steps != [] {
      StepKeepsCount(s, steps[0]);
      RunKeepsCount(Next(s, steps[0]), steps[1..]);
    }
  }

  lemma {:induction false} NothingHeld(threads: seq<Pc>)
    requires forall t :: 0 <= t < |threads| ==> threads[t].Idle?
    ensures AllHeld(threads) == 0
  {
    if threads != [] {
      NothingHeld(threads[1..]);
    }
  }

  lemma {:induction false} HeldIsPart(threads: seq<Pc>, t: nat)
    requires t < |threads|
    ensures Held(threads[t]) <= AllHeld(threads)
  {
    if t > 0 {
      HeldIsPart(threads[1..], t - 1);
    }
  }

  predicate NeverFails(steps: seq<Step>) {
    forall step <- steps :: !step.Fail?
  }

  lemma {:induction false} NoFailureNoDrift(s: State, steps: seq<Step>)
    requires IsRun(s, steps) && NeverFails(steps)
    ensures After(s, steps).drift == s.drift
    decreases steps
  {
    if steps != [] {
      NoFailureNoDrift(Next(s, steps[0]), steps[1..]);
    }
  }

  const START := State(0, 0, 0, 0, [], [], 0)

  /** Any number of idle threads and nothing allocated. */
  predicate Initial(s: State) {
    Quiescent(s) && s == START.(threads := s.threads)
  }

  /**
   * While allocations succeed, and less than 2^64 bytes are live: with no call under way the live
   * counter is exactly the bytes in hand, and at any moment it covers what a call is about to
   * discount, so it never underflows.
   */
  lemma LiveIsTheBytesInHand(s: State, steps: seq<Step>)
    requires Initial(s) && IsRun(s, steps) && NeverFails(steps)
    ensures Exact(After(s, steps)) < WORD ==> LiveIsExact(After(s, steps))
  {
    NothingHeld(s.threads);
    RunKeepsCount(s, steps);
    NoFailureNoDrift(s, steps);
    var after := After(s, steps);
    hide IsRun, After;
    if Exact(after) < WORD {
      SmallWrap(Exact(after));
      if Quiescent(after) {
        NothingHeld(after.threads);
      }
      forall t | 0 <= t < |after.threads| ensures Held(after.threads[t]) <= after.live {
        HeldIsPart(after.threads, t);
      }
    }
  }

  /** At rest the live counter is the bytes in hand; at any moment it covers what is about to be discounted. */
  predicate LiveIsExact(s: State) {
    && (Quiescent(s) ==> s.live == Total(s.blocks))
    && forall t :: 0 <= t < |s.threads| ==>
        && (s.threads[t].Discount? ==> s.threads[t].size <= s.live)
        && (s.threads[t].DiscountFirst? ==> s.threads[t].taken <= s.live)
  }

  /**
   * With failures the counter is off by exactly what the failed calls asked for, less what they would
   * have replaced.
   */
  lemma FailuresDrift(s: State, steps: seq<Step>)
    requires Initial(s) && IsRun(s, steps) && Quiescent(After(s, steps))
    ensures After(s, steps).live == Wrapped(Total(After(s, steps).blocks) + After(s, steps).drift)
  {
    NothingHeld(s.threads);
    RunKeepsCount(s, steps);
    NothingHeld(After(s, steps).threads);
  }

  // MARK: The peak

  predicate NeverResets(steps: seq<Step>) {
    forall step <- steps :: !step.LoadForReset?
  }

  /** The most that the live counter showed in any state of a run. */
  ghost function MostLive(s: State, steps: seq<Step>): nat
    requires IsRun(s, steps)
    decreases steps
  {
    if steps == [] then s.live else Max(s.live, MostLive(Next(s, steps[0]), steps[1..]))
  }

  predicate Pending(s: State, t: nat, most: nat) {
    t < |s.threads| && s.threads[t].NotePeak? && s.threads[t].live == most
  }

  /** `most` bounds all that was seen, and the peak has it or is about to. */
  ghost predicate Watched(s: State, most: nat) {
    && s.live <= most && s.peak <= most
    && (forall t :: 0 <= t < |s.threads| && s.threads[t].NotePeak? ==> s.threads[t].live <= most)
    && (forall t :: 0 <= t < |s.threads| ==> !s.threads[t].StorePeak?)
    && (s.peak == most || exists t :: Pending(s, t, most))
  }

  lemma StepWatches(s: State, step: Step, most: nat)
    requires Enabled(s, step) && !step.LoadForReset? && Watched(s, most) && s.live < WORD
    requires Next(s, step).live <= s.live || (step.Advance? && s.threads[step.t].NoteLive?)
    ensures Watched(Next(s, step), Max(most, Next(s, step).live))
  {
    var after, more := Next(s, step), Max(most, Next(s, step).live);
    hide Exact;
    if step.Advance? && s.threads[step.t].NoteLive? {
      assert after.threads[step.t].NotePeak? && after.threads[step.t].live == after.live;
      if more > most {
        assert Pending(after, step.t, more);
      } else if s.peak != most {
        var t :| Pending(s, t, most);
        assert Pending(after, t, more);
      }
    } else if s.peak != most {
      var t :| Pending(s, t, most);
      if !(step.Advance? && step.t == t) {
        assert Pending(after, t, most);
      }
    }
  }

  /** Only counting an allocation raises the live counter, as long as discounts do not underflow. */
  lemma OnlyNotesRaise(s: State, step: Step)
    requires Enabled(s, step) && Counted(s) && 0 <= s.drift && Exact(s) < WORD
    ensures Next(s, step).live <= s.live || (step.Advance? && s.threads[step.t].NoteLive?)
  {
    hide Wrapped, Total, AllHeld;
    SmallWrap(Exact(s));
    if step.Advance? {
      var held := Held(s.threads[step.t]);
      HeldIsPart(s.threads, step.t);
      SmallWrap(s.live - held);
    }
  }

  /** Less than 2^64 bytes are live in every state of the run. */
  ghost predicate StaysInMemory(s: State, steps: seq<Step>)
    requires IsRun(s, steps)
    decreases steps
  {
    Exact(s) < WORD && (steps == [] || StaysInMemory(Next(s, steps[0]), steps[1..]))
  }

  lemma {:induction false} RunWatches(s: State, steps: seq<Step>, most: nat)
    requires IsRun(s, steps) && NeverResets(steps) && NeverFails(steps) && StaysInMemory(s, steps)
    requires Counted(s) && 0 <= s.drift && Watched(s, most)
    ensures Watched(After(s, steps), Max(most, MostLive(s, steps)))
    decreases steps
  {
    if steps != [] {
      var next := Next(s, steps[0]);
      OnlyNotesRaise(s, steps[0]);
      StepKeepsCount(s, steps[0]);
      StepWatches(s, steps[0], most);
      assert next.drift == s.drift;
      hide Next, Enabled, Watched, Counted, Exact;
      RunWatches(next, steps[1..], Max(most, next.live));
      LiveIsSeen(next, steps[1..]);
    }
  }

  lemma LiveIsSeen(s: State, steps: seq<Step>)
    requires IsRun(s, steps)
    ensures s.live <= MostLive(s, steps)
  {
  }

  /** No call is between counting its bytes and reporting the count. */
  predicate NoneReports(s: State) {
    forall t :: 0 <= t < |s.threads| ==> !s.threads[t].NotePeak?
  }

  predicate NoneStores(s: State) {
    forall t :: 0 <= t < |s.threads| ==> !s.threads[t].StorePeak?
  }

  /** Succeeding calls, in any interleaving, until every count is reported. */
  ghost predicate Continues(s: State, steps: seq<Step>) {
    IsRun(s, steps) && NeverResets(steps) && NeverFails(steps) && StaysInMemory(s, steps)
      && NoneReports(After(s, steps))
  }

  lemma ReportOne(s: State, k: nat)
    requires k < |s.threads| && s.threads[k].NotePeak?
    ensures Enabled(s, Advance(k))
    ensures var next, pc := Next(s, Advance(k)), s.threads[k];
      && next.threads == s.threads[k := Answering(pc.size, pc.prior)] && next.live == s.live
      && next.peak == Max(s.peak, pc.live)
      && Exact(next) == Exact(s)
  {
    HeldChanges(s.threads, k, Answering(s.threads[k].size, s.threads[k].prior));
  }

  /** From the thread `k` on, every call that has counted reports. */
  lemma {:induction false} ReportAll(s: State, k: nat) returns (steps: seq<Step>)
    requires Exact(s) < WORD && k <= |s.threads| && forall t :: 0 <= t < k ==> !s.threads[t].NotePeak?
    ensures Continues(s, steps) && MostLive(s, steps) == s.live
    ensures After(s, steps).peak >= s.peak
    ensures forall t :: k <= t < |s.threads| && s.threads[t].NotePeak? ==> s.threads[t].live <= After(s, steps).peak
    ensures After(s, steps).peak == s.peak || exists t :: Pending(s, t, After(s, steps).peak)
    decreases |s.threads| - k
  {
    if k == |s.threads| {
      steps := [];
    } else if !s.threads[k].NotePeak? {
      steps := ReportAll(s, k + 1);
    } else {
      var step, pc := Advance(k), s.threads[k];
      var next := Next(s, step);
      ReportOne(s, k);
      hide Next, Exact;
      var rest := ReportAll(next, k + 1);
      steps := [step] + rest;
      assert steps[0] == step && steps[1..] == rest;
      var peak := After(next, rest).peak;
      forall t | k <= t < |s.threads| && s.threads[t].NotePeak? ensures s.threads[t].live <= peak {
        assert t > k ==> next.threads[t] == s.threads[t];
      }
      assert peak == next.peak ==> peak == s.peak || Pending(s, k, peak);
      if peak != next.peak {
        var t :| Pending(next, t, peak);
        assert Pending(s, t, peak);
      }
    }
  }

  /**
   * In every continuation the peak is, whenever no call is between counting and reporting, the most
   * that was live, if and only if it is watched now: nobody is about to report more, and the most
   * is in the peak or about to be reported.
   */
  lemma PeakIsRightExactlyWhenWatched(s: State, most: nat)
    requires Counted(s) && 0 <= s.drift && Exact(s) < WORD && s.live <= most && NoneStores(s)
    ensures (forall steps :: Continues(s, steps) ==> After(s, steps).peak == Max(most, MostLive(s, steps))) <==>
      Watched(s, most)
  {
    if Watched(s, most) {
      forall steps | Continues(s, steps) ensures After(s, steps).peak == Max(most, MostLive(s, steps)) {
        RunWatches(s, steps, most);
      }
    } else {
      var steps := ReportAll(s, 0);
      assert Continues(s, steps);
      if After(s, steps).peak == Max(most, MostLive(s, steps)) {
        ReportedMostIsWatched(s, most);
        assert false;
      }
    }
  }

  lemma ReportedMostIsWatched(s: State, most: nat)
    requires s.live <= most && s.peak <= most && NoneStores(s)
    requires forall t :: 0 <= t < |s.threads| && s.threads[t].NotePeak? ==> s.threads[t].live <= most
    requires most == s.peak || exists t :: Pending(s, t, most)
    ensures Watched(s, most)
  {
  }

  /** The thread a step is of. */
  function Of(step: Step): nat {
    step.t
  }

  lemma {:induction false} OthersLeaveTheStore(s: State, steps: seq<Step>, t: nat)
    requires IsRun(s, steps) && NeverResets(steps) && NeverFails(steps) && t < |s.threads| && forall step <- steps ::
      Of(step) != t
    requires forall u :: 0 <= u < |s.threads| && u != t ==> !s.threads[u].StorePeak?
    requires Counted(s)
    ensures var after := After(s, steps);
      && |after.threads| == |s.threads| && after.threads[t] == s.threads[t] && Counted(after) && after.drift == s.drift
      && (forall u :: 0 <= u < |s.threads| && u != t ==> !after.threads[u].StorePeak?)
      && s.live <= MostLive(s, steps) && after.live <= MostLive(s, steps)
    decreases steps
  {
    if steps != [] {
      var next := Next(s, steps[0]);
      StepKeepsCount(s, steps[0]);
      assert Of(steps[0]) != t && !steps[0].LoadForReset? && !steps[0].Fail?;
      OneStepLeavesTheStore(s, steps[0], t);
      hide Next, Enabled, Counted;
      OthersLeaveTheStore(next, steps[1..], t);
    }
  }

  lemma OneStepLeavesTheStore(s: State, step: Step, t: nat)
    requires Enabled(s, step) && t < |s.threads| && Of(step) != t && !step.LoadForReset? && !step.Fail?
    requires forall u :: 0 <= u < |s.threads| && u != t ==> !s.threads[u].StorePeak?
    ensures var after := Next(s, step);
      && |after.threads| == |s.threads| && after.threads[t] == s.threads[t] && after.drift == s.drift
      && forall u :: 0 <= u < |s.threads| && u != t ==> !after.threads[u].StorePeak?
  {
  }

  /**
   * A reset loads the live counter and stores it as the peak, with the steps of other threads in
   * between. From then on the peak is the most that was live since the load, in every continuation,
   * if and only if the state after the store is watched at the most that was live up to it.
   */
  lemma ResetIsRightExactlyWhenWatched(s: State, t: nat, between: seq<Step>)
    requires Counted(s) && 0 <= s.drift && NoneStores(s) && Enabled(s, LoadForReset(t))
    requires IsRun(Next(s, LoadForReset(t)), between) && NeverResets(between) && NeverFails(between)
    requires forall step <- between :: Of(step) != t
    ensures var begun := Next(s, LoadForReset(t));
      var before, most := After(begun, between), MostLive(begun, between);
      && Enabled(before, Advance(t))
      && var stored := Next(before, Advance(t));
        && stored.peak == s.live
        && (Exact(stored) < WORD ==>
              ((forall steps :: Continues(stored, steps) ==>
                After(stored, steps).peak == Max(most, MostLive(stored, steps)))
               <==> Watched(stored, most)))
  {
    var begun := Next(s, LoadForReset(t));
    StepKeepsCount(s, LoadForReset(t));
    OthersLeaveTheStore(begun, between, t);
    var before, most := After(begun, between), MostLive(begun, between);
    hide IsRun, After, MostLive, Counted;
    var stored := Next(before, Advance(t));
    StepKeepsCount(before, Advance(t));
    assert NoneStores(stored) && stored.live == before.live && stored.drift == s.drift;
    if Exact(stored) < WORD {
      PeakIsRightExactlyWhenWatched(stored, most);
    }
  }

  /** With nothing in between, and nobody about to report, a reset is always right. */
  lemma QuietResetIsWatched(s: State, t: nat)
    requires NoneStores(s) && NoneReports(s) && Enabled(s, LoadForReset(t))
    ensures Watched(Next(Next(s, LoadForReset(t)), Advance(t)), s.live)
  {
  }

  // MARK: What goes wrong

  const TWO_THREADS := START.(threads := [Idle, Idle])

  /** A reset that reads the live counter before an allocation and stores it after forgets that allocation. */
  const RACE := [LoadForReset(0), Alloc(1, 100), Advance(1), Advance(1), Advance(1), Advance(1), Advance(1), Advance(0)]

  const RACE_STATES: seq<State> := [
    State(0, 0, 0, 0, [], [Idle, Idle], 0),
    State(0, 0, 0, 0, [], [StorePeak(0), Idle], 0),
    State(0, 0, 0, 0, [], [StorePeak(0), NoteAllocations(100, FRESH)], 0),
    State(1, 0, 0, 0, [], [StorePeak(0), NoteBytes(100, FRESH)], 0),
    State(1, 100, 0, 0, [], [StorePeak(0), NoteLive(100, FRESH)], 0),
    State(1, 100, 100, 0, [], [StorePeak(0), NotePeak(100, FRESH, 100)], 0),
    State(1, 100, 100, 100, [], [StorePeak(0), Answering(100, FRESH)], 0),
    State(1, 100, 100, 100, [100], [StorePeak(0), Idle], 0),
    State(1, 100, 100, 0, [100], [Idle, Idle], 0)]

  lemma ResetsCanRace()
    ensures Initial(TWO_THREADS) && IsRun(TWO_THREADS, RACE)
    ensures var after := After(TWO_THREADS, RACE); Quiescent(after) && after.live == 100 && after.peak == 0
  {
    forall k | 0 <= k < 8 ensures Follows(RACE_STATES, RACE, k) {
      RaceFollows(k);
    }
    hide Next, Enabled, Follows, IsRun, After;
    Chain(RACE_STATES, RACE, 0);
    assert RACE[0..] == RACE;
  }

  lemma RaceFollows(k: nat)
    requires k < 8
    ensures Follows(RACE_STATES, RACE, k)
  {
    SmallWrap(1);
    SmallWrap(100);
    hide Wrapped;
    assert Next(RACE_STATES[k], RACE[k]).threads == RACE_STATES[k + 1].threads;
    assert Next(RACE_STATES[k], RACE[k]).blocks == RACE_STATES[k + 1].blocks;
  }

  /** A call that has counted before a reset, and reports after it, brings back a peak from before the reset. */
  const LATE := [
    Alloc(1, 50), Advance(1), Advance(1), Advance(1), Dealloc(0, 0), Advance(0), LoadForReset(0), Advance(0),
      Advance(1), Advance(1)]

  const LATE_STATES: seq<State> := [
    State(2, 100, 100, 100, [50, 50], [Idle, Idle], 0),
    State(2, 100, 100, 100, [50, 50], [Idle, NoteAllocations(50, FRESH)], 0),
    State(3, 100, 100, 100, [50, 50], [Idle, NoteBytes(50, FRESH)], 0),
    State(3, 150, 100, 100, [50, 50], [Idle, NoteLive(50, FRESH)], 0),
    State(3, 150, 150, 100, [50, 50], [Idle, NotePeak(50, FRESH, 150)], 0),
    State(3, 150, 150, 100, [50], [Discount(50), NotePeak(50, FRESH, 150)], 0),
    State(3, 150, 100, 100, [50], [Idle, NotePeak(50, FRESH, 150)], 0),
    State(3, 150, 100, 100, [50], [StorePeak(100), NotePeak(50, FRESH, 150)], 0),
    State(3, 150, 100, 100, [50], [Idle, NotePeak(50, FRESH, 150)], 0),
    State(3, 150, 100, 150, [50], [Idle, Answering(50, FRESH)], 0),
    State(3, 150, 100, 150, [50, 50], [Idle, Idle], 0)]

  lemma LateReportBringsBackAPeak()
    ensures Counted(LATE_STATES[0]) && IsRun(LATE_STATES[0], LATE)
    ensures Quiescent(After(LATE_STATES[0], LATE)) && After(LATE_STATES[0], LATE).peak == 150
    ensures forall k :: 6 <= k <= 10 ==> LATE_STATES[k].live == 100
    ensures forall k :: 0 <= k < 10 ==> Follows(LATE_STATES, LATE, k)
  {
    assert Counted(LATE_STATES[0]) by {
      assert [50, 50][1..] == [50] && [50][1..] == [] && [Idle, Idle][1..] == [Idle] && [Idle][1..] == [];
    }
    forall k | 0 <= k < 10 ensures Follows(LATE_STATES, LATE, k) {
      LateFollows(k);
    }
    hide *;
    Chain(LATE_STATES, LATE, 0);
    assert LATE[0..] == LATE && LATE_STATES[10].threads == [Idle, Idle];
    LateEnds();
  }

  lemma LateEnds()
    ensures Quiescent(LATE_STATES[10]) && LATE_STATES[10].peak == 150
    ensures forall k :: 6 <= k <= 10 ==> LATE_STATES[k].live == 100
  {
  }

  lemma LateFollows(k: nat)
    requires k < 10
    ensures Follows(LATE_STATES, LATE, k)
  {
    SmallWrap(3);
    SmallWrap(100);
    SmallWrap(150);
    hide Wrapped;
    assert Next(LATE_STATES[k], LATE[k]).threads == LATE_STATES[k + 1].threads;
    assert Next(LATE_STATES[k], LATE[k]).blocks == LATE_STATES[k + 1].blocks;
  }

  /** A reallocation to a smaller block that fails discounts the old block once too often. */
  const SHRINK := [Realloc(0, 0, 10), Advance(0), Advance(0), Advance(0), Advance(0), Advance(0), Fail(0),
    Dealloc(0, 0), Advance(0)]

  const SHRINK_STATES: seq<State> := [
    State(1, 100, 100, 100, [100], [Idle], 0),
    State(1, 100, 100, 100, [], [DiscountFirst(100, 10)], 0),
    State(1, 100, 0, 100, [], [NoteAllocations(10, 100)], 0),
    State(2, 100, 0, 100, [], [NoteBytes(10, 100)], 0),
    State(2, 110, 0, 100, [], [NoteLive(10, 100)], 0),
    State(2, 110, 10, 100, [], [NotePeak(10, 100, 10)], 0),
    State(2, 110, 10, 100, [], [Answering(10, 100)], 0),
    State(2, 110, 10, 100, [100], [Idle], -90),
    State(2, 110, 10, 100, [], [Discount(100)], -90),
    State(2, 110, WORD - 90, 100, [], [Idle], -90)]

  lemma FailedShrinkUnderflows()
    ensures Counted(SHRINK_STATES[0]) && IsRun(SHRINK_STATES[0], SHRINK)
    ensures var after := After(SHRINK_STATES[0], SHRINK); after.blocks == [] && after.live == WORD - 90
  {
    assert Counted(SHRINK_STATES[0]) by {
      assert [100][1..] == [] && [Idle][1..] == [];
    }
    hide Next, Enabled, Counted, Follows;
    forall k | 0 <= k < 9 ensures Follows(SHRINK_STATES, SHRINK, k) {
      ShrinkFollows(k);
    }
    Chain(SHRINK_STATES, SHRINK, 0);
    assert SHRINK[0..] == SHRINK;
  }

  lemma ShrinkFollows(k: nat)
    requires k < 9
    ensures Follows(SHRINK_STATES, SHRINK, k)
  {
    assert Wrapped(-90) == WORD - 90;
    SmallWrap(0);
    SmallWrap(2);
    SmallWrap(10);
    SmallWrap(110);
    hide Wrapped;
    assert Next(SHRINK_STATES[k], SHRINK[k]).threads == SHRINK_STATES[k + 1].threads;
    assert Next(SHRINK_STATES[k], SHRINK[k]).blocks == SHRINK_STATES[k + 1].blocks;
  }

  predicate Follows(states: seq<State>, steps: seq<Step>, k: nat)
    requires |states| == |steps| + 1 && k < |steps|
  {
    Enabled(states[k], steps[k]) && Next(states[k], steps[k]) == states[k + 1]
  }

  /** States that follow one another by the steps are a run. */
  lemma {:induction false} Chain(states: seq<State>, steps: seq<Step>, i: nat)
    requires |states| == |steps| + 1 && i <= |steps|
    requires forall k :: i <= k < |steps| ==> Follows(states, steps, k)
    ensures IsRun(states[i], steps[i..]) && After(states[i], steps[i..]) == states[|steps|]
    decreases |steps| - i
  {
    hide Next, Enabled;
    if i < |steps| {
      assert Follows(states, steps, i);
      Chain(states, steps, i + 1);
      assert steps[i..][1..] == steps[i + 1..];
    }
  }
}
