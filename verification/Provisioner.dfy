/**
 The lazy backend provisioner (core/backend_provisioner.py), for one backend: API callers and
 worker threads as programs whose every read or write of the shared state is one atomic step,
 interleaved in any order, with a container daemon that others may disturb.

 `ok` of a step is whether the call it makes (to the daemon, or of the readiness probe) succeeds.
 */
module Provisioner {
  import opened Common

  datatype Phase = Absent | Pulling | Starting | Ready | Failed | Stopped

  datatype Daemon = NoContainer | Halted | Running

  /** Where a worker thread stands; the comment is the step it will take next. */
  datatype WorkerPc =
    | Begin         // try to acquire the lock
    | Clearing      // error = None
    | Finding       // look the container up by name
    | PullMark      // state = PULLING
    | PullRun       // pull the image
    | StartMark     // state = STARTING
    | Creating      // create and start the container
    | Inspecting    // reload the container found and read its status
    | RestartMark   // state = STARTING
    | Restarting    // start the container found
    | Waiting       // poll until a probe succeeds or time is up
    | Settling      // pause after a probe that found the container running
    | ReadyMark     // state = READY
    | ReadyStamp    // ready_at = now
    | FailMark      // state = FAILED
    | FailNote      // error = text
    | Releasing     // release the lock
    | Gone

  datatype CallerPc =
    | ProvisionFlight  // is the state PULLING or STARTING?
    | ProvisionReady   // is it READY?
    | ProvisionReset   // state = ABSENT
    | ProvisionClear   // error = None
    | ProvisionSpawn   // start a worker
    | StopFind         // look the container up
    | StopHalt         // stop it
    | StopMark         // state = STOPPED
    | StopNote         // error = text
    | StatusCheck      // is the state READY and a check due?
    | StatusFind       // look the container up
    | StatusMark       // state = STOPPED
    | Returned

  /** What all threads share: the fields of ProvisionState, the lock's holder, and the container. */
  datatype Shared = Shared(phase: Phase, error: bool, lock: Option<nat>, daemon: Daemon)

  datatype State = State(shared: Shared, workers: map<nat, WorkerPc>, callers: map<nat, CallerPc>)

  datatype Api = Provision | Stop | Status

  /** One atomic step. `thread` is the id of the worker that a caller may start, `half` says that a failed creation
      left a container that never started. Others may remove, create, crash or start the container of that name. */
  datatype Label =
    | Call(caller: nat, api: Api)
    | CallerMove(caller: nat, ok: bool, thread: nat)
    | WorkerMove(worker: nat, ok: bool, half: bool)
    | Vanish
    | Appear(running: bool)
    | Crash
    | Revive

  const INITIAL := State(Shared(Absent, false, None, NoContainer), map[], map[])

  predicate Critical(pc: WorkerPc) { pc != Begin && pc != Gone }

  /** One step of worker `w`, which stands at `pc`. */
  function WorkerStep(s: Shared, w: nat, pc: WorkerPc, ok: bool, half: bool): (Shared, WorkerPc) {
    match pc
    case Begin => if s.lock.None? then (s.(lock := Some(w)), Clearing) else (s, Gone)
    case Clearing => (s.(error := false), Finding)
    case Finding => (s, if !ok then FailMark else if s.daemon == NoContainer then PullMark else Inspecting)
    case PullMark => if ok then (s.(phase := Pulling), PullRun) else (s, FailMark)
    case PullRun => (s, if ok then StartMark else FailMark)
    case StartMark => (s.(phase := Starting), Creating)
    case Creating =>
      if s.daemon != NoContainer then (s, FailMark)
      else if ok then (s.(daemon := Running), Waiting)
      else if half then (s.(daemon := Halted), FailMark)
      else (s, FailMark)
    case Inspecting =>
      (s, if !ok || s.daemon == NoContainer then FailMark else if s.daemon == Running then Waiting else RestartMark)
    case RestartMark => (s.(phase := Starting), Restarting)
    case Restarting => if ok && s.daemon != NoContainer then (s.(daemon := Running), Waiting) else (s, FailMark)
    case Waiting => (s, if ok && s.daemon == Running then Settling else FailMark)
    case Settling => (s, ReadyMark)
    case ReadyMark => (s.(phase := Ready), ReadyStamp)
    case ReadyStamp => (s, Releasing)
    case FailMark => (s.(phase := Failed), FailNote)
    case FailNote => (s.(error := true), Releasing)
    case Releasing => (s.(lock := None), Gone)
    case Gone => (s, Gone)
  }

  /** One step of a caller that stands at `pc`. */
  function CallerStep(s: Shared, pc: CallerPc, ok: bool): (Shared, CallerPc) {
    match pc
    case ProvisionFlight => (s, if s.phase == Pulling || s.phase == Starting then Returned else ProvisionReady)
    case ProvisionReady => (s, if s.phase == Ready then Returned else ProvisionReset)
    case ProvisionReset => (s.(phase := Absent), ProvisionClear)
    case ProvisionClear => (s.(error := false), ProvisionSpawn)
    case ProvisionSpawn => (s, Returned)
    case StopFind => (s, if !ok then StopNote else if s.daemon == Running then StopHalt else StopMark)
    case StopHalt => if ok && s.daemon != NoContainer then (s.(daemon := Halted), StopMark) else (s, StopNote)
    case StopMark => (s.(phase := Stopped), Returned)
    case StopNote => (s.(error := true), Returned)
    case StatusCheck => (s, if s.phase == Ready && ok then StatusFind else Returned)
    case StatusFind => (s, if ok && s.daemon != Running then StatusMark else Returned)
    case StatusMark => (s.(phase := Stopped), Returned)
    case Returned => (s, Returned)
  }

  function Entry(api: Api): CallerPc {
    match api case Provision => ProvisionFlight case Stop => StopFind case Status => StatusCheck
  }

  /** A step that cannot be taken leaves the state alone. */
  function Do(s: State, l: Label): State {
    match l
    case Call(c, api) => if c in s.callers then s else s.(callers := s.callers[c := Entry(api)])
    case CallerMove(c, ok, thread) =>
      if c !in s.callers || (s.callers[c] == ProvisionSpawn && thread in s.workers) then s
      else
        var (shared, pc) := CallerStep(s.shared, s.callers[c], ok);
        var workers := if s.callers[c] == ProvisionSpawn then s.workers[thread := Begin] else s.workers;
        State(shared, workers, s.callers[c := pc])
    case WorkerMove(w, ok, half) =>
      if w !in s.workers then s
      else
        var (shared, pc) := WorkerStep(s.shared, w, s.workers[w], ok, half);
        State(shared, s.workers[w := pc], s.callers)
    case Vanish => s.(shared := s.shared.(daemon := NoContainer))
    case Appear(running) =>
      if s.shared.daemon != NoContainer then s
      else s.(shared := s.shared.(daemon := if running then Running else Halted))
    case Crash => if s.shared.daemon == Running then s.(shared := s.shared.(daemon := Halted)) else s
    case Revive => if s.shared.daemon == Halted then s.(shared := s.shared.(daemon := Running)) else s
  }

  function Run(labels: seq<Label>): State {
    if labels == [] then INITIAL else Do(Run(labels[..|labels| - 1]), labels[|labels| - 1])
  }

  // ----- What every reachable state satisfies -----

  predicate AfterPulling(pc: WorkerPc) { pc == PullRun || pc == StartMark || pc == FailMark }

  predicate AfterStarting(pc: WorkerPc) {
    pc == Creating || pc == Restarting || pc == Waiting || pc == Settling || pc == ReadyMark || pc == FailMark
  }

  /** What holds of a worker and the shared state: it is inside the critical section exactly when it
      holds the lock, and a state shown as in flight while it holds the lock is one it is bound to change. */
  predicate WorkerInv(s: Shared, w: nat, pc: WorkerPc) {
    && (Critical(pc) <==> s.lock == Some(w))
    && (s.lock == Some(w) && s.phase == Pulling ==> AfterPulling(pc))
    && (s.lock == Some(w) && s.phase == Starting ==> AfterStarting(pc))
  }

  predicate SharedInv(s: Shared) { (s.phase == Pulling || s.phase == Starting) ==> s.lock.Some? }

  predicate Inv(s: State) {
    && SharedInv(s.shared)
    && (s.shared.lock.Some? ==> s.shared.lock.value in s.workers)
    && forall w :: w in s.workers ==> WorkerInv(s.shared, w, s.workers[w])
  }

  lemma WorkerStepKeepsOwn(s: Shared, w: nat, pc: WorkerPc, ok: bool, half: bool)
    requires SharedInv(s) && WorkerInv(s, w, pc)
    ensures var (s', pc') := WorkerStep(s, w, pc, ok, half); SharedInv(s') && WorkerInv(s', w, pc')
  {
  }

  /** A step of one worker keeps the invariant of any other: outside the lock it changes nothing shared. */
  lemma WorkerStepKeeps(s: Shared, w: nat, pc: WorkerPc, ok: bool, half: bool, v: nat, other: WorkerPc)
    requires SharedInv(s) && WorkerInv(s, w, pc) && WorkerInv(s, v, other) && v != w
    ensures WorkerInv(WorkerStep(s, w, pc, ok, half).0, v, other)
  {
  }

  lemma WorkerStepLock(s: Shared, w: nat, pc: WorkerPc, ok: bool, half: bool)
    ensures var s' := WorkerStep(s, w, pc, ok, half).0; s'.lock == s.lock || s'.lock == Some(w) || s'.lock == None
  {
  }

  lemma CallerStepKeeps(s: Shared, pc: CallerPc, ok: bool, w: nat, worker: WorkerPc)
    requires SharedInv(s) && WorkerInv(s, w, worker)
    ensures WorkerInv(CallerStep(s, pc, ok).0, w, worker)
  {
  }

  lemma CallerKeepsLock(s: Shared, pc: CallerPc, ok: bool)
    requires SharedInv(s)
    ensures CallerStep(s, pc, ok).0.lock == s.lock && SharedInv(CallerStep(s, pc, ok).0)
  {
  }

  lemma {:induction false} StepKeepsInv(s: State, l: Label)
    requires Inv(s)
    ensures Inv(Do(s, l))
  {
    var s' := Do(s, l);
    match l {
      case WorkerMove(w, ok, half) =>
        if w in s.workers {
          WorkerStepKeepsOwn(s.shared, w, s.workers[w], ok, half);
          assert s'.shared == WorkerStep(s.shared, w, s.workers[w], ok, half).0;
          forall v | v in s.workers && v != w ensures WorkerInv(s'.shared, v, s.workers[v]) {
            WorkerStepKeeps(s.shared, w, s.workers[w], ok, half, v, s.workers[v]);
          }
          WorkerStepLock(s.shared, w, s.workers[w], ok, half);
          hide WorkerStep;
        }
      case CallerMove(c, ok, thread) =>
        if c in s.callers {
          forall w | w in s.workers ensures WorkerInv(CallerStep(s.shared, s.callers[c], ok).0, w, s.workers[w]) {
            CallerStepKeeps(s.shared, s.callers[c], ok, w, s.workers[w]);
          }
          CallerKeepsLock(s.shared, s.callers[c], ok);
          hide CallerStep;
        }
      case _ =>
        forall w | w in s.workers ensures WorkerInv(s'.shared, w, s.workers[w]) {
          assert WorkerInv(s.shared, w, s.workers[w]);
        }
    }
  }

  lemma {:induction false} ReachableInv(labels: seq<Label>)
    ensures Inv(Run(labels))
  {
    if labels != [] {
      ReachableInv(labels[..|labels| - 1]);
      StepKeepsInv(Run(labels[..|labels| - 1]), labels[|labels| - 1]);
    }
  }

  /** Mutual exclusion, and a held lock has a live worker. */
  lemma {:induction false} MutualExclusion(labels: seq<Label>, v: nat, w: nat)
    ensures var s := Run(labels);
            && (v in s.workers && w in s.workers && Critical(s.workers[v]) && Critical(s.workers[w]) ==> v == w)
            && (s.shared.lock == Some(w) <==> w in s.workers && Critical(s.workers[w]))
  {
    ReachableInv(labels);
  }

  /** The creation step of a worker. */
  predicate Creates(s: State, l: Label) {
    l.WorkerMove? && l.worker in s.workers && s.workers[l.worker] == Creating
  }

  /** A container comes into being only from outside or by the creation step of the lock holder, and that
      step, where it finds a container of the name, leaves it alone and fails. */
  lemma {:induction false} CreationIsSafe(labels: seq<Label>, l: Label)
    ensures var s, s' := Run(labels), Do(Run(labels), l);
            && (s.shared.daemon == NoContainer && s'.shared.daemon != NoContainer ==>
                  l.Appear? || (Creates(s, l) && s.shared.lock == Some(l.worker)))
            && (s.shared.daemon != NoContainer && Creates(s, l) ==>
                  s'.shared == s.shared && s'.workers[l.worker] == FailMark)
  {
    ReachableInv(labels);
    CreationStep(Run(labels), l);
    hide Run, Do;
  }

  lemma CreationStep(s: State, l: Label)
    requires Inv(s)
    ensures s.shared.daemon == NoContainer && Do(s, l).shared.daemon != NoContainer ==>
              l.Appear? || (Creates(s, l) && s.shared.lock == Some(l.worker))
    ensures s.shared.daemon != NoContainer && Creates(s, l) ==>
              Do(s, l).shared == s.shared && Do(s, l).workers[l.worker] == FailMark
  {
  }

  predicate FoundNone(pc: WorkerPc) { pc == PullMark || pc == PullRun || pc == StartMark || pc == Creating }

  /** Unless others create one, there is no container from finding none until creating one. */
  lemma {:induction false} CreationFindsNone(labels: seq<Label>, w: nat)
    requires forall k :: 0 <= k < |labels| ==> !labels[k].Appear?
    ensures w in Run(labels).workers && FoundNone(Run(labels).workers[w]) ==> Run(labels).shared.daemon == NoContainer
  {
    if labels != [] {
      var front, l := labels[..|labels| - 1], labels[|labels| - 1];
      CreationFindsNone(front, w);
      if l.WorkerMove? {
        CreationFindsNone(front, l.worker);
      }
      ReachableInv(front);
      FoundNoneStep(Run(front), l, w);
      assert Run(labels) == Do(Run(front), l);
      hide *;
    }
  }

  lemma FoundNoneStep(s: State, l: Label, w: nat)
    requires Inv(s) && !l.Appear?
    requires w in s.workers && FoundNone(s.workers[w]) ==> s.shared.daemon == NoContainer
    requires l.WorkerMove? && l.worker in s.workers && FoundNone(s.workers[l.worker]) ==> s.shared.daemon == NoContainer
    ensures var s' := Do(s, l);
            w in s'.workers && FoundNone(s'.workers[w]) ==> s'.shared.daemon == NoContainer
  {
    if l.WorkerMove? && l.worker in s.workers && w in s.workers && w != l.worker {
      assert WorkerInv(s.shared, w, s.workers[w]) && WorkerInv(s.shared, l.worker, s.workers[l.worker]);
      if FoundNone(s.workers[w]) {
        OutsiderTouchesNothing(s.shared, l.worker, s.workers[l.worker], l.ok, l.half);
      }
    }
  }

  /** Outside the critical section, with the lock held by another, a step changes nothing shared. */
  lemma OutsiderTouchesNothing(s: Shared, w: nat, pc: WorkerPc, ok: bool, half: bool)
    requires s.lock.Some? && !Critical(pc)
    ensures WorkerStep(s, w, pc, ok, half).0 == s
  {
  }

  /** A backend shown as pulling or starting has a live worker that holds the lock and is bound to
      change that: while no worker holds it, a provision request is turned away only by READY. */
  lemma {:induction false} NothingStuckInFlight(labels: seq<Label>)
    ensures var s := Run(labels);
            s.shared.phase == Pulling || s.shared.phase == Starting ==>
              && s.shared.lock.Some? && s.shared.lock.value in s.workers
              && (s.shared.phase == Pulling ==> AfterPulling(s.workers[s.shared.lock.value]))
              && (s.shared.phase == Starting ==> AfterStarting(s.workers[s.shared.lock.value]))
  {
    ReachableInv(labels);
  }

  // ----- READY is written only after a successful probe -----

  /** Step `i` of the run is the probe of `w` that finds the container running, and `w` holds the lock
      and goes on towards READY from there on. */
  predicate ProbedAt(labels: seq<Label>, w: nat, i: nat) {
    && i < |labels|
    && labels[i].WorkerMove? && labels[i].worker == w && labels[i].ok
    && w in Run(labels[..i]).workers && Run(labels[..i]).workers[w] == Waiting
    && Run(labels[..i]).shared.daemon == Running
    && forall k :: i <= k <= |labels| ==> NearReady(Run(labels[..k]), w)
  }

  predicate NearReady(s: State, w: nat) {
    && s.shared.lock == Some(w) && w in s.workers
    && (s.workers[w] == Waiting || s.workers[w] == Settling || s.workers[w] == ReadyMark)
  }

  /** The only ways to the pause and to the write of READY. */
  lemma ReadyOrigin(s: State, l: Label, w: nat)
    requires w in Do(s, l).workers && Do(s, l).workers[w] in {Settling, ReadyMark}
    ensures w in s.workers
    ensures s.workers[w] in {Settling, ReadyMark}
         || (l.WorkerMove? && l.worker == w && l.ok && s.workers[w] == Waiting && s.shared.daemon == Running)
  {
  }

  lemma ProbeExtends(front: seq<Label>, l: Label, w: nat, i: nat)
    requires ProbedAt(front, w, i) && NearReady(Run(front + [l]), w)
    ensures ProbedAt(front + [l], w, i)
  {
    hide Run, NearReady;
    var labels := front + [l];
    assert forall k :: 0 <= k <= |front| ==> labels[..k] == front[..k];
    assert labels[..|labels|] == labels;
  }

  lemma ProbeNow(front: seq<Label>, l: Label, w: nat)
    requires l.WorkerMove? && l.worker == w && l.ok && Run(front).shared.daemon == Running
    requires w in Run(front).workers && Run(front).workers[w] == Waiting
    requires NearReady(Run(front), w) && NearReady(Run(front + [l]), w)
    ensures ProbedAt(front + [l], w, |front|)
  {
    hide Run, NearReady;
    var labels := front + [l];
    assert labels[..|front|] == front && labels[..|labels|] == labels;
  }

  /** Inside the critical section means holding the lock. */
  lemma HoldsLock(labels: seq<Label>, w: nat)
    requires w in Run(labels).workers && Critical(Run(labels).workers[w])
    ensures Run(labels).shared.lock == Some(w)
  {
    ReachableInv(labels);
    assert WorkerInv(Run(labels).shared, w, Run(labels).workers[w]);
  }

  lemma {:induction false} ReadyMarkAfterProbe(labels: seq<Label>, w: nat) returns (i: nat)
    requires w in Run(labels).workers && Run(labels).workers[w] in {Settling, ReadyMark}
    ensures ProbedAt(labels, w, i)
    decreases |labels|
  {
    var front, l := labels[..|labels| - 1], labels[|labels| - 1];
    assert Run(labels) == Do(Run(front), l) && labels == front + [l];
    hide Run, Do, ProbedAt;
    HoldsLock(labels, w);
    ReadyOrigin(Run(front), l, w);
    if Run(front).workers[w] in {Settling, ReadyMark} {
      i := ReadyMarkAfterProbe(front, w);
      ProbeExtends(front, l, w, i);
    } else {
      i := |front|;
      HoldsLock(front, w);
      ProbeNow(front, l, w);
    }
  }

  /** The state becomes READY only by the lock holder, after its own probe found the container running,
      the lock being held ever since. */
  lemma {:induction false} ReadyOnlyAfterProbe(labels: seq<Label>, l: Label)
    requires Run(labels).shared.phase != Ready && Do(Run(labels), l).shared.phase == Ready
    ensures l.WorkerMove? && Run(labels).shared.lock == Some(l.worker) && exists i :: ProbedAt(labels, l.worker, i)
  {
    OnlyReadyMarkWrites(Run(labels), l);
    hide Run, Do;
    HoldsLock(labels, l.worker);
    var i := ReadyMarkAfterProbe(labels, l.worker);
  }

  lemma OnlyReadyMarkWrites(s: State, l: Label)
    requires s.shared.phase != Ready && Do(s, l).shared.phase == Ready
    ensures l.WorkerMove? && l.worker in s.workers && s.workers[l.worker] == ReadyMark
  {
  }

  // ----- When READY stands over a running container -----

  /** A removal, a crash, or the halt of a stop request. */
  predicate TakesDown(s: State, l: Label) {
    l.Vanish? || l.Crash? || (l.CallerMove? && l.ok && l.caller in s.callers && s.callers[l.caller] == StopHalt)
  }

  /** A start of the halted container, or a new running one. */
  predicate BringsUp(s: State, l: Label) {
    (l.Revive? && s.shared.daemon == Halted) || (l.Appear? && l.running && s.shared.daemon == NoContainer)
  }

  /** While a worker is on its last steps to READY, only those change whether the container runs. */
  lemma RunningStep(s: State, l: Label, w: nat)
    requires Inv(s) && NearReady(s, w)
    ensures Do(s, l).shared.daemon == Running <==> BringsUp(s, l) || (s.shared.daemon == Running && !TakesDown(s, l))
  {
    if l.WorkerMove? && l.worker in s.workers {
      assert WorkerInv(s.shared, l.worker, s.workers[l.worker]);
    }
  }

  predicate FallsAt(labels: seq<Label>, k: nat) { k < |labels| && TakesDown(Run(labels[..k]), labels[k]) }

  predicate RisesAt(labels: seq<Label>, k: nat) { k < |labels| && BringsUp(Run(labels[..k]), labels[k]) }

  /** Every step from the `i`-th on that takes the container down is followed by one that brings it up. */
  predicate EveryFallMended(labels: seq<Label>, i: nat) {
    forall k: nat :: i <= k < |labels| && FallsAt(labels, k) ==> exists j: nat :: k < j < |labels| && RisesAt(labels, j)
  }

  lemma FallsStay(front: seq<Label>, l: Label, k: nat)
    requires k < |front|
    ensures FallsAt(front + [l], k) == FallsAt(front, k) && RisesAt(front + [l], k) == RisesAt(front, k)
  {
    hide Run, TakesDown, BringsUp;
    assert (front + [l])[..k] == front[..k];
  }

  lemma FallsLast(front: seq<Label>, l: Label)
    ensures FallsAt(front + [l], |front|) == TakesDown(Run(front), l)
    ensures RisesAt(front + [l], |front|) == BringsUp(Run(front), l)
    ensures !(BringsUp(Run(front), l) && TakesDown(Run(front), l))
  {
    hide Run;
    assert (front + [l])[..|front|] == front;
  }

  lemma MendedStep(front: seq<Label>, l: Label, i: nat)
    requires i <= |front|
    ensures EveryFallMended(front + [l], i) <==>
            BringsUp(Run(front), l) || (EveryFallMended(front, i) && !TakesDown(Run(front), l))
  {
    hide Run, FallsAt, RisesAt, TakesDown, BringsUp;
    var labels, n := front + [l], |front|;
    FallsLast(front, l);
    forall k: nat | k < n ensures FallsAt(labels, k) == FallsAt(front, k) && RisesAt(labels, k) == RisesAt(front, k) {
      FallsStay(front, l, k);
    }
    if !BringsUp(Run(front), l) && EveryFallMended(labels, i) {
      forall k: nat | i <= k < n && FallsAt(front, k) ensures exists j: nat :: k < j < n && RisesAt(front, j) {
        assert FallsAt(labels, k);
        var j: nat :| k < j < |labels| && RisesAt(labels, j);
        assert j < n && RisesAt(front, j);
      }
    }
    if EveryFallMended(front, i) && !TakesDown(Run(front), l) {
      forall k: nat | i <= k < |labels| && FallsAt(labels, k)
        ensures exists j: nat :: k < j < |labels| && RisesAt(labels, j)
      {
        assert k < n && FallsAt(front, k);
        var j: nat :| k < j < n && RisesAt(front, j);
        assert RisesAt(labels, j);
      }
    }
  }

  lemma ProbedNear(labels: seq<Label>, w: nat, i: nat, k: nat)
    requires ProbedAt(labels, w, i) && i <= k <= |labels|
    ensures NearReady(Run(labels[..k]), w) && i <= |labels| && Run(labels[..i]).shared.daemon == Running
  {
    hide Run, NearReady;
  }

  lemma {:induction false} RunningIffMended(labels: seq<Label>, n: nat, w: nat, i: nat)
    requires ProbedAt(labels, w, i) && i <= n <= |labels|
    ensures Run(labels[..n]).shared.daemon == Running <==> EveryFallMended(labels[..n], i)
    decreases n
  {
    hide Run, Do, NearReady, ProbedAt, FallsAt, RisesAt, TakesDown, BringsUp, Inv;
    if n == i {
      ProbedNear(labels, w, i, i);
    } else {
      var front, l := labels[..n - 1], labels[n - 1];
      assert labels[..n] == front + [l];
      RunningIffMended(labels, n - 1, w, i);
      ReachableInv(front);
      ProbedNear(labels, w, i, n - 1);
      RunningStep(Run(front), l, w);
      hide EveryFallMended;
      MendedStep(front, l, i);
      RunStep(front, l);
    }
  }

  lemma RunStep(front: seq<Label>, l: Label)
    ensures Run(front + [l]) == Do(Run(front), l)
  {
    hide Do;
    assert (front + [l])[..|front|] == front;
  }

  /** READY is written over a running container exactly when, since the probe, every step that took the
      container down was mended. */
  lemma {:induction false} ReadyIsTrueIff(labels: seq<Label>, w: nat, i: nat, ok: bool, half: bool)
    requires ProbedAt(labels, w, i) && Run(labels).workers[w] == ReadyMark
    ensures var s' := Do(Run(labels), WorkerMove(w, ok, half));
            s'.shared.phase == Ready && (s'.shared.daemon == Running <==> EveryFallMended(labels, i))
  {
    assert i < |labels|;
    hide Run, EveryFallMended, ProbedAt;
    RunningIffMended(labels, |labels|, w, i);
    ProbedNear(labels, w, i, |labels|);
    assert labels[..|labels|] == labels;
  }

  // ----- Every worker comes to an end -----

  function Rank(pc: WorkerPc): nat {
    match pc
    case Begin => 14 case Clearing => 13 case Finding => 12
    case PullMark => 11 case PullRun => 10 case StartMark => 9 case Creating => 8
    case Inspecting => 10 case RestartMark => 9 case Restarting => 8
    case Waiting => 6 case Settling => 5 case ReadyMark => 4 case ReadyStamp => 3
    case FailMark => 5 case FailNote => 4 case Releasing => 2 case Gone => 0
  }

  /** How many of the steps are moves of `w`. */
  function Moves(labels: seq<Label>, w: nat): nat {
    if labels == [] then 0
    else (if labels[0].WorkerMove? && labels[0].worker == w then 1 else 0) + Moves(labels[1..], w)
  }

  function RunFrom(s: State, labels: seq<Label>): State
    decreases |labels|
  {
    if labels == [] then s else RunFrom(Do(s, labels[0]), labels[1..])
  }

  lemma {:induction false} RunFromRun(a: seq<Label>, b: seq<Label>)
    ensures RunFrom(Run(a), b) == Run(a + b)
    decreases |b|
  {
    if b == [] {
      assert a + b == a;
    } else {
      assert (a + [b[0]])[..|a|] == a;
      RunFromRun(a + [b[0]], b[1..]);
      assert a + [b[0]] + b[1..] == a + b;
    }
  }

  lemma MoveLowersRank(s: State, l: Label, w: nat)
    requires w in s.workers
    ensures w in Do(s, l).workers
    ensures if l.WorkerMove? && l.worker == w
            then Rank(Do(s, l).workers[w]) < Rank(s.workers[w]) || Do(s, l).workers[w] == Gone
            else Do(s, l).workers[w] == s.workers[w]
  {
  }

  lemma {:induction false} RankAfter(s: State, more: seq<Label>, w: nat)
    requires w in s.workers
    ensures w in RunFrom(s, more).workers
    ensures Rank(RunFrom(s, more).workers[w]) + Moves(more, w) <= Rank(s.workers[w]) ||
            RunFrom(s, more).workers[w] == Gone
    decreases |more|
  {
    if more != [] {
      MoveLowersRank(s, more[0], w);
      RankAfter(Do(s, more[0]), more[1..], w);
    }
  }

  /** Whatever all others do, a worker is gone, and the lock no longer its own, once it has moved
      fourteen more times: no failure of a call leaves the lock held. */
  lemma {:induction false} WorkerEnds(labels: seq<Label>, more: seq<Label>, w: nat)
    requires w in Run(labels).workers && Moves(more, w) >= 14
    ensures w in Run(labels + more).workers && Run(labels + more).workers[w] == Gone
    ensures Run(labels + more).shared.lock != Some(w)
  {
    RunFromRun(labels, more);
    RankAfter(Run(labels), more, w);
    ReachableInv(labels + more);
  }

  // ----- Concrete runs -----

  lemma {:induction false} RunFromConcat(s: State, a: seq<Label>, b: seq<Label>)
    ensures RunFrom(s, a + b) == RunFrom(RunFrom(s, a), b)
    decreases |a|
  {
    if a == [] {
      assert a + b == b;
    } else {
      assert (a + b)[1..] == a[1..] + b;
      RunFromConcat(Do(s, a[0]), a[1..], b);
    }
  }

  lemma RunFromOne(s: State, a: Label)
    ensures RunFrom(s, [a]) == Do(s, a)
  {
    assert [a][1..] == [];
    assert RunFrom(s, [a]) == RunFrom(Do(s, a), []);
  }

  lemma RunFromTwo(s: State, a: Label, b: Label)
    ensures RunFrom(s, [a, b]) == Do(Do(s, a), b)
  {
    assert [a, b][1..] == [b] && [b][1..] == [];
    assert RunFrom(Do(s, a), [b]) == RunFrom(Do(Do(s, a), b), []);
  }

  lemma RunFromThree(s: State, a: Label, b: Label, c: Label)
    ensures RunFrom(s, [a, b, c]) == Do(Do(Do(s, a), b), c)
  {
    assert [a, b, c] == [a, b] + [c] && [c][1..] == [];
    RunFromConcat(s, [a, b], [c]);
    RunFromTwo(s, a, b);
    assert RunFrom(Do(Do(s, a), b), [c]) == RunFrom(Do(Do(Do(s, a), b), c), []);
  }

  /** The steps of a provision request that finds the state neither in flight nor READY. */
  function AcceptMoves(c: nat): seq<Label> {
    var move := CallerMove(c, true, 0);
    [Call(c, Provision), move, move]
  }

  function StartMoves(c: nat, w: nat): seq<Label> {
    [CallerMove(c, true, 0), CallerMove(c, true, 0), CallerMove(c, true, w)]
  }

  lemma AcceptRuns(s: State, c: nat)
    requires c !in s.callers && s.shared.phase !in {Pulling, Starting, Ready}
    ensures RunFrom(s, AcceptMoves(c)) == s.(callers := s.callers[c := ProvisionReset])
  {
    var move := CallerMove(c, true, 0);
    RunFromThree(s, Call(c, Provision), move, move);
    assert s.callers[c := ProvisionFlight][c := ProvisionReady][c := ProvisionReset] == s.callers[c := ProvisionReset];
  }

  lemma StartRuns(s: State, c: nat, w: nat)
    requires c in s.callers && s.callers[c] == ProvisionReset && w !in s.workers
    ensures RunFrom(s, StartMoves(c, w))
         == State(s.shared.(phase := Absent, error := false), s.workers[w := Begin], s.callers[c := Returned])
  {
    RunFromThree(s, CallerMove(c, true, 0), CallerMove(c, true, 0), CallerMove(c, true, w));
    assert s.callers[c := ProvisionClear][c := ProvisionSpawn][c := Returned] == s.callers[c := Returned];
  }

  /** Nine steps of a worker that finds no container, up to the write of READY. */
  function BuildMoves(w: nat): seq<Label> {
    var move := WorkerMove(w, true, false);
    [move, move, move] + ([move, move, move] + [move, move, move])
  }

  /** A step of a worker whose calls succeed, on its part of the state. */
  function Next(w: nat, x: (Shared, WorkerPc)): (Shared, WorkerPc) { WorkerStep(x.0, w, x.1, true, false) }

  lemma WorkerMoves(s: State, w: nat)
    requires w in s.workers
    ensures var x := Next(w, (s.shared, s.workers[w]));
            Do(s, WorkerMove(w, true, false)) == State(x.0, s.workers[w := x.1], s.callers)
  {
  }

  lemma WorkerThree(s: State, w: nat)
    requires w in s.workers
    ensures var move, x := WorkerMove(w, true, false), Next(w, Next(w, Next(w, (s.shared, s.workers[w]))));
            RunFrom(s, [move, move, move]) == State(x.0, s.workers[w := x.1], s.callers)
  {
    hide Next, Do, RunFrom;
    var move := WorkerMove(w, true, false);
    RunFromThree(s, move, move, move);
    WorkerMoves(s, w);
    WorkerMoves(Do(s, move), w);
    WorkerMoves(Do(Do(s, move), move), w);
    var a := Next(w, (s.shared, s.workers[w]));
    var b := Next(w, a);
    assert s.workers[w := a.1][w := b.1][w := Next(w, b).1] == s.workers[w := Next(w, b).1];
  }

  lemma BuildRuns(s: State, w: nat)
    requires w in s.workers && s.workers[w] == Begin && s.shared.lock.None? && s.shared.daemon == NoContainer
    ensures RunFrom(s, BuildMoves(w))
         == State(Shared(Starting, false, Some(w), Running), s.workers[w := ReadyMark], s.callers)
  {
    BuildSteps(s.shared, w);
    hide Next, RunFrom;
    var move := WorkerMove(w, true, false);
    RunFromConcat(s, [move, move, move], [move, move, move] + [move, move, move]);
    WorkerThree(s, w);
    var s3 := RunFrom(s, [move, move, move]);
    RunFromConcat(s3, [move, move, move], [move, move, move]);
    WorkerThree(s3, w);
    var s6 := RunFrom(s3, [move, move, move]);
    WorkerThree(s6, w);
  }

  lemma BuildSteps(s: Shared, w: nat)
    requires s.lock.None? && s.daemon == NoContainer
    ensures var x := Next(w, Next(w, Next(w, (s, Begin))));
            var y := Next(w, Next(w, Next(w, x)));
            Next(w, Next(w, Next(w, y))) == (Shared(Starting, false, Some(w), Running), ReadyMark)
  {
    var held := s.(lock := Some(w), error := false);
    assert Next(w, Next(w, Next(w, (s, Begin)))) == (held, PullMark);
    assert Next(w, Next(w, Next(w, (held, PullMark)))) == (held.(phase := Starting), Creating);
  }

  /** The steps of a stop request, and the last ones of a worker. */
  function StopMoves(c: nat): seq<Label> {
    [Call(c, Stop), CallerMove(c, true, 0), CallerMove(c, true, 0), CallerMove(c, true, 0)]
  }

  function ReadyMoves(w: nat): seq<Label> {
    [WorkerMove(w, true, false), WorkerMove(w, true, false), WorkerMove(w, true, false)]
  }

  /** The stop request runs through: the container is halted and the state is STOPPED. */
  lemma StopRuns(s: State, c: nat)
    requires s.shared.daemon == Running && c !in s.callers
    ensures RunFrom(s, StopMoves(c))
         == State(s.shared.(phase := Stopped, daemon := Halted), s.workers, s.callers[c := Returned])
  {
    hide RunFrom, Do;
    var move := CallerMove(c, true, 0);
    assert StopMoves(c) == [Call(c, Stop)] + [move, move, move];
    RunFromConcat(s, [Call(c, Stop)], [move, move, move]);
    RunFromOne(s, Call(c, Stop));
    StopStarts(s, c);
    var s1 := Do(s, Call(c, Stop));
    RunFromThree(s1, move, move, move);
    StopThree(s1, c);
    assert s.callers[c := StopFind][c := Returned] == s.callers[c := Returned];
  }

  lemma StopStarts(s: State, c: nat)
    requires c !in s.callers
    ensures Do(s, Call(c, Stop)) == s.(callers := s.callers[c := StopFind])
  {
  }

  lemma StopThree(s: State, c: nat)
    requires s.shared.daemon == Running && c in s.callers && s.callers[c] == StopFind
    ensures var move := CallerMove(c, true, 0);
            Do(Do(Do(s, move), move), move)
            == State(s.shared.(phase := Stopped, daemon := Halted), s.workers, s.callers[c := Returned])
  {
    assert s.callers[c := StopHalt][c := StopMark][c := Returned] == s.callers[c := Returned];
  }

  /** The worker then writes READY and releases the lock. */
  lemma ReadyRuns(s: State, w: nat)
    requires w in s.workers && s.workers[w] == ReadyMark
    ensures RunFrom(s, ReadyMoves(w)) == State(s.shared.(phase := Ready, lock := None), s.workers[w := Gone], s.callers)
  {
    WorkerThree(s, w);
    assert Next(w, Next(w, Next(w, (s.shared, ReadyMark)))) == (s.shared.(phase := Ready, lock := None), Gone);
    hide Next, RunFrom;
  }

  /** A stop request between the end of the wait and the write of READY leaves the backend shown as
      READY, the lock free, and the container halted. */
  lemma {:induction false} StaleReady(s: State, c: nat, w: nat)
    requires w in s.workers && s.workers[w] == ReadyMark && s.shared.daemon == Running && c !in s.callers
    ensures RunFrom(s, StopMoves(c) + ReadyMoves(w))
         == State(s.shared.(phase := Ready, daemon := Halted, lock := None), s.workers[w := Gone],
           s.callers[c := Returned])
  {
    StopRuns(s, c);
    ReadyRuns(RunFrom(s, StopMoves(c)), w);
    RunFromConcat(s, StopMoves(c), ReadyMoves(w));
  }

  /** All requests are answered and all workers are gone. */
  predicate AtRest(s: State) {
    && (forall w :: w in s.workers ==> s.workers[w] == Gone)
    && (forall c :: c in s.callers ==> s.callers[c] == Returned)
  }

  lemma RunIsRunFrom(labels: seq<Label>)
    ensures Run(labels) == RunFrom(INITIAL, labels)
  {
    assert [] + labels == labels;
    RunFromRun([], labels);
  }

  /** That happens: one provision request and one stop request, from the start, come to rest with READY
      over a halted container. */
  lemma {:induction false} StaleReadyIsReachable() returns (labels: seq<Label>)
    ensures var s := Run(labels); AtRest(s) && s.shared == Shared(Ready, false, None, Halted)
  {
    hide Run, RunFrom, Do, StopMoves, ReadyMoves, BuildMoves, AcceptMoves, StartMoves;
    var a, b := AcceptMoves(0), StartMoves(0, 0);
    var build, end := BuildMoves(0), StopMoves(1) + ReadyMoves(0);
    labels := a + (b + (build + end));
    RunIsRunFrom(labels);
    RunFromConcat(INITIAL, a, b + (build + end));
    AcceptRuns(INITIAL, 0);
    var s1 := RunFrom(INITIAL, a);
    RunFromConcat(s1, b, build + end);
    StartRuns(s1, 0, 0);
    var s2 := RunFrom(s1, b);
    RunFromConcat(s2, build, end);
    BuildRuns(s2, 0);
    StaleReady(RunFrom(s2, build), 1, 0);
  }

  // ----- What a provision request does -----

  /** Some step of the run passes the test. */
  predicate Happened(labels: seq<Label>, test: (State, Label) -> bool) {
    labels != [] && (Happened(labels[..|labels| - 1], test) || test(Run(labels[..|labels| - 1]), labels[|labels| - 1]))
  }

  predicate MovesFrom(s: State, l: Label, c: nat, pc: CallerPc) {
    l.CallerMove? && l.caller == c && c in s.callers && s.callers[c] == pc
  }

  function CalledFor(c: nat, api: Api): (State, Label) -> bool {
    (s: State, l: Label) => l == Call(c, api) && c !in s.callers
  }

  /** The request reads a state that is in flight, or READY: it is turned away. */
  function TurnedAway(c: nat): (State, Label) -> bool {
    (s: State, l: Label) =>
      || (MovesFrom(s, l, c, ProvisionFlight) && (s.shared.phase == Pulling || s.shared.phase == Starting))
      || (MovesFrom(s, l, c, ProvisionReady) && s.shared.phase == Ready)
  }

  /** The request starts a worker. */
  function StartsWorker(c: nat): (State, Label) -> bool {
    (s: State, l: Label) => MovesFrom(s, l, c, ProvisionSpawn) && l.thread !in s.workers
  }

  predicate Provisioning(pc: CallerPc) {
    pc == ProvisionFlight || pc == ProvisionReady || pc == ProvisionReset || pc == ProvisionClear ||
      pc == ProvisionSpawn
  }

  /** A provision request that has returned started a worker exactly when no read of it found the state in
      flight or READY. */
  lemma {:induction false} ProvisionDecides(labels: seq<Label>, c: nat)
    requires Happened(labels, CalledFor(c, Provision))
    ensures c in Run(labels).callers && (Provisioning(Run(labels).callers[c]) || Run(labels).callers[c] == Returned)
    ensures Provisioning(Run(labels).callers[c]) ==>
              !Happened(labels, TurnedAway(c)) && !Happened(labels, StartsWorker(c))
    ensures Run(labels).callers[c] == Returned ==>
              (Happened(labels, StartsWorker(c)) <==> !Happened(labels, TurnedAway(c)))
  {
    var front, l := labels[..|labels| - 1], labels[|labels| - 1];
    if Happened(front, CalledFor(c, Provision)) {
      ProvisionDecides(front, c);
      ProvisionStep(Run(front), l, c);
    } else {
      NotCalledNotInside(front, c);
      CallStep(Run(front), l, c);
    }
    HappenedStep(labels, TurnedAway(c));
    HappenedStep(labels, StartsWorker(c));
    assert Run(labels) == Do(Run(front), l);
    hide *;
  }

  lemma HappenedStep(labels: seq<Label>, test: (State, Label) -> bool)
    requires labels != []
    ensures var front, l := labels[..|labels| - 1], labels[|labels| - 1];
            Happened(labels, test) <==> Happened(front, test) || test(Run(front), l)
  {
  }

  lemma CallStep(s: State, l: Label, c: nat)
    requires CalledFor(c, Provision)(s, l)
    ensures c in Do(s, l).callers && Do(s, l).callers[c] == ProvisionFlight
    ensures !TurnedAway(c)(s, l) && !StartsWorker(c)(s, l)
  {
  }

  /** One step, seen from a provision request: it goes on, is turned away, or starts a worker. */
  lemma ProvisionStep(s: State, l: Label, c: nat)
    requires c in s.callers && (Provisioning(s.callers[c]) || s.callers[c] == Returned)
    ensures c in Do(s, l).callers
    ensures var pc := Do(s, l).callers[c];
            && (Provisioning(pc) || pc == Returned)
            && (s.callers[c] == Returned ==> pc == Returned && !TurnedAway(c)(s, l) && !StartsWorker(c)(s, l))
            && (Provisioning(pc) ==> !TurnedAway(c)(s, l) && !StartsWorker(c)(s, l))
            && (Provisioning(s.callers[c]) && pc == Returned ==> (StartsWorker(c)(s, l) <==> !TurnedAway(c)(s, l)))
  {
  }

  /** No step of a caller that is not there. */
  lemma {:induction false} NotCalledNotInside(labels: seq<Label>, c: nat)
    requires c !in Run(labels).callers
    ensures !Happened(labels, TurnedAway(c)) && !Happened(labels, StartsWorker(c))
  {
    if labels != [] {
      var front := labels[..|labels| - 1];
      assert c !in Run(front).callers;
      NotCalledNotInside(front, c);
    }
  }

  function CallerRank(pc: CallerPc): nat {
    match pc
    case ProvisionFlight => 5 case ProvisionReady => 4 case ProvisionReset => 3
    case ProvisionClear => 2 case ProvisionSpawn => 1
    case StopFind => 4 case StopHalt => 3 case StopMark => 2 case StopNote => 2
    case StatusCheck => 3 case StatusFind => 2 case StatusMark => 1
    case Returned => 0
  }

  /** No request waits for another: whatever holds the lock, each of its moves takes it nearer to its answer,
      five at most for a provision request; and a worker that meets a held lock leaves at once, touching nothing. */
  lemma {:induction false} NobodyWaits(s: State, l: Label)
    ensures l.CallerMove? && l.caller in s.callers &&
            !(s.callers[l.caller] == ProvisionSpawn && l.thread in s.workers) ==>
              var pc := Do(s, l).callers[l.caller]; pc == Returned || CallerRank(pc) < CallerRank(s.callers[l.caller])
    ensures l.WorkerMove? && l.worker in s.workers && s.workers[l.worker] == Begin && s.shared.lock.Some? ==>
              Do(s, l) == s.(workers := s.workers[l.worker := Gone])
  {
  }

  // ----- Lost requests -----

  /** The step writes the state that the status shows. */
  predicate WritesPhase(s: State, l: Label) {
    || (l.WorkerMove? && l.worker in s.workers
        && match s.workers[l.worker]
           case PullMark => l.ok
           case StartMark => true
           case RestartMark => true
           case ReadyMark => true
           case FailMark => true
           case _ => false)
    || (l.CallerMove? && l.caller in s.callers
        && (s.callers[l.caller] == ProvisionReset || s.callers[l.caller] == StopMark ||
          s.callers[l.caller] == StatusMark))
  }

  /** The position of the last step that writes the state. */
  function LastWrite(labels: seq<Label>): (r: Option<nat>)
    ensures r.Some? ==> r.value < |labels|
  {
    if labels == [] then None
    else
      var front := labels[..|labels| - 1];
      if WritesPhase(Run(front), labels[|labels| - 1]) then Some(|front|) else LastWrite(front)
  }

  predicate IsReset(s: State, l: Label) {
    l.CallerMove? && l.caller in s.callers && s.callers[l.caller] == ProvisionReset
  }

  lemma WriteStep(s: State, l: Label)
    ensures !WritesPhase(s, l) ==> Do(s, l).shared.phase == s.shared.phase
    ensures WritesPhase(s, l) ==> (Do(s, l).shared.phase == Absent <==> IsReset(s, l))
  {
  }

  /** The state is ABSENT exactly when it was never written or the last write is a request's reset. */
  lemma {:induction false} AbsentIff(labels: seq<Label>)
    ensures Run(labels).shared.phase == Absent <==>
            var k := LastWrite(labels); k.None? || IsReset(Run(labels[..k.value]), labels[k.value])
  {
    if labels != [] {
      var front, l := labels[..|labels| - 1], labels[|labels| - 1];
      AbsentIff(front);
      WriteStep(Run(front), l);
      var k := LastWrite(front);
      assert k.Some? ==> labels[..k.value] == front[..k.value];
      assert Run(labels) == Do(Run(front), l);
      assert LastWrite(labels) == if WritesPhase(Run(front), l) then Some(|front|) else k;
      hide *;
    }
  }

  /** A worker that holds the lock, or has yet to ask for it, and has not written the state. */
  predicate Unwritten(pc: WorkerPc) {
    || pc == Begin || pc == Clearing || pc == Finding || pc == PullMark || pc == Inspecting || pc == RestartMark
    || pc == Waiting || pc == Settling || pc == ReadyMark || pc == FailMark
  }

  /** Worker `w` asks for the lock and meets it held. */
  predicate MeetsLock(s: State, l: Label, w: nat) {
    l.WorkerMove? && l.worker == w && w in s.workers && s.workers[w] == Begin && s.shared.lock.Some?
  }

  /** From the `r`-th step on, some step meets the held lock. */
  predicate MetLock(labels: seq<Label>, w: nat, r: nat) {
    exists q: nat :: r <= q < |labels| && MeetsLock(Run(labels[..q]), labels[q], w)
  }

  /** Step `p` is the one in which request `c` starts worker `w`. */
  predicate StartedAt(labels: seq<Label>, c: nat, w: nat, p: nat) {
    && p < |labels| && StartsWorker(c)(Run(labels[..p]), labels[p]) && labels[p].thread == w
  }

  /** Where a request stands that has reset the state at step `r` and seen no write since: it has yet to start
      its worker, or that worker has not written either, or it met the lock held. */
  ghost predicate Pending(labels: seq<Label>, c: nat, r: nat) {
    && c in Run(labels).callers
    && (|| Run(labels).callers[c] == ProvisionClear || Run(labels).callers[c] == ProvisionSpawn
        || (&& Run(labels).callers[c] == Returned
            && exists p: nat, w: nat :: r < p && StartedAt(labels, c, w, p) && WorkerPending(labels, w, p)))
  }

  predicate WorkerPending(labels: seq<Label>, w: nat, p: nat) {
    w in Run(labels).workers && (Unwritten(Run(labels).workers[w]) || MetLock(labels, w, p))
  }

  lemma UnwrittenStep(s: State, l: Label, w: nat)
    requires w in s.workers && Unwritten(s.workers[w]) && !WritesPhase(s, l)
    ensures w in Do(s, l).workers && (Unwritten(Do(s, l).workers[w]) || MeetsLock(s, l, w))
  {
  }

  lemma MetLockExtends(front: seq<Label>, l: Label, w: nat, p: nat)
    requires MetLock(front, w, p) || (p <= |front| && MeetsLock(Run(front), l, w))
    ensures MetLock(front + [l], w, p)
  {
    hide Run, MeetsLock;
    var labels := front + [l];
    if q: nat :| p <= q < |front| && MeetsLock(Run(front[..q]), front[q], w) {
      assert labels[..q] == front[..q] && MeetsLock(Run(labels[..q]), labels[q], w);
    } else {
      assert labels[..|front|] == front && MeetsLock(Run(labels[..|front|]), labels[|front|], w);
    }
  }

  lemma StartedExtends(front: seq<Label>, l: Label, c: nat, w: nat, p: nat)
    requires StartedAt(front, c, w, p)
    ensures StartedAt(front + [l], c, w, p)
  {
    hide Run;
    assert (front + [l])[..p] == front[..p];
  }

  lemma WorkerPendingStep(front: seq<Label>, l: Label, w: nat, p: nat)
    requires WorkerPending(front, w, p) && !WritesPhase(Run(front), l) && p <= |front|
    ensures WorkerPending(front + [l], w, p)
  {
    assert (front + [l])[..|front|] == front;
    assert Run(front + [l]) == Do(Run(front), l);
    if MetLock(front, w, p) {
      MetLockExtends(front, l, w, p);
      WorkersStay(Run(front), l, w);
    } else {
      UnwrittenStep(Run(front), l, w);
      if MeetsLock(Run(front), l, w) {
        MetLockExtends(front, l, w, p);
      }
    }
    hide *;
  }

  lemma WorkersStay(s: State, l: Label, w: nat)
    requires w in s.workers
    ensures w in Do(s, l).workers
  {
  }

  lemma RequestStep(s: State, l: Label, c: nat)
    requires c in s.callers &&
            (s.callers[c] == ProvisionClear || s.callers[c] == ProvisionSpawn || s.callers[c] == Returned)
    ensures c in Do(s, l).callers
    ensures Do(s, l).callers[c] in {ProvisionClear, ProvisionSpawn, Returned}
    ensures s.callers[c] == Returned ==> Do(s, l).callers[c] == Returned
    ensures s.callers[c] != Returned && Do(s, l).callers[c] == Returned ==>
              StartsWorker(c)(s, l) && l.thread in Do(s, l).workers && Do(s, l).workers[l.thread] == Begin
  {
  }

  lemma PendingStep(front: seq<Label>, l: Label, c: nat, r: nat)
    requires Pending(front, c, r) && r < |front| && !WritesPhase(Run(front), l)
    ensures Pending(front + [l], c, r)
  {
    var labels := front + [l];
    assert labels[..|front|] == front && Run(labels) == Do(Run(front), l);
    RequestStep(Run(front), l, c);
    if Run(front).callers[c] == Returned {
      var p: nat, w: nat :| r < p && StartedAt(front, c, w, p) && WorkerPending(front, w, p);
      hide Run, Do, StartedAt, WorkerPending, WritesPhase;
      StartedWithin(front, c, w, p);
      StartedExtends(front, l, c, w, p);
      WorkerPendingStep(front, l, w, p);
    } else if Run(labels).callers[c] == Returned {
      assert StartedAt(labels, c, l.thread, |front|);
      assert WorkerPending(labels, l.thread, |front|);
    }
  }

  lemma StartedWithin(labels: seq<Label>, c: nat, w: nat, p: nat)
    requires StartedAt(labels, c, w, p)
    ensures p < |labels|
  {
  }

  lemma {:induction false} ResetIsPending(labels: seq<Label>, r: nat)
    requires LastWrite(labels) == Some(r) && IsReset(Run(labels[..r]), labels[r])
    ensures Pending(labels, labels[r].caller, r)
    decreases |labels|
  {
    var front, l := labels[..|labels| - 1], labels[|labels| - 1];
    assert labels == front + [l];
    if r == |front| {
      ResetLeavesClear(Run(front), l);
      assert labels[..r] == front && Run(labels) == Do(Run(front), l);
    } else {
      assert !WritesPhase(Run(front), l) && LastWrite(front) == Some(r);
      assert labels[..r] == front[..r];
      ResetIsPending(front, r);
      PendingStep(front, l, labels[r].caller, r);
    }
  }

  lemma ResetLeavesClear(s: State, l: Label)
    requires IsReset(s, l)
    ensures l.caller in Do(s, l).callers && Do(s, l).callers[l.caller] == ProvisionClear
  {
  }

  /** Request `c` resets the state at step `r` and starts a worker that asks for the lock while it is held. */
  ghost predicate Lost(labels: seq<Label>, r: nat) {
    && r < |labels| && IsReset(Run(labels[..r]), labels[r])
    && exists p: nat, w: nat :: r < p && StartedAt(labels, labels[r].caller, w, p) && MetLock(labels, w, p)
  }

  /** When all is at rest after some write, the state is ABSENT exactly when the last write is the reset of an
      accepted request that was lost: its worker met the lock held and left, and nobody wrote the state after. */
  lemma {:induction false} RequestIsLostIff(labels: seq<Label>)
    requires AtRest(Run(labels)) && LastWrite(labels).Some?
    ensures Run(labels).shared.phase == Absent <==> Lost(labels, LastWrite(labels).value)
  {
    hide Run, Do, LastWrite, StartedAt, MetLock, Pending, AtRest;
    AbsentIff(labels);
    var r := LastWrite(labels).value;
    if IsReset(Run(labels[..r]), labels[r]) {
      ResetIsPending(labels, r);
      PendingAtRest(labels, labels[r].caller, r);
    }
  }

  lemma PendingAtRest(labels: seq<Label>, c: nat, r: nat)
    requires AtRest(Run(labels)) && Pending(labels, c, r)
    ensures exists p: nat, w: nat :: r < p && StartedAt(labels, c, w, p) && MetLock(labels, w, p)
  {
    hide Run, StartedAt, MetLock;
    assert Run(labels).callers[c] == Returned;
    var p: nat, w: nat :| r < p && StartedAt(labels, c, w, p) && WorkerPending(labels, w, p);
    assert Run(labels).workers[w] == Gone;
  }

  lemma MarkRuns(s: State, w: nat)
    requires w in s.workers && s.workers[w] == ReadyMark
    ensures RunFrom(s, [WorkerMove(w, true, false)])
         == State(s.shared.(phase := Ready), s.workers[w := ReadyStamp], s.callers)
  {
    RunFromOne(s, WorkerMove(w, true, false));
  }

  lemma MeetRuns(s: State, w: nat)
    requires w in s.workers && s.workers[w] == Begin && s.shared.lock.Some?
    ensures RunFrom(s, [WorkerMove(w, true, false)]) == s.(workers := s.workers[w := Gone])
  {
    RunFromOne(s, WorkerMove(w, true, false));
  }

  lemma EndRuns(s: State, w: nat)
    requires w in s.workers && s.workers[w] == ReadyStamp
    ensures RunFrom(s, [WorkerMove(w, true, false), WorkerMove(w, true, false)])
         == State(s.shared.(lock := None), s.workers[w := Gone], s.callers)
  {
    RunFromTwo(s, WorkerMove(w, true, false), WorkerMove(w, true, false));
    assert s.workers[w := Releasing][w := Gone] == s.workers[w := Gone];
  }

  lemma {:induction false} LastWriteStays(front: seq<Label>, more: seq<Label>)
    requires LastWrite(front).Some?
    ensures LastWrite(front + more).Some?
    decreases |more|
  {
    if more == [] {
      assert front + more == front;
    } else {
      LastWriteStays(front, more[..|more| - 1]);
      assert (front + more)[..|front + more| - 1] == front + more[..|more| - 1];
    }
  }

  /** Both requests have read ABSENT; then the first one's worker writes READY, and before it lets go of the
      lock the second request resets the state and its worker meets the lock. */
  function LosingRun(): seq<Label> {
    var move := WorkerMove(0, true, false);
    var end := [WorkerMove(1, true, false)] + [move, move];
    (AcceptMoves(0) + AcceptMoves(1)) + (StartMoves(0, 0) + (BuildMoves(0) + ([move] + (StartMoves(1, 1) + end))))
  }

  lemma LosingRunEnds()
    ensures var s := RunFrom(INITIAL, LosingRun()); AtRest(s) && s.shared == Shared(Absent, false, None, Running)
  {
    hide RunFrom, Do, BuildMoves, AcceptMoves, StartMoves;
    var move := WorkerMove(0, true, false);
    var accept, start := AcceptMoves(0) + AcceptMoves(1), StartMoves(0, 0);
    var build, late := BuildMoves(0), StartMoves(1, 1);
    var end := [WorkerMove(1, true, false)] + [move, move];
    RunFromConcat(INITIAL, accept, start + (build + ([move] + (late + end))));
    RunFromConcat(INITIAL, AcceptMoves(0), AcceptMoves(1));
    AcceptRuns(INITIAL, 0);
    AcceptRuns(RunFrom(INITIAL, AcceptMoves(0)), 1);
    var s1 := RunFrom(INITIAL, accept);
    RunFromConcat(s1, start, build + ([move] + (late + end)));
    StartRuns(s1, 0, 0);
    var s2 := RunFrom(s1, start);
    RunFromConcat(s2, build, [move] + (late + end));
    BuildRuns(s2, 0);
    var s3 := RunFrom(s2, build);
    RunFromConcat(s3, [move], late + end);
    MarkRuns(s3, 0);
    var s4 := RunFrom(s3, [move]);
    RunFromConcat(s4, late, end);
    StartRuns(s4, 1, 1);
    var s5 := RunFrom(s4, late);
    RunFromConcat(s5, [WorkerMove(1, true, false)], [move, move]);
    MeetRuns(s5, 1);
    EndRuns(RunFrom(s5, [WorkerMove(1, true, false)]), 0);
  }

  lemma LosingRunWrites()
    ensures LastWrite(LosingRun()).Some?
  {
    var move := CallerMove(0, true, 0);
    var accept := AcceptMoves(0) + AcceptMoves(1);
    RunIsRunFrom(accept);
    RunFromConcat(INITIAL, AcceptMoves(0), AcceptMoves(1));
    AcceptRuns(INITIAL, 0);
    AcceptRuns(RunFrom(INITIAL, AcceptMoves(0)), 1);
    var first := accept + [move];
    assert first[..|accept|] == accept;
    assert WritesPhase(Run(accept), move);
    assert LastWrite(first).Some?;
    var all := LosingRun();
    hide *;
    FirstMoves();
    LastWriteStays(first, all[|first|..]);
    assert first + all[|first|..] == all;
  }

  lemma FirstMoves()
    ensures AcceptMoves(0) + AcceptMoves(1) + [CallerMove(0, true, 0)] <= LosingRun()
  {
    assert StartMoves(0, 0)[0] == CallerMove(0, true, 0);
  }

  /** So a request can be lost: from the start, two provision requests come to rest with the state ABSENT over a
      running container, though the second one was accepted. */
  lemma {:induction false} LostRequestIsReachable() returns (labels: seq<Label>)
    ensures var s := Run(labels); AtRest(s) && s.shared == Shared(Absent, false, None, Running)
    ensures LastWrite(labels).Some? && Lost(labels, LastWrite(labels).value)
  {
    labels := LosingRun();
    RunIsRunFrom(labels);
    LosingRunEnds();
    LosingRunWrites();
    hide *;
    RequestIsLostIff(labels);
  }
}
