/**
 The task channel of the Mero bindings and its readers: the worker thread of
 each `withM0`, and a default worker that answers "not started". The default
 worker is a lazy value: it is born when the first worker thread looks it up in
 order to kill it, and lives until it is killed. Tasks are named by their
 position in the channel; a box holds the answer to the task of the same name.
 */
module M0Worker {
  datatype Item = Stop | Job
  datatype Outcome = NotStarted | Ran(v: int)

  /** The default worker: not yet looked up, reading, between reading a task and answering it, or killed. */
  datatype Reader = Unborn | Idle | Holding(i: nat) | Killed

  /** The worker thread of the `withM0` in progress, if any. */
  datatype Thread = Absent | Starting | Reading | Running(i: nat) | Ended

  /**
   `sent` is all that was ever written to the channel and `taken` how much of it
   was read. `stopping` says that the body of `withM0` is over and its caller
   waits for the thread. The last three fields are history: where the channel
   stood at the first hand-over, what the M0 workers ran, and the tasks that
   died with the default worker.
   */
  datatype State = State(
    sent: seq<Item>, taken: nat, boxes: map<nat, Outcome>, reader: Reader, m0: Thread, stopping: bool,
    handover: nat, log: seq<(nat, int)>, lost: set<nat>)

  datatype Step = Send | DefaultRead | DefaultAnswer | Begin | Fork | Replace | M0Read | M0Run(v: int) | EndBody

  const INITIAL: State := State([], 0, map[], Unborn, Absent, false, 0, [], {})

  predicate Enabled(s: State, step: Step) {
    match step
    case Send => true
    case DefaultRead => s.reader.Idle? && s.taken < |s.sent|
    case DefaultAnswer => s.reader.Holding?
    case Begin => s.m0.Absent? || s.m0.Ended?
    case Fork => s.m0.Starting? && s.reader.Unborn?
    case Replace => s.m0.Starting? && !s.reader.Unborn?
    case M0Read => s.m0.Reading? && s.taken < |s.sent|
    case M0Run(_) => s.m0.Running?
    case EndBody => !s.stopping && !s.m0.Absent? && !s.m0.Ended?
  }

  function Next(s: State, step: Step): (t: State)
    requires Enabled(s, step)
  {
    match step
    case Send => s.(sent := s.sent + [Job])
    case DefaultRead =>
      s.(taken := s.taken + 1, reader := if s.sent[s.taken].Job? then Holding(s.taken) else Idle)
    case DefaultAnswer => s.(boxes := s.boxes[s.reader.i := NotStarted], reader := Idle)
    case Begin => s.(m0 := Starting)
    case Fork => s.(reader := Idle)
    case Replace =>
      s.(m0 := Reading, reader := Killed,
         handover := if s.reader.Killed? then s.handover else s.taken,
         lost := if s.reader.Holding? then s.lost + {s.reader.i} else s.lost)
    case M0Read =>
      if s.sent[s.taken].Job? then s.(taken := s.taken + 1, m0 := Running(s.taken))
      else s.(taken := s.taken + 1, m0 := Ended, stopping := false)
    case M0Run(v) => s.(boxes := s.boxes[s.m0.i := Ran(v)], m0 := Reading, log := s.log + [(s.m0.i, v)])
    case EndBody => s.(sent := s.sent + [Stop], stopping := true)
  }

  ghost predicate Runs(s: State, steps: seq<Step>)
    decreases |steps|
  {
    steps == [] || (Enabled(s, steps[0]) && Runs(Next(s, steps[0]), steps[1..]))
  }

  ghost function Final(s: State, steps: seq<Step>): (t: State)
    requires Runs(s, steps)
    decreases |steps|
  {
    if steps == [] then s else Final(Next(s, steps[0]), steps[1..])
  }

  // ---------------------------------------------------------------- what every step keeps

  /** The tasks from position lo up to hi, in channel order. */
  function Tasks(sent: seq<Item>, lo: nat, hi: nat): (r: seq<nat>)
    requires hi <= |sent|
    decreases hi
  {
    if hi <= lo then []
    else if sent[hi - 1].Job? then Tasks(sent, lo, hi - 1) + [hi - 1]
    else Tasks(sent, lo, hi - 1)
  }

  function Ids(log: seq<(nat, int)>): (r: seq<nat>) {
    seq(|log|, i requires 0 <= i < |log| => log[i].0)
  }

  function InHand(m0: Thread): (r: seq<nat>) {
    if m0.Running? then [m0.i] else []
  }

  /** A task is read at most once, and then it is answered, in a worker's hands, or lost. */
  ghost predicate Accounted(s: State) {
    && s.taken <= |s.sent|
    && (forall i: nat :: i in s.boxes <==>
          i < s.taken && s.sent[i].Job? && s.reader != Holding(i) && s.m0 != Running(i) && i !in s.lost)
    && (s.reader.Holding? ==> s.reader.i < s.taken && s.sent[s.reader.i].Job?)
    && (s.m0.Running? ==> s.handover <= s.m0.i < s.taken && s.sent[s.m0.i].Job?)
    && (forall i :: i in s.lost ==> i < s.handover && i < s.taken && s.sent[i].Job?)
    && |s.lost| <= 1
  }

  /** The default worker has read everything before the hand-over, the M0 workers everything after it. */
  predicate HandedOver(s: State) {
    if s.reader.Killed? then !s.m0.Absent? && s.handover <= s.taken
    else
      && (if s.reader.Unborn? then (s.m0.Absent? || s.m0.Starting?) && s.taken == 0 else s.m0.Starting?)
      && s.log == [] && s.lost == {} && s.handover == 0
  }

  ghost predicate InOrder(s: State)
    requires s.taken <= |s.sent|
  {
    && (s.reader.Killed? ==> Ids(s.log) + InHand(s.m0) == Tasks(s.sent, s.handover, s.taken))
    && (forall i, v :: i in s.boxes && s.boxes[i] == Ran(v) ==> (i, v) in s.log)
    && (forall k :: 0 <= k < |s.log| ==> s.log[k].0 in s.boxes && s.boxes[s.log[k].0] == Ran(s.log[k].1))
    && (forall i :: i in s.boxes && s.boxes[i].Ran? ==> s.reader.Killed? && s.handover <= i)
    && (forall i :: i in s.boxes && s.reader.Killed? && s.handover <= i ==> s.boxes[i].Ran?)
  }

  ghost predicate Inv(s: State) {
    && Accounted(s) && HandedOver(s) && InOrder(s)
    && (s.stopping ==> !s.m0.Absent? && !s.m0.Ended?)
  }

  lemma {:induction false} TasksIgnoreLater(sent: seq<Item>, x: Item, lo: nat, hi: nat)
    requires hi <= |sent|
    ensures Tasks(sent + [x], lo, hi) == Tasks(sent, lo, hi)
    decreases hi
  {
    if lo < hi { TasksIgnoreLater(sent, x, lo, hi - 1); }
  }

  lemma WriteKeeps(s: State, x: Item, stopping: bool)
    requires Inv(s) && (stopping ==> !s.m0.Absent? && !s.m0.Ended?)
    ensures Inv(s.(sent := s.sent + [x], stopping := stopping))
  {
    TasksIgnoreLater(s.sent, x, s.handover, s.taken);
  }

  lemma M0RunKeeps(s: State, v: int)
    requires Inv(s) && s.m0.Running?
    ensures Inv(Next(s, M0Run(v)))
    ensures s.m0.i !in s.boxes
  {
    var t := Next(s, M0Run(v));
    assert Ids(t.log) == Ids(s.log) + [s.m0.i];
    assert s.reader.Killed?;
  }

  lemma DefaultKeeps(s: State, step: Step)
    requires Inv(s) && Enabled(s, step) && (step.DefaultRead? || step.DefaultAnswer?)
    ensures Inv(Next(s, step))
  {
  }

  lemma ReplaceKeeps(s: State)
    requires Inv(s) && Enabled(s, Replace)
    ensures Inv(Next(s, Replace))
  {
  }

  lemma M0ReadKeeps(s: State)
    requires Inv(s) && Enabled(s, M0Read)
    ensures Inv(Next(s, M0Read))
  {
    assert s.reader.Killed?;
  }

  lemma StepKeeps(s: State, step: Step)
    requires Inv(s) && Enabled(s, step)
    ensures Inv(Next(s, step))
  {
    match step
    case Send => WriteKeeps(s, Job, s.stopping);
    case DefaultRead => DefaultKeeps(s, step);
    case DefaultAnswer => DefaultKeeps(s, step);
    case Begin =>
    case Fork =>
    case Replace => ReplaceKeeps(s);
    case M0Read => M0ReadKeeps(s);
    case M0Run(v) => M0RunKeeps(s, v);
    case EndBody => WriteKeeps(s, Stop, true);
  }

  lemma {:induction false} RunKeeps(s: State, steps: seq<Step>)
    requires Inv(s) && Runs(s, steps)
    ensures Inv(Final(s, steps))
    decreases |steps|
  {
    if steps != [] {
      StepKeeps(s, steps[0]);
      RunKeeps(Next(s, steps[0]), steps[1..]);
    }
  }

  // ---------------------------------------------------------------- each task and its box

  /** A box that holds an answer keeps it, and a worker only ever fills an empty one. */
  lemma FilledOnce(s: State, step: Step)
    requires Inv(s) && Enabled(s, step)
    ensures forall i :: i in s.boxes ==> i in Next(s, step).boxes && Next(s, step).boxes[i] == s.boxes[i]
    ensures step.DefaultAnswer? ==> s.reader.i !in s.boxes
    ensures step.M0Run? ==> s.m0.i !in s.boxes
  {
    if step.M0Run? { M0RunKeeps(s, step.v); }
  }

  /** After the hand-over the tasks are run in channel order, each once, and each box holds its own task's result. */
  lemma RunsInOrder(steps: seq<Step>)
    requires Runs(INITIAL, steps)
    ensures var s := Final(INITIAL, steps);
      && s.taken <= |s.sent|
      && (s.reader.Killed? ==> Ids(s.log) + InHand(s.m0) == Tasks(s.sent, s.handover, s.taken))
      && (forall i: nat, v :: i in s.boxes && s.boxes[i] == Ran(v) <==> (i, v) in s.log)
  {
    RunKeeps(INITIAL, steps);
    LogIsBoxes(Final(INITIAL, steps));
  }

  lemma LogIsBoxes(s: State)
    requires s.taken <= |s.sent| && InOrder(s)
    ensures forall i: nat, v :: i in s.boxes && s.boxes[i] == Ran(v) <==> (i, v) in s.log
  {
    forall i: nat, v | (i, v) in s.log ensures i in s.boxes && s.boxes[i] == Ran(v) {
      var k :| 0 <= k < |s.log| && s.log[k] == (i, v);
    }
  }

  // ---------------------------------------------------------------- results, told from the steps alone

  ghost function StateAt(s: State, steps: seq<Step>, j: nat): (t: State)
    requires Runs(s, steps) && j <= |steps|
    decreases j
  {
    if j == 0 then s else StateAt(Next(s, steps[0]), steps[1..], j - 1)
  }

  /** At step j the worker runs task i, and its action gives v. */
  ghost predicate Gives(s: State, steps: seq<Step>, j: nat, i: nat, v: int)
    requires Runs(s, steps)
  {
    j < |steps| && steps[j] == M0Run(v) && StateAt(s, steps, j).m0 == Running(i)
  }

  lemma {:induction false} StateAtInv(s: State, steps: seq<Step>, j: nat)
    requires Inv(s) && Runs(s, steps) && j <= |steps|
    ensures Inv(StateAt(s, steps, j)) && (j < |steps| ==> Enabled(StateAt(s, steps, j), steps[j]))
    decreases j
  {
    if j > 0 {
      StepKeeps(s, steps[0]);
      StateAtInv(Next(s, steps[0]), steps[1..], j - 1);
    }
  }

  lemma GivesLater(s: State, steps: seq<Step>, j: nat, i: nat, v: int)
    requires Runs(s, steps) && steps != []
    ensures Gives(s, steps, j + 1, i, v) <==> Gives(Next(s, steps[0]), steps[1..], j, i, v)
  {
  }

  lemma BoxAfter(s: State, step: Step, i: nat, v: int)
    requires Inv(s) && Enabled(s, step)
    ensures HasResult(Next(s, step), i, v) <==> HasResult(s, i, v) || (step == M0Run(v) && s.m0 == Running(i))
  {
  }

  /** A box holds v at the end exactly when it did at first, or its own task gave v at some step. */
  lemma {:induction false} BoxesFrom(s: State, steps: seq<Step>, i: nat, v: int)
    requires Inv(s) && Runs(s, steps)
    ensures HasResult(Final(s, steps), i, v) <==> HasResult(s, i, v) || exists j: nat :: Gives(s, steps, j, i, v)
    decreases |steps|
  {
    if steps != [] {
      var t := Next(s, steps[0]);
      StepKeeps(s, steps[0]);
      BoxesFrom(t, steps[1..], i, v);
      BoxAfter(s, steps[0], i, v);
      assert Gives(s, steps, 0, i, v) <==> steps[0] == M0Run(v) && s.m0 == Running(i);
      if j: nat :| Gives(t, steps[1..], j, i, v) {
        GivesLater(s, steps, j, i, v);
        assert Gives(s, steps, j + 1, i, v);
      }
      if j: nat :| Gives(s, steps, j, i, v) {
        if j > 0 {
          GivesLater(s, steps, j - 1, i, v);
          assert Gives(t, steps[1..], j - 1, i, v);
        }
      }
    }
  }

  ghost predicate HasResult(s: State, i: nat, v: int) {
    i in s.boxes && s.boxes[i] == Ran(v)
  }

  /** The least task a worker may be found running from now on. */
  function Least(s: State): (i: nat) {
    if s.m0.Running? then s.m0.i else s.taken
  }

  lemma LeastGrows(s: State, step: Step)
    requires Inv(s) && Enabled(s, step)
    ensures Least(Next(s, step)) >= Least(s)
  {
  }

  /** A worker goes on to later tasks only. */
  lemma {:induction false} LaterTasks(s: State, steps: seq<Step>, j: nat)
    requires Inv(s) && Runs(s, steps) && j <= |steps| && StateAt(s, steps, j).m0.Running?
    ensures StateAt(s, steps, j).m0.i >= Least(s)
    decreases j
  {
    if j > 0 {
      StepKeeps(s, steps[0]);
      LeastGrows(s, steps[0]);
      LaterTasks(Next(s, steps[0]), steps[1..], j - 1);
    }
  }

  /** Tasks are run in channel order, so none is run twice. */
  lemma {:induction false} GivesInOrder(s: State, steps: seq<Step>, j: nat, k: nat, i: nat, i': nat, v: int, v': int)
    requires Inv(s) && Runs(s, steps) && j < k && Gives(s, steps, j, i, v) && Gives(s, steps, k, i', v')
    ensures i < i'
    decreases j
  {
    var t := Next(s, steps[0]);
    StepKeeps(s, steps[0]);
    if j == 0 {
      LaterTasks(t, steps[1..], k - 1);
    } else {
      GivesInOrder(t, steps[1..], j - 1, k - 1, i, i', v, v');
    }
  }

  /**
   In every run a box ends up with v exactly when its own task was run, at some
   step, and gave v; each task is run at most once, and in channel order.
   */
  lemma ResultsAreOwn(steps: seq<Step>)
    requires Runs(INITIAL, steps)
    ensures forall i: nat, v :: HasResult(Final(INITIAL, steps), i, v) <==> exists j: nat :: Gives(INITIAL, steps, j, i, v)
    ensures forall j: nat, k: nat, i: nat, i': nat, v, v' ::
      Gives(INITIAL, steps, j, i, v) && Gives(INITIAL, steps, k, i', v') ==> (j < k <==> i < i') && (j == k <==> i == i')
  {
    forall i: nat, v
      ensures HasResult(Final(INITIAL, steps), i, v) <==> exists j: nat :: Gives(INITIAL, steps, j, i, v)
    {
      BoxesFrom(INITIAL, steps, i, v);
    }
    forall j: nat, k: nat, i: nat, i': nat, v, v' | Gives(INITIAL, steps, j, i, v) && Gives(INITIAL, steps, k, i', v')
      ensures (j < k <==> i < i') && (j == k <==> i == i')
    {
      if j < k { GivesInOrder(INITIAL, steps, j, k, i, i', v, v'); }
      if k < j { GivesInOrder(INITIAL, steps, k, j, i', i, v', v); }
    }
  }

  /** What callers and the ends of bodies write to the channel, in order. */
  function Written(steps: seq<Step>): (items: seq<Item>) {
    if steps == [] then []
    else
      var items := Written(steps[..|steps| - 1]);
      match steps[|steps| - 1]
      case Send => items + [Job]
      case EndBody => items + [Stop]
      case _ => items
  }

  lemma {:induction false} WrittenFirst(steps: seq<Step>)
    requires steps != []
    ensures Written(steps) == Written([steps[0]]) + Written(steps[1..])
  {
    if |steps| == 1 {
      assert [steps[0]] == steps && steps[1..] == [];
    } else {
      var front := steps[..|steps| - 1];
      WrittenFirst(front);
      assert front[0] == steps[0] && steps[1..][..|steps| - 2] == front[1..];
    }
  }

  /** The channel has carried exactly what was written to it, each task and each stop token once, in order. */
  lemma {:induction false} ChannelCarries(s: State, steps: seq<Step>)
    requires Runs(s, steps)
    ensures Final(s, steps).sent == s.sent + Written(steps)
    decreases |steps|
  {
    if steps != [] {
      ChannelCarries(Next(s, steps[0]), steps[1..]);
      WrittenFirst(steps);
      assert [steps[0]][..0] == [];
      assert Next(s, steps[0]).sent == s.sent + Written([steps[0]]);
    }
  }

  /** Until the first worker thread looks the default worker up, nobody answers anything. */
  lemma NobodyAnswersBefore(steps: seq<Step>)
    requires Runs(INITIAL, steps) && Fork !in steps
    ensures Final(INITIAL, steps).boxes == map[] && Final(INITIAL, steps).taken == 0
  {
    StaysUnborn(INITIAL, steps);
    RunKeeps(INITIAL, steps);
  }

  lemma {:induction false} StaysUnborn(s: State, steps: seq<Step>)
    requires Inv(s) && s.reader.Unborn? && Runs(s, steps) && Fork !in steps
    ensures Final(s, steps).reader.Unborn?
    decreases |steps|
  {
    if steps != [] {
      StepKeeps(s, steps[0]);
      StaysUnborn(Next(s, steps[0]), steps[1..]);
    }
  }

  /** A task read before the hand-over is told that nothing was started, except at most one that dies with its reader. */
  lemma LosesAtMostOne(steps: seq<Step>)
    requires Runs(INITIAL, steps)
    ensures var s := Final(INITIAL, steps);
      && |s.lost| <= 1
      && (forall i: nat :: i < s.taken && i < |s.sent| && s.sent[i].Job? && s.reader != Holding(i) && s.m0 != Running(i) ==>
            i in s.lost || (i in s.boxes && (s.boxes[i].Ran? <==> s.reader.Killed? && s.handover <= i)))
      && (forall i :: i in s.lost ==> i < s.handover && i !in s.boxes)
  {
    RunKeeps(INITIAL, steps);
  }

  // ---------------------------------------------------------------- the end of withM0

  predicate Pending(s: State) {
    exists k :: s.taken <= k < |s.sent| && s.sent[k].Stop?
  }

  ghost predicate CanReturn(s: State) {
    exists steps :: Runs(s, steps) && Final(s, steps).m0.Ended?
  }

  function Rank(s: State): (r: nat) {
    if s.m0.Running? then 3 else if s.m0.Starting? then (if s.reader.Unborn? then 2 else 1) else 0
  }

  /** A step of the worker thread itself. */
  predicate OwnStep(step: Step) {
    step.Fork? || step.Replace? || step.M0Read? || step.M0Run?
  }

  /** The worker has stopped at the first stop token from position lo on, with every task before it run and answered. */
  predicate Drained(t: State, lo: nat) {
    && t.m0.Ended? && lo < t.taken <= |t.sent| && t.sent[t.taken - 1].Stop?
    && forall j :: lo <= j < t.taken - 1 ==> t.sent[j].Job? && j in t.boxes && t.boxes[j].Ran?
  }

  /** The thread's own steps run and answer every task ahead of the stop token, and then end it. */
  lemma DrainsToStop(s: State) returns (steps: seq<Step>)
    requires Inv(s) && s.stopping && Pending(s)
    ensures Runs(s, steps) && (forall step :: step in steps ==> OwnStep(step))
    ensures Final(s, steps).sent == s.sent && Drained(Final(s, steps), s.taken)
  {
    steps := StepsToStop(s);
    RunKeeps(s, steps);
    EndedAnswersAll(Final(s, steps));
  }

  lemma EndedAnswersAll(t: State)
    requires Inv(t) && t.m0.Ended?
    ensures t.reader.Killed? && t.handover <= t.taken <= |t.sent|
    ensures forall j :: t.handover <= j < t.taken && t.sent[j].Job? ==> j in t.boxes && t.boxes[j].Ran?
  {
  }

  /** The worker has gone from s to t, past tasks only, to the first stop token. */
  ghost predicate StoppedAt(s: State, t: State) {
    && t.m0.Ended? && t.sent == s.sent && s.taken < t.taken <= |s.sent| && t.sent[t.taken - 1].Stop?
    && (forall j :: s.taken <= j < t.taken - 1 ==> t.sent[j].Job?)
    && (if s.reader.Killed? then t.handover == s.handover else t.handover == s.taken)
  }

  function OwnNext(s: State): (step: Step) {
    if s.m0.Starting? then (if s.reader.Unborn? then Fork else Replace)
    else if s.m0.Running? then M0Run(0) else M0Read
  }

  /** One own step of a worker with a stop token ahead: the end of the thread, or one step nearer to it. */
  lemma StepTowardsStop(s: State)
    requires Inv(s) && s.stopping && Pending(s)
    ensures Enabled(s, OwnNext(s)) && Inv(Next(s, OwnNext(s)))
    ensures var t := Next(s, OwnNext(s));
      if t.m0.Ended? then StoppedAt(s, t)
      else t.stopping && Pending(t) && (t.taken > s.taken || (t.taken == s.taken && Rank(t) < Rank(s)))
  {
    var k :| s.taken <= k < |s.sent| && s.sent[k].Stop?;
    StepKeeps(s, OwnNext(s));
    var t := Next(s, OwnNext(s));
    if !t.m0.Ended? { assert t.sent[k].Stop? && t.taken <= k; }
  }

  lemma StoppedAfter(s: State, u: State)
    requires Inv(s) && s.stopping && Pending(s) && Enabled(s, OwnNext(s)) && !Next(s, OwnNext(s)).m0.Ended?
    requires StoppedAt(Next(s, OwnNext(s)), u)
    ensures StoppedAt(s, u)
  {
  }

  lemma {:induction false} StepsToStop(s: State) returns (steps: seq<Step>)
    requires Inv(s) && s.stopping && Pending(s)
    ensures Runs(s, steps) && (forall step :: step in steps ==> OwnStep(step)) && StoppedAt(s, Final(s, steps))
    decreases |s.sent| - s.taken, Rank(s)
  {
    var step := OwnNext(s);
    StepTowardsStop(s);
    var t := Next(s, step);
    var rest := [];
    if t.m0.Ended? {
      assert Runs(t, rest) && Final(t, rest) == t;
    } else {
      rest := StepsToStop(t);
      StoppedAfter(s, Final(t, rest));
    }
    steps := [step] + rest;
    assert steps[0] == step && steps[1..] == rest;
  }

  lemma {:induction false} NoTokenNoEnd(s: State, steps: seq<Step>)
    requires Inv(s) && s.stopping && !Pending(s) && Runs(s, steps)
    ensures !Final(s, steps).m0.Ended?
    decreases |steps|
  {
    if steps != [] {
      var t := Next(s, steps[0]);
      StepKeeps(s, steps[0]);
      forall k | t.taken <= k < |t.sent| ensures t.sent[k].Job? {
        if k < |s.sent| { assert s.sent[k] == t.sent[k]; }
      }
      NoTokenNoEnd(t, steps[1..]);
    }
  }

  /** A `withM0` whose body is over can return exactly while its stop token is still in the channel. */
  lemma ReturnsExactly(s: State)
    requires Inv(s) && s.stopping
    ensures CanReturn(s) <==> Pending(s)
  {
    if Pending(s) {
      var steps := DrainsToStop(s);
    } else {
      forall steps | Runs(s, steps) ensures !Final(s, steps).m0.Ended? { NoTokenNoEnd(s, steps); }
    }
  }

  predicate SafeHandOver(s: State) {
    s.reader.Killed? && (s.stopping ==> Pending(s))
  }

  lemma SafeStays(s: State, step: Step)
    requires Inv(s) && SafeHandOver(s) && Enabled(s, step)
    ensures SafeHandOver(Next(s, step))
  {
    var t := Next(s, step);
    if t.stopping {
      if step.EndBody? {
        assert t.sent[|s.sent|].Stop?;
      } else {
        var k :| s.taken <= k < |s.sent| && s.sent[k].Stop?;
        assert t.sent[k].Stop?;
      }
    }
  }

  /** If the first hand-over comes before the body ends, every `withM0` from then on can return, whatever happens. */
  lemma {:induction false} HandOverFirst(s: State, steps: seq<Step>)
    requires Inv(s) && SafeHandOver(s) && Runs(s, steps)
    ensures Final(s, steps).stopping ==> CanReturn(Final(s, steps))
    decreases |steps|
  {
    if steps == [] {
      if s.stopping { ReturnsExactly(s); }
    } else {
      StepKeeps(s, steps[0]);
      SafeStays(s, steps[0]);
      HandOverFirst(Next(s, steps[0]), steps[1..]);
    }
  }

  ghost predicate AlwaysCanReturn(s: State) {
    forall steps :: Runs(s, steps) && Final(s, steps).stopping ==> CanReturn(Final(s, steps))
  }

  function BeforeEnd(s: State): (r: nat) {
    (if s.m0.Absent? then 1 else 0) + (if s.reader.Unborn? then 1 else 0) + (if s.stopping then 0 else 1)
  }

  /** While the default worker is not killed, it may be born, and may take everything in the channel, the stop token too. */
  lemma {:induction false} SwallowsToken(s: State) returns (steps: seq<Step>)
    requires Inv(s) && !s.reader.Killed?
    ensures Runs(s, steps) && Final(s, steps).stopping && !Pending(Final(s, steps))
    decreases BeforeEnd(s), |s.sent| - s.taken, if s.reader.Holding? then 1 else 0
  {
    if s.reader.Idle? && s.stopping && s.taken == |s.sent| {
      steps := [];
    } else {
      var step :=
        if s.m0.Absent? then Begin
        else if s.reader.Unborn? then Fork
        else if s.reader.Holding? then DefaultAnswer
        else if !s.stopping then EndBody
        else DefaultRead;
      StepKeeps(s, step);
      var rest := SwallowsToken(Next(s, step));
      steps := [step] + rest;
      assert steps[1..] == rest;
    }
  }

  /**
   Whatever happens from now on, a `withM0` whose body is over can return,
   exactly when the hand-over has been made with no stop token lost to it.
   */
  lemma HandOverExactly(s: State)
    requires Inv(s)
    ensures AlwaysCanReturn(s) <==> SafeHandOver(s)
  {
    if SafeHandOver(s) {
      forall steps | Runs(s, steps) && Final(s, steps).stopping ensures CanReturn(Final(s, steps)) {
        HandOverFirst(s, steps);
      }
    } else {
      var steps: seq<Step> := [];
      if !s.reader.Killed? { steps := SwallowsToken(s); }
      assert Runs(s, steps) && Final(s, steps).stopping && !Pending(Final(s, steps));
      RunKeeps(s, steps);
      ReturnsExactly(Final(s, steps));
    }
  }

  /** Starting the thread does not wait for the hand-over, so a short body can lose its stop token, from the very start. */
  lemma StopCanBeSwallowed()
    ensures !AlwaysCanReturn(INITIAL)
  {
    HandOverExactly(INITIAL);
  }
}
