/**
 Any number of threads writing any chats through the in-process locks.  Chats share lock
 stripes: the stripe of a chat is an arbitrary function.  With stripe the identity this is the
 row lock of the Postgres path, but that the commit already gives that lock up; here a thread holds
 it until it is done, and after its commit it touches no row.  A thread waits, gives up, acquires, reads the row, runs the
 apply closure on its copy, commits, and releases, and every other thread, and every unlocked
 insert or delete, may step in between.  The database may fail a thread before its commit, and
 reading the row back may fail it afterwards.  The run refines the atomic writes of ChatWrites.
 */
module ChatProtocol {
  import opened Basics
  import opened ChatWrites

  type Lock = nat
  type Thread = nat
  type Stripes = Id -> Lock

  /** Where a thread is in _write_locked_chat; at is the log entry of a write that is decided. */
  datatype Phase =
    | Idle
    | Waiting(req: Request)
    | Holding(req: Request)
    | Loaded(req: Request, row: Row, at: nat)
    | Ready(req: Request, next: Row)
    | Leaving(req: Request, outcome: Outcome, at: nat)

  /** What a call gave back to its caller: its entry in the log, and how long the log was when it started. */
  datatype Return = Return(thread: Thread, req: Request, outcome: Outcome, at: nat, since: nat)

  /** log, used, since and returned are the history of the run; they decide nothing, but that an insert takes an id never used. */
  datatype State = State(
    rows: Rows,
    owner: map<Lock, Thread>,
    phases: map<Thread, Phase>,
    used: set<Id>,
    since: map<Thread, nat>,
    log: seq<Event>,
    returned: seq<Return>)

  datatype Step =
    | Start(thread: Thread, req: Request)
    | GiveUp(thread: Thread)
    | Acquire(thread: Thread)
    | Load(thread: Thread)
    | Apply(thread: Thread)
    | Commit(thread: Thread)
    | Fail(thread: Thread, error: Outcome)
    | FailLate(thread: Thread, error: Outcome)
    | Release(thread: Thread)
    | Insert(chat: Id, row: Row)
    | Remove(chat: Id)

  function PhaseOf(s: State, t: Thread): Phase {
    if t in s.phases then s.phases[t] else Idle
  }

  /** The length of the log when the thread's current call started. */
  function SinceOf(s: State, t: Thread): nat {
    if t in s.since then s.since[t] else 0
  }

  function InPhase(s: State, t: Thread, p: Phase): State {
    s.(phases := s.phases[t := p])
  }

  predicate Enabled(stripe: Stripes, s: State, step: Step) {
    match step
    case Start(t, _) => PhaseOf(s, t).Idle?
    case GiveUp(t) => PhaseOf(s, t).Waiting?
    case Acquire(t) => PhaseOf(s, t).Waiting? && stripe(PhaseOf(s, t).req.chat) !in s.owner
    case Load(t) => PhaseOf(s, t).Holding?
    case Apply(t) => PhaseOf(s, t).Loaded?
    case Commit(t) => PhaseOf(s, t).Ready? && PhaseOf(s, t).req.chat in s.rows
    case Fail(t, error) => (PhaseOf(s, t).Ready? || PhaseOf(s, t).Holding?) && IsError(error)
    case FailLate(t, error) => PhaseOf(s, t).Leaving? && IsError(error)
    case Release(t) => PhaseOf(s, t).Leaving?
    case Insert(c, _) => c !in s.used
    case Remove(c) => c in s.rows
  }

  function Take(stripe: Stripes, s: State, step: Step): State
    requires Enabled(stripe, s, step)
  {
    match step
    case Start(t, req) => InPhase(s, t, Waiting(req)).(since := s.since[t := |s.log|])
    case GiveUp(t) =>
      var req := PhaseOf(s, t).req;
      InPhase(s, t, Idle).(log := s.log + [Wrote(t, req, Busy)],
                           returned := s.returned + [Return(t, req, Busy, |s.log|, SinceOf(s, t))])
    case Acquire(t) =>
      var req := PhaseOf(s, t).req;
      InPhase(s, t, Holding(req)).(owner := s.owner[stripe(req.chat) := t])
    case Load(t) =>
      var req := PhaseOf(s, t).req;
      if req.chat !in s.rows then
        InPhase(s, t, Leaving(req, Missing, |s.log|)).(log := s.log + [Wrote(t, req, Missing)])
      else
        // A write that will store nothing takes effect, as nothing, at this read.
        var row := s.rows[req.chat];
        var verdict := Decide(req, row);
        InPhase(s, t, Loaded(req, row, |s.log|)).(
          log := if verdict.Stores? then s.log else s.log + [Wrote(t, req, OutcomeOf(verdict))])
    case Apply(t) =>
      var Loaded(req, row, at) := PhaseOf(s, t);
      var verdict := Decide(req, row);
      InPhase(s, t, if verdict.Stores? then Ready(req, verdict.next) else Leaving(req, OutcomeOf(verdict), at))
    case Commit(t) =>
      var Ready(req, next) := PhaseOf(s, t);
      InPhase(s, t, Leaving(req, Stored, |s.log|)).(
        rows := s.rows[req.chat := next], log := s.log + [Wrote(t, req, Stored)])
    case Fail(t, error) =>
      var req := PhaseOf(s, t).req;
      InPhase(s, t, Leaving(req, error, |s.log|)).(log := s.log + [Wrote(t, req, error)])
    case FailLate(t, error) =>
      // The row is read back after the decision, and the caller is told of an error instead.
      var Leaving(req, _, at) := PhaseOf(s, t);
      InPhase(s, t, Leaving(req, error, at))
    case Release(t) =>
      var Leaving(req, outcome, at) := PhaseOf(s, t);
      InPhase(s, t, Idle).(owner := s.owner - {stripe(req.chat)},
                           returned := s.returned + [Return(t, req, outcome, at, SinceOf(s, t))])
    case Insert(c, row) =>
      s.(rows := s.rows[c := row], used := s.used + {c}, log := s.log + [Inserted(c, row)])
    case Remove(c) =>
      s.(rows := s.rows - {c}, log := s.log + [Removed(c)])
  }

  /** The states of a run, each step enabled where it is taken. */
  predicate IsRun(stripe: Stripes, s: State, steps: seq<Step>)
    decreases |steps|
  {
    steps != [] ==> Enabled(stripe, s, steps[0]) && IsRun(stripe, Take(stripe, s, steps[0]), steps[1..])
  }

  function EndState(stripe: Stripes, s: State, steps: seq<Step>): State
    requires IsRun(stripe, s, steps)
    decreases |steps|
  {
    if steps == [] then s else EndState(stripe, Take(stripe, s, steps[0]), steps[1..])
  }

  ghost predicate IsInitial(s: State) {
    s.owner == map[] && s.phases == map[] && s.since == map[] && s.used == s.rows.Keys && s.log == [] && s.returned == []
  }

  // ---- What every step keeps

  predicate HoldsLock(p: Phase) {
    p.Holding? || p.Loaded? || p.Ready? || p.Leaving?
  }

  ghost predicate Logged(s: State, at: nat, t: Thread, req: Request, outcome: Outcome) {
    at < |s.log| && s.log[at] == Wrote(t, req, outcome)
  }

  /** What the caller is told of this entry: its outcome, or an error. */
  ghost predicate Told(s: State, at: nat, t: Thread, req: Request, told: Outcome) {
    && at < |s.log| && s.log[at].Wrote? && s.log[at].thread == t && s.log[at].req == req
    && (told == s.log[at].outcome || IsError(told))
  }

  /** The log entry the phase answers for, if the write is decided. */
  predicate Answers(p: Phase, at: nat) {
    (p.Leaving? && p.at == at) || (p.Loaded? && p.at == at && !Decide(p.req, p.row).Stores?)
  }

  /** A thread past the lock owns it. */
  predicate OwnsLock(stripe: Stripes, s: State, t: Thread) {
    var p := PhaseOf(s, t);
    HoldsLock(p) ==> stripe(p.req.chat) in s.owner && s.owner[stripe(p.req.chat)] == t
  }

  /** What a thread has in hand agrees with the table and the log. */
  ghost predicate InHand(s: State, t: Thread) {
    var p := PhaseOf(s, t);
    && (p.Loaded? ==>
         && p.req.chat in s.used
         && (p.req.chat in s.rows ==> s.rows[p.req.chat] == p.row)
         && (!Decide(p.req, p.row).Stores? ==> Logged(s, p.at, t, p.req, OutcomeOf(Decide(p.req, p.row)))))
    && (p.Ready? ==>
         && p.req.chat in s.used
         && (p.req.chat in s.rows ==> Decide(p.req, s.rows[p.req.chat]) == Stores(p.next)))
    && (p.Leaving? ==> Told(s, p.at, t, p.req, p.outcome))
  }

  ghost predicate PhaseInv(stripe: Stripes, s: State, t: Thread) {
    OwnsLock(stripe, s, t) && InHand(s, t)
  }

  /** Every call that returned was told the outcome its own log entry records, or of an error, and no entry serves two calls. */
  ghost predicate ReturnsInv(s: State) {
    && (forall i :: 0 <= i < |s.returned| ==>
         Told(s, s.returned[i].at, s.returned[i].thread, s.returned[i].req, s.returned[i].outcome))
    && (forall i, j :: 0 <= i < j < |s.returned| ==> s.returned[i].at != s.returned[j].at)
    && (forall i, t :: 0 <= i < |s.returned| ==> !Answers(PhaseOf(s, t), s.returned[i].at))
  }

  /** An entry the thread answers for was made since its call started. */
  ghost predicate AnswersInTime(s: State, t: Thread) {
    var p := PhaseOf(s, t);
    && SinceOf(s, t) <= |s.log|
    && (p.Leaving? ==> SinceOf(s, t) <= p.at)
    && (p.Loaded? && !Decide(p.req, p.row).Stores? ==> SinceOf(s, t) <= p.at)
  }

  /** And so was the entry of every call that returned. */
  ghost predicate InTime(s: State) {
    && (forall t :: AnswersInTime(s, t))
    && (forall i :: 0 <= i < |s.returned| ==> s.returned[i].since <= s.returned[i].at)
  }

  /** The table is what the logged writes make of the first rows, one at a time, in order. */
  ghost predicate TableInv(first: Rows, s: State) {
    && Legal(first, s.log)
    && s.rows == Replay(first, s.log)
    && s.used == UsedIds(first, s.log)
    && s.rows.Keys <= s.used
  }

  ghost predicate Inv(stripe: Stripes, first: Rows, s: State) {
    && TableInv(first, s)
    && (forall t :: PhaseInv(stripe, s, t))
    && ReturnsInv(s)
    && InTime(s)
  }

  lemma InitialInv(stripe: Stripes, s: State)
    requires IsInitial(s)
    ensures Inv(stripe, s.rows, s)
  {
  }

  /** The step is one event taking place, as it would alone, on the table of that moment. */
  ghost predicate TakesPlace(s: State, s': State, e: Event) {
    && s'.log == s.log + [e]
    && Honest(s.rows, e) && s'.rows == After(s.rows, e)
    && (e.Inserted? ==> e.chat !in s.used)
    && s'.used == s.used + (if e.Inserted? then {e.chat} else {})
  }

  lemma StepTakesPlace(stripe: Stripes, s: State, step: Step)
    requires Enabled(stripe, s, step)
    requires step.Insert? || step.Remove? || PhaseInv(stripe, s, step.thread)
    ensures var s' := Take(stripe, s, step);
      if s'.log == s.log then s'.rows == s.rows && s'.used == s.used
      else s'.log != [] && TakesPlace(s, s', Last(s'.log))
  {
  }

  lemma EventKeepsTable(first: Rows, s: State, s': State, e: Event)
    requires TableInv(first, s) && TakesPlace(s, s', e)
    ensures TableInv(first, s')
  {
    LegalExtend(first, s.log, e);
  }

  lemma StepKeepsTable(stripe: Stripes, first: Rows, s: State, step: Step)
    requires Inv(stripe, first, s) && Enabled(stripe, s, step)
    ensures TableInv(first, Take(stripe, s, step))
  {
    var s' := Take(stripe, s, step);
    assert step.Insert? || step.Remove? || PhaseInv(stripe, s, step.thread);
    StepTakesPlace(stripe, s, step);
    if s'.log != s.log {
      EventKeepsTable(first, s, s', Last(s'.log));
    }
  }

  /** The thread that moves still agrees with the table and the log. */
  lemma StepKeepsOwnPhase(stripe: Stripes, first: Rows, s: State, step: Step)
    requires Inv(stripe, first, s) && Enabled(stripe, s, step)
    requires !step.Insert? && !step.Remove?
    ensures PhaseInv(stripe, Take(stripe, s, step), step.thread)
  {
    assert PhaseInv(stripe, s, step.thread);
  }

  /** The lock of another thread is never taken or given back. */
  lemma StepKeepsOtherLock(stripe: Stripes, s: State, step: Step, t: Thread)
    requires OwnsLock(stripe, s, t) && Enabled(stripe, s, step)
    requires step.Insert? || step.Remove? || (t != step.thread && OwnsLock(stripe, s, step.thread))
    ensures OwnsLock(stripe, Take(stripe, s, step), t)
  {
  }

  /**
   Every other thread does too.  A commit writes only rows of the stripe its thread owns, and an
   insert takes an id no thread has loaded.
   */
  lemma StepKeepsOtherPhase(stripe: Stripes, first: Rows, s: State, step: Step, t: Thread)
    requires Inv(stripe, first, s) && Enabled(stripe, s, step)
    requires !step.Insert? && !step.Remove? ==> t != step.thread
    ensures PhaseInv(stripe, Take(stripe, s, step), t)
  {
    assert PhaseInv(stripe, s, t);
    if !step.Insert? && !step.Remove? {
      assert PhaseInv(stripe, s, step.thread);
    }
    StepKeepsOtherLock(stripe, s, step, t);
    StepKeepsOtherHand(stripe, s, step, t);
  }

  lemma StepKeepsOtherHand(stripe: Stripes, s: State, step: Step, t: Thread)
    requires OwnsLock(stripe, s, t) && InHand(s, t) && Enabled(stripe, s, step)
    requires step.Insert? || step.Remove? || (t != step.thread && OwnsLock(stripe, s, step.thread))
    ensures InHand(Take(stripe, s, step), t)
  {
    var s' := Take(stripe, s, step);
    assert PhaseOf(s', t) == PhaseOf(s, t);
    assert forall i :: 0 <= i < |s.log| ==> s'.log[i] == s.log[i];
  }

  lemma StepKeepsPhases(stripe: Stripes, first: Rows, s: State, step: Step, t: Thread)
    requires Inv(stripe, first, s) && Enabled(stripe, s, step)
    ensures PhaseInv(stripe, Take(stripe, s, step), t)
  {
    if !step.Insert? && !step.Remove? && t == step.thread {
      StepKeepsOwnPhase(stripe, first, s, step);
    } else {
      StepKeepsOtherPhase(stripe, first, s, step, t);
    }
  }

  /** A returned entry is not one some thread still answers for, before or after the step. */
  lemma StepKeepsAnswered(stripe: Stripes, s: State, step: Step, i: nat, t: Thread)
    requires ReturnsInv(s) && Enabled(stripe, s, step) && InHand(s, t)
    requires step.Insert? || step.Remove? || InHand(s, step.thread)
    requires i < |Take(stripe, s, step).returned|
    ensures !Answers(PhaseOf(Take(stripe, s, step), t), Take(stripe, s, step).returned[i].at)
  {
  }

  /** A step returns at most one call, with an entry its thread answered for or one made just now. */
  lemma StepReturns(stripe: Stripes, s: State, step: Step)
    requires ReturnsInv(s) && Enabled(stripe, s, step)
    requires step.Insert? || step.Remove? || InHand(s, step.thread)
    ensures var s' := Take(stripe, s, step);
      s'.returned == s.returned ||
      (&& |s'.returned| == |s.returned| + 1 && s'.returned[..|s.returned|] == s.returned
       && var r := s'.returned[|s.returned|];
          && Told(s', r.at, r.thread, r.req, r.outcome)
          && forall i :: 0 <= i < |s.returned| ==> s.returned[i].at != r.at)
  {
  }

  lemma StepKeepsReturns(stripe: Stripes, s: State, step: Step)
    requires ReturnsInv(s) && Enabled(stripe, s, step) && forall t :: InHand(s, t)
    ensures ReturnsInv(Take(stripe, s, step))
  {
    var s' := Take(stripe, s, step);
    assert step.Insert? || step.Remove? || InHand(s, step.thread);
    StepReturns(stripe, s, step);
    assert forall k :: 0 <= k < |s.log| ==> s'.log[k] == s.log[k];
    forall i | 0 <= i < |s'.returned|
      ensures Told(s', s'.returned[i].at, s'.returned[i].thread, s'.returned[i].req, s'.returned[i].outcome)
    {
      assert i < |s.returned| ==> s'.returned[i] == s.returned[i];
    }
    forall i, t | 0 <= i < |s'.returned| ensures !Answers(PhaseOf(s', t), s'.returned[i].at) {
      StepKeepsAnswered(stripe, s, step, i, t);
    }
  }

  lemma StepKeepsInTime(stripe: Stripes, s: State, step: Step)
    requires InTime(s) && Enabled(stripe, s, step)
    ensures InTime(Take(stripe, s, step))
  {
    var s' := Take(stripe, s, step);
    if !step.Insert? && !step.Remove? {
      assert AnswersInTime(s, step.thread);
    }
    forall t ensures AnswersInTime(s', t) {
      assert AnswersInTime(s, t);
    }
  }

  lemma StepKeepsInv(stripe: Stripes, first: Rows, s: State, step: Step)
    requires Inv(stripe, first, s) && Enabled(stripe, s, step)
    ensures Inv(stripe, first, Take(stripe, s, step))
  {
    StepKeepsTable(stripe, first, s, step);
    assert forall t :: PhaseInv(stripe, s, t) ==> InHand(s, t);
    StepKeepsReturns(stripe, s, step);
    StepKeepsInTime(stripe, s, step);
    forall t ensures PhaseInv(stripe, Take(stripe, s, step), t) {
      StepKeepsPhases(stripe, first, s, step, t);
    }
  }

  lemma {:induction false} RunKeepsInv(stripe: Stripes, first: Rows, s: State, steps: seq<Step>)
    requires Inv(stripe, first, s) && IsRun(stripe, s, steps)
    ensures Inv(stripe, first, EndState(stripe, s, steps))
    decreases |steps|
  {
    if steps != [] {
      StepKeepsInv(stripe, first, s, steps[0]);
      RunKeepsInv(stripe, first, Take(stripe, s, steps[0]), steps[1..]);
    }
  }

  // ---- The results

  /**
   Refinement.  After any interleaving, the table equals the one-at-a-time application of the
   logged writes in commit order, each with the outcome it would have had alone; and every call
   that returned was told the outcome of a log entry of its own, made since the call started, or of
   an error: whoever is told of anything but an error is told the truth.
   */
  lemma RunsAreAtomic(stripe: Stripes, s0: State, steps: seq<Step>)
    requires IsInitial(s0) && IsRun(stripe, s0, steps)
    ensures var s := EndState(stripe, s0, steps);
      && Legal(s0.rows, s.log)
      && s.rows == Replay(s0.rows, s.log)
      && ReturnsInv(s) && InTime(s)
  {
    InitialInv(stripe, s0);
    RunKeepsInv(stripe, s0.rows, s0, steps);
  }

  /** No two threads are ever past the lock on chats of one stripe, the same chat in particular. */
  lemma MutualExclusion(stripe: Stripes, s0: State, steps: seq<Step>, t: Thread, u: Thread)
    requires IsInitial(s0) && IsRun(stripe, s0, steps)
    requires var s := EndState(stripe, s0, steps);
      && HoldsLock(PhaseOf(s, t)) && HoldsLock(PhaseOf(s, u))
      && stripe(PhaseOf(s, t).req.chat) == stripe(PhaseOf(s, u).req.chat)
    ensures t == u
  {
    InitialInv(stripe, s0);
    RunKeepsInv(stripe, s0.rows, s0, steps);
    var s := EndState(stripe, s0, steps);
    assert PhaseInv(stripe, s, t) && PhaseInv(stripe, s, u);
  }

  // ---- Real time

  /** Seen from s1, when thread t was idle: every call of t that returned since then also started since then. */
  ghost predicate StartedSince(s1: State, s: State, t: Thread) {
    && |s1.log| <= |s.log| && s1.returned <= s.returned
    && (PhaseOf(s, t).Idle? || |s1.log| <= SinceOf(s, t))
    && forall j :: |s1.returned| <= j < |s.returned| && s.returned[j].thread == t ==> |s1.log| <= s.returned[j].since
  }

  lemma StepKeepsStartedSince(stripe: Stripes, s1: State, s: State, step: Step, t: Thread)
    requires StartedSince(s1, s, t) && Enabled(stripe, s, step)
    ensures StartedSince(s1, Take(stripe, s, step), t)
  {
  }

  lemma {:induction false} RunKeepsStartedSince(stripe: Stripes, s1: State, s: State, steps: seq<Step>, t: Thread)
    requires StartedSince(s1, s, t) && IsRun(stripe, s, steps)
    ensures StartedSince(s1, EndState(stripe, s, steps), t)
    decreases |steps|
  {
    if steps != [] {
      StepKeepsStartedSince(stripe, s1, s, steps[0], t);
      RunKeepsStartedSince(stripe, s1, Take(stripe, s, steps[0]), steps[1..], t);
    }
  }

  /**
   The order of the log respects real time: when call i has returned while the thread of a later
   call j is still idle, the entry of i comes before the entry of j.
   */
  lemma RealTimeOrder(stripe: Stripes, s0: State, before: seq<Step>, after: seq<Step>, i: nat, j: nat)
    requires IsInitial(s0) && IsRun(stripe, s0, before) && IsRun(stripe, EndState(stripe, s0, before), after)
    requires var s1 := EndState(stripe, s0, before); var s2 := EndState(stripe, s1, after);
      i < |s1.returned| <= j < |s2.returned| && PhaseOf(s1, s2.returned[j].thread).Idle?
    ensures var s2 := EndState(stripe, EndState(stripe, s0, before), after);
      i < |s2.returned| && s2.returned[i].at < s2.returned[j].at
  {
    var s1 := EndState(stripe, s0, before);
    var s2 := EndState(stripe, s1, after);
    InitialInv(stripe, s0);
    RunKeepsInv(stripe, s0.rows, s0, before);
    RunKeepsInv(stripe, s0.rows, s1, after);
    RunKeepsStartedSince(stripe, s1, s1, after, s2.returned[j].thread);
    assert s2.returned[i] == s1.returned[i];
  }

  // ---- Every call can finish

  lemma OneMoreStep(stripe: Stripes, s: State, step: Step, rest: seq<Step>)
    requires Enabled(stripe, s, step) && IsRun(stripe, Take(stripe, s, step), rest)
    ensures IsRun(stripe, s, [step] + rest)
    ensures EndState(stripe, s, [step] + rest) == EndState(stripe, Take(stripe, s, step), rest)
  {
    assert ([step] + rest)[1..] == rest;
  }

  predicate StepsOf(steps: seq<Step>, t: Thread) {
    forall i :: 0 <= i < |steps| ==> !steps[i].Insert? && !steps[i].Remove? && steps[i].thread == t
  }

  lemma OneMoreOwnStep(stripe: Stripes, s: State, t: Thread, step: Step, rest: seq<Step>)
    requires Enabled(stripe, s, step) && !step.Insert? && !step.Remove? && step.thread == t
    requires IsRun(stripe, Take(stripe, s, step), rest) && StepsOf(rest, t)
    ensures IsRun(stripe, s, [step] + rest) && StepsOf([step] + rest, t)
    ensures EndState(stripe, s, [step] + rest) == EndState(stripe, Take(stripe, s, step), rest)
  {
    OneMoreStep(stripe, s, step, rest);
  }

  /** How many steps a thread past the lock has before it at most. */
  function Left(p: Phase): nat {
    match p
    case Holding(_) => 4
    case Loaded(_, _, _) => 3
    case Ready(_, _) => 2
    case _ => 1
  }

  /** A thread past the lock always has a step of its own, which brings it nearer to the end. */
  lemma HolderCanStep(stripe: Stripes, s: State, t: Thread) returns (step: Step)
    requires HoldsLock(PhaseOf(s, t))
    ensures !step.Insert? && !step.Remove? && step.thread == t && Enabled(stripe, s, step)
    ensures var s' := Take(stripe, s, step); var p, p' := PhaseOf(s, t), PhaseOf(s', t);
      if p.Leaving? then p'.Idle? && stripe(p.req.chat) !in s'.owner && |s'.returned| == |s.returned| + 1
      else HoldsLock(p') && p'.req == p.req && Left(p') < Left(p) && s'.returned == s.returned
  {
    var p := PhaseOf(s, t);
    step :=
      if p.Holding? then Load(t) else if p.Loaded? then Apply(t)
      else if p.Leaving? then Release(t) else if p.req.chat in s.rows then Commit(t) else Fail(t, Lost);
  }

  /** From any point past the lock a thread can finish by itself, whatever others do or have done, and the lock is free then. */
  lemma HolderCanFinish(stripe: Stripes, s: State, t: Thread) returns (steps: seq<Step>)
    requires HoldsLock(PhaseOf(s, t))
    ensures StepsOf(steps, t) && IsRun(stripe, s, steps)
    ensures var e := EndState(stripe, s, steps);
      && PhaseOf(e, t).Idle? && stripe(PhaseOf(s, t).req.chat) !in e.owner
      && |e.returned| == |s.returned| + 1
    decreases Left(PhaseOf(s, t))
  {
    var step := HolderCanStep(stripe, s, t);
    steps := [];
    if !PhaseOf(s, t).Leaving? {
      steps := HolderCanFinish(stripe, Take(stripe, s, step), t);
    }
    OneMoreOwnStep(stripe, s, t, step, steps);
    steps := [step] + steps;
  }

  lemma FinishLoaded(stripe: Stripes, s: State, t: Thread, req: Request, row: Row) returns (steps: seq<Step>)
    requires PhaseOf(s, t).Loaded? && PhaseOf(s, t).req == req && PhaseOf(s, t).row == row && req.chat in s.rows
    ensures StepsOf(steps, t) && IsRun(stripe, s, steps)
    ensures var e := EndState(stripe, s, steps); var verdict := Decide(req, row);
      && PhaseOf(e, t).Idle? && e.owner == s.owner - {stripe(req.chat)}
      && |e.returned| == |s.returned| + 1 && e.returned[|s.returned|].outcome == OutcomeOf(verdict)
      && e.rows == if verdict.Stores? then s.rows[req.chat := verdict.next] else s.rows
  {
    var s1 := Take(stripe, s, Apply(t));
    if Decide(req, row).Stores? {
      var s2 := Take(stripe, s1, Commit(t));
      OneMoreOwnStep(stripe, s2, t, Release(t), []);
      steps := [Release(t)] + [];
      OneMoreOwnStep(stripe, s1, t, Commit(t), steps);
      steps := [Commit(t)] + steps;
    } else {
      OneMoreOwnStep(stripe, s1, t, Release(t), []);
      steps := [Release(t)] + [];
    }
    OneMoreOwnStep(stripe, s, t, Apply(t), steps);
    steps := [Apply(t)] + steps;
  }

  lemma LoadAlone(stripe: Stripes, s: State, t: Thread, req: Request) returns (s1: State, s2: State, s3: State)
    requires PhaseOf(s, t).Idle? && stripe(req.chat) !in s.owner && req.chat in s.rows
    ensures Enabled(stripe, s, Start(t, req)) && s1 == Take(stripe, s, Start(t, req))
    ensures Enabled(stripe, s1, Acquire(t)) && s2 == Take(stripe, s1, Acquire(t))
    ensures Enabled(stripe, s2, Load(t)) && s3 == Take(stripe, s2, Load(t))
    ensures PhaseOf(s3, t) == Loaded(req, s.rows[req.chat], |s.log|)
    ensures s3.rows == s.rows && s3.returned == s.returned && s3.owner == s.owner[stripe(req.chat) := t]
  {
    s1 := Take(stripe, s, Start(t, req));
    s2 := Take(stripe, s1, Acquire(t));
    s3 := Take(stripe, s2, Load(t));
  }

  /** Left alone, a call whose lock is free stores, or returns, what the write decides on the stored row. */
  lemma CallAlone(stripe: Stripes, s: State, t: Thread, req: Request) returns (steps: seq<Step>)
    requires PhaseOf(s, t).Idle? && stripe(req.chat) !in s.owner && req.chat in s.rows
    ensures StepsOf(steps, t) && IsRun(stripe, s, steps)
    ensures var e := EndState(stripe, s, steps); var verdict := Decide(req, s.rows[req.chat]);
      && PhaseOf(e, t).Idle? && e.owner == s.owner
      && |e.returned| == |s.returned| + 1 && e.returned[|s.returned|].outcome == OutcomeOf(verdict)
      && e.rows == if verdict.Stores? then s.rows[req.chat := verdict.next] else s.rows
  {
    var s1, s2, s3 := LoadAlone(stripe, s, t, req);
    steps := FinishLoaded(stripe, s3, t, req, s.rows[req.chat]);
    OneMoreOwnStep(stripe, s2, t, Load(t), steps);
    OneMoreOwnStep(stripe, s1, t, Acquire(t), [Load(t)] + steps);
    OneMoreOwnStep(stripe, s, t, Start(t, req), [Acquire(t)] + ([Load(t)] + steps));
    steps := [Start(t, req)] + ([Acquire(t)] + ([Load(t)] + steps));
    assert s.owner[stripe(req.chat) := t] - {stripe(req.chat)} == s.owner;
  }
}
