/**
  The client's run protocol: any number of concurrent `event_generator`s, interleaved only at
  `await` and `yield`. Each step runs one generator from such a point to its next one, atomically,
  with an outcome chosen by the environment; processes exit at any time in between.
 */
module RunProtocol {
  import opened Bpf

  /** Where a generator is suspended. */
  datatype Pc =
    | Created      // not started
    | Rejected     // yielding "already running"
    | Spawning     // awaiting create_subprocess_exec
    | Checking     // awaiting is_disconnected
    | Reading      // awaiting readline
    | Yielding     // yielding a line
    | Terminating  // awaiting the process after SIGTERM, up to two seconds
    | Killing      // awaiting the process after SIGKILL
    | Succeeding   // yielding the result
    | Failing      // yielding the error
    | Reaping      // in `finally`, awaiting the process
    | Done

  /** The subprocess, and whether it was sent SIGTERM and SIGKILL; a signal that finds no process counts as sent. */
  datatype Process = NoProcess | Live(terminated: bool, killed: bool) | Exited

  /** The status label of `tool_runs`. */
  datatype Status = Success | Error

  /** `denied` once a signal was refused; `report` is the status the run entered into `tool_runs`, if it has. */
  datatype Generator = Generator(tool: nat, pc: Pc, process: Process, denied: bool, report: Option<Status>)

  /** The tools flagged running, the `tool_running` gauge, the counter `tool_runs` by its labels, and all generators. */
  datatype State = State(flagged: set<nat>, gauge: int, runs: multiset<(nat, Status)>, gens: map<nat, Generator>)

  /** What the awaited operation, or the consumer at a yield, does. */
  datatype Outcome =
    | Go      // it completes, or the consumer asks for more
    | Again   // a read that times out or whose line is dropped without a message
    | Stop    // end of output, or the duration has passed
    | Fail    // an exception
    | Cancel  // cancellation, a closed generator, or a disconnected client

  datatype Step = Request(g: nat, tool: nat) | Resume(g: nat, outcome: Outcome, refused: bool) | Exit(g: nat)

  /** Between setting and clearing the running flag. */
  predicate Active(x: Generator) {
    x.pc in {Spawning, Checking, Reading, Yielding, Terminating, Killing, Succeeding, Failing}
  }

  /** What a step does to the flag of its tool and to the gauge: nothing, `running = 1` and `inc`, or `running = 0` and `dec`. */
  datatype Effect = Same | Enter | Leave

  /** Where a step leaves its generator, and what it does to the shared state; `entry` is what it adds to `tool_runs`. */
  datatype Result = Result(x: Generator, effect: Effect, entry: Option<Status>)

  function Move(x: Generator, pc: Pc): Result {
    Result(x.(pc := pc), Same, None)
  }

  /** The bookkeeping behind the loop, up to the yield of the result. */
  function Succeed(x: Generator): Result {
    Result(x.(pc := Succeeding, report := Some(Success)), Same, Some(Success))
  }

  /** `except Exception`, up to the yield of the error. */
  function FailRun(x: Generator): Result {
    Result(x.(pc := Failing, report := Some(Error)), Same, Some(Error))
  }

  /** The `finally` block, up to its await. The flag is cleared first; a refused signal raises out of the block. */
  function Finally(x: Generator, refused: bool): Result {
    if !x.process.Live? then Result(x.(pc := Done), Leave, None)
    else if refused then Result(x.(pc := Done, denied := true), Leave, None)
    else Result(x.(pc := Reaping, process := x.process.(killed := true)), Leave, None)
  }

  /** Behind the read loop: terminate the process if it still runs. */
  function AfterLoop(x: Generator, refused: bool): Result {
    if !x.process.Live? then Succeed(x)
    else if refused then FailRun(x.(denied := true))
    else Move(x.(process := x.process.(terminated := true)), Terminating)
  }

  /** The body of the `try`; an outcome that is impossible at its point changes nothing. */
  function Body(x: Generator, outcome: Outcome, refused: bool): Result {
    match x.pc
    case Spawning => if outcome.Go? then Move(x.(process := Live(false, false)), Checking) else Move(x, x.pc)
    case Checking =>
      if outcome.Go? then Move(x, Reading)
      else if outcome.Stop? then AfterLoop(x, refused)
      else Move(x, x.pc)
    case Reading =>
      if outcome.Go? then Move(x, Yielding)
      else if outcome.Again? then Move(x, Checking)
      else if outcome.Stop? then AfterLoop(x, refused)
      else Move(x, x.pc)
    case Yielding => Move(x, Checking)
    case Terminating =>
      if x.process.Exited? then Succeed(x)
      else if !outcome.Stop? || !x.process.Live? then Move(x, x.pc)
      else if refused then FailRun(x.(denied := true))
      else Move(x.(process := x.process.(killed := true)), Killing)
    case Killing => if x.process.Exited? then Succeed(x) else Move(x, x.pc)
    case _ => Move(x, x.pc)
  }

  /** One generator runs to its next suspension; `busy` is the flag of its tool. */
  function Advance(x: Generator, busy: bool, outcome: Outcome, refused: bool): Result {
    match x.pc
    case Created =>
      if outcome.Cancel? then Move(x, Done)
      else if busy then Move(x, Rejected)
      else Result(x.(pc := Spawning), Enter, None)
    case Rejected => Move(x, Done)
    case Done => Move(x, Done)
    case Reaping => if outcome.Cancel? || x.process.Exited? then Move(x, Done) else Move(x, Reaping)
    case Succeeding => Finally(x, refused)
    case Failing => Finally(x, refused)
    case _ =>
      if outcome.Cancel? then Finally(x, refused)
      else if outcome.Fail? && !x.pc.Yielding? then FailRun(x)
      else Body(x, outcome, refused)
  }

  /** Every step in terms of its own generator, if that exists, and the flag of its tool. */
  function Local(x: Option<Generator>, busy: bool, step: Step): Option<Result> {
    match step
    case Request(_, tool) => if x.None? then Some(Move(Generator(tool, Created, NoProcess, false, None), Created)) else None
    case Resume(_, outcome, refused) => if x.Some? then Some(Advance(x.value, busy, outcome, refused)) else None
    case Exit(_) =>
      if x.Some? && x.value.process.Live? then Some(Move(x.value.(process := Exited), x.value.pc)) else None
  }

  function Find(s: State, g: nat): Option<Generator> {
    if g in s.gens then Some(s.gens[g]) else None
  }

  function Apply(s: State, g: nat, r: Result): State {
    var t := r.x.tool;
    var gens := s.gens[g := r.x];
    var runs := s.runs + if r.entry.Some? then multiset{(t, r.entry.value)} else multiset{};
    match r.effect
    case Same => State(s.flagged, s.gauge, runs, gens)
    case Enter => State(s.flagged + {t}, s.gauge + 1, runs, gens)
    case Leave => State(s.flagged - {t}, s.gauge - 1, runs, gens)
  }

  function Next(s: State, step: Step): State {
    var x := Find(s, step.g);
    var r := Local(x, x.Some? && x.value.tool in s.flagged, step);
    if r.Some? then Apply(s, step.g, r.value) else s
  }

  const IDLE := State({}, 0, multiset{}, map[])

  function After(tr: Trace<Step>): State {
    match tr
    case Start => IDLE
    case Then(before, step) => Next(After(before), step)
  }

  // ---- The flag and the gauge ----

  predicate IsActive(s: State, g: nat) {
    g in s.gens && Active(s.gens[g])
  }

  ghost function ActiveIds(s: State): set<nat> {
    set g | g in s.gens && Active(s.gens[g])
  }

  /** No two active generators share a tool, and the flags are exactly their tools. */
  ghost predicate Exclusive(s: State) {
    && (forall g | IsActive(s, g) :: s.gens[g].tool in s.flagged)
    && (forall t | t in s.flagged :: exists g :: IsActive(s, g) && s.gens[g].tool == t)
    && (forall g, h | IsActive(s, g) && IsActive(s, h) && g != h :: s.gens[g].tool != s.gens[h].tool)
  }

  predicate WasActive(x: Option<Generator>) {
    x.Some? && Active(x.value)
  }

  /** A step enters or leaves exactly when its generator becomes active or inactive, and enters only on a clear flag. */
  lemma LocalEffect(x: Option<Generator>, busy: bool, step: Step)
    requires Local(x, busy, step).Some?
    ensures var r := Local(x, busy, step).value;
      && (x.Some? ==> r.x.tool == x.value.tool)
      && (r.effect.Same? ==> WasActive(x) == Active(r.x))
      && (r.effect.Enter? ==> x.Some? && !WasActive(x) && Active(r.x) && !busy)
      && (r.effect.Leave? ==> WasActive(x) && !Active(r.x))
  {
  }

  predicate Fits(s: State, g: nat, r: Result) {
    && (g in s.gens ==> r.x.tool == s.gens[g].tool)
    && match r.effect
       case Same => IsActive(s, g) == Active(r.x)
       case Enter => !IsActive(s, g) && Active(r.x) && r.x.tool !in s.flagged
       case Leave => IsActive(s, g) && !Active(r.x)
  }

  lemma ApplyKeepsExclusion(s: State, g: nat, r: Result)
    requires Exclusive(s) && Fits(s, g, r)
    ensures Exclusive(Apply(s, g, r))
  {
    var s' := Apply(s, g, r);
    forall h | IsActive(s', h) ensures s'.gens[h].tool in s'.flagged {
      ActiveIsFlagged(s, g, r, h);
    }
    forall t | t in s'.flagged ensures exists h :: IsActive(s', h) && s'.gens[h].tool == t {
      FlagIsHeld(s, g, r, t);
    }
    forall h, k | IsActive(s', h) && IsActive(s', k) && h != k ensures s'.gens[h].tool != s'.gens[k].tool {
      ActiveIsAlone(s, g, r, h, k);
    }
  }

  lemma ActiveIsFlagged(s: State, g: nat, r: Result, h: nat)
    requires Exclusive(s) && Fits(s, g, r) && IsActive(Apply(s, g, r), h)
    ensures Apply(s, g, r).gens[h].tool in Apply(s, g, r).flagged
  {
    if h != g {
      assert IsActive(s, h);
    }
  }

  lemma ActiveIsAlone(s: State, g: nat, r: Result, h: nat, k: nat)
    requires Exclusive(s) && Fits(s, g, r) && IsActive(Apply(s, g, r), h) && IsActive(Apply(s, g, r), k) && h != k
    ensures Apply(s, g, r).gens[h].tool != Apply(s, g, r).gens[k].tool
  {
    assert h != g ==> IsActive(s, h);
    assert k != g ==> IsActive(s, k);
  }

  lemma FlagIsHeld(s: State, g: nat, r: Result, t: nat)
    requires Exclusive(s) && Fits(s, g, r) && t in Apply(s, g, r).flagged
    ensures exists h :: IsActive(Apply(s, g, r), h) && Apply(s, g, r).gens[h].tool == t
  {
    var s' := Apply(s, g, r);
    if Active(r.x) && t == r.x.tool {
      assert IsActive(s', g);
    } else {
      var h :| IsActive(s, h) && s.gens[h].tool == t;
      assert IsActive(s', h) && s'.gens[h].tool == t;
    }
  }

  /** How many generators a step makes active. */
  function Delta(r: Result): int {
    match r.effect
    case Same => 0
    case Enter => 1
    case Leave => -1
  }

  lemma ActiveAfter(s: State, g: nat, r: Result)
    ensures ActiveIds(Apply(s, g, r)) == if Active(r.x) then ActiveIds(s) + {g} else ActiveIds(s) - {g}
  {
    assert Apply(s, g, r).gens == s.gens[g := r.x];
  }

  lemma ApplyMovesActive(s: State, g: nat, r: Result)
    requires Fits(s, g, r)
    ensures |ActiveIds(Apply(s, g, r))| == |ActiveIds(s)| + Delta(r)
  {
    ActiveAfter(s, g, r);
    assert g in ActiveIds(s) <==> IsActive(s, g);
  }

  lemma ApplyMovesFlags(s: State, g: nat, r: Result)
    requires Fits(s, g, r) && (IsActive(s, g) ==> s.gens[g].tool in s.flagged)
    ensures |Apply(s, g, r).flagged| == |s.flagged| + Delta(r)
    ensures Apply(s, g, r).gauge == s.gauge + Delta(r)
  {
  }

  /** Every step changes one generator, and the shared state only as `Fits` allows. */
  lemma NextApplies(s: State, step: Step) returns (r: Option<Result>)
    ensures r == Local(Find(s, step.g), step.g in s.gens && s.gens[step.g].tool in s.flagged, step)
    ensures Next(s, step) == if r.Some? then Apply(s, step.g, r.value) else s
    ensures r.Some? ==> Fits(s, step.g, r.value)
  {
    var busy := step.g in s.gens && s.gens[step.g].tool in s.flagged;
    r := Local(Find(s, step.g), busy, step);
    if r.Some? {
      LocalEffect(Find(s, step.g), busy, step);
    }
  }

  /** Mutual exclusion: in every interleaving at most one generator per tool lies between setting and clearing the flag. */
  lemma {:induction false} OneActivePerTool(tr: Trace<Step>)
    ensures Exclusive(After(tr))
  {
    if tr.Then? {
      OneActivePerTool(tr.before);
      var r := NextApplies(After(tr.before), tr.event);
      if r.Some? {
        ApplyKeepsExclusion(After(tr.before), tr.event.g, r.value);
      }
    }
  }

  /** The gauge always equals the number of flagged tools and the number of active generators. */
  lemma {:induction false} GaugeIsExact(tr: Trace<Step>)
    ensures After(tr).gauge == |After(tr).flagged| == |ActiveIds(After(tr))|
  {
    if tr.Then? {
      GaugeIsExact(tr.before);
      OneActivePerTool(tr.before);
      var r := NextApplies(After(tr.before), tr.event);
      if r.Some? {
        ApplyMovesActive(After(tr.before), tr.event.g, r.value);
        ApplyMovesFlags(After(tr.before), tr.event.g, r.value);
      }
    } else {
      assert ActiveIds(After(tr)) == {};
    }
  }

  // ---- Rejected requests ----

  /** The history with every step of one generator left out. */
  function Without(tr: Trace<Step>, g: nat): Trace<Step> {
    match tr
    case Start => Start
    case Then(before, step) => if step.g == g then Without(before, g) else Then(Without(before, g), step)
  }

  predicate NeverActive(tr: Trace<Step>, g: nat) {
    && !IsActive(After(tr), g)
    && (tr.Then? ==> NeverActive(tr.before, g))
  }

  function Hide(s: State, g: nat): State {
    s.(gens := s.gens - {g})
  }

  lemma StepIgnoresOthers(s: State, step: Step, g: nat)
    requires step.g != g
    ensures Next(Hide(s, g), step) == Hide(Next(s, step), g)
  {
    var r := NextApplies(s, step);
    assert Find(Hide(s, g), step.g) == Find(s, step.g);
    if r.Some? {
      assert (s.gens - {g})[step.g := r.value.x] == s.gens[step.g := r.value.x] - {g};
    }
  }

  lemma InactiveStepIsLocal(s: State, step: Step)
    requires !IsActive(s, step.g) && !IsActive(Next(s, step), step.g)
    ensures Hide(Next(s, step), step.g) == Hide(s, step.g)
  {
    var r := NextApplies(s, step);
    if r.Some? {
      LocalCounts(Find(s, step.g), step.g in s.gens && s.gens[step.g].tool in s.flagged, step);
      assert s.gens[step.g := r.value.x] - {step.g} == s.gens - {step.g};
    }
  }

  /** Only an active generator adds to `tool_runs`. */
  lemma LocalCounts(x: Option<Generator>, busy: bool, step: Step)
    requires Local(x, busy, step).Some? && !WasActive(x)
    ensures Local(x, busy, step).value.entry.None?
  {
  }

  /** A request that never gets in leaves no trace: the rest of the system is what it would have been without it. */
  lemma {:induction false} RejectedLeavesNoTrace(tr: Trace<Step>, g: nat)
    requires NeverActive(tr, g)
    ensures After(Without(tr, g)) == Hide(After(tr), g)
  {
    if tr.Then? {
      RejectedLeavesNoTrace(tr.before, g);
      if tr.event.g == g {
        InactiveStepIsLocal(After(tr.before), tr.event);
      } else {
        StepIgnoresOthers(After(tr.before), tr.event, g);
      }
    } else {
      assert Hide(After(tr), g).gens == map[];
    }
  }

  /** A request starts running if and only if its tool is not flagged at its first step. */
  lemma AdmittedIff(tr: Trace<Step>, g: nat, outcome: Outcome, refused: bool)
    requires g in After(tr).gens && After(tr).gens[g].pc.Created? && !outcome.Cancel?
    ensures (exists h :: IsActive(After(tr), h) && After(tr).gens[h].tool == After(tr).gens[g].tool)
        <==> !IsActive(Next(After(tr), Resume(g, outcome, refused)), g)
  {
    OneActivePerTool(tr);
  }

  // ---- Processes and run counts ----

  /** Before the `try` body succeeds or fails. */
  predicate Unfinished(x: Generator) {
    x.pc in {Created, Rejected, Spawning, Checking, Reading, Yielding, Terminating, Killing}
  }

  predicate Coherent(x: Generator) {
    && (x.pc in {Created, Rejected, Spawning} ==> x.process.NoProcess? && !x.denied)
    && (x.pc in {Checking, Reading, Yielding, Terminating, Killing} ==> !x.process.NoProcess?)
    && (x.pc in {Killing, Reaping} && x.process.Live? ==> x.process.killed)
    && (x.pc in {Terminating, Killing} && x.process.Live? ==> x.process.terminated)
    && (x.pc in {Checking, Reading, Yielding} ==> x.process in {Live(false, false), Exited})
    && (x.pc.Reaping? ==> !x.process.NoProcess?)
    && (x.pc.Done? && x.process.Live? ==> x.process.killed || x.denied)
    && (Unfinished(x) ==> x.report.None?)
    && (x.pc.Failing? ==> x.report == Some(Error))
    && (x.pc.Succeeding? ==> x.report == Some(Success) && x.process.Exited?)
  }

  lemma BodyKeepsCoherence(x: Generator, outcome: Outcome, refused: bool)
    requires Coherent(x) && Active(x) && !x.pc.Succeeding? && !x.pc.Failing?
    ensures Coherent(Body(x, outcome, refused).x)
  {
  }

  lemma AdvanceKeepsCoherence(x: Generator, busy: bool, outcome: Outcome, refused: bool)
    requires Coherent(x)
    ensures Coherent(Advance(x, busy, outcome, refused).x)
  {
    if Active(x) && !x.pc.Succeeding? && !x.pc.Failing? {
      BodyKeepsCoherence(x, outcome, refused);
    }
  }

  lemma LocalKeepsCoherence(x: Option<Generator>, busy: bool, step: Step)
    requires x.Some? ==> Coherent(x.value)
    requires Local(x, busy, step).Some?
    ensures Coherent(Local(x, busy, step).value.x)
  {
    if step.Resume? {
      AdvanceKeepsCoherence(x.value, busy, step.outcome, step.refused);
    }
  }

  /** A step that adds to `tool_runs` gives a run its first report; no other step changes a report. */
  lemma LocalReports(x: Option<Generator>, busy: bool, step: Step)
    requires x.Some? ==> Coherent(x.value)
    requires Local(x, busy, step).Some?
    ensures (var r, report := Local(x, busy, step).value, if x.Some? then x.value.report else None;
      if r.entry.Some? then report.None? && r.x.report == r.entry else r.x.report == report)
  {
  }

  lemma {:induction false} GeneratorsAreCoherent(tr: Trace<Step>)
    ensures forall g | g in After(tr).gens :: Coherent(After(tr).gens[g])
  {
    if tr.Then? {
      var s, step := After(tr.before), tr.event;
      GeneratorsAreCoherent(tr.before);
      var r := NextApplies(s, step);
      if r.Some? {
        LocalKeepsCoherence(Find(s, step.g), step.g in s.gens && s.gens[step.g].tool in s.flagged, step);
      }
    }
  }

  /** A run reports success only after its process exited. */
  lemma SuccessMeansExited(tr: Trace<Step>, g: nat)
    requires g in After(tr).gens && After(tr).gens[g].pc.Succeeding?
    ensures After(tr).gens[g].process.Exited?
  {
    GeneratorsAreCoherent(tr);
  }

  /** A live process of a run that is over has been sent SIGKILL, unless a signal was refused. */
  lemma InactiveProcessesAreKilled(tr: Trace<Step>, g: nat)
    requires g in After(tr).gens && !IsActive(After(tr), g) && After(tr).gens[g].process.Live? && !After(tr).gens[g].process.killed
    ensures After(tr).gens[g].denied
  {
    GeneratorsAreCoherent(tr);
  }

  /** While no signal was refused, at most one process per tool is live and not killed. */
  lemma OneUnkilledProcessPerTool(tr: Trace<Step>, g: nat, h: nat)
    requires g in After(tr).gens && h in After(tr).gens && g != h
    requires After(tr).gens[g].tool == After(tr).gens[h].tool
    requires After(tr).gens[g].process.Live? && !After(tr).gens[g].process.killed
    requires After(tr).gens[h].process.Live? && !After(tr).gens[h].process.killed
    ensures After(tr).gens[g].denied || After(tr).gens[h].denied
  {
    OneActivePerTool(tr);
    if !IsActive(After(tr), g) {
      InactiveProcessesAreKilled(tr, g);
    } else {
      InactiveProcessesAreKilled(tr, h);
    }
  }

  /**
    A cancelled run (a client that disconnects, a closed stream) clears its flag and is not counted by
    that. It sends SIGKILL to a live process and awaits it, unless the signal is refused, when the run
    ends with its process as it was; without a live process it ends. No SIGTERM is sent then; one came
    first if and only if the run was past its read loop, except that a run which is reporting an error
    may have sent one or not.
   */
  lemma CancelKills(tr: Trace<Step>, g: nat, refused: bool)
    requires IsActive(After(tr), g)
    ensures (var s, s' := After(tr), Next(After(tr), Resume(g, Cancel, refused));
      var x, x' := s.gens[g], s'.gens[g];
      && !IsActive(s', g) && x.tool !in s'.flagged && s'.runs == s.runs && x'.report == x.report
      && (x.process.Live? && !refused ==> x'.pc.Reaping? && x'.process == Live(x.process.terminated, true))
      && (x.process.Live? && refused ==> x'.pc.Done? && x'.denied && x'.process == x.process)
      && (!x.process.Live? ==> x'.pc.Done? && x'.process == x.process)
      && (x.process.Live? && !x.pc.Failing? ==> (x.process.terminated <==> x.pc in {Terminating, Killing})))
  {
    var s := After(tr);
    GeneratorsAreCoherent(tr);
    ResumeApplies(s, g, Cancel, refused);
    CancelAdvances(s.gens[g], s.gens[g].tool in s.flagged, refused);
  }

  lemma CancelAdvances(x: Generator, busy: bool, refused: bool)
    requires Active(x)
    ensures Advance(x, busy, Cancel, refused) == Finally(x, refused)
  {
  }

  /**
    A request that is not, or no longer, active ends without touching the shared state: one that is
    cancelled before it starts or was turned away at once, one that awaits its killed process when that
    exits or the wait is cancelled, and not before.
   */
  lemma InactiveEnds(tr: Trace<Step>, g: nat, outcome: Outcome, refused: bool)
    requires g in After(tr).gens && !IsActive(After(tr), g)
    requires After(tr).gens[g].pc.Created? ==> outcome.Cancel?
    ensures (var s, x := After(tr), After(tr).gens[g];
      var pc := if x.pc.Reaping? && !outcome.Cancel? && !x.process.Exited? then Reaping else Done;
      Next(s, Resume(g, outcome, refused)) == s.(gens := s.gens[g := x.(pc := pc)]))
  {
    var s, x := After(tr), After(tr).gens[g];
    ResumeApplies(s, g, outcome, refused);
    InactiveAdvances(x, x.tool in s.flagged, outcome, refused);
  }

  lemma InactiveAdvances(x: Generator, busy: bool, outcome: Outcome, refused: bool)
    requires !Active(x) && (x.pc.Created? ==> outcome.Cancel?)
    ensures Advance(x, busy, outcome, refused)
            == Move(x, if x.pc.Reaping? && !outcome.Cancel? && !x.process.Exited? then Reaping else Done)
  {
  }

  // ---- The read loop ----

  predicate Suspended(s: State, g: nat, pc: Pc) {
    g in s.gens && s.gens[g].pc == pc
  }

  /** The step takes generator `g` to `pc`. */
  predicate Enters(s: State, step: Step, g: nat, pc: Pc) {
    !Suspended(s, g, pc) && Suspended(Next(s, step), g, pc)
  }

  /** The step resumes generator `g`, suspended at `pc`. */
  predicate Resumed(s: State, step: Step, g: nat, pc: Pc) {
    step.Resume? && step.g == g && Suspended(s, g, pc)
  }

  lemma AdvanceInLoop(x: Generator, busy: bool, outcome: Outcome, refused: bool)
    ensures (var pc, pc' := x.pc, Advance(x, busy, outcome, refused).x.pc;
      && (pc' == Yielding && pc != Yielding <==> pc == Reading && outcome.Go?)
      && (pc' == Reading && pc != Reading <==> pc == Checking && outcome.Go?)
      && (pc' == Checking && pc != Checking <==>
            (pc == Spawning && outcome.Go?) || (pc == Reading && outcome.Again?) || (pc == Yielding && !outcome.Cancel?))
      && (pc == Yielding ==> pc' != Yielding) && (pc == Reading ==> pc' != Reading))
  {
  }

  lemma ResumeApplies(s: State, g: nat, outcome: Outcome, refused: bool)
    requires g in s.gens
    ensures Next(s, Resume(g, outcome, refused))
            == Apply(s, g, Advance(s.gens[g], s.gens[g].tool in s.flagged, outcome, refused))
  {
  }

  lemma OthersStay(s: State, step: Step, g: nat)
    requires !(step.Resume? && step.g == g) && g in s.gens
    ensures g in Next(s, step).gens && Next(s, step).gens[g].pc == s.gens[g].pc
  {
  }

  /**
    The order of the loop, in every state: a line is yielded exactly when a read has returned it, a
    read begins exactly behind a check that found time and client, and a check comes exactly behind the
    spawn, behind a read without a line to yield, and behind a yielded line. No yield and no read is
    resumed in place, so no line is yielded twice.
   */
  lemma LoopIsOrdered(s: State, step: Step, g: nat)
    ensures Enters(s, step, g, Yielding) <==> Resumed(s, step, g, Reading) && step.outcome.Go?
    ensures Enters(s, step, g, Reading) <==> Resumed(s, step, g, Checking) && step.outcome.Go?
    ensures Enters(s, step, g, Checking) <==>
            || (Resumed(s, step, g, Spawning) && step.outcome.Go?)
            || (Resumed(s, step, g, Reading) && step.outcome.Again?)
            || (Resumed(s, step, g, Yielding) && !step.outcome.Cancel?)
    ensures Resumed(s, step, g, Yielding) ==> !Suspended(Next(s, step), g, Yielding)
    ensures Resumed(s, step, g, Reading) ==> !Suspended(Next(s, step), g, Reading)
  {
    if g in s.gens {
      if step.Resume? && step.g == g {
        ResumeApplies(s, g, step.outcome, step.refused);
        AdvanceInLoop(s.gens[g], s.gens[g].tool in s.flagged, step.outcome, step.refused);
      } else {
        OthersStay(s, step, g);
      }
    }
  }

  /** The runs of tool `t` that reported `status`. */
  ghost function ReportedIds(s: State, t: nat, status: Status): set<nat> {
    set g | g in s.gens && s.gens[g].tool == t && s.gens[g].report == Some(status)
  }

  /** A step changes the report of its own generator only. */
  predicate ReportsFit(s: State, g: nat, r: Result) {
    && (g in s.gens ==> r.x.tool == s.gens[g].tool)
    && (var report := if g in s.gens then s.gens[g].report else None;
        if r.entry.Some? then report.None? && r.x.report == r.entry else r.x.report == report)
  }

  lemma ReportedAfter(s: State, g: nat, r: Result, t: nat, status: Status)
    requires ReportsFit(s, g, r)
    ensures (var ids, ids' := ReportedIds(s, t, status), ReportedIds(Apply(s, g, r), t, status);
      if r.entry == Some(status) && r.x.tool == t then g !in ids && ids' == ids + {g} else ids' == ids)
  {
    assert Apply(s, g, r).gens == s.gens[g := r.x];
  }

  /** `tool_runs` counts, by tool and status, each run that reported a result, exactly once. */
  lemma {:induction false} RunsAreCountedOnce(tr: Trace<Step>, t: nat, status: Status)
    ensures After(tr).runs[(t, status)] == |ReportedIds(After(tr), t, status)|
  {
    if tr.Then? {
      var s, step := After(tr.before), tr.event;
      RunsAreCountedOnce(tr.before, t, status);
      GeneratorsAreCoherent(tr.before);
      var r := NextApplies(s, step);
      if r.Some? {
        LocalReports(Find(s, step.g), step.g in s.gens && s.gens[step.g].tool in s.flagged, step);
        ReportedAfter(s, step.g, r.value, t, status);
      }
    } else {
      assert ReportedIds(After(tr), t, status) == {};
    }
  }

  // ---- How a run ends ----

  /** From `s` to `s'` the run reports a result: it is yielding it, and its tool and status are counted once more. */
  predicate Reports(s: State, s': State, g: nat, status: Status) {
    && g in s.gens && g in s'.gens
    && s'.gens[g].pc == (if status.Success? then Succeeding else Failing)
    && s'.gens[g].report == Some(status)
    && s'.runs == s.runs + multiset{(s.gens[g].tool, status)}
  }

  /**
    A run whose output has ended or whose duration has passed: with a live process it sends SIGTERM and
    awaits the process, or reports an error when the signal is refused; with an exited one it reports success.
   */
  lemma LoopEndTerminates(tr: Trace<Step>, g: nat, refused: bool)
    requires IsActive(After(tr), g) && After(tr).gens[g].pc in {Checking, Reading}
    ensures (var s, s' := After(tr), Next(After(tr), Resume(g, Stop, refused));
      && (s.gens[g].process.Exited? ==> Reports(s, s', g, Success))
      && (!s.gens[g].process.Exited? && refused ==> Reports(s, s', g, Error) && s'.gens[g].denied)
      && (!s.gens[g].process.Exited? && !refused ==>
            s' == s.(gens := s.gens[g := s.gens[g].(pc := Terminating, process := Live(true, false))])))
  {
    GeneratorsAreCoherent(tr);
  }

  /**
    A run that awaits its process after SIGTERM: when two seconds pass it sends SIGKILL and awaits the
    process again, or reports an error when the signal is refused; an exit is reported as success.
   */
  lemma TimeoutKills(tr: Trace<Step>, g: nat, outcome: Outcome, refused: bool)
    requires IsActive(After(tr), g) && After(tr).gens[g].pc.Terminating? && !outcome.Cancel? && !outcome.Fail?
    ensures (var s, s' := After(tr), Next(After(tr), Resume(g, outcome, refused));
      && (s.gens[g].process.Exited? ==> Reports(s, s', g, Success))
      && (!s.gens[g].process.Exited? && outcome.Stop? && refused ==> Reports(s, s', g, Error) && s'.gens[g].denied)
      && (!s.gens[g].process.Exited? && outcome.Stop? && !refused ==>
            s' == s.(gens := s.gens[g := s.gens[g].(pc := Killing, process := Live(true, true))])))
  {
    var s := After(tr);
    GeneratorsAreCoherent(tr);
    ResumeApplies(s, g, outcome, refused);
    assert Advance(s.gens[g], s.gens[g].tool in s.flagged, outcome, refused) == Body(s.gens[g], outcome, refused);
  }

  /** A run that awaits its process after SIGKILL reports success once that exits. */
  lemma ExitIsReported(tr: Trace<Step>, g: nat, outcome: Outcome, refused: bool)
    requires IsActive(After(tr), g) && After(tr).gens[g].pc.Killing? && !outcome.Cancel? && !outcome.Fail?
    ensures (var s, s' := After(tr), Next(After(tr), Resume(g, outcome, refused));
      if s.gens[g].process.Exited? then Reports(s, s', g, Success) else s' == s)
  {
    var s := After(tr);
    ResumeApplies(s, g, outcome, refused);
    KillingAdvances(s.gens[g], s.gens[g].tool in s.flagged, outcome, refused);
    assert s.gens[g := s.gens[g]] == s.gens && s.runs + multiset{} == s.runs;
  }

  lemma KillingAdvances(x: Generator, busy: bool, outcome: Outcome, refused: bool)
    requires x.pc.Killing? && !outcome.Cancel? && !outcome.Fail?
    ensures Advance(x, busy, outcome, refused) == if x.process.Exited? then Succeed(x) else Result(x, Same, None)
  {
  }

  lemma FailAdvances(x: Generator, busy: bool, refused: bool)
    requires x.pc in {Spawning, Checking, Reading, Terminating, Killing}
    ensures Advance(x, busy, Fail, refused) == FailRun(x)
  {
  }

  /** A failed await, of the spawn, a check, a read or the process, is reported as an error. */
  lemma FailureIsReported(tr: Trace<Step>, g: nat, refused: bool)
    requires IsActive(After(tr), g) && After(tr).gens[g].pc in {Spawning, Checking, Reading, Terminating, Killing}
    ensures Reports(After(tr), Next(After(tr), Resume(g, Fail, refused)), g, Error)
    ensures Next(After(tr), Resume(g, Fail, refused)).gens[g].process == After(tr).gens[g].process
  {
    var s := After(tr);
    FailAdvances(s.gens[g], s.gens[g].tool in s.flagged, refused);
    assert Next(s, Resume(g, Fail, refused)) == Apply(s, g, FailRun(s.gens[g]));
  }

  /** A run that has yielded its result or error clears its flag; a live process is sent SIGKILL and awaited. */
  lemma ReportedRunLeaves(tr: Trace<Step>, g: nat, outcome: Outcome, refused: bool)
    requires IsActive(After(tr), g) && After(tr).gens[g].pc in {Succeeding, Failing}
    ensures (var s, s' := After(tr), Next(After(tr), Resume(g, outcome, refused));
      && !IsActive(s', g) && s.gens[g].tool !in s'.flagged && s'.runs == s.runs
      && s'.gens[g].report == s.gens[g].report && s'.gens[g].report.Some?
      && (s.gens[g].process.Live? && !refused ==> s'.gens[g].pc.Reaping? && s'.gens[g].process.killed)
      && (s.gens[g].pc.Succeeding? ==> s'.gens[g].pc.Done? && s'.gens[g].process.Exited?))
  {
    var s := After(tr);
    GeneratorsAreCoherent(tr);
    ResumeApplies(s, g, outcome, refused);
    assert Advance(s.gens[g], s.gens[g].tool in s.flagged, outcome, refused) == Finally(s.gens[g], refused);
  }

  // ---- Every run ends, once its duration has passed ----

  /**
    What a suspended run can meet once its duration has passed, as long as it is not cancelled: the
    check for it stops the loop, a timeout of two seconds ends the first await of the process, and
    the second one waits until the process has exited.
   */
  predicate Late(x: Generator, outcome: Outcome) {
    match x.pc
    case Spawning => outcome.Go? || outcome.Fail?
    case Checking => outcome.Stop? || outcome.Fail?
    case Terminating => outcome.Fail? || outcome == if x.process.Exited? then Go else Stop
    case Killing => outcome.Fail? || (x.process.Exited? && outcome.Go?)
    case _ => !outcome.Cancel?
  }

  /** How many resumes a late run has left, at most. */
  function Left(x: Generator): nat {
    match x.pc
    case Reading => 6
    case Spawning => 5
    case Yielding => 5
    case Checking => 4
    case Terminating => 3
    case Killing => 2
    case Succeeding => 1
    case Failing => 1
    case _ => 0
  }

  function RunOn(tr: Trace<Step>, steps: seq<Step>): Trace<Step> {
    if steps == [] then tr else Then(RunOn(tr, steps[..|steps| - 1]), steps[|steps| - 1])
  }

  predicate LateStepOf(s: State, step: Step, g: nat) {
    step.Resume? && step.g == g ==> g in s.gens && Late(s.gens[g], step.outcome)
  }

  /** Behind `tr`, generator `g` meets only what a late run can meet; all others do as they like. */
  predicate LateSteps(tr: Trace<Step>, steps: seq<Step>, g: nat) {
    steps != [] ==>
      var n := |steps| - 1;
      LateSteps(tr, steps[..n], g) && LateStepOf(After(RunOn(tr, steps[..n])), steps[n], g)
  }

  function Resumes(steps: seq<Step>, g: nat): nat {
    if steps == [] then 0 else
      var n := |steps| - 1;
      Resumes(steps[..n], g) + if steps[n].Resume? && steps[n].g == g then 1 else 0
  }

  /** The run is over and was counted. */
  predicate Over(x: Generator) {
    x.pc in {Reaping, Done} && x.report.Some?
  }

  lemma LateAdvance(x: Generator, busy: bool, outcome: Outcome, refused: bool)
    requires Coherent(x) && Late(x, outcome) && (Active(x) || Over(x))
    ensures (var x' := Advance(x, busy, outcome, refused).x;
      x'.tool == x.tool && ((Active(x') && Left(x') < Left(x)) || Over(x')))
  {
  }

  /** Behind `n` resumes of its own, a run that began as `x` is over, or has that many less left. */
  predicate Shorter(x: Generator, s: State, g: nat, n: nat) {
    && g in s.gens && s.gens[g].tool == x.tool
    && (Over(s.gens[g]) || (Active(s.gens[g]) && Left(s.gens[g]) + n <= Left(x)))
  }

  lemma LateStep(x: Generator, s: State, step: Step, g: nat, n: nat)
    requires Shorter(x, s, g, n) && Coherent(s.gens[g]) && LateStepOf(s, step, g)
    ensures Shorter(x, Next(s, step), g, n + if step.Resume? && step.g == g then 1 else 0)
  {
    if step.Resume? && step.g == g {
      ResumeApplies(s, g, step.outcome, step.refused);
      LateAdvance(s.gens[g], s.gens[g].tool in s.flagged, step.outcome, step.refused);
    } else {
      OthersStay(s, step, g);
      OthersKeepReport(s, step, g);
    }
  }

  lemma OthersKeepReport(s: State, step: Step, g: nat)
    requires !(step.Resume? && step.g == g) && g in s.gens
    ensures g in Next(s, step).gens && Next(s, step).gens[g].report == s.gens[g].report
    ensures Next(s, step).gens[g].tool == s.gens[g].tool
  {
  }

  /**
    Every run ends: in every continuation of every interleaving, an active run whose duration has
    passed and that is not cancelled is over after at most six resumes, so its flag is cleared, and it
    is one of the runs of its tool that `tool_runs` counts, once each, under the status it reported.
   */
  lemma {:induction false} LateRunsEnd(tr: Trace<Step>, steps: seq<Step>, g: nat)
    requires IsActive(After(tr), g) && LateSteps(tr, steps, g)
    ensures g in After(RunOn(tr, steps)).gens
    ensures Resumes(steps, g) >= 6 ==>
              && Over(After(RunOn(tr, steps)).gens[g])
              && CountedOnce(After(RunOn(tr, steps)), g, After(tr).gens[g].tool)
  {
    var x, s', n := After(tr).gens[g], After(RunOn(tr, steps)), Resumes(steps, g);
    assert Shorter(x, s', g, n) by {
      LateRunsShorten(tr, steps, g);
    }
    SixEnd(x, s', g, n);
    if n >= 6 {
      RunsAreCountedOnce(RunOn(tr, steps), x.tool, s'.gens[g].report.value);
    }
  }

  /** The run reported one status, under which the counter of its tool counts it and every other such run once. */
  ghost predicate CountedOnce(s: State, g: nat, tool: nat) {
    && g in s.gens && s.gens[g].report.Some?
    && (var ids := ReportedIds(s, tool, s.gens[g].report.value);
        g in ids && s.runs[(tool, s.gens[g].report.value)] == |ids|)
  }

  lemma SixEnd(x: Generator, s: State, g: nat, n: nat)
    requires Shorter(x, s, g, n)
    ensures n >= 6 ==> Over(s.gens[g])
  {
  }

  lemma {:induction false} LateRunsShorten(tr: Trace<Step>, steps: seq<Step>, g: nat)
    requires IsActive(After(tr), g) && LateSteps(tr, steps, g)
    ensures Shorter(After(tr).gens[g], After(RunOn(tr, steps)), g, Resumes(steps, g))
  {
    if steps != [] {
      var n := |steps| - 1;
      var before := RunOn(tr, steps[..n]);
      LateRunsShorten(tr, steps[..n], g);
      GeneratorsAreCoherent(before);
      LateStep(After(tr).gens[g], After(before), steps[n], g, Resumes(steps[..n], g));
      assert RunOn(tr, steps) == Then(before, steps[n]);
    }
  }

  /** The next step of a late run that meets nothing unusual. */
  function UsualStep(x: Generator, g: nat): Step {
    match x.pc
    case Checking => Resume(g, Stop, false)
    case Terminating => Resume(g, if x.process.Exited? then Go else Stop, false)
    case Killing => if x.process.Live? then Exit(g) else Resume(g, Go, false)
    case _ => Resume(g, Go, false)
  }

  lemma UsualStepIsLate(s: State, g: nat)
    requires IsActive(s, g) && Coherent(s.gens[g])
    ensures (var x, step := s.gens[g], UsualStep(s.gens[g], g);
      && (step.Resume? ==> Late(x, step.outcome))
      && (step.Exit? ==> x.pc.Killing? && x.process.Live? && Next(s, step).gens[g] == x.(process := Exited)))
  {
  }

  lemma RunOnSnoc(tr: Trace<Step>, steps: seq<Step>, step: Step, g: nat)
    requires LateSteps(tr, steps, g)
    requires LateStepOf(After(RunOn(tr, steps)), step, g)
    ensures RunOn(tr, steps + [step]) == Then(RunOn(tr, steps), step)
    ensures LateSteps(tr, steps + [step], g)
    ensures Resumes(steps + [step], g) == Resumes(steps, g) + if step.Resume? && step.g == g then 1 else 0
  {
    assert (steps + [step])[..|steps|] == steps;
  }

  /** With at most one exit and, counting those it has left, six resumes. */
  predicate Brief(x: Generator, taken: nat, resumes: nat) {
    && (Over(x) || Active(x)) && Left(x) + resumes <= 6
    && resumes <= taken <= resumes + (if x.process.Live? then 0 else 1)
    && (x.pc.Spawning? ==> taken == resumes)
  }

  lemma UsualStepIsBrief(s: State, g: nat, taken: nat, resumes: nat)
    requires IsActive(s, g) && Coherent(s.gens[g]) && Brief(s.gens[g], taken, resumes)
    ensures (var x, step := s.gens[g], UsualStep(s.gens[g], g);
      var x' := Next(s, step).gens[g];
      && Brief(x', taken + 1, resumes + if step.Resume? then 1 else 0)
      && (Left(x') < Left(x) || (Left(x') == Left(x) && x.process.Live? && !x'.process.Live?)))
  {
    var x, step := s.gens[g], UsualStep(s.gens[g], g);
    UsualStepIsLate(s, g);
    if step.Resume? {
      LateAdvance(x, x.tool in s.flagged, step.outcome, step.refused);
    }
  }

  /** Behind `tr`, generator `g` alone has taken late steps, and few of them. */
  predicate Ending(tr: Trace<Step>, steps: seq<Step>, g: nat) {
    && LateSteps(tr, steps, g) && (forall i | 0 <= i < |steps| :: steps[i].g == g)
    && g in After(RunOn(tr, steps)).gens
    && Brief(After(RunOn(tr, steps)).gens[g], |steps|, Resumes(steps, g))
  }

  lemma OneMoreStep(tr: Trace<Step>, steps: seq<Step>, g: nat) returns (more: seq<Step>)
    requires Ending(tr, steps, g) && IsActive(After(RunOn(tr, steps)), g)
    ensures Ending(tr, more, g)
    ensures (var x, x' := After(RunOn(tr, steps)).gens[g], After(RunOn(tr, more)).gens[g];
      Left(x') < Left(x) || (Left(x') == Left(x) && x.process.Live? && !x'.process.Live?))
  {
    var s := After(RunOn(tr, steps));
    var step := UsualStep(s.gens[g], g);
    more := steps + [step];
    GeneratorsAreCoherent(RunOn(tr, steps));
    UsualStepIsLate(s, g);
    RunOnSnoc(tr, steps, step, g);
    UsualStepIsBrief(s, g, |steps|, Resumes(steps, g));
    assert After(RunOn(tr, more)) == Next(s, step);
  }

  /** And nothing stands in its way: with at most six resumes of its own, and the exit of its process, it gets there. */
  lemma LateRunsCanEnd(tr: Trace<Step>, g: nat) returns (steps: seq<Step>)
    requires IsActive(After(tr), g)
    ensures LateSteps(tr, steps, g) && forall i | 0 <= i < |steps| :: steps[i].g == g
    ensures Resumes(steps, g) <= 6 && |steps| <= Resumes(steps, g) + 1
    ensures g in After(RunOn(tr, steps)).gens && Over(After(RunOn(tr, steps)).gens[g])
  {
    steps := [];
    assert RunOn(tr, steps) == tr;
    while IsActive(After(RunOn(tr, steps)), g)
      invariant Ending(tr, steps, g)
      decreases Left(After(RunOn(tr, steps)).gens[g]), After(RunOn(tr, steps)).gens[g].process.Live?
    {
      steps := OneMoreStep(tr, steps, g);
    }
  }

  // ---- Exactly when a tool has one live process ----

  /** Generator `g` is a run of tool `t` whose process is live. */
  predicate LiveOf(s: State, t: nat, g: nat) {
    g in s.gens && s.gens[g].tool == t && s.gens[g].process.Live?
  }

  ghost predicate OneLive(s: State, t: nat) {
    forall g, h | LiveOf(s, t, g) && LiveOf(s, t, h) :: g == h
  }

  /** A run of `t` is over, its flag cleared, and its process is not gone yet. */
  ghost predicate Lingering(s: State, t: nat) {
    exists h :: LiveOf(s, t, h) && !IsActive(s, h)
  }

  /** The step in which a run of `t` gets its process. */
  predicate Spawns(s: State, step: Step, t: nat) {
    && step.Resume? && step.outcome.Go?
    && step.g in s.gens && s.gens[step.g].pc.Spawning? && s.gens[step.g].tool == t
  }

  /** Only a spawn makes a process live. */
  lemma LocalSpawns(x: Option<Generator>, busy: bool, step: Step)
    requires Local(x, busy, step).Some? && Local(x, busy, step).value.x.process.Live?
    ensures x.Some?
    ensures x.value.process.Live? || (step.Resume? && step.outcome.Go? && x.value.pc.Spawning?)
  {
  }

  lemma OthersMakeNothingLive(s: State, step: Step, t: nat, h: nat)
    requires !Spawns(s, step, t) && LiveOf(Next(s, step), t, h)
    ensures LiveOf(s, t, h)
  {
    var r := NextApplies(s, step);
    if r.Some? && h == step.g {
      LocalSpawns(Find(s, step.g), step.g in s.gens && s.gens[step.g].tool in s.flagged, step);
    }
  }

  lemma SpawnStep(s: State, g: nat, refused: bool)
    requires g in s.gens && s.gens[g].pc.Spawning?
    ensures Next(s, Resume(g, Go, refused)).gens
            == s.gens[g := s.gens[g].(pc := Checking, process := Live(false, false))]
  {
  }

  /** While a run of `t` is spawning, the live processes of `t` are those that linger. */
  lemma LiveIsLingering(s: State, t: nat, g: nat, h: nat)
    requires Exclusive(s) && g in s.gens && Coherent(s.gens[g]) && s.gens[g].pc.Spawning? && s.gens[g].tool == t
    requires LiveOf(s, t, h)
    ensures h != g && Lingering(s, t)
  {
    assert IsActive(s, g) && h != g;
    assert !IsActive(s, h);
  }

  lemma NewIsOnlyLive(s: State, s': State, t: nat, g: nat, x: Generator)
    requires x.tool == t && x.process.Live? && s'.gens == s.gens[g := x]
    requires forall h | LiveOf(s, t, h) :: h != g
    ensures LiveOf(s', t, g) && (OneLive(s', t) <==> forall h :: !LiveOf(s, t, h))
  {
    forall h | LiveOf(s, t, h) ensures !OneLive(s', t) {
      assert LiveOf(s', t, h) && LiveOf(s', t, g);
    }
    assert forall h | LiveOf(s', t, h) && h != g :: LiveOf(s, t, h);
  }

  /**
    A process that a run of `t` spawns is the only live one of `t` if and only if no process of an
    earlier run of `t` lingers: every live process of `t` belongs to an active run.
   */
  lemma SpawnsAloneIff(tr: Trace<Step>, g: nat, refused: bool)
    requires g in After(tr).gens && After(tr).gens[g].pc.Spawning?
    ensures (var s, s', t := After(tr), Next(After(tr), Resume(g, Go, refused)), After(tr).gens[g].tool;
      LiveOf(s', t, g) && (OneLive(s', t) <==> !Lingering(s, t)))
  {
    var s, s', t := After(tr), Next(After(tr), Resume(g, Go, refused)), After(tr).gens[g].tool;
    GeneratorsAreCoherent(tr);
    OneActivePerTool(tr);
    SpawnStep(s, g, refused);
    forall h | LiveOf(s, t, h) ensures h != g && Lingering(s, t) {
      LiveIsLingering(s, t, g, h);
    }
    NewIsOnlyLive(s, s', t, g, s'.gens[g]);
  }

  /** At every moment of the run tool `t` has at most one live process. */
  ghost predicate AlwaysOneLive(tr: Trace<Step>, t: nat) {
    OneLive(After(tr), t) && (tr.Then? ==> AlwaysOneLive(tr.before, t))
  }

  /** Whenever a run of `t` gets its process, no process of an earlier run of `t` lingers. */
  ghost predicate SpawnsAlone(tr: Trace<Step>, t: nat) {
    tr.Then? ==>
      SpawnsAlone(tr.before, t) && (Spawns(After(tr.before), tr.event, t) ==> !Lingering(After(tr.before), t))
  }

  /** The exact condition, for every interleaving: a tool never has two live processes if and only if each is spawned alone. */
  lemma {:induction false} OneLivePerToolIff(tr: Trace<Step>, t: nat)
    ensures AlwaysOneLive(tr, t) <==> SpawnsAlone(tr, t)
  {
    if tr.Then? {
      var s, step := After(tr.before), tr.event;
      OneLivePerToolIff(tr.before, t);
      if Spawns(s, step, t) {
        SpawnsAloneIff(tr.before, step.g, step.refused);
      } else {
        forall h | LiveOf(After(tr), t, h) ensures LiveOf(s, t, h) {
          OthersMakeNothingLive(s, step, t, h);
        }
      }
    }
  }

  /** The steps by which an admitted request gets its process. */
  function Begin(tr: Trace<Step>, g: nat, t: nat): Trace<Step> {
    Then(Then(Then(tr, Request(g, t)), Resume(g, Go, false)), Resume(g, Go, false))
  }

  /** The first resume of an admitted request, and the one that gets its process. */
  lemma GoEnters(s: State, g: nat)
    requires g in s.gens && s.gens[g].pc.Created? && s.gens[g].tool !in s.flagged
    ensures Next(s, Resume(g, Go, false)).gens == s.gens[g := s.gens[g].(pc := Spawning)]
  {
  }

  lemma BeginSpawns(tr: Trace<Step>, g: nat, t: nat)
    requires g !in After(tr).gens && t !in After(tr).flagged
    ensures After(Begin(tr, g, t)).gens == After(tr).gens[g := Generator(t, Checking, Live(false, false), false, None)]
  {
    var s, t1 := After(tr), Then(tr, Request(g, t));
    assert After(t1).gens == s.gens[g := Generator(t, Created, NoProcess, false, None)];
    assert After(t1).flagged == s.flagged;
    GoEnters(After(t1), g);
    SpawnStep(After(Then(t1, Resume(g, Go, false))), g, false);
  }

  lemma CancelFrees(s: State, g: nat, t: nat)
    requires g in s.gens && s.gens[g] == Generator(t, Checking, Live(false, false), false, None)
    ensures var s' := Next(s, Resume(g, Cancel, false));
      t !in s'.flagged && s'.gens == s.gens[g := Generator(t, Reaping, Live(false, true), false, None)]
  {
  }

  /** The flag is cleared before the killed process is reaped, so two processes of one tool can be live at once. */
  lemma TwoLiveProcesses(tr: Trace<Step>, g: nat, h: nat, t: nat) returns (run: Trace<Step>)
    requires g !in After(tr).gens && h !in After(tr).gens && g != h && t !in After(tr).flagged
    ensures (var gens := After(run).gens;
      && g in gens && gens[g].tool == t && gens[g].process.Live?
      && h in gens && gens[h].tool == t && gens[h].process.Live?
      && !AlwaysOneLive(run, t))
  {
    BeginSpawns(tr, g, t);
    var cancelled := Then(Begin(tr, g, t), Resume(g, Cancel, false));
    CancelFrees(After(Begin(tr, g, t)), g, t);
    BeginSpawns(cancelled, h, t);
    run := Begin(cancelled, h, t);
    assert LiveOf(After(run), t, g) && LiveOf(After(run), t, h);
  }
}
