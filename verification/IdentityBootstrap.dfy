/** Agreeing on a default agent: any number of server processes, several requests in each, one
    file that is created exclusively and never deleted. */
module IdentityBootstrap {
  type Id = nat

  /** `Holding` is a file made by this program: the id its creator chose, and whether the text
      was written to the end. `Foreign` is any other file without a readable agent id. */
  datatype File = Absent | Holding(id: Id, complete: bool) | Foreign

  /** Where one request stands in its process. */
  datatype Phase =
    | Idle
    | Waiting
    | Locked
    | Looking(attempt: nat)
    | Reading(attempt: nat)
    | Creating(attempt: nat, mine: Id)
    | Writing(mine: Id)
    | Found(id: Id)
    | Returned(id: Id)
    | Failed
    | Exhausted
    | Dead

  datatype Request = Request(host: nat, phase: Phase)

  /** `cached` and `locks` are per process: the field behind the lock, and who holds it. */
  datatype State = State(file: File, cached: map<nat, Id>, locks: map<nat, nat>, requests: seq<Request>)

  /** The choices left open: the id drawn, whether the text went out in full, whether the agent
      row could be stored. */
  datatype Action = Next(drawn: Id, full: bool, stored: bool) | Crash

  predicate InCritical(p: Phase) {
    p.Locked? || p.Looking? || p.Reading? || p.Creating? || p.Writing? || p.Found?
  }

  function At(s: State, r: nat, phase: Phase): State
    requires r < |s.requests|
  {
    s.(requests := s.requests[r := s.requests[r].(phase := phase)])
  }

  function Release(s: State, r: nat, phase: Phase): State
    requires r < |s.requests|
  {
    At(s, r, phase).(locks := s.locks - {s.requests[r].host})
  }

  predicate Enabled(s: State, r: nat, a: Action) {
    && r < |s.requests|
    && var me := s.requests[r];
       if a.Crash? then true
       else
         && !me.phase.Returned? && !me.phase.Failed? && !me.phase.Exhausted? && !me.phase.Dead?
         && (me.phase.Waiting? ==> me.host !in s.locks)
  }

  function Perform(s: State, r: nat, a: Action): State
    requires Enabled(s, r, a)
  {
    if a.Crash? then CrashHost(s, s.requests[r].host) else Step(s, r, a)
  }

  /** The process dies: its requests, its lock and its cached id are gone; the file stays. */
  function CrashHost(s: State, host: nat): State {
    s.(cached := s.cached - {host}, locks := s.locks - {host},
       requests := seq(|s.requests|, i requires 0 <= i < |s.requests| =>
         if s.requests[i].host == host then s.requests[i].(phase := Dead) else s.requests[i]))
  }

  function Step(s: State, r: nat, a: Action): State
    requires Enabled(s, r, a) && a.Next?
  {
    var me := s.requests[r];
    match me.phase
    case Idle => if me.host in s.cached then At(s, r, Returned(s.cached[me.host])) else At(s, r, Waiting)
    case Waiting => At(s, r, Locked).(locks := s.locks[me.host := r])
    case Locked => if me.host in s.cached then Release(s, r, Returned(s.cached[me.host])) else At(s, r, Looking(1))
    case Looking(n) => At(s, r, if s.file.Absent? then Creating(n, a.drawn) else Reading(n))
    case Reading(n) => if s.file.Holding? && s.file.complete then At(s, r, Found(s.file.id)) else Release(s, r, Failed)
    case Creating(n, mine) =>
      if s.file.Absent? then At(s, r, Writing(mine)).(file := Holding(mine, false))
      else if n < 2 then At(s, r, Looking(n + 1))
      else Release(s, r, Exhausted)
    case Writing(mine) => At(s, r, Found(mine)).(file := Holding(mine, a.full))
    case Found(id) =>
      if a.stored then Release(s, r, Returned(id)).(cached := s.cached[me.host := id]) else Release(s, r, Failed)
    case _ => s
  }

  // ------------------------------------------------------------ the invariant

  predicate FileHas(f: File, id: Id) {
    f.Holding? && f.id == id
  }

  /** What a request in a phase may rely on: an id it holds is the one in the file, a writer is
      alone with a file not finished, and a second attempt is made only with the file there. */
  ghost predicate PhaseOk(f: File, p: Phase) {
    && (p.Found? || p.Returned? ==> FileHas(f, p.id))
    && (p.Writing? ==> f == Holding(p.mine, false))
    && (p.Looking? || p.Reading? || p.Creating? ==> 1 <= p.attempt <= 2)
    && (p.Looking? && p.attempt == 2 ==> !f.Absent?)
    && (p.Creating? ==> p.attempt == 1)
    && (p.Reading? ==> !f.Absent?)
    && !p.Exhausted?
  }

  ghost predicate RequestOk(s: State, r: nat)
    requires r < |s.requests|
  {
    PhaseOk(s.file, s.requests[r].phase) &&
    (InCritical(s.requests[r].phase) ==> s.requests[r].host in s.locks && s.locks[s.requests[r].host] == r)
  }

  /** At most one request is writing: the one that created the file. */
  ghost predicate OneWriter(s: State) {
    forall a, b ::
      (0 <= a < |s.requests| && 0 <= b < |s.requests| && s.requests[a].phase.Writing?
       && s.requests[b].phase.Writing?) ==>
        a == b
  }

  ghost predicate CachedOk(s: State) {
    forall h :: h in s.cached ==> FileHas(s.file, s.cached[h])
  }

  ghost predicate Inv(s: State) {
    && (forall r {:trigger RequestOk(s, r)} :: 0 <= r < |s.requests| ==> RequestOk(s, r))
    && OneWriter(s) && CachedOk(s)
  }

  /** The file is never removed and never names another id. */
  predicate FileGrows(f: File, g: File) {
    && (!f.Absent? ==> !g.Absent?)
    && (f.Holding? ==> FileHas(g, f.id))
    && (f.Foreign? ==> g.Foreign?)
  }

  lemma StepGrowsFile(s: State, r: nat, a: Action)
    requires Inv(s) && Enabled(s, r, a)
    ensures FileGrows(s.file, Perform(s, r, a).file)
  {
    assert RequestOk(s, r);
  }

  /** A request that does nothing keeps what it relies on, whoever else moves. */
  lemma OthersKeep(s: State, r: nat, a: Action, q: nat)
    requires Inv(s) && Enabled(s, r, a) && a.Next? && q < |s.requests| && q != r
    ensures RequestOk(Perform(s, r, a), q)
  {
    assert RequestOk(s, r) && RequestOk(s, q);
    StepGrowsFile(s, r, a);
  }

  lemma OwnStepKeeps(s: State, r: nat, a: Action)
    requires Inv(s) && Enabled(s, r, a) && a.Next?
    ensures RequestOk(Perform(s, r, a), r) && OneWriter(Perform(s, r, a)) && CachedOk(Perform(s, r, a))
  {
    assert RequestOk(s, r);
    StepGrowsFile(s, r, a);
    forall q | 0 <= q < |s.requests| && s.requests[q].phase.Writing? ensures !s.file.Absent? { assert RequestOk(s, q); }
  }

  lemma CrashKeeps(s: State, host: nat)
    requires Inv(s)
    ensures Inv(CrashHost(s, host))
  {
    var t := CrashHost(s, host);
    forall q | 0 <= q < |t.requests| ensures RequestOk(t, q) { assert RequestOk(s, q); }
  }

  lemma StepKeeps(s: State, r: nat, a: Action)
    requires Inv(s) && Enabled(s, r, a)
    ensures Inv(Perform(s, r, a))
  {
    if a.Crash? { CrashKeeps(s, s.requests[r].host); }
    else {
      OwnStepKeeps(s, r, a);
      forall q | 0 <= q < |s.requests| ensures RequestOk(Perform(s, r, a), q) { if q != r { OthersKeep(s, r, a, q); } }
    }
  }

  // ------------------------------------------------------------ runs

  datatype Move = Move(r: nat, action: Action)

  ghost predicate StepAt(s: State, m: Move, t: State) {
    Enabled(s, m.r, m.action) && t == Perform(s, m.r, m.action)
  }

  ghost predicate Run(states: seq<State>, moves: seq<Move>) {
    |states| == |moves| + 1 && forall i :: 0 <= i < |moves| ==> StepAt(states[i], moves[i], states[i + 1])
  }

  /** No request begun, nothing cached; the file may be there from before. */
  ghost predicate Initial(s: State) {
    s.cached == map[] && s.locks == map[] && forall r :: 0 <= r < |s.requests| ==> s.requests[r].phase.Idle?
  }

  lemma {:induction false} RunKeeps(states: seq<State>, moves: seq<Move>, i: nat)
    requires Run(states, moves) && Initial(states[0]) && i < |states|
    ensures Inv(states[i])
  {
    if i > 0 {
      RunKeeps(states, moves, i - 1);
      assert StepAt(states[i - 1], moves[i - 1], states[i]);
      StepKeeps(states[i - 1], moves[i - 1].r, moves[i - 1].action);
    }
  }

  lemma {:induction false} FileOnlyGrows(states: seq<State>, moves: seq<Move>, i: nat, j: nat)
    requires Run(states, moves) && Initial(states[0]) && i <= j < |states|
    ensures FileGrows(states[i].file, states[j].file)
    decreases j
  {
    if i < j {
      FileOnlyGrows(states, moves, i, j - 1);
      RunKeeps(states, moves, j - 1);
      assert StepAt(states[j - 1], moves[j - 1], states[j]);
      StepGrowsFile(states[j - 1], moves[j - 1].r, moves[j - 1].action);
    }
  }

  /** Whenever two requests, of any processes, at any times of a run, have returned, they have
      returned the same id, and it is the one in the file from then on. */
  lemma AllReturnTheSame(states: seq<State>, moves: seq<Move>, i: nat, a: nat, j: nat, b: nat)
    requires Run(states, moves) && Initial(states[0]) && i <= j < |states|
    requires a < |states[i].requests| && states[i].requests[a].phase.Returned?
    requires b < |states[j].requests| && states[j].requests[b].phase.Returned?
    ensures states[i].requests[a].phase.id == states[j].requests[b].phase.id
    ensures FileHas(states[j].file, states[j].requests[b].phase.id)
  {
    RunKeeps(states, moves, i);
    RunKeeps(states, moves, j);
    FileOnlyGrows(states, moves, i, j);
    assert RequestOk(states[i], a) && RequestOk(states[j], b);
  }

  /** The retry loop never runs out. */
  lemma NeverExhausted(states: seq<State>, moves: seq<Move>, i: nat, r: nat)
    requires Run(states, moves) && Initial(states[0]) && i < |states| && r < |states[i].requests|
    ensures !states[i].requests[r].phase.Exhausted?
  {
    RunKeeps(states, moves, i);
    assert RequestOk(states[i], r);
  }

  // ------------------------------------------------------------ readable and unreadable files

  predicate Readable(f: File) {
    f.Holding? && f.complete
  }

  /** A request fails for want of a readable file only on one that is not written out or foreign;
      on a complete file it gets that file's id. */
  lemma ReadsWhatIsThere(s: State, r: nat, a: Action)
    requires Inv(s) && Enabled(s, r, a) && a.Next? && s.requests[r].phase.Reading?
    ensures Perform(s, r, a).requests[r].phase == (if Readable(s.file) then Found(s.file.id) else Failed)
    ensures Perform(s, r, a).requests[r].phase.Failed? <==> s.file.Foreign? || (s.file.Holding? && !s.file.complete)
  {
    assert RequestOk(s, r);
  }

  /** A complete file is never written again. */
  lemma {:induction false} CompleteStays(states: seq<State>, moves: seq<Move>, i: nat, j: nat)
    requires Run(states, moves) && Initial(states[0]) && i <= j < |states| && Readable(states[i].file)
    ensures states[j].file == states[i].file
    decreases j
  {
    if i < j {
      CompleteStays(states, moves, i, j - 1);
      RunKeeps(states, moves, j - 1);
      assert StepAt(states[j - 1], moves[j - 1], states[j]);
      assert RequestOk(states[j - 1], moves[j - 1].r);
    }
  }

  /** Once the file is complete, every read of every process, after any crashes, succeeds with
      its id: what a request can still fail on is the agent row. */
  lemma NoReadFailsAfterComplete(states: seq<State>, moves: seq<Move>, i: nat, j: nat)
    requires Run(states, moves) && Initial(states[0]) && i <= j < |moves| && Readable(states[i].file)
    requires StepAt(states[j], moves[j], states[j + 1]) && moves[j].action.Next?
    ensures states[j].requests[moves[j].r].phase.Reading? ==>
              states[j + 1].requests[moves[j].r].phase == Found(states[i].file.id)
    ensures states[j + 1].requests[moves[j].r].phase.Failed? ==>
              states[j].requests[moves[j].r].phase.Found? && !moves[j].action.stored
  {
    CompleteStays(states, moves, i, j);
    RunKeeps(states, moves, j);
    if states[j].requests[moves[j].r].phase.Reading? { ReadsWhatIsThere(states[j], moves[j].r, moves[j].action); }
    assert RequestOk(states[j], moves[j].r);
  }

  /** A file nobody is finishing, or made by someone else. */
  ghost predicate Stuck(s: State) {
    (s.file.Foreign? || (s.file.Holding? && !s.file.complete)) && forall r :: 0 <= r < |s.requests| ==>
        !s.requests[r].phase.Writing?
  }

  lemma StuckStays(s: State, r: nat, a: Action)
    requires Inv(s) && Stuck(s) && Enabled(s, r, a)
    ensures Stuck(Perform(s, r, a)) && Perform(s, r, a).file == s.file
    ensures Perform(s, r, a).requests[r].phase.Found? ==> s.requests[r].phase.Found?
  {}

  /** The process has no id: none cached, none found, none returned. */
  ghost predicate Barren(s: State, host: nat) {
    && host !in s.cached
    && forall r :: 0 <= r < |s.requests| && s.requests[r].host == host ==>
      !s.requests[r].phase.Found? && !s.requests[r].phase.Returned?
  }

  lemma BarrenStays(s: State, r: nat, a: Action, host: nat)
    requires Inv(s) && Stuck(s) && Enabled(s, r, a) && Barren(s, host)
    ensures Barren(Perform(s, r, a), host)
  {
    assert RequestOk(s, r);
    StuckStays(s, r, a);
  }

  /** Once the file is stuck, a process without an id never gets one: none of its requests ever
      finds or returns anything. */
  lemma {:induction false} StuckForever(states: seq<State>, moves: seq<Move>, i: nat, j: nat, host: nat)
    requires Run(states, moves) && Initial(states[0]) && i <= j < |states| && Stuck(states[i])
             && Barren(states[i], host)
    ensures Stuck(states[j]) && Barren(states[j], host) && states[j].file == states[i].file
    decreases j
  {
    if i < j {
      StuckForever(states, moves, i, j - 1, host);
      RunKeeps(states, moves, j - 1);
      assert StepAt(states[j - 1], moves[j - 1], states[j]);
      StuckStays(states[j - 1], moves[j - 1].r, moves[j - 1].action);
      BarrenStays(states[j - 1], moves[j - 1].r, moves[j - 1].action, host);
    }
  }

  /** So with an unfinished or foreign file in place at the start, no request ever returns. */
  lemma BadFileFailsEveryone(states: seq<State>, moves: seq<Move>, j: nat, r: nat)
    requires Run(states, moves) && Initial(states[0]) && j < |states| && r < |states[j].requests|
    requires !states[0].file.Absent? && !Readable(states[0].file)
    ensures !states[j].requests[r].phase.Returned?
  {
    StuckForever(states, moves, 0, j, states[j].requests[r].host);
  }

  /** And a creator that dies between creating and writing leaves a stuck file behind. */
  lemma DyingWriterLeavesStuck(s: State, r: nat, w: nat)
    requires Inv(s) && r < |s.requests| && w < |s.requests| && s.requests[w].phase.Writing?
             && s.requests[r].host == s.requests[w].host
    ensures Stuck(Perform(s, r, Crash)) && Barren(Perform(s, r, Crash), s.requests[w].host)
  {
    assert RequestOk(s, w);
    var t := Perform(s, r, Crash);
    forall q | 0 <= q < |t.requests| ensures !t.requests[q].phase.Writing? {
      assert s.requests[q].phase.Writing? ==> q == w;
    }
  }
}

/** The bootstrap of one process as it runs, with the others moving between its steps: all that
    is relied on is that the file only grows, which every step of every process keeps. */
module DefaultAgentFile {
  import opened IdentityBootstrap

  datatype Outcome = Agent(id: Id) | Unreadable | LoopExhausted

  class Bootstrap {
    var file: File

    constructor (f: File)
      ensures file == f
    {
      file := f;
    }

    /** Any steps of any other processes. */
    method Others()
      modifies this
      ensures FileGrows(old(file), file)
    {
      var next: File := *;
      if FileGrows(file, next) { file := next; }
    }

    /** Nothing if there is no file; the id of a readable one. */
    method ReadDefaultFile() returns (missing: bool, outcome: Outcome)
      modifies this
      ensures FileGrows(old(file), file)
      ensures missing ==> old(file).Absent?
      ensures !missing ==> !file.Absent? && outcome == if file.Holding? && file.complete then Agent(file.id)
              else Unreadable
    {
      missing, outcome := file.Absent?, Unreadable;
      if !missing {
        Others();
        if file.Holding? && file.complete { outcome := Agent(file.id); }
      }
    }

    /** Exclusive create, then the text, which may not go out in full. */
    method AtomicCreate(mine: Id, full: bool) returns (won: bool)
      modifies this
      ensures FileGrows(old(file), file)
      ensures won <==> old(file).Absent?
      ensures won ==> FileHas(file, mine)
    {
      won := file.Absent?;
      if won {
        file := Holding(mine, false);
        Others();
        file := Holding(mine, full);
      }
    }

    /** Read, or create, or read what a peer created: the id returned is the one in the file, and
        the second attempt is always the last one needed. */
    method ReadOrCreate(drawn: seq<Id>, full: bool) returns (outcome: Outcome)
      requires |drawn| == 2
      modifies this
      ensures FileGrows(old(file), file)
      ensures outcome.Agent? ==> FileHas(file, outcome.id)
      ensures !outcome.LoopExhausted?
      ensures old(file).Holding? && old(file).complete && outcome.Agent? ==> outcome == Agent(old(file).id)
    {
      for attempt := 0 to 2
        invariant FileGrows(old(file), file)
        invariant attempt > 0 ==> !file.Absent?
        invariant attempt < 2
      {
        var missing;
        missing, outcome := ReadDefaultFile();
        if !missing { return; }
        Others();
        var won := AtomicCreate(drawn[attempt], full);
        if won { return Agent(drawn[attempt]); }
      }
      outcome := LoopExhausted;
    }
  }
}
