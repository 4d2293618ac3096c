/** Concurrent writers of one memory under READ COMMITTED: edits, whose UPDATE is guarded by the
    version they read, and moves and hard deletes, whose statement is not. What keeps the last
    two from overwriting a version they have not seen is the unique key of the outbox. */
module VersionRace {
  import opened Wrappers

  type Id = nat
  type Pid = nat

  datatype Row = Row(version: nat, body: string, tags: set<string>, successor: Option<Id>)

  /** An edit is any write guarded by a version: update, archive, retire or supersede. */
  datatype Call = Edit(expected: nat) | Move(newId: Id) | Remove(expected: nat)

  datatype Stage = Idle | Loaded | Tagged | Written | Announced | Ready | Replied | Raised

  /** `seen` is the row as loaded, `tags` what a move loaded after it, `next` the row written but
      not committed. */
  datatype Process = Process(call: Call, stage: Stage, seen: Row, tags: set<string>, next: Row)

  /** What a move makes of the body and the tags it loaded. */
  datatype Copy = Copy(body: string, tags: set<string>)

  /** The committed row, if it has not been deleted, and what was announced of it under each
      version, nothing standing for the tombstone of a delete; then who holds the row and which
      outbox keys are taken by whom, not committed yet. `head` is a history variable: the last
      version announced. */
  datatype State = State(
    row: Option<Row>,
    events: map<nat, Option<Row>>,
    head: nat,
    copies: map<Id, Copy>,
    rowLock: Option<Pid>,
    keyClaims: map<nat, Pid>,
    processes: seq<Process>)

  // ------------------------------------------------------------ one step of one process

  /** `change` is what an edit writes beside the version. */
  datatype Action = Load | LoadTags | Write(change: Row) | Announce | Commit | Abort

  predicate Over(stage: Stage) {
    stage.Replied? || stage.Raised?
  }

  predicate InTransaction(stage: Stage) {
    !stage.Idle? && !Over(stage)
  }

  /** Whose next statement writes the row. */
  predicate ToWrite(me: Process) {
    match me.call
    case Edit(_) => me.stage.Loaded?
    case Move(_) => me.stage.Tagged?
    case Remove(_) => me.stage.Announced?
  }

  /** Whose next statement enqueues the event. */
  predicate ToAnnounce(me: Process) {
    if me.call.Remove? then me.stage.Loaded? else me.stage.Written?
  }

  predicate HoldsRow(me: Process) {
    me.stage.Written? || me.stage.Ready?
  }

  predicate HoldsKey(me: Process) {
    me.stage.Announced? || me.stage.Ready?
  }

  predicate Enabled(s: State, p: Pid, a: Action) {
    && p < |s.processes|
    && var me := s.processes[p];
       match a
       case Load => me.stage.Idle?
       case LoadTags => me.stage.Loaded? && me.call.Move?
       case Write(_) => ToWrite(me) && s.rowLock.None?
       case Announce => ToAnnounce(me) && me.seen.version + 1 !in s.keyClaims
       case Commit => me.stage.Ready?
       case Abort => InTransaction(me.stage)
  }

  function With(s: State, p: Pid, me: Process): State
    requires p < |s.processes|
  {
    s.(processes := s.processes[p := me])
  }

  /** The end of a transaction frees the row and its key. */
  function Finished(s: State, p: Pid, stage: Stage): State
    requires p < |s.processes|
  {
    With(s, p, s.processes[p].(stage := stage)).(
      rowLock := if s.rowLock == Some(p) then None else s.rowLock,
      keyClaims := map k | k in s.keyClaims && s.keyClaims[k] != p :: s.keyClaims[k])
  }

  function Perform(s: State, p: Pid, a: Action): State
    requires Enabled(s, p, a)
  {
    var me := s.processes[p];
    match a
    case Load =>
      if s.row.None? || (!me.call.Move? && me.call.expected != s.row.value.version) then Finished(s, p, Raised)
      else With(s, p, me.(stage := Loaded, seen := s.row.value))
    case LoadTags => With(s, p, me.(stage := Tagged, tags := if s.row.Some? then s.row.value.tags else {}))
    case Write(change) => if Rejected(s, me) then Finished(s, p, Raised) else Holding(s, p, change)
    case Announce =>
      if me.seen.version + 1 in s.events then Finished(s, p, Raised)
      else With(s, p, me.(stage := if me.call.Remove? then Announced
                          else Ready)).(keyClaims := s.keyClaims[me.seen.version + 1 := p])
    case Commit => Published(s, p)
    case Abort => Finished(s, p, Raised)
  }

  /** An edit finds no row under its version; a move finds no row to refresh, or one whose version
      it would lower; a DELETE that hits nothing goes on. */
  predicate Rejected(s: State, me: Process) {
    match me.call
    case Edit(_) => s.row.None? || s.row.value.version != me.seen.version
    case Move(_) => s.row.None? || me.seen.version + 1 < s.row.value.version
    case Remove(_) => false
  }

  function Holding(s: State, p: Pid, change: Row): State
    requires p < |s.processes| && !Rejected(s, s.processes[p])
  {
    var me := s.processes[p];
    match me.call
    case Edit(_) => With(s, p,
                         me.(stage := Written, next := change.(version := me.seen.version + 1))).(rowLock := Some(p))
    case Move(id) =>
      With(s, p, me.(stage := Written,
                     next := s.row.value.(version := me.seen.version + 1, successor := Some(id)))).(rowLock := Some(p))
    case Remove(_) => With(s, p, me.(stage := Ready)).(rowLock := Some(p))
  }

  /** The row and its event become visible together, and with a move its copy. */
  function Published(s: State, p: Pid): State
    requires p < |s.processes|
  {
    var me := s.processes[p];
    var row := if me.call.Remove? then None else Some(me.next);
    Finished(s.(row := row, events := s.events[me.seen.version + 1 := row], head := me.seen.version + 1,
                copies := if me.call.Move? then s.copies[me.call.newId := Copy(me.seen.body, me.tags)] else s.copies),
                  p, Replied)
  }

  // ------------------------------------------------------------ the invariant

  ghost predicate TablesOk(s: State) {
    && (forall v :: v in s.events <==> 1 <= v <= s.head)
    && s.head >= 1 && s.events[s.head] == s.row
    && (s.row.Some? ==> s.row.value.version == s.head)
  }

  /** What the process loaded is the row as long as no newer version has been announced, and
      the key it holds is the next version's. */
  ghost predicate ProcessOk(s: State, p: Pid, me: Process) {
    && (InTransaction(me.stage) ==> me.seen.version <= s.head && (me.seen.version == s.head ==> s.row == Some(me.seen)))
    && (InTransaction(me.stage) && me.call.Move? && !me.stage.Loaded? && me.seen.version == s.head ==>
        me.tags == me.seen.tags)
    && (HoldsRow(me) ==> s.rowLock == Some(p))
    && (HoldsKey(me) ==>
        me.seen.version == s.head && me.seen.version + 1 in s.keyClaims && s.keyClaims[me.seen.version + 1] == p)
    && (HoldsRow(me) && !me.call.Remove? ==> s.row.Some? && me.next.version == me.seen.version + 1)
    && (HoldsRow(me) && me.call.Edit? ==> me.seen.version == s.head)
    && (HoldsRow(me) && me.call.Move? ==>
        me.next == s.row.value.(version := me.seen.version + 1, successor := Some(me.call.newId)))
    && (me.stage.Tagged? ==> me.call.Move?) && (me.stage.Announced? ==> me.call.Remove?)
    && (me.stage.Written? ==> !me.call.Remove?)
  }

  ghost predicate OkAt(s: State, p: Pid)
    requires p < |s.processes|
  {
    ProcessOk(s, p, s.processes[p])
  }

  ghost predicate LocksOk(s: State) {
    && (s.rowLock.Some? ==> s.rowLock.value < |s.processes| && HoldsRow(s.processes[s.rowLock.value]))
    && (forall v {:trigger ClaimOk(s, v)} :: v in s.keyClaims ==> ClaimOk(s, v))
  }

  ghost predicate ClaimOk(s: State, v: nat)
    requires v in s.keyClaims
  {
    var p := s.keyClaims[v];
    p < |s.processes| && HoldsKey(s.processes[p]) && s.processes[p].seen.version + 1 == v
  }

  ghost predicate Inv(s: State) {
    && TablesOk(s) && LocksOk(s)
    && (forall p: Pid {:trigger OkAt(s, p)} :: p < |s.processes| ==> OkAt(s, p))
  }

  // ------------------------------------------------------------ every step keeps it

  /** A step that writes no table, of a process that may take the row or a key for itself. */
  ghost predicate Quiet(s: State, t: State, p: Pid) {
    && t.row == s.row && t.events == s.events && t.head == s.head && t.copies == s.copies
    && |t.processes| == |s.processes|
    && (forall q: Pid :: q < |s.processes| && q != p ==> t.processes[q] == s.processes[q])
    && (s.rowLock.Some? && s.rowLock != Some(p) ==> t.rowLock == s.rowLock)
    && (forall v :: v in s.keyClaims && s.keyClaims[v] != p ==> v in t.keyClaims && t.keyClaims[v] == s.keyClaims[v])
  }

  lemma QuietKeeps(s: State, t: State, p: Pid)
    requires Inv(s) && Quiet(s, t, p) && p < |s.processes| && OkAt(t, p) && LocksOk(t)
    ensures Inv(t)
  {
    forall q: Pid | q < |t.processes| ensures OkAt(t, q) { if q != p { assert OkAt(s, q); } }
  }

  lemma FinishedLocks(s: State, p: Pid, t: State)
    requires LocksOk(s) && p < |s.processes| && |t.processes| == |s.processes|
    requires t.rowLock == (if s.rowLock == Some(p) then None else s.rowLock)
    requires t.keyClaims == map k | k in s.keyClaims && s.keyClaims[k] != p :: s.keyClaims[k]
    requires forall q: Pid :: q < |s.processes| && q != p ==> t.processes[q] == s.processes[q]
    ensures LocksOk(t)
  {
    forall v | v in t.keyClaims ensures ClaimOk(t, v) { assert ClaimOk(s, v); }
  }

  lemma FinishKeeps(s: State, p: Pid, stage: Stage)
    requires Inv(s) && p < |s.processes| && Over(stage)
    ensures Inv(Finished(s, p, stage))
  {
    var t := Finished(s, p, stage);
    FinishedLocks(s, p, t);
    QuietKeeps(s, t, p);
  }

  lemma LoadKeeps(s: State, p: Pid, a: Action)
    requires Inv(s) && Enabled(s, p, a) && (a.Load? || a.LoadTags?)
    ensures Inv(Perform(s, p, a))
  {
    var t := Perform(s, p, a);
    assert OkAt(s, p);
    if t.processes[p].stage.Raised? { FinishKeeps(s, p, Raised); }
    else {
      forall v | v in t.keyClaims ensures ClaimOk(t, v) { assert ClaimOk(s, v); }
      QuietKeeps(s, t, p);
    }
  }

  lemma WriteKeeps(s: State, p: Pid, change: Row)
    requires Inv(s) && Enabled(s, p, Write(change))
    ensures Inv(Perform(s, p, Write(change)))
  {
    if Rejected(s, s.processes[p]) { FinishKeeps(s, p, Raised); }
    else {
      var t := Holding(s, p, change);
      assert OkAt(s, p);
      forall v | v in t.keyClaims ensures ClaimOk(t, v) { assert ClaimOk(s, v); }
      QuietKeeps(s, t, p);
    }
  }

  lemma AnnounceKeeps(s: State, p: Pid)
    requires Inv(s) && Enabled(s, p, Announce)
    ensures Inv(Perform(s, p, Announce))
  {
    var me := s.processes[p];
    if me.seen.version + 1 in s.events { FinishKeeps(s, p, Raised); }
    else {
      var t := Perform(s, p, Announce);
      assert OkAt(s, p);
      assert me.seen.version == s.head;
      forall v | v in t.keyClaims ensures ClaimOk(t, v) { if v in s.keyClaims { assert ClaimOk(s, v); } }
      QuietKeeps(s, t, p);
    }
  }

  /** Nobody else holds a key when one commits: there is one next version, and its key is taken. */
  lemma OneKeyHolder(s: State, p: Pid, q: Pid)
    requires Inv(s) && p < |s.processes| && q < |s.processes| && HoldsKey(s.processes[p]) && HoldsKey(s.processes[q])
    ensures p == q
  {
    assert OkAt(s, p) && OkAt(s, q);
  }

  lemma OneRowHolder(s: State, p: Pid, q: Pid)
    requires Inv(s) && p < |s.processes| && q < |s.processes| && HoldsRow(s.processes[p]) && HoldsRow(s.processes[q])
    ensures p == q
  {
    assert OkAt(s, p) && OkAt(s, q);
  }

  lemma CommitKeeps(s: State, p: Pid)
    requires Inv(s) && Enabled(s, p, Commit)
    ensures Inv(Published(s, p))
  {
    var t := Published(s, p);
    assert OkAt(s, p);
    FinishedLocks(s, p, t);
    forall q: Pid | q < |t.processes| ensures OkAt(t, q) {
      if q != p {
        assert OkAt(s, q);
        if HoldsKey(s.processes[q]) { OneKeyHolder(s, p, q); }
        if HoldsRow(s.processes[q]) { OneRowHolder(s, p, q); }
      }
    }
  }

  /** Every step of every process keeps the invariant. */
  lemma StepKeeps(s: State, p: Pid, a: Action)
    requires Inv(s) && Enabled(s, p, a)
    ensures Inv(Perform(s, p, a))
  {
    match a
    case Load => LoadKeeps(s, p, a);
    case LoadTags => LoadKeeps(s, p, a);
    case Write(change) => WriteKeeps(s, p, change);
    case Announce => AnnounceKeeps(s, p);
    case Commit => CommitKeeps(s, p);
    case Abort => FinishKeeps(s, p, Raised);
  }

  // ------------------------------------------------------------ what a commit does

  /** Every commit, guarded or not, is made on exactly the row its transaction loaded, and adds
      the next version: no write is lost, whatever the interleaving. */
  lemma CommitsOntoWhatItSaw(s: State, p: Pid)
    requires Inv(s) && Enabled(s, p, Commit)
    ensures s.row == Some(s.processes[p].seen) && s.processes[p].seen.version == s.head
    ensures var t := Perform(s, p, Commit);
            && t.head == s.head + 1 && s.head + 1 !in s.events
            && t.events == s.events[s.head + 1 := t.row]
            && (t.row.Some? <==> !s.processes[p].call.Remove?)
            && (t.row.Some? ==> t.row.value.version == s.head + 1)
  {
    assert OkAt(s, p);
  }

  /** A committed move changes nothing of the row but version and successor, and its copy has the
      body and the tags the row has at that moment. */
  lemma MoveIsFaithful(s: State, p: Pid)
    requires Inv(s) && Enabled(s, p, Commit) && s.processes[p].call.Move?
    ensures var t, id := Perform(s, p, Commit), s.processes[p].call.newId;
            && s.row.Some? && t.row == Some(s.row.value.(version := s.head + 1, successor := Some(id)))
            && id in t.copies && t.copies[id] == Copy(s.row.value.body, s.row.value.tags)
  {
    assert OkAt(s, p);
  }

  /** No other step changes the row, its events or the copies. */
  lemma OnlyCommitWrites(s: State, p: Pid, a: Action)
    requires Enabled(s, p, a) && !a.Commit?
    ensures Quiet(s, Perform(s, p, a), p)
  {}

  // ------------------------------------------------------------ runs

  datatype Turn = Turn(p: Pid, action: Action)

  ghost predicate StepAt(s: State, m: Turn, t: State) {
    Enabled(s, m.p, m.action) && t == Perform(s, m.p, m.action)
  }

  ghost predicate Run(states: seq<State>, turns: seq<Turn>) {
    |states| == |turns| + 1 && forall i :: 0 <= i < |turns| ==> StepAt(states[i], turns[i], states[i + 1])
  }

  /** A memory with its history, and transactions not begun. */
  ghost predicate Initial(s: State) {
    && TablesOk(s) && s.rowLock.None? && s.keyClaims == map[]
    && forall p: Pid :: p < |s.processes| ==> s.processes[p].stage.Idle?
  }

  lemma {:induction false} RunKeeps(states: seq<State>, turns: seq<Turn>, i: nat)
    requires Run(states, turns) && Initial(states[0]) && i < |states|
    ensures Inv(states[i]) && |states[i].processes| == |states[0].processes|
  {
    if i > 0 {
      RunKeeps(states, turns, i - 1);
      assert StepAt(states[i - 1], turns[i - 1], states[i]);
      StepKeeps(states[i - 1], turns[i - 1].p, turns[i - 1].action);
    }
  }

  /** A transaction that loaded a version no longer the last never commits. */
  ghost predicate Stale(s: State, p: Pid) {
    p < |s.processes| && !s.processes[p].stage.Replied? && !s.processes[p].stage.Idle?
      && s.processes[p].seen.version < s.head
  }

  lemma StaleStep(s: State, p: Pid, m: Turn)
    requires Inv(s) && Stale(s, p) && Enabled(s, m.p, m.action)
    ensures Stale(Perform(s, m.p, m.action), p)
  {
    assert OkAt(s, p) && OkAt(s, m.p);
  }

  lemma {:induction false} StaleNeverCommits(states: seq<State>, turns: seq<Turn>, i: nat, j: nat, p: Pid)
    requires Run(states, turns) && Initial(states[0]) && i <= j < |states| && Stale(states[i], p)
    ensures Stale(states[j], p)
    decreases j
  {
    if i < j {
      StaleNeverCommits(states, turns, i, j - 1, p);
      RunKeeps(states, turns, j - 1);
      assert StepAt(states[j - 1], turns[j - 1], states[j]);
      StaleStep(states[j - 1], p, turns[j - 1]);
    }
  }

  // ------------------------------------------------------------ waiting

  ghost predicate CanStep(s: State, p: Pid) {
    exists a: Action :: !a.Abort? && Enabled(s, p, a)
  }

  lemma Steps(s: State, p: Pid, a: Action)
    requires Enabled(s, p, a) && !a.Abort?
    ensures CanStep(s, p)
  {}

  /** Nobody can go on, and somebody is not done. */
  ghost predicate Stuck(s: State) {
    (exists p: Pid :: p < |s.processes| && !Over(s.processes[p].stage)) && forall p: Pid :: p < |s.processes| ==>
        !CanStep(s, p)
  }

  /** An edit or a move has the row and wants the key, a delete has the key and wants the row. */
  ghost predicate Crossed(s: State, e: Pid, r: Pid) {
    && e < |s.processes| && r < |s.processes| && s.rowLock == Some(e)
    && s.processes[e].stage.Written? && !s.processes[e].call.Remove? && s.processes[e].seen.version == s.head
    && s.processes[r].stage.Announced? && s.processes[r].call.Remove?
  }

  ghost predicate Deadlocked(s: State) {
    exists e: Pid, r: Pid :: Crossed(s, e, r)
  }

  /** Whoever the holder of the row waits for holds the key and waits for the row. */
  lemma HolderWaits(s: State, q: Pid)
    requires Inv(s) && s.rowLock == Some(q) && forall p: Pid :: p < |s.processes| ==> !CanStep(s, p)
    ensures Deadlocked(s)
  {
    var v := s.processes[q].seen.version + 1;
    assert OkAt(s, q) && !CanStep(s, q);
    assert !Enabled(s, q, Commit) && !Enabled(s, q, Announce) by {
      if Enabled(s, q, Commit) { Steps(s, q, Commit); }
      if Enabled(s, q, Announce) { Steps(s, q, Announce); }
    }
    assert ClaimOk(s, v);
    var r := s.keyClaims[v];
    assert OkAt(s, r) && !CanStep(s, r);
    assert !Enabled(s, r, Commit) by { if Enabled(s, r, Commit) { Steps(s, r, Commit); } }
    assert Crossed(s, q, r);
  }

  /** With the row free somebody can go on. */
  lemma RowFreeMoves(s: State, p: Pid)
    requires Inv(s) && s.rowLock.None? && p < |s.processes| && !Over(s.processes[p].stage)
    ensures exists q: Pid :: q < |s.processes| && CanStep(s, q)
  {
    var me := s.processes[p];
    assert OkAt(s, p);
    var v := me.seen.version + 1;
    if me.stage.Loaded? && me.call.Remove? && v in s.keyClaims {
      assert ClaimOk(s, v);
      var r := s.keyClaims[v];
      assert OkAt(s, r);
      Steps(s, r, Write(me.seen));
    } else {
      Steps(s, p, if me.stage.Idle? then Load else if ToWrite(me) then Write(me.seen)
            else if me.call.Remove? then Announce else LoadTags);
    }
  }

  /** A stuck state has such a pair in it. */
  lemma StuckIsDeadlocked(s: State)
    requires Inv(s) && Stuck(s)
    ensures Deadlocked(s)
  {
    if s.rowLock.Some? { HolderWaits(s, s.rowLock.value); }
    else {
      var p: Pid :| p < |s.processes| && !Over(s.processes[p].stage);
      RowFreeMoves(s, p);
    }
  }

  /** And neither of the pair can go on, whatever others do, until one of the two is raised. */
  lemma CrossedWait(s: State, e: Pid, r: Pid, p: Pid, a: Action)
    requires Inv(s) && Crossed(s, e, r) && Enabled(s, p, a)
    ensures a.Abort? || (p != e && p != r)
    ensures p != e && p != r ==> Crossed(Perform(s, p, a), e, r)
  {
    assert OkAt(s, e) && OkAt(s, r) && OkAt(s, p);
  }

  /** Which processes are stuck beside the pair: those done, and those that wait for the row or the key too. */
  lemma StuckExactly(s: State)
    requires Inv(s)
    ensures Stuck(s) <==>
            && Deadlocked(s)
            && forall p: Pid :: p < |s.processes| ==>
                 var me := s.processes[p];
                   Over(me.stage) || ToWrite(me) || (ToAnnounce(me) && me.seen.version + 1 in s.keyClaims)
  {
    if Stuck(s) {
      StuckIsDeadlocked(s);
      forall p: Pid | p < |s.processes|
        ensures var me := s.processes[p];
                Over(me.stage) || ToWrite(me) || (ToAnnounce(me) && me.seen.version + 1 in s.keyClaims)
      {
        NextStatement(s, p);
      }
    }
    if e: Pid, r: Pid :| Crossed(s, e, r) {
      forall p: Pid | p < |s.processes| && CanStep(s, p)
        ensures var me := s.processes[p];
                !(Over(me.stage) || ToWrite(me) || (ToAnnounce(me) && me.seen.version + 1 in s.keyClaims))
      {
        var a: Action :| !a.Abort? && Enabled(s, p, a);
        assert OkAt(s, p);
      }
    }
  }

  lemma NextStatement(s: State, p: Pid)
    requires Inv(s) && p < |s.processes| && !CanStep(s, p)
    ensures var me := s.processes[p];
            Over(me.stage) || ToWrite(me) || (ToAnnounce(me) && me.seen.version + 1 in s.keyClaims)
  {
    var me := s.processes[p];
    assert OkAt(s, p);
    if !Over(me.stage) && !ToWrite(me) && !(ToAnnounce(me) && me.seen.version + 1 in s.keyClaims) {
      Steps(s, p, if me.stage.Idle? then Load else if me.stage.Ready? then Commit else if ToAnnounce(me) then Announce
            else LoadTags);
    }
  }

  /** Edits and moves among themselves, and deletes among themselves, are never stuck. */
  lemma OneKindNeverStuck(s: State)
    requires Inv(s)
    requires (forall q: Pid :: q < |s.processes| ==> !s.processes[q].call.Remove?)
             || (forall q: Pid :: q < |s.processes| ==> s.processes[q].call.Remove?)
    ensures !Stuck(s)
  {
    if Stuck(s) { StuckIsDeadlocked(s); }
  }

  // ------------------------------------------------------------ which calls can deadlock

  ghost predicate Reaches(s: State, states: seq<State>, turns: seq<Turn>) {
    Run(states, turns) && states[0] == s
  }

  /** Some run from the state ends in a deadlock. */
  ghost predicate CanDeadlock(s: State) {
    exists states, turns :: Reaches(s, states, turns) && Deadlocked(states[|turns|])
  }

  ghost predicate Mixed(s: State) {
    exists e: Pid, r: Pid ::
        e < |s.processes| && r < |s.processes| && !s.processes[e].call.Remove? && s.processes[r].call.Remove?
  }

  lemma {:induction false} CallsStay(states: seq<State>, turns: seq<Turn>, i: nat)
    requires Run(states, turns) && i < |states|
    ensures |states[i].processes| == |states[0].processes|
    ensures forall q: Pid :: q < |states[0].processes| ==> states[i].processes[q].call == states[0].processes[q].call
  {
    if i > 0 {
      CallsStay(states, turns, i - 1);
      assert StepAt(states[i - 1], turns[i - 1], states[i]);
      StepKeepsCalls(states[i - 1], turns[i - 1].p, turns[i - 1].action);
    }
  }

  lemma StepKeepsCalls(s: State, p: Pid, a: Action)
    requires Enabled(s, p, a)
    ensures |Perform(s, p, a).processes| == |s.processes|
    ensures forall q: Pid :: q < |s.processes| ==> Perform(s, p, a).processes[q].call == s.processes[q].call
  {}

  /** Callers that all know the current version can deadlock exactly when a delete is among them
      together with an edit or a move. */
  lemma DeadlockExactly(s: State)
    requires Initial(s) && s.row.Some?
    requires forall q: Pid :: q < |s.processes| && !s.processes[q].call.Move? ==> s.processes[q].call.expected == s.head
    ensures CanDeadlock(s) <==> Mixed(s)
  {
    if CanDeadlock(s) {
      var states, turns :| Reaches(s, states, turns) && Deadlocked(states[|turns|]);
      CallsStay(states, turns, |turns|);
      var e: Pid, r: Pid :| Crossed(states[|turns|], e, r);
      assert !s.processes[e].call.Remove? && s.processes[r].call.Remove?;
    }
    if Mixed(s) {
      var e: Pid, r: Pid :| e < |s.processes| && r < |s.processes| && !s.processes[e].call.Remove?
        && s.processes[r].call.Remove?;
      var states, turns := CrossingRun(s, e, r);
    }
  }

  /** The run: the edit or move writes the row, the delete enqueues its tombstone. */
  lemma CrossingRun(s: State, e: Pid, r: Pid) returns (states: seq<State>, turns: seq<Turn>)
    requires Initial(s) && s.row.Some? && e < |s.processes| && r < |s.processes|
    requires !s.processes[e].call.Remove? && s.processes[r].call.Remove?
    requires forall q: Pid :: q < |s.processes| && !s.processes[q].call.Move? ==> s.processes[q].call.expected == s.head
    ensures Reaches(s, states, turns) && Crossed(states[|turns|], e, r)
    ensures |turns| == if s.processes[e].call.Move? then 5 else 4
  {
    var move := s.processes[e].call.Move?;
    var s1 := Perform(s, e, Load);
    var s2 := if move then Perform(s1, e, LoadTags) else s1;
    var s3 := Perform(s2, e, Write(s.row.value));
    var s4 := Perform(s3, r, Load);
    var s5 := Perform(s4, r, Announce);
    states := if move then [s, s1, s2, s3, s4, s5] else [s, s1, s3, s4, s5];
    turns := [Turn(e, Load)] + (if move then [Turn(e, LoadTags)]
                                else []) + [Turn(e, Write(s.row.value)), Turn(r, Load), Turn(r, Announce)];
    assert StepAt(s, Turn(e, Load), s1) && StepAt(s2, Turn(e, Write(s.row.value)), s3);
    assert move ==> StepAt(s1, Turn(e, LoadTags), s2);
    assert StepAt(s3, Turn(r, Load), s4) && StepAt(s4, Turn(r, Announce), s5);
  }

  /** Edits and moves take the row before the key, so among them whoever holds something can go on. */
  lemma EditsAndMovesNeverStuck(s: State, p: Pid)
    requires Inv(s) && (forall q: Pid :: q < |s.processes| ==> !s.processes[q].call.Remove?)
    requires p < |s.processes| && !Over(s.processes[p].stage)
    ensures exists q: Pid :: q < |s.processes| && CanStep(s, q)
  {
    OneKindNeverStuck(s);
  }

  /** A hard delete takes the key before the row: with one edit the two can wait for each other
      until the database raises one of them. */
  lemma DeleteAndEditCanDeadlock() returns (states: seq<State>, turns: seq<Turn>)
    ensures Run(states, turns) && Initial(states[0]) && |turns| == 4
    ensures |states[4].processes| == 2
    ensures forall p: Pid :: p < 2 ==> InTransaction(states[4].processes[p].stage) && !CanStep(states[4], p)
  {
    var row := Row(1, "text", {}, None);
    var edit, remove := Process(Edit(1), Idle, row, {}, row), Process(Remove(1), Idle, row, {}, row);
    var s0 := State(Some(row), map[1 := Some(row)], 1, map[], None, map[], [edit, remove]);
    var s1 := Perform(s0, 0, Load);
    var s2 := Perform(s1, 0, Write(row));
    var s3 := Perform(s2, 1, Load);
    var s4 := Perform(s3, 1, Announce);
    states := [s0, s1, s2, s3, s4];
    turns := [Turn(0, Load), Turn(0, Write(row)), Turn(1, Load), Turn(1, Announce)];
    assert StepAt(s0, turns[0], s1) && StepAt(s1, turns[1], s2) && StepAt(s2, turns[2], s3) && StepAt(s3, turns[3], s4);
  }

  /** So can a delete and a move. */
  lemma DeleteAndMoveCanDeadlock() returns (states: seq<State>, turns: seq<Turn>)
    ensures Run(states, turns) && Initial(states[0]) && |turns| == 5
    ensures |states[5].processes| == 2
    ensures forall p: Pid :: p < 2 ==> InTransaction(states[5].processes[p].stage) && !CanStep(states[5], p)
  {
    var row := Row(1, "text", {}, None);
    var move, remove := Process(Move(7), Idle, row, {}, row), Process(Remove(1), Idle, row, {}, row);
    var s0 := State(Some(row), map[1 := Some(row)], 1, map[], None, map[], [move, remove]);
    states, turns := CrossingRun(s0, 0, 1);
    assert OkAt(states[5], 0) && OkAt(states[5], 1) by { RunKeeps(states, turns, 5); }
    CallsStay(states, turns, 5);
  }
}
