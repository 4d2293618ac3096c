/** Any number of concurrent decompose transactions under READ COMMITTED: row locks held to the
    end of the transaction, a unique index that makes a second claimant of a slot wait for
    the first to finish, and a savepoint around the claim. */
module DecomposeProtocol {
  type Id = nat
  type Pid = nat

  /** What the request fingerprint stands for: equal fingerprints mean equal scopes. */
  datatype Scope = Scope(env: nat, source: Id, mode: string, children: multiset<string>)

  /** `key` is the caller's idempotency key or the derived one; nothing is assumed of it. */
  datatype Request = Request(scope: Scope, key: string)

  datatype Slot = Slot(env: nat, key: string)

  /** One row of the operation table. */
  datatype Operation = Operation(id: Id, scope: Scope, children: seq<Id>)

  datatype Reply = Reply(operation: Id, children: seq<Id>)

  /** Where one transaction stands. */
  datatype Phase =
    | Idle
    | Holding
    | Missed
    | Claimed(op: Operation)
    | Written(op: Operation)
    | Replied(reply: Reply, replay: bool)
    | Raised

  datatype Process = Process(request: Request, phase: Phase)

  /** Committed tables, held locks, index entries not committed yet, and the ids handed out. */
  datatype State = State(
    operations: map<Slot, Operation>,
    children: map<Id, Id>,
    locks: map<Id, Pid>,
    claims: map<Slot, Pid>,
    issued: set<Id>,
    processes: seq<Process>)

  function SlotOf(r: Request): Slot {
    Slot(r.scope.env, r.key)
  }

  function Distinct(s: seq<Id>): bool {
    forall i, j :: 0 <= i < j < |s| ==> s[i] != s[j]
  }

  // ------------------------------------------------------------ one step of one process

  datatype Action = Lock | LookUp | Claim(id: Id, children: seq<Id>) | Write | Commit | Abort

  function With(s: State, p: Pid, phase: Phase): State
    requires p < |s.processes|
  {
    s.(processes := s.processes[p := s.processes[p].(phase := phase)])
  }

  /** The end of a transaction frees its row lock and its index entry. */
  function Finished(s: State, p: Pid, phase: Phase): State
    requires p < |s.processes|
  {
    With(s, p, phase).(locks := map id | id in s.locks && s.locks[id] != p :: s.locks[id],
                       claims := map k | k in s.claims && s.claims[k] != p :: s.claims[k])
  }

  function ReplyFor(op: Operation): Reply {
    Reply(op.id, op.children)
  }

  predicate InTransaction(phase: Phase) {
    phase.Holding? || phase.Missed? || phase.Claimed? || phase.Written?
  }

  /** The action is the process's next statement and nothing it waits for is in its way. */
  predicate Enabled(s: State, p: Pid, a: Action) {
    && p < |s.processes|
    && var me := s.processes[p];
       var slot := SlotOf(me.request);
       match a
       case Lock => me.phase.Idle? && me.request.scope.source !in s.locks
       case LookUp => me.phase.Holding?
       case Claim(id, kids) =>
         && me.phase.Missed? && slot !in s.claims
         && id !in s.issued && id !in kids && Distinct(kids) && forall i :: 0 <= i < |kids| ==> kids[i] !in s.issued
       case Write => me.phase.Claimed?
       case Commit => me.phase.Written?
       case Abort => InTransaction(me.phase)
  }

  function Perform(s: State, p: Pid, a: Action): State
    requires Enabled(s, p, a)
  {
    var me := s.processes[p];
    var slot := SlotOf(me.request);
    match a
    case Lock => With(s, p, Holding).(locks := s.locks[me.request.scope.source := p])
    case LookUp =>
      if slot !in s.operations then With(s, p, Missed)
      else if s.operations[slot].scope != me.request.scope then Finished(s, p, Raised)
      else Finished(s, p, Replied(ReplyFor(s.operations[slot]), true))
    case Claim(id, kids) =>
      if slot in s.operations then Recover(s, p)
      else With(s, p, Claimed(Operation(id, me.request.scope, kids))).(
             claims := s.claims[slot := p], issued := s.issued + {id} + set i | 0 <= i < |kids| :: kids[i])
    case Write => With(s, p, Written(me.phase.op))
    case Commit =>
      Finished(s, p, Replied(ReplyFor(me.phase.op), false)).(
        operations := s.operations[slot := me.phase.op],
        children := s.children + map c | c in me.phase.op.children :: me.phase.op.id)
    case Abort => Finished(s, p, Raised)
  }

  /** After a unique violation: the winner's row decides between a replay and an error. */
  function Recover(s: State, p: Pid): State
    requires p < |s.processes| && SlotOf(s.processes[p].request) in s.operations
  {
    var winner := s.operations[SlotOf(s.processes[p].request)];
    if winner.scope != s.processes[p].request.scope then Finished(s, p, Raised)
    else Finished(s, p, Replied(ReplyFor(winner), true))
  }

  // ------------------------------------------------------------ the invariant

  predicate Claiming(phase: Phase) {
    phase.Claimed? || phase.Written?
  }

  /** A pending operation is for its own request, and none of its ids has been committed. */
  ghost predicate Pending(s: State, op: Operation, r: Request) {
    && op.scope == r.scope && op.id in s.issued && op.id !in op.children && Distinct(op.children)
    && (forall c :: c in op.children ==> c in s.issued && c !in s.children)
    && (forall k :: k in s.operations ==> s.operations[k].id != op.id)
  }

  /** What holds of one process: its row lock, its index entry, that a slot it missed can since
      have been filled only with another scope, and that its reply is the committed one. */
  ghost predicate ProcessOk(s: State, p: Pid)
    requires p < |s.processes|
  {
    var r, phase := s.processes[p].request, s.processes[p].phase;
    var slot := SlotOf(r);
    && (InTransaction(phase) ==> r.scope.source in s.locks && s.locks[r.scope.source] == p)
    && (Claiming(phase) ==> slot in s.claims && s.claims[slot] == p && slot !in s.operations && Pending(s, phase.op, r))
    && (phase.Missed? && slot in s.operations ==> s.operations[slot].scope != r.scope)
    && (phase.Replied? ==>
        slot in s.operations && s.operations[slot].scope == r.scope && phase.reply == ReplyFor(s.operations[slot]))
  }

  ghost predicate LockOk(s: State, id: Id)
    requires id in s.locks
  {
    var p := s.locks[id];
    p < |s.processes| && InTransaction(s.processes[p].phase) && s.processes[p].request.scope.source == id
  }

  ghost predicate ClaimOk(s: State, k: Slot)
    requires k in s.claims
  {
    var p := s.claims[k];
    p < |s.processes| && Claiming(s.processes[p].phase) && SlotOf(s.processes[p].request) == k
  }

  /** A committed operation sits in a slot of its own environment and owns its children. */
  ghost predicate OperationOk(s: State, k: Slot)
    requires k in s.operations
  {
    var op := s.operations[k];
    && k.env == op.scope.env && op.id in s.issued && Distinct(op.children)
    && forall c :: c in op.children ==> c in s.children && s.children[c] == op.id
  }

  ghost predicate ChildOk(s: State, c: Id)
    requires c in s.children
  {
    c in s.issued && exists k ::
        k in s.operations && s.operations[k].id == s.children[c] && c in s.operations[k].children
  }

  /** Two pending operations share no id. */
  ghost predicate ApartOk(s: State, p: Pid, q: Pid)
    requires p < |s.processes| && q < |s.processes|
  {
    Claiming(s.processes[p].phase) && Claiming(s.processes[q].phase) ==>
      Apart(s.processes[p].phase.op, s.processes[q].phase.op)
  }

  ghost predicate Apart(a: Operation, b: Operation) {
    a.id != b.id && forall c :: c in a.children ==> c !in b.children
  }

  ghost predicate IdsUnique(s: State) {
    forall k, l :: k in s.operations && l in s.operations && s.operations[k].id == s.operations[l].id ==> k == l
  }

  ghost predicate Inv(s: State) {
    && (forall p: Pid {:trigger ProcessOk(s, p)} :: p < |s.processes| ==> ProcessOk(s, p))
    && (forall p: Pid, q: Pid {:trigger ApartOk(s, p, q)} :: p < |s.processes| && q < |s.processes| && p != q ==>
        ApartOk(s, p, q))
    && (forall id {:trigger LockOk(s, id)} :: id in s.locks ==> LockOk(s, id))
    && (forall k {:trigger ClaimOk(s, k)} :: k in s.claims ==> ClaimOk(s, k))
    && (forall k {:trigger OperationOk(s, k)} :: k in s.operations ==> OperationOk(s, k))
    && (forall c {:trigger ChildOk(s, c)} :: c in s.children ==> ChildOk(s, c))
    && IdsUnique(s)
  }

  // ------------------------------------------------------------ every step keeps it

  /** The committed tables are the same and no id has been taken back. */
  ghost predicate SameTables(s: State, t: State) {
    t.operations == s.operations && t.children == s.children && s.issued <= t.issued
  }

  lemma TablesStay(s: State, t: State)
    requires Inv(s) && SameTables(s, t)
    ensures forall k :: k in t.operations ==> OperationOk(t, k)
    ensures forall c :: c in t.children ==> ChildOk(t, c)
    ensures IdsUnique(t)
  {
    forall k | k in t.operations ensures OperationOk(t, k) { assert OperationOk(s, k); }
    forall c | c in t.children ensures ChildOk(t, c) { assert ChildOk(s, c); }
  }

  /** Every other process is as it was, with what it holds. */
  ghost predicate OthersStay(s: State, t: State, p: Pid) {
    && |t.processes| == |s.processes|
    && (forall q: Pid :: q < |s.processes| && q != p ==> t.processes[q] == s.processes[q])
    && (forall id :: id in s.locks && s.locks[id] != p ==> id in t.locks && t.locks[id] == s.locks[id])
    && (forall k :: k in s.claims && s.claims[k] != p ==> k in t.claims && t.claims[k] == s.claims[k])
  }

  lemma OthersOk(s: State, t: State, p: Pid, q: Pid)
    requires Inv(s) && SameTables(s, t) && OthersStay(s, t, p) && q < |s.processes| && q != p
    ensures ProcessOk(t, q)
  {
    assert ProcessOk(s, q);
  }

  /** Ending a transaction without committing anything new. */
  lemma FinishKeeps(s: State, p: Pid, phase: Phase)
    requires Inv(s) && p < |s.processes| && (phase.Raised? || phase.Replied?)
    requires phase.Replied? ==>
               && SlotOf(s.processes[p].request) in s.operations
               && s.operations[SlotOf(s.processes[p].request)].scope == s.processes[p].request.scope
               && phase.reply == ReplyFor(s.operations[SlotOf(s.processes[p].request)])
    ensures Inv(Finished(s, p, phase))
  {
    var t := Finished(s, p, phase);
    TablesStay(s, t);
    forall q: Pid | q < |t.processes| ensures ProcessOk(t, q) { if q != p { OthersOk(s, t, p, q); } }
    forall a: Pid, b: Pid | a < |t.processes| && b < |t.processes| && a != b ensures ApartOk(t, a, b) {
      assert ApartOk(s, a, b);
    }
    forall id | id in t.locks ensures LockOk(t, id) { assert LockOk(s, id); }
    forall k | k in t.claims ensures ClaimOk(t, k) { assert ClaimOk(s, k); }
  }

  lemma LockKeeps(s: State, p: Pid)
    requires Inv(s) && Enabled(s, p, Lock)
    ensures Inv(Perform(s, p, Lock))
  {
    var t := Perform(s, p, Lock);
    TablesStay(s, t);
    forall q: Pid | q < |t.processes| ensures ProcessOk(t, q) { if q != p { OthersOk(s, t, p, q); } }
    forall a: Pid, b: Pid | a < |t.processes| && b < |t.processes| && a != b ensures ApartOk(t, a, b) {
      assert ApartOk(s, a, b);
    }
    forall id | id in t.locks ensures LockOk(t, id) { if id in s.locks { assert LockOk(s, id); } }
    forall k | k in t.claims ensures ClaimOk(t, k) { assert ClaimOk(s, k); }
  }

  lemma MissKeeps(s: State, p: Pid)
    requires Inv(s) && Enabled(s, p, LookUp) && SlotOf(s.processes[p].request) !in s.operations
    ensures Inv(With(s, p, Missed))
  {
    var t := With(s, p, Missed);
    assert ProcessOk(s, p);
    TablesStay(s, t);
    forall q: Pid | q < |t.processes| ensures ProcessOk(t, q) { if q != p { OthersOk(s, t, p, q); } }
    forall a: Pid, b: Pid | a < |t.processes| && b < |t.processes| && a != b ensures ApartOk(t, a, b) {
      assert ApartOk(s, a, b);
    }
    forall id | id in t.locks ensures LockOk(t, id) { assert LockOk(s, id); }
    forall k | k in t.claims ensures ClaimOk(t, k) { assert ClaimOk(s, k); }
  }

  lemma WriteKeeps(s: State, p: Pid)
    requires Inv(s) && Enabled(s, p, Write)
    ensures Inv(Perform(s, p, Write))
  {
    var t := Perform(s, p, Write);
    assert ProcessOk(s, p);
    TablesStay(s, t);
    forall q: Pid | q < |t.processes| ensures ProcessOk(t, q) { if q != p { OthersOk(s, t, p, q); } }
    forall a: Pid, b: Pid | a < |t.processes| && b < |t.processes| && a != b ensures ApartOk(t, a, b) {
      assert ApartOk(s, a, b);
    }
    forall id | id in t.locks ensures LockOk(t, id) { assert LockOk(s, id); }
    forall k | k in t.claims ensures ClaimOk(t, k) { assert ClaimOk(s, k); }
  }

  /** Ids just handed out are in no table and in no pending operation. */
  lemma NewIdsApart(s: State, p: Pid, q: Pid, id: Id, kids: seq<Id>)
    requires Inv(s) && Enabled(s, p, Claim(id, kids)) && q < |s.processes| && Claiming(s.processes[q].phase)
    ensures var op := Operation(id, s.processes[p].request.scope, kids);
            Apart(s.processes[q].phase.op, op) && Apart(op, s.processes[q].phase.op)
  {
    assert ProcessOk(s, q);
    forall c | c in kids ensures c !in s.issued {}
  }

  lemma NewOperationPending(s: State, p: Pid, id: Id, kids: seq<Id>)
    requires Inv(s) && Enabled(s, p, Claim(id, kids)) && SlotOf(s.processes[p].request) !in s.operations
    ensures var t := Perform(s, p, Claim(id, kids));
            Pending(t, Operation(id, s.processes[p].request.scope, kids), s.processes[p].request)
  {
    var t := Perform(s, p, Claim(id, kids));
    forall c | c in s.children ensures c in s.issued { assert ChildOk(s, c); }
    forall c | c in kids ensures c in t.issued && c !in s.children { assert c !in s.issued; }
    forall k | k in s.operations ensures s.operations[k].id != id { assert OperationOk(s, k); }
  }

  lemma FirstClaimKeeps(s: State, p: Pid, id: Id, kids: seq<Id>)
    requires Inv(s) && Enabled(s, p, Claim(id, kids)) && SlotOf(s.processes[p].request) !in s.operations
    ensures Inv(Perform(s, p, Claim(id, kids)))
  {
    var t := Perform(s, p, Claim(id, kids));
    assert ProcessOk(s, p);
    NewOperationPending(s, p, id, kids);
    TablesStay(s, t);
    forall q: Pid | q < |t.processes| ensures ProcessOk(t, q) { if q != p { OthersOk(s, t, p, q); } }
    forall a: Pid, b: Pid | a < |t.processes| && b < |t.processes| && a != b ensures ApartOk(t, a, b) {
      assert ApartOk(s, a, b);
      if a == p && Claiming(s.processes[b].phase) { NewIdsApart(s, p, b, id, kids); }
      if b == p && Claiming(s.processes[a].phase) { NewIdsApart(s, p, a, id, kids); }
    }
    forall x | x in t.locks ensures LockOk(t, x) { assert LockOk(s, x); }
    forall k | k in t.claims ensures ClaimOk(t, k) { if k in s.claims { assert ClaimOk(s, k); } }
  }

  /** Only one transaction at a time can be past its lookup for one scope. */
  lemma SameScopeExcluded(s: State, p: Pid, q: Pid)
    requires Inv(s) && p < |s.processes| && q < |s.processes|
    requires InTransaction(s.processes[p].phase) && InTransaction(s.processes[q].phase)
    requires s.processes[p].request.scope == s.processes[q].request.scope
    ensures p == q
  {
    assert ProcessOk(s, p) && ProcessOk(s, q);
  }

  lemma CommitKeepsTables(s: State, p: Pid)
    requires Inv(s) && Enabled(s, p, Commit)
    ensures var t := Perform(s, p, Commit);
            && (forall k :: k in t.operations ==> OperationOk(t, k))
            && (forall c :: c in t.children ==> ChildOk(t, c))
            && IdsUnique(t)
  {
    var t := Perform(s, p, Commit);
    var op, slot := s.processes[p].phase.op, SlotOf(s.processes[p].request);
    assert ProcessOk(s, p);
    assert t.operations[slot] == op;
    forall k | k in t.operations ensures OperationOk(t, k) { if k != slot { assert OperationOk(s, k); } }
    forall c | c in t.children ensures ChildOk(t, c) {
      if c in op.children { assert t.children[c] == op.id; }
      else {
        assert ChildOk(s, c);
        var k :| k in s.operations && s.operations[k].id == s.children[c] && c in s.operations[k].children;
        assert k in t.operations && t.operations[k] == s.operations[k];
      }
    }
  }

  lemma CommitKeepsProcess(s: State, p: Pid, q: Pid)
    requires Inv(s) && Enabled(s, p, Commit) && q < |s.processes|
    ensures ProcessOk(Perform(s, p, Commit), q)
  {
    var t := Perform(s, p, Commit);
    var op, slot := s.processes[p].phase.op, SlotOf(s.processes[p].request);
    assert ProcessOk(s, p) && ProcessOk(s, q);
    if q != p {
      if Claiming(s.processes[q].phase) {
        assert ApartOk(s, p, q);
        assert Pending(t, s.processes[q].phase.op, s.processes[q].request);
      }
      if s.processes[q].phase.Missed? && SlotOf(s.processes[q].request) == slot {
        if s.processes[p].request.scope == s.processes[q].request.scope { SameScopeExcluded(s, p, q); }
      }
    }
  }

  lemma CommitKeeps(s: State, p: Pid)
    requires Inv(s) && Enabled(s, p, Commit)
    ensures Inv(Perform(s, p, Commit))
  {
    var t := Perform(s, p, Commit);
    CommitKeepsTables(s, p);
    forall q: Pid | q < |t.processes| ensures ProcessOk(t, q) { CommitKeepsProcess(s, p, q); }
    forall a: Pid, b: Pid | a < |t.processes| && b < |t.processes| && a != b ensures ApartOk(t, a, b) {
      assert ApartOk(s, a, b);
    }
    forall id | id in t.locks ensures LockOk(t, id) { assert LockOk(s, id); }
    forall k | k in t.claims ensures ClaimOk(t, k) { assert ClaimOk(s, k); }
  }

  lemma StepKeeps(s: State, p: Pid, a: Action)
    requires Inv(s) && Enabled(s, p, a)
    ensures Inv(Perform(s, p, a))
  {
    var r := s.processes[p].request;
    match a {
      case Lock => LockKeeps(s, p);
      case LookUp =>
        if SlotOf(r) !in s.operations { MissKeeps(s, p); }
        else if s.operations[SlotOf(r)].scope != r.scope { FinishKeeps(s, p, Raised); }
        else { FinishKeeps(s, p, Replied(ReplyFor(s.operations[SlotOf(r)]), true)); }
      case Claim(id, kids) =>
        if SlotOf(r) !in s.operations { FirstClaimKeeps(s, p, id, kids); }
        else if s.operations[SlotOf(r)].scope != r.scope { FinishKeeps(s, p, Raised); }
        else { FinishKeeps(s, p, Replied(ReplyFor(s.operations[SlotOf(r)]), true)); }
      case Write => WriteKeeps(s, p);
      case Commit => CommitKeeps(s, p);
      case Abort => FinishKeeps(s, p, Raised);
    }
  }

  // ------------------------------------------------------------ every interleaving

  datatype Move = Move(p: Pid, a: Action)

  function Start(requests: seq<Request>): State {
    State(map[], map[], map[], map[], {}, seq(|requests|, i requires 0 <= i < |requests| => Process(requests[i], Idle)))
  }

  /** The states along one interleaving of the processes' steps. */
  ghost predicate IsRun(states: seq<State>, moves: seq<Move>) {
    && |states| == |moves| + 1
    && (exists requests :: states[0] == Start(requests))
    && forall i :: 0 <= i < |moves| ==>
         Enabled(states[i], moves[i].p, moves[i].a) && states[i + 1] == Perform(states[i], moves[i].p, moves[i].a)
  }

  ghost predicate Reachable(s: State) {
    exists states, moves :: IsRun(states, moves) && states[|moves|] == s
  }

  lemma {:induction false} RunKeeps(states: seq<State>, moves: seq<Move>, n: nat)
    requires IsRun(states, moves) && n <= |moves|
    ensures Inv(states[n])
  {
    if n > 0 {
      RunKeeps(states, moves, n - 1);
      StepKeeps(states[n - 1], moves[n - 1].p, moves[n - 1].a);
    }
  }

  lemma ReachableInv(s: State)
    requires Reachable(s)
    ensures Inv(s)
  {
    var states, moves :| IsRun(states, moves) && states[|moves|] == s;
    RunKeeps(states, moves, |moves|);
  }

  /** Whatever the interleaving, all successful replies for one slot name the same operation and
      the same children in the same order, and they are the committed ones. */
  lemma RepliesAgree(s: State, p: Pid, q: Pid)
    requires Reachable(s) && p < |s.processes| && q < |s.processes|
    requires s.processes[p].phase.Replied? && s.processes[q].phase.Replied?
    requires SlotOf(s.processes[p].request) == SlotOf(s.processes[q].request)
    ensures s.processes[p].phase.reply == s.processes[q].phase.reply
    ensures s.processes[p].request.scope == s.processes[q].request.scope
    ensures forall c :: c in s.processes[p].phase.reply.children ==>
              c in s.children && s.children[c] == s.processes[p].phase.reply.operation
  {
    ReachableInv(s);
    assert ProcessOk(s, p) && ProcessOk(s, q);
    assert OperationOk(s, SlotOf(s.processes[p].request));
  }

  /** A loser leaves no orphan: every committed child belongs to exactly one committed operation. */
  lemma NoOrphans(s: State, c: Id)
    requires Reachable(s) && c in s.children
    ensures exists k :: k in s.operations && c in s.operations[k].children
    ensures forall k, l ::
              (k in s.operations && l in s.operations && c in s.operations[k].children
               && c in s.operations[l].children) ==>
                k == l
  {
    ReachableInv(s);
    assert ChildOk(s, c);
    forall k, l | k in s.operations && l in s.operations && c in s.operations[k].children
      && c in s.operations[l].children
      ensures k == l
    {
      assert OperationOk(s, k) && OperationOk(s, l);
    }
  }

  /** The race-recovery branch is entered only against another scope, and so only to raise:
      with an equal fingerprint the winner would have held the same source lock. */
  lemma RecoveryOnlyRaises(s: State, p: Pid, id: Id, kids: seq<Id>)
    requires Reachable(s) && Enabled(s, p, Claim(id, kids)) && SlotOf(s.processes[p].request) in s.operations
    ensures s.operations[SlotOf(s.processes[p].request)].scope != s.processes[p].request.scope
    ensures Perform(s, p, Claim(id, kids)) == Finished(s, p, Raised)
  {
    ReachableInv(s);
    assert ProcessOk(s, p);
  }

  /** Recovery does happen: two callers of one environment use one key for different sources,
      both miss, and the first one commits. */
  lemma RecoveryReachable(a: Scope, b: Scope, key: string) returns (s: State)
    requires a.source != b.source && a.env == b.env
    ensures Reachable(s) && |s.processes| == 2 && s.processes[1].phase.Missed?
            && SlotOf(s.processes[1].request) in s.operations
  {
    var r := [Request(a, key), Request(b, key)];
    var s0 := Start(r);
    Extend(s0, 0, Lock, r);
    var s1 := Perform(s0, 0, Lock);
    ReachableStep(s1, 1, Lock);
    var s2 := Perform(s1, 1, Lock);
    ReachableStep(s2, 0, LookUp);
    var s3 := Perform(s2, 0, LookUp);
    ReachableStep(s3, 1, LookUp);
    var s4 := Perform(s3, 1, LookUp);
    assert s4.processes == [Process(r[0], Missed), Process(r[1], Missed)];
    assert s4.operations == map[] && s4.claims == map[] && s4.issued == {};
    s := FirstWins(s4, a, b, key);
  }

  lemma FirstWins(s4: State, a: Scope, b: Scope, key: string) returns (s: State)
    requires Reachable(s4) && a.env == b.env
    requires s4.processes == [Process(Request(a, key), Missed), Process(Request(b, key), Missed)]
    requires s4.operations == map[] && s4.claims == map[] && s4.issued == {}
    ensures Reachable(s) && |s.processes| == 2 && s.processes[1].phase.Missed?
            && SlotOf(s.processes[1].request) in s.operations
  {
    ReachableStep(s4, 0, Claim(0, [1, 2]));
    s := ClaimantCommits(Perform(s4, 0, Claim(0, [1, 2])));
  }

  lemma ClaimantCommits(s5: State) returns (s: State)
    requires Reachable(s5) && |s5.processes| == 2 && s5.processes[0].phase.Claimed? && s5.processes[1].phase.Missed?
    requires SlotOf(s5.processes[0].request) == SlotOf(s5.processes[1].request)
    ensures Reachable(s) && |s.processes| == 2 && s.processes[1].phase.Missed?
            && SlotOf(s.processes[1].request) in s.operations
  {
    ReachableStep(s5, 0, Write);
    var s6 := Perform(s5, 0, Write);
    ReachableStep(s6, 0, Commit);
    s := Perform(s6, 0, Commit);
  }

  lemma Extend(s: State, p: Pid, a: Action, requests: seq<Request>)
    requires s == Start(requests) && Enabled(s, p, a)
    ensures Reachable(Perform(s, p, a))
  {
    var none: seq<Move> := [];
    assert IsRun([s], none) && [s][|none|] == s;
    ReachableStep(s, p, a);
  }

  lemma ReachableStep(s: State, p: Pid, a: Action)
    requires Reachable(s) && Enabled(s, p, a)
    ensures Reachable(Perform(s, p, a))
  {
    var states, moves :| IsRun(states, moves) && states[|moves|] == s;
    LongerRun(states, moves, p, a);
    var states', moves' := states + [Perform(s, p, a)], moves + [Move(p, a)];
    assert states'[|moves'|] == Perform(s, p, a);
  }

  lemma LongerRun(states: seq<State>, moves: seq<Move>, p: Pid, a: Action)
    requires IsRun(states, moves) && Enabled(states[|moves|], p, a)
    ensures IsRun(states + [Perform(states[|moves|], p, a)], moves + [Move(p, a)])
  {
    var states', moves' := states + [Perform(states[|moves|], p, a)], moves + [Move(p, a)];
    forall i | 0 <= i < |moves'|
      ensures Enabled(states'[i], moves'[i].p, moves'[i].a)
              && states'[i + 1] == Perform(states'[i], moves'[i].p, moves'[i].a)
    {
      if i < |moves| { assert states'[i] == states[i] && moves'[i] == moves[i] && states'[i + 1] == states[i + 1]; }
    }
    assert states'[0] == states[0];
  }

  ghost function Members(s: seq<Id>): set<Id> {
    set c | c in s
  }

  /** Only a commit changes the committed tables, and it adds one operation and its children:
      a replay, a failed claim and an abort change nothing. */
  lemma OnlyCommitWrites(s: State, p: Pid, a: Action)
    requires Reachable(s) && Enabled(s, p, a)
    ensures !a.Commit? ==> Perform(s, p, a).operations == s.operations && Perform(s, p, a).children == s.children
    ensures a.Commit? ==>
              var t, op, slot := Perform(s, p, a), s.processes[p].phase.op, SlotOf(s.processes[p].request);
              && slot !in s.operations && t.operations == s.operations[slot := op]
              && t.children.Keys == s.children.Keys + Members(op.children) && s.children.Keys !! Members(op.children)
  {
    ReachableInv(s);
    assert ProcessOk(s, p);
  }
}
