/** Any number of concurrent compose transactions: sources locked one row at a time in id order
    and held to the end, a lookup before validation, two unique indexes that make a second
    claimant wait for the first to finish, of a dedupe key and then, one by one in sorted order,
    of each tag that is not there yet; and for each source a merge retires, the rows whose
    counters the status trigger updates, in whatever order it finds them. */
module ComposeProtocol {
  type Id = nat
  type Pid = nat

  datatype Mode = Merge | Promote

  /** `order` is the order in which the rows are locked, `tags` that in which the tags are
      inserted, each standing for its place among all names. */
  datatype Request = Request(order: seq<Id>, mode: Mode, key: string, tags: seq<nat>)

  datatype Slot = Slot(env: nat, key: string)

  datatype TagKey = TagKey(env: nat, name: nat)

  /** A composed memory: what its row and its lineage rows say. */
  datatype Composition = Composition(id: Id, mode: Mode, sources: seq<Id>)

  datatype Stage = Locking | Missed | Claimed | Replied | Raised

  /** `next` locks have been asked for, `missing` says a row was not there, `env` is that of the
      first source once known, `made` what is being or has been answered, and `tagged` tags have
      been inserted or found; `flipped` sources have been retired, the trigger of the last one has
      still to update the rows `rest`, and the triggers have updated the rows `touched`. */
  datatype Process = Process(
    request: Request, stage: Stage, next: nat, missing: bool, env: nat, made: Composition, tagged: nat,
    flipped: nat, rest: seq<Id>, touched: set<Id>)

  /** Committed tables, held row locks, index entries not committed yet, and the ids handed out.
      `targets` says whose counters the retirement of a memory changes: the memories its counted
      relations and lineage rows lead to if it is active, none if it is stale. */
  datatype State = State(
    homes: map<Id, nat>,
    targets: map<Id, set<Id>>,
    superseded: map<Id, Id>,
    composed: map<Slot, Composition>,
    tags: set<TagKey>,
    locks: map<Id, Pid>,
    claims: map<Slot, Pid>,
    tagClaims: map<TagKey, Pid>,
    issued: set<Id>,
    processes: seq<Process>)

  // ------------------------------------------------------------ one step of one process

  /** `order` is the order in which the trigger comes upon the rows to update. */
  datatype Action = Lock | LookUp | Claim(id: Id) | InsertTag | Flip(order: seq<Id>) | Touch | Commit | Abort

  function With(s: State, p: Pid, me: Process): State
    requires p < |s.processes|
  {
    s.(processes := s.processes[p := me])
  }

  function Without<K>(m: map<K, Pid>, p: Pid): map<K, Pid> {
    map k | k in m && m[k] != p :: m[k]
  }

  /** The end of a transaction frees its row locks and its index entries. */
  function Finished(s: State, p: Pid, me: Process): State
    requires p < |s.processes|
  {
    With(s, p, me).(locks := Without(s.locks, p), claims := Without(s.claims, p), tagClaims := Without(s.tagClaims, p))
  }

  predicate InTransaction(stage: Stage) {
    stage.Locking? || stage.Missed? || stage.Claimed?
  }

  function SlotOf(me: Process): Slot {
    Slot(me.env, me.request.key)
  }

  /** The tag to be inserted next. */
  function NextTag(me: Process): TagKey
    requires me.tagged < |me.request.tags|
  {
    TagKey(me.env, me.request.tags[me.tagged])
  }

  function TargetsOf(s: State, id: Id): set<Id> {
    if id in s.targets then s.targets[id] else {}
  }

  ghost predicate Lists(order: seq<Id>, ids: set<Id>) {
    && (forall i, j :: 0 <= i < j < |order| ==> order[i] != order[j])
    && (forall id :: id in order <==> id in ids)
  }

  predicate Tagged(me: Process) {
    me.stage.Claimed? && me.tagged >= |me.request.tags|
  }

  /** All that a transaction does before its commit is done. */
  predicate Finishing(me: Process) {
    Tagged(me) && me.rest == [] && (me.request.mode.Merge? ==> me.flipped >= |me.request.order|)
  }

  /** The action is the process's next statement and nothing it waits for is in its way. */
  ghost predicate Enabled(s: State, p: Pid, a: Action) {
    && p < |s.processes|
    && var me := s.processes[p];
       match a
       case Lock => me.stage.Locking? && me.next < |me.request.order| && me.request.order[me.next] !in s.locks
       case LookUp => me.stage.Locking? && me.next == |me.request.order|
       case Claim(id) => me.stage.Missed? && SlotOf(me) !in s.claims && id !in s.issued
       case InsertTag =>
         me.stage.Claimed? && me.tagged < |me.request.tags|
           && (NextTag(me) in s.tagClaims ==> s.tagClaims[NextTag(me)] == p)
       case Flip(order) =>
         && Tagged(me) && me.request.mode.Merge? && me.rest == [] && me.flipped < |me.request.order|
         && Lists(order, TargetsOf(s, me.request.order[me.flipped]))
       case Touch => Tagged(me) && me.rest != [] && (me.rest[0] in s.locks ==> s.locks[me.rest[0]] == p)
       case Commit => Finishing(me)
       case Abort => InTransaction(me.stage)
  }

  ghost function Perform(s: State, p: Pid, a: Action): State
    requires Enabled(s, p, a)
  {
    var me := s.processes[p];
    match a
    case Lock => Taking(s, p)
    case LookUp => Look(s, p)
    case Claim(id) => if SlotOf(me) in s.composed then Replay(s, p, me) else Claiming(s, p, id)
    case InsertTag => Tagging(s, p)
    case Flip(order) => Flipping(s, p, order)
    case Touch => Touching(s, p)
    case Commit => Publish(s, p)
    case Abort => Finished(s, p, me.(stage := Raised))
  }

  /** A row that is there is locked; one that is not is noticed when all have been asked for. */
  function Taking(s: State, p: Pid): State
    requires p < |s.processes| && s.processes[p].next < |s.processes[p].request.order|
  {
    var me := s.processes[p];
    var id := me.request.order[me.next];
    if id !in s.homes then With(s, p, me.(next := me.next + 1, missing := true))
    else With(s, p, me.(next := me.next + 1)).(locks := s.locks[id := p])
  }

  /** A missing source is an error; a known key is a replay; otherwise the sources are validated. */
  function Look(s: State, p: Pid): State
    requires p < |s.processes|
  {
    var me := s.processes[p];
    if me.missing || me.request.order == [] || me.request.order[0] !in s.homes then Finished(s, p, me.(stage := Raised))
    else
      var found := me.(env := s.homes[me.request.order[0]]);
      if SlotOf(found) in s.composed then Replay(s, p, found)
      else if Composable(s, found) then With(s, p, found.(stage := Missed))
      else Finished(s, p, me.(stage := Raised))
  }

  /** All sources in one environment and none superseded. */
  predicate Composable(s: State, me: Process) {
    forall i :: 0 <= i < |me.request.order| ==> SourceOk(s, me, me.request.order[i])
  }

  predicate SourceOk(s: State, me: Process, id: Id) {
    id in s.homes && s.homes[id] == me.env && id !in s.superseded
  }

  /** The answer is read off the composed memory; another mode is an error. */
  function Replay(s: State, p: Pid, me: Process): State
    requires p < |s.processes| && SlotOf(me) in s.composed
  {
    if s.composed[SlotOf(me)].mode != me.request.mode then Finished(s, p, me.(stage := Raised))
    else Finished(s, p, me.(stage := Replied, made := s.composed[SlotOf(me)]))
  }

  function Claiming(s: State, p: Pid, id: Id): State
    requires p < |s.processes|
  {
    var me := s.processes[p];
    With(s, p, me.(stage := Claimed, made := Composition(id, me.request.mode, me.request.order),
                  tagged := 0, flipped := 0, rest := [], touched := {})).(
      claims := s.claims[SlotOf(me) := p], issued := s.issued + {id})
  }

  /** A tag already there is found, another is inserted and its index entry held. */
  function Tagging(s: State, p: Pid): State
    requires p < |s.processes| && s.processes[p].tagged < |s.processes[p].request.tags|
  {
    var me := s.processes[p];
    var t := With(s, p, me.(tagged := me.tagged + 1));
    if NextTag(me) in s.tags then t else t.(tagClaims := s.tagClaims[NextTag(me) := p])
  }

  /** One more source retired, which its trigger answers by updating its targets. */
  function Flipping(s: State, p: Pid, order: seq<Id>): State
    requires p < |s.processes|
  {
    var me := s.processes[p];
    With(s, p, me.(flipped := me.flipped + 1, rest := order))
  }

  /** One row updated by the trigger, and locked by that. */
  function Touching(s: State, p: Pid): State
    requires p < |s.processes| && s.processes[p].rest != []
  {
    var me := s.processes[p];
    With(s, p, me.(rest := me.rest[1..], touched := me.touched + {me.rest[0]})).(locks := s.locks[me.rest[0] := p])
  }

  function ClaimedTags(s: State, p: Pid): set<TagKey> {
    set k | k in s.tagClaims && s.tagClaims[k] == p
  }

  /** The row, its tags, its lineage and its superseded sources become visible together; the lineage
      of a promotion is counted, that of a merge is not. */
  function Publish(s: State, p: Pid): State
    requires p < |s.processes|
  {
    var me := s.processes[p];
    Finished(s, p, me.(stage := Replied)).(
      homes := s.homes[me.made.id := me.env],
      targets := s.targets[me.made.id := if me.made.mode.Merge? then {} else set x | x in me.made.sources],
      composed := s.composed[SlotOf(me) := me.made],
      tags := s.tags + ClaimedTags(s, p),
      superseded := if me.made.mode.Merge? then s.superseded + map x | x in me.made.sources :: me.made.id
        else s.superseded)
  }

  // ------------------------------------------------------------ the invariant

  /** What a process has locked so far, all rows having been there. */
  ghost predicate HoldsAt(s: State, p: Pid, me: Process, i: nat)
    requires i < |me.request.order|
  {
    me.request.order[i] in s.homes && me.request.order[i] in s.locks && s.locks[me.request.order[i]] == p
  }

  ghost predicate Holds(s: State, p: Pid, me: Process) {
    && me.next <= |me.request.order|
    && (!me.missing ==> forall i {:trigger HoldsAt(s, p, me, i)} :: 0 <= i < me.next ==> HoldsAt(s, p, me, i))
    && (!me.stage.Locking? ==> me.next == |me.request.order| && !me.missing)
  }

  /** A claim: its own composition under an id nobody has, in a free slot. */
  ghost predicate ClaimPending(s: State, p: Pid, me: Process) {
    && SlotOf(me) in s.claims && s.claims[SlotOf(me)] == p && SlotOf(me) !in s.composed
    && me.made.mode == me.request.mode && me.made.sources == me.request.order
    && me.made.id in s.issued && me.made.id !in s.homes
  }

  /** What the triggers have updated and have still to update: the targets of the sources retired. */
  ghost predicate TouchedBy(s: State, me: Process, id: Id) {
    exists j :: 0 <= j < me.flipped && j < |me.request.order| && id in TargetsOf(s, me.request.order[j])
  }

  ghost predicate TouchedOk(s: State, p: Pid, me: Process, id: Id) {
    id in s.locks && s.locks[id] == p && TouchedBy(s, me, id)
  }

  ghost predicate FlipDone(s: State, me: Process, j: nat)
    requires j < |me.request.order|
  {
    forall id :: id in TargetsOf(s, me.request.order[j]) ==> id in me.touched || (j == me.flipped - 1 && id in me.rest)
  }

  ghost predicate FlipsOk(s: State, p: Pid, me: Process) {
    && me.flipped <= |me.request.order| && (me.rest != [] ==> me.flipped >= 1)
    && (me.flipped > 0 ==> me.request.mode.Merge?)
    && (forall id :: id in me.rest ==> id in TargetsOf(s, me.request.order[me.flipped - 1]))
    && (forall id {:trigger TouchedOk(s, p, me, id)} :: id in me.touched ==> TouchedOk(s, p, me, id))
    && (forall j: nat {:trigger FlipDone(s, me, j)} :: j < me.flipped ==> FlipDone(s, me, j))
  }

  ghost predicate ProcessOk(s: State, p: Pid, me: Process) {
    && (InTransaction(me.stage) ==> Holds(s, p, me))
    && (me.stage.Missed? || me.stage.Claimed? ==> Composable(s, me))
    && (me.stage.Claimed? ==> ClaimPending(s, p, me) && FlipsOk(s, p, me))
    && (me.stage.Replied? ==>
        SlotOf(me) in s.composed && s.composed[SlotOf(me)] == me.made && me.made.mode == me.request.mode)
  }

  ghost predicate OkAt(s: State, p: Pid)
    requires p < |s.processes|
  {
    ProcessOk(s, p, s.processes[p])
  }

  ghost predicate LockOk(s: State, id: Id)
    requires id in s.locks
  {
    var p := s.locks[id];
    && id in s.homes && p < |s.processes| && InTransaction(s.processes[p].stage)
    && s.processes[p].next <= |s.processes[p].request.order|
    && (id in s.processes[p].request.order[..s.processes[p].next]
        || (s.processes[p].stage.Claimed? && id in s.processes[p].touched))
  }

  ghost predicate ClaimOk(s: State, k: Slot)
    requires k in s.claims
  {
    var p := s.claims[k];
    p < |s.processes| && s.processes[p].stage.Claimed? && SlotOf(s.processes[p]) == k
  }

  /** A tag inserted but not committed: one of those its transaction has been through, and no
      committed tag is in its way. */
  ghost predicate TagClaimOk(s: State, k: TagKey)
    requires k in s.tagClaims
  {
    var p := s.tagClaims[k];
    && p < |s.processes| && s.processes[p].stage.Claimed? && s.processes[p].env == k.env && k !in s.tags
    && s.processes[p].tagged <= |s.processes[p].request.tags|
    && k.name in s.processes[p].request.tags[..s.processes[p].tagged]
  }

  /** A composed memory is in its slot's environment, and a merge is the successor of its sources. */
  ghost predicate ComposedOk(s: State, k: Slot)
    requires k in s.composed
  {
    var c := s.composed[k];
    && c.id in s.homes && s.homes[c.id] == k.env
    && (c.mode.Merge? ==> forall x :: x in c.sources ==> x in s.superseded && s.superseded[x] == c.id)
  }

  /** Every successor is a merge of one slot that names the memory as a source. */
  ghost predicate SupersededOk(s: State, x: Id)
    requires x in s.superseded
  {
    exists k :: k in s.composed && s.composed[k].id == s.superseded[x] && s.composed[k].mode.Merge?
      && x in s.composed[k].sources
  }

  ghost predicate IdsUnique(s: State) {
    forall k, l :: k in s.composed && l in s.composed && s.composed[k].id == s.composed[l].id ==> k == l
  }

  ghost predicate PendingApart(s: State, p: Pid, q: Pid)
    requires p < |s.processes| && q < |s.processes|
  {
    s.processes[p].stage.Claimed? && s.processes[q].stage.Claimed? ==> s.processes[p].made.id != s.processes[q].made.id
  }

  /** The foreign keys of relations and lineage. */
  ghost predicate TargetsExist(s: State) {
    s.targets.Keys <= s.homes.Keys && forall x :: x in s.targets ==> s.targets[x] <= s.homes.Keys
  }

  ghost predicate TablesOk(s: State) {
    && (forall k {:trigger ComposedOk(s, k)} :: k in s.composed ==> ComposedOk(s, k))
    && (forall x {:trigger SupersededOk(s, x)} :: x in s.superseded ==> SupersededOk(s, x))
    && IdsUnique(s) && s.homes.Keys <= s.issued && TargetsExist(s)
  }

  ghost predicate LocksOk(s: State) {
    && (forall id {:trigger LockOk(s, id)} :: id in s.locks ==> LockOk(s, id))
    && (forall k {:trigger ClaimOk(s, k)} :: k in s.claims ==> ClaimOk(s, k))
    && (forall k {:trigger TagClaimOk(s, k)} :: k in s.tagClaims ==> TagClaimOk(s, k))
  }

  ghost predicate Inv(s: State) {
    && TablesOk(s) && LocksOk(s)
    && (forall p: Pid {:trigger OkAt(s, p)} :: p < |s.processes| ==> OkAt(s, p))
    && (forall p: Pid, q: Pid {:trigger PendingApart(s, p, q)} :: p < |s.processes| && q < |s.processes| && p != q ==>
        PendingApart(s, p, q))
  }

  // ------------------------------------------------------------ steps that write no table

  ghost predicate SameTables(s: State, t: State) {
    t.homes == s.homes && t.targets == s.targets && t.superseded == s.superseded && t.composed == s.composed
      && t.tags == s.tags && s.issued <= t.issued
  }

  lemma TablesStay(s: State, t: State)
    requires TablesOk(s) && SameTables(s, t)
    ensures TablesOk(t)
  {
    forall k | k in t.composed ensures ComposedOk(t, k) { assert ComposedOk(s, k); }
    forall x | x in t.superseded ensures SupersededOk(t, x) { assert SupersededOk(s, x); }
  }

  /** Every other process is as it was, with what it holds. */
  ghost predicate OthersStay(s: State, t: State, p: Pid) {
    && |t.processes| == |s.processes|
    && (forall q: Pid :: q < |s.processes| && q != p ==> t.processes[q] == s.processes[q])
    && (forall id :: id in s.locks && s.locks[id] != p ==> id in t.locks && t.locks[id] == s.locks[id])
    && (forall k :: k in s.claims && s.claims[k] != p ==> k in t.claims && t.claims[k] == s.claims[k])
    && (forall k :: k in s.tagClaims && s.tagClaims[k] != p ==> k in t.tagClaims && t.tagClaims[k] == s.tagClaims[k])
  }

  lemma HoldsStays(s: State, t: State, q: Pid, you: Process)
    requires Holds(s, q, you) && forall id :: id in s.homes ==> id in t.homes
    requires forall id :: id in s.locks && s.locks[id] == q ==> id in t.locks && t.locks[id] == q
    ensures Holds(t, q, you)
  {
    if !you.missing {
      forall i | 0 <= i < you.next ensures HoldsAt(t, q, you, i) { assert HoldsAt(s, q, you, i); }
    }
  }

  /** What the triggers have done stays done while the rows are held and the targets stay the same. */
  lemma FlipsStay(s: State, t: State, q: Pid, you: Process, now: Process)
    requires FlipsOk(s, q, you) && now.request == you.request
    requires now.flipped == you.flipped && now.rest == you.rest && now.touched == you.touched
    requires forall j :: 0 <= j < |you.request.order| ==>
               TargetsOf(t, you.request.order[j]) == TargetsOf(s, you.request.order[j])
    requires forall id :: id in s.locks && s.locks[id] == q ==> id in t.locks && t.locks[id] == q
    ensures FlipsOk(t, q, now)
  {
    forall id | id in now.touched ensures TouchedOk(t, q, now, id) {
      assert TouchedOk(s, q, you, id);
      var j :| 0 <= j < you.flipped && j < |you.request.order| && id in TargetsOf(s, you.request.order[j]);
      assert id in TargetsOf(t, now.request.order[j]);
    }
    forall j: nat | j < now.flipped ensures FlipDone(t, now, j) { assert FlipDone(s, you, j); }
  }

  lemma OtherOk(s: State, t: State, p: Pid, q: Pid)
    requires Inv(s) && SameTables(s, t) && OthersStay(s, t, p) && q < |s.processes| && q != p
    ensures OkAt(t, q)
  {
    var you := s.processes[q];
    assert OkAt(s, q);
    if InTransaction(you.stage) { HoldsStays(s, t, q, you); }
    if you.stage.Claimed? { FlipsStay(s, t, q, you, you); }
    forall i | 0 <= i < |you.request.order|
      ensures SourceOk(t, you, you.request.order[i]) == SourceOk(s, you, you.request.order[i])
    {}
  }

  lemma QuietStep(s: State, t: State, p: Pid)
    requires Inv(s) && SameTables(s, t) && OthersStay(s, t, p) && p < |s.processes|
    requires OkAt(t, p) && LocksOk(t)
    requires t.processes[p].stage.Claimed? ==> t.processes[p].made.id !in s.issued
    ensures Inv(t)
  {
    TablesStay(s, t);
    forall q: Pid | q < |t.processes| ensures OkAt(t, q) { if q != p { OtherOk(s, t, p, q); } }
    forall a: Pid, b: Pid | a < |t.processes| && b < |t.processes| && a != b ensures PendingApart(t, a, b) {
      assert PendingApart(s, a, b) && OkAt(s, a) && OkAt(s, b);
    }
  }

  lemma FinishLocks(s: State, p: Pid, t: State)
    requires LocksOk(s) && p < |s.processes| && |t.processes| == |s.processes|
    requires t.locks == Without(s.locks, p) && t.claims == Without(s.claims, p)
             && t.tagClaims == Without(s.tagClaims, p)
    requires forall k :: k in t.tagClaims && k !in s.tags ==> k !in t.tags
    requires s.homes.Keys <= t.homes.Keys
    requires forall q: Pid :: q < |s.processes| && q != p ==> t.processes[q] == s.processes[q]
    ensures LocksOk(t)
  {
    forall id | id in t.locks ensures LockOk(t, id) { assert LockOk(s, id); }
    forall k | k in t.claims ensures ClaimOk(t, k) { assert ClaimOk(s, k); }
    forall k | k in t.tagClaims ensures TagClaimOk(t, k) { assert TagClaimOk(s, k); }
  }

  lemma FinishKeeps(s: State, p: Pid, me: Process)
    requires Inv(s) && p < |s.processes| && (me.stage.Raised? || me.stage.Replied?)
    requires me.stage.Replied? ==>
               SlotOf(me) in s.composed && s.composed[SlotOf(me)] == me.made && me.made.mode == me.request.mode
    ensures Inv(Finished(s, p, me))
  {
    var t := Finished(s, p, me);
    FinishLocks(s, p, t);
    QuietStep(s, t, p);
  }

  lemma ReplayKeeps(s: State, p: Pid, me: Process)
    requires Inv(s) && p < |s.processes| && SlotOf(me) in s.composed
    ensures Inv(Replay(s, p, me))
  {
    if s.composed[SlotOf(me)].mode != me.request.mode { FinishKeeps(s, p, me.(stage := Raised)); }
    else { FinishKeeps(s, p, me.(stage := Replied, made := s.composed[SlotOf(me)])); }
  }

  /** Locks after a step that may take one more for the process itself. */
  lemma MoveLocks(s: State, t: State, p: Pid)
    requires LocksOk(s) && p < |s.processes| && OthersStay(s, t, p)
    requires InTransaction(t.processes[p].stage) && t.processes[p].request == s.processes[p].request
    requires s.processes[p].next <= t.processes[p].next <= |t.processes[p].request.order|
    requires !s.processes[p].stage.Claimed?
    requires forall id :: id in t.locks ==> (id in s.locks && t.locks[id] == s.locks[id]) || LockOk(t, id)
    requires forall k :: k in t.claims ==> (k in s.claims && t.claims[k] == s.claims[k]) || ClaimOk(t, k)
    requires t.tagClaims == s.tagClaims && t.tags == s.tags && t.homes == s.homes
    ensures LocksOk(t)
  {
    forall id | id in t.locks ensures LockOk(t, id) {
      if id in s.locks && t.locks[id] == s.locks[id] { LockStays(s, t, p, id); }
    }
    forall k | k in t.claims ensures ClaimOk(t, k) {
      if k in s.claims && t.claims[k] == s.claims[k] { assert ClaimOk(s, k); }
    }
    forall k | k in t.tagClaims ensures TagClaimOk(t, k) { assert TagClaimOk(s, k); }
  }

  lemma LockStays(s: State, t: State, p: Pid, id: Id)
    requires LocksOk(s) && p < |s.processes| && OthersStay(s, t, p) && id in s.locks && id in t.locks
             && t.locks[id] == s.locks[id]
    requires InTransaction(t.processes[p].stage) && t.processes[p].request == s.processes[p].request
    requires s.processes[p].next <= t.processes[p].next <= |t.processes[p].request.order|
    requires !s.processes[p].stage.Claimed? && t.homes == s.homes
    ensures LockOk(t, id)
  {
    assert LockOk(s, id);
    var q := s.locks[id];
    if q == p {
      var a, b := s.processes[p].request.order[..s.processes[p].next],
        t.processes[p].request.order[..t.processes[p].next];
      var i :| 0 <= i < |a| && a[i] == id;
      assert b[i] == id;
    }
  }

  lemma LockedOk(s: State, p: Pid)
    requires Inv(s) && Enabled(s, p, Lock)
    ensures OkAt(Taking(s, p), p)
  {
    var me, t := s.processes[p], Taking(s, p);
    var now := t.processes[p];
    assert OkAt(s, p);
    if !now.missing {
      forall i | 0 <= i < now.next ensures HoldsAt(t, p, now, i) { if i < me.next { assert HoldsAt(s, p, me, i); } }
    }
  }

  ghost predicate SameHoldings(s: State, t: State) {
    t.locks == s.locks && t.claims == s.claims && t.tagClaims == s.tagClaims && t.tags == s.tags && t.homes == s.homes
  }

  lemma WithShape(s: State, p: Pid, me: Process)
    requires p < |s.processes|
    ensures OthersStay(s, With(s, p, me), p) && SameHoldings(s, With(s, p, me)) && With(s, p, me).processes[p] == me
  {}

  lemma OneMoreLock(s: State, t: State, p: Pid, id: Id)
    requires p < |s.processes| && OthersStay(s, t, p) && SameHoldings(s, t) && (id in s.locks ==> s.locks[id] == p)
    ensures OthersStay(s, t.(locks := s.locks[id := p]), p)
  {}

  lemma TakingShape(s: State, p: Pid)
    requires p < |s.processes| && s.processes[p].stage.Locking? && s.processes[p].next < |s.processes[p].request.order|
    requires s.processes[p].request.order[s.processes[p].next] !in s.locks
    ensures var t, me := Taking(s, p), s.processes[p]; var now := t.processes[p];
            && OthersStay(s, t, p) && t.claims == s.claims && t.tagClaims == s.tagClaims && t.tags == s.tags
            && t.homes == s.homes
            && now.stage.Locking? && now.request == me.request && now.next == me.next + 1
            && (forall id :: id in t.locks ==>
                  (id in s.locks && t.locks[id] == s.locks[id])
                    || (id == me.request.order[me.next] && id in s.homes && t.locks[id] == p))
  {
    var me := s.processes[p];
    var id := me.request.order[me.next];
    var now := if id in s.homes then me.(next := me.next + 1) else me.(next := me.next + 1, missing := true);
    var t := With(s, p, now);
    WithShape(s, p, now);
    if id in s.homes {
      OneMoreLock(s, t, p, id);
      assert Taking(s, p) == t.(locks := s.locks[id := p]);
    } else {
      assert Taking(s, p) == t;
    }
  }

  lemma LockedLocks(s: State, p: Pid)
    requires LocksOk(s) && Enabled(s, p, Lock)
    ensures LocksOk(Taking(s, p))
  {
    var me, t := s.processes[p], Taking(s, p);
    TakingShape(s, p);
    assert me.request.order[..me.next + 1][me.next] == me.request.order[me.next];
    MoveLocks(s, t, p);
  }

  lemma LockKeeps(s: State, p: Pid)
    requires Inv(s) && Enabled(s, p, Lock)
    ensures Inv(Taking(s, p))
  {
    LockedOk(s, p);
    LockedLocks(s, p);
    TakingShape(s, p);
    TakingWritesNothing(s, p);
    QuietStep(s, Taking(s, p), p);
  }

  lemma LookKeeps(s: State, p: Pid)
    requires Inv(s) && Enabled(s, p, LookUp)
    ensures Inv(Look(s, p))
  {
    var me := s.processes[p];
    assert OkAt(s, p);
    if me.missing || me.request.order == [] || me.request.order[0] !in s.homes {
      FinishKeeps(s, p, me.(stage := Raised));
    }
    else {
      var found := me.(env := s.homes[me.request.order[0]]);
      if SlotOf(found) in s.composed { ReplayKeeps(s, p, found); }
      else if Composable(s, found) {
        var now := found.(stage := Missed);
        var t := With(s, p, now);
        forall i | 0 <= i < now.next ensures HoldsAt(t, p, now, i) { assert HoldsAt(s, p, me, i); }
        forall i | 0 <= i < |now.request.order| ensures SourceOk(t, now, now.request.order[i]) {
          assert SourceOk(s, found, found.request.order[i]);
        }
        MoveLocks(s, t, p);
        QuietStep(s, t, p);
      } else {
        FinishKeeps(s, p, me.(stage := Raised));
      }
    }
  }

  lemma ClaimKeeps(s: State, p: Pid, id: Id)
    requires Inv(s) && Enabled(s, p, Claim(id)) && SlotOf(s.processes[p]) !in s.composed
    ensures Inv(Claiming(s, p, id))
  {
    var me, t := s.processes[p], Claiming(s, p, id);
    var now := t.processes[p];
    assert OkAt(s, p);
    forall i | 0 <= i < now.next ensures HoldsAt(t, p, now, i) { assert HoldsAt(s, p, me, i); }
    forall i | 0 <= i < |now.request.order| ensures SourceOk(t, now, now.request.order[i]) {
      assert SourceOk(s, me, me.request.order[i]);
    }
    MoveLocks(s, t, p);
    QuietStep(s, t, p);
  }

  lemma ClaimedOk(s: State, t: State, p: Pid, now: Process)
    requires Inv(s) && p < |s.processes| && s.processes[p].stage.Claimed? && SameTables(s, t) && t.claims == s.claims
    requires now.stage.Claimed? && now.request == s.processes[p].request && now.env == s.processes[p].env
    requires now.next == s.processes[p].next && now.missing == s.processes[p].missing && now.made == s.processes[p].made
    requires forall id :: id in s.locks && s.locks[id] == p ==> id in t.locks && t.locks[id] == p
    requires FlipsOk(t, p, now)
    ensures ProcessOk(t, p, now)
  {
    var me := s.processes[p];
    assert OkAt(s, p);
    forall i | 0 <= i < now.next ensures HoldsAt(t, p, now, i) { assert HoldsAt(s, p, me, i); }
    forall i | 0 <= i < |now.request.order| ensures SourceOk(t, now, now.request.order[i]) {
      assert SourceOk(s, me, me.request.order[i]);
    }
  }

  lemma TaggingOk(s: State, p: Pid)
    requires Inv(s) && Enabled(s, p, InsertTag)
    ensures OkAt(Tagging(s, p), p)
  {
    var me, t := s.processes[p], Tagging(s, p);
    TaggingShape(s, p);
    TaggingWritesNothing(s, p);
    assert OkAt(s, p);
    FlipsStay(s, t, p, me, t.processes[p]);
    ClaimedOk(s, t, p, t.processes[p]);
  }

  /** Locks after a step of a process that has claimed its key and may hold one row or tag more. */
  lemma ClaimedLocks(s: State, t: State, p: Pid)
    requires LocksOk(s) && p < |s.processes| && OthersStay(s, t, p)
    requires t.claims == s.claims && t.tags == s.tags && t.homes == s.homes
    requires Onward(s.processes[p], t.processes[p])
    requires forall id :: id in t.locks ==> (id in s.locks && t.locks[id] == s.locks[id]) || LockOk(t, id)
    requires forall k :: k in t.tagClaims ==> (k in s.tagClaims && t.tagClaims[k] == s.tagClaims[k]) || TagClaimOk(t, k)
    ensures LocksOk(t)
  {
    forall id | id in t.locks ensures LockOk(t, id) {
      if id in s.locks && t.locks[id] == s.locks[id] { assert LockOk(s, id); }
    }
    forall k | k in t.claims ensures ClaimOk(t, k) { assert ClaimOk(s, k); }
    forall k | k in t.tagClaims ensures TagClaimOk(t, k) {
      if k in s.tagClaims && t.tagClaims[k] == s.tagClaims[k] { TagClaimStays(s, t, p, k); }
    }
  }

  /** A transaction that has claimed its key going on. */
  ghost predicate Onward(before: Process, after: Process) {
    && before.stage.Claimed? && after.stage.Claimed? && after.request == before.request && after.env == before.env
    && after.next == before.next
    && before.tagged <= after.tagged && (after.tagged == before.tagged || after.tagged <= |after.request.tags|)
    && before.touched <= after.touched
  }

  lemma TagClaimStays(s: State, t: State, p: Pid, k: TagKey)
    requires LocksOk(s) && p < |s.processes| && OthersStay(s, t, p) && t.tags == s.tags
    requires Onward(s.processes[p], t.processes[p])
    requires k in s.tagClaims && k in t.tagClaims && t.tagClaims[k] == s.tagClaims[k]
    ensures TagClaimOk(t, k)
  {
    assert TagClaimOk(s, k);
    if s.tagClaims[k] == p {
      EarlierIn(s.processes[p].request.tags, s.processes[p].tagged, t.processes[p].tagged, k.name);
    }
  }

  lemma EarlierIn(a: seq<nat>, m: nat, n: nat, x: nat)
    requires m <= n <= |a| && x in a[..m]
    ensures x in a[..n]
  {
    var i :| 0 <= i < m && a[..m][i] == x;
    assert a[..n][i] == x;
  }

  lemma TaggingShape(s: State, p: Pid)
    requires Enabled(s, p, InsertTag)
    ensures var t, me := Tagging(s, p), s.processes[p];
            && OthersStay(s, t, p) && t.processes[p] == me.(tagged := me.tagged + 1)
            && t.locks == s.locks && t.claims == s.claims && t.tags == s.tags
            && (forall k :: k in t.tagClaims ==>
                  (k in s.tagClaims && t.tagClaims[k] == s.tagClaims[k])
                    || (k == NextTag(me) && k !in s.tags && t.tagClaims[k] == p))
  {
    var me := s.processes[p];
    var t := With(s, p, me.(tagged := me.tagged + 1));
    WithShape(s, p, me.(tagged := me.tagged + 1));
    if NextTag(me) !in s.tags { assert Tagging(s, p) == t.(tagClaims := s.tagClaims[NextTag(me) := p]); }
  }

  lemma TaggingLocks(s: State, p: Pid)
    requires LocksOk(s) && Enabled(s, p, InsertTag)
    ensures LocksOk(Tagging(s, p))
  {
    var me, t := s.processes[p], Tagging(s, p);
    TaggingShape(s, p);
    TaggingWritesNothing(s, p);
    assert me.request.tags[..me.tagged + 1][me.tagged] == me.request.tags[me.tagged];
    ClaimedLocks(s, t, p);
  }

  lemma InsertTagKeeps(s: State, p: Pid)
    requires Inv(s) && Enabled(s, p, InsertTag)
    ensures Inv(Tagging(s, p))
  {
    TaggingOk(s, p);
    TaggingLocks(s, p);
    TaggingShape(s, p);
    TaggingWritesNothing(s, p);
    ClaimedStep(s, Tagging(s, p), p);
  }

  // ------------------------------------------------------------ the triggers

  lemma FlippingOk(s: State, p: Pid, order: seq<Id>)
    requires Inv(s) && Enabled(s, p, Flip(order))
    ensures FlipsOk(Flipping(s, p, order), p, Flipping(s, p, order).processes[p])
  {
    var me, t := s.processes[p], Flipping(s, p, order);
    var now := t.processes[p];
    assert OkAt(s, p);
    forall id | id in now.touched ensures TouchedOk(t, p, now, id) {
      assert TouchedOk(s, p, me, id);
      var j :| 0 <= j < me.flipped && j < |me.request.order| && id in TargetsOf(s, me.request.order[j]);
      assert id in TargetsOf(t, now.request.order[j]);
    }
    forall j: nat | j < now.flipped ensures FlipDone(t, now, j) { if j < me.flipped { assert FlipDone(s, me, j); } }
  }

  lemma FlipKeeps(s: State, p: Pid, order: seq<Id>)
    requires Inv(s) && Enabled(s, p, Flip(order))
    ensures Inv(Flipping(s, p, order))
  {
    var t := Flipping(s, p, order);
    MovingForms(s, p, t.processes[p]);
    assert OthersStay(s, t, p);
    FlippingOk(s, p, order);
    ClaimedOk(s, t, p, t.processes[p]);
    ClaimedLocks(s, t, p);
    ClaimedStep(s, t, p);
  }

  lemma TouchingShape(s: State, p: Pid)
    requires Enabled(s, p, Touch)
    ensures var t, me := Touching(s, p), s.processes[p];
            && OthersStay(s, t, p) && SameTables(s, t) && SameRequests(s, t)
            && t.processes[p] == me.(rest := me.rest[1..], touched := me.touched + {me.rest[0]})
            && t.locks == s.locks[me.rest[0] := p] && t.claims == s.claims && t.tagClaims == s.tagClaims
  {
    var me := s.processes[p];
    var now := me.(rest := me.rest[1..], touched := me.touched + {me.rest[0]});
    MovingForms(s, p, now);
    WithShape(s, p, now);
    OneMoreLock(s, With(s, p, now), p, me.rest[0]);
  }

  lemma TouchingOk(s: State, p: Pid)
    requires Inv(s) && Enabled(s, p, Touch)
    ensures FlipsOk(Touching(s, p), p, Touching(s, p).processes[p])
  {
    var me, t := s.processes[p], Touching(s, p);
    TouchingShape(s, p);
    var now, r := t.processes[p], me.rest[0];
    assert OkAt(s, p);
    forall id | id in now.touched ensures TouchedOk(t, p, now, id) {
      if id in me.touched {
        assert TouchedOk(s, p, me, id);
        var j :| 0 <= j < me.flipped && j < |me.request.order| && id in TargetsOf(s, me.request.order[j]);
        assert id in TargetsOf(t, now.request.order[j]);
      } else {
        assert r in me.rest && r in TargetsOf(t, now.request.order[me.flipped - 1]);
      }
    }
    assert forall id :: id in now.rest ==> id in me.rest;
    assert forall id :: id in me.rest ==> id == r || id in now.rest;
    forall j: nat | j < now.flipped ensures FlipDone(t, now, j) { assert FlipDone(s, me, j); }
  }

  lemma TouchKeeps(s: State, p: Pid)
    requires Inv(s) && Enabled(s, p, Touch)
    ensures Inv(Touching(s, p))
  {
    var me, t := s.processes[p], Touching(s, p);
    TouchingShape(s, p);
    TouchingOk(s, p);
    ClaimedOk(s, t, p, t.processes[p]);
    assert OkAt(s, p) && me.rest[0] in me.rest;
    assert me.rest[0] in s.homes;
    assert LockOk(t, me.rest[0]);
    ClaimedLocks(s, t, p);
    ClaimedStep(s, t, p);
  }

  /** A step that writes no table and leaves the composition of its process as it is. */
  lemma ClaimedStep(s: State, t: State, p: Pid)
    requires Inv(s) && SameTables(s, t) && OthersStay(s, t, p) && p < |s.processes|
    requires OkAt(t, p) && LocksOk(t)
    requires s.processes[p].stage.Claimed? && t.processes[p].made == s.processes[p].made
    ensures Inv(t)
  {
    TablesStay(s, t);
    forall q: Pid | q < |t.processes| ensures OkAt(t, q) { if q != p { OtherOk(s, t, p, q); } }
    forall a: Pid, b: Pid | a < |t.processes| && b < |t.processes| && a != b ensures PendingApart(t, a, b) {
      assert PendingApart(s, a, b);
    }
  }

  // ------------------------------------------------------------ the commit

  lemma CommitSuperseded(s: State, p: Pid)
    requires Inv(s) && Enabled(s, p, Commit)
    ensures forall x :: x in s.superseded ==>
              x in Publish(s, p).superseded && Publish(s, p).superseded[x] == s.superseded[x]
    ensures forall x :: x in Publish(s, p).superseded && x !in s.superseded ==> x in s.processes[p].request.order
    ensures forall x :: x in Publish(s, p).superseded ==> SupersededOk(Publish(s, p), x)
  {
    var me, t := s.processes[p], Publish(s, p);
    assert OkAt(s, p);
    forall x | x in me.made.sources ensures x !in s.superseded {
      var i :| 0 <= i < |me.request.order| && me.request.order[i] == x;
      assert SourceOk(s, me, me.request.order[i]);
    }
    forall x | x in t.superseded ensures SupersededOk(t, x) {
      if x in s.superseded {
        assert SupersededOk(s, x);
        var k :| k in s.composed && s.composed[k].id == s.superseded[x] && s.composed[k].mode.Merge?
          && x in s.composed[k].sources;
        assert k in t.composed && t.composed[k] == s.composed[k];
      } else {
        assert t.composed[SlotOf(me)] == me.made;
      }
    }
  }

  lemma CommitComposed(s: State, p: Pid)
    requires Inv(s) && Enabled(s, p, Commit)
    ensures forall k :: k in Publish(s, p).composed ==> ComposedOk(Publish(s, p), k)
    ensures IdsUnique(Publish(s, p))
  {
    var me, t := s.processes[p], Publish(s, p);
    assert OkAt(s, p);
    forall k | k in t.composed ensures ComposedOk(t, k) {
      if k != SlotOf(me) { assert ComposedOk(s, k); }
    }
    forall k, l | k in t.composed && l in t.composed && t.composed[k].id == t.composed[l].id ensures k == l {
      if k in s.composed { assert ComposedOk(s, k); }
      if l in s.composed { assert ComposedOk(s, l); }
    }
  }

  lemma CommitTables(s: State, p: Pid)
    requires Inv(s) && Enabled(s, p, Commit)
    ensures TablesOk(Publish(s, p))
    ensures forall x :: x in s.superseded ==>
              x in Publish(s, p).superseded && Publish(s, p).superseded[x] == s.superseded[x]
    ensures forall x :: x in Publish(s, p).superseded && x !in s.superseded ==> x in s.processes[p].request.order
  {
    assert OkAt(s, p);
    CommitSuperseded(s, p);
    CommitComposed(s, p);
  }

  /** Two transactions past their lookup have no source in common. */
  lemma SourcesApart(s: State, p: Pid, q: Pid, x: Id)
    requires Inv(s) && p < |s.processes| && q < |s.processes| && p != q
    requires s.processes[p].stage.Missed? || s.processes[p].stage.Claimed?
    requires s.processes[q].stage.Missed? || s.processes[q].stage.Claimed?
    requires x in s.processes[p].request.order
    ensures x !in s.processes[q].request.order
  {
    assert OkAt(s, p) && OkAt(s, q);
    var i :| 0 <= i < |s.processes[p].request.order| && s.processes[p].request.order[i] == x;
    assert HoldsAt(s, p, s.processes[p], i);
    forall j | 0 <= j < |s.processes[q].request.order| ensures s.processes[q].request.order[j] != x {
      assert HoldsAt(s, q, s.processes[q], j);
    }
  }

  lemma CommitOther(s: State, p: Pid, q: Pid)
    requires Inv(s) && Enabled(s, p, Commit) && q < |s.processes| && q != p
    ensures OkAt(Publish(s, p), q)
  {
    var you, t := s.processes[q], Publish(s, p);
    assert OkAt(s, p) && OkAt(s, q) && PendingApart(s, p, q);
    CommitTables(s, p);
    if InTransaction(you.stage) { HoldsStays(s, t, q, you); }
    if you.stage.Missed? || you.stage.Claimed? {
      forall i | 0 <= i < |you.request.order| ensures SourceOk(t, you, you.request.order[i]) {
        assert SourceOk(s, you, you.request.order[i]);
        SourcesApart(s, q, p, you.request.order[i]);
      }
    }
    if you.stage.Claimed? {
      forall j | 0 <= j < |you.request.order|
        ensures TargetsOf(t, you.request.order[j]) == TargetsOf(s, you.request.order[j])
      {
        assert SourceOk(s, you, you.request.order[j]);
      }
      FlipsStay(s, t, q, you, you);
    }
  }

  lemma CommitKeeps(s: State, p: Pid)
    requires Inv(s) && Enabled(s, p, Commit)
    ensures Inv(Publish(s, p))
  {
    var t := Publish(s, p);
    assert OkAt(s, p);
    CommitTables(s, p);
    FinishLocks(s, p, t);
    forall q: Pid | q < |t.processes| ensures OkAt(t, q) { if q != p { CommitOther(s, p, q); } }
    forall a: Pid, b: Pid | a < |t.processes| && b < |t.processes| && a != b ensures PendingApart(t, a, b) {
      assert PendingApart(s, a, b);
    }
  }

  /** Every statement of every process keeps the invariant. */
  lemma StepKeeps(s: State, p: Pid, a: Action)
    requires Inv(s) && Enabled(s, p, a)
    ensures Inv(Perform(s, p, a))
  {
    var me := s.processes[p];
    match a
    case Lock => LockKeeps(s, p);
    case LookUp => LookKeeps(s, p);
    case Claim(id) => if SlotOf(me) in s.composed { ReplayKeeps(s, p, me); } else { ClaimKeeps(s, p, id); }
    case InsertTag => InsertTagKeeps(s, p);
    case Flip(order) => FlipKeeps(s, p, order);
    case Touch => TouchKeeps(s, p);
    case Commit => CommitKeeps(s, p);
    case Abort => FinishKeeps(s, p, me.(stage := Raised));
  }

  // ------------------------------------------------------------ runs

  datatype Move = Move(p: Pid, action: Action)

  ghost predicate StepAt(s: State, m: Move, t: State) {
    Enabled(s, m.p, m.action) && t == Perform(s, m.p, m.action)
  }

  ghost predicate Run(states: seq<State>, moves: seq<Move>) {
    |states| == |moves| + 1 && forall i :: 0 <= i < |moves| ==> StepAt(states[i], moves[i], states[i + 1])
  }

  /** Tables in order, nothing held, and every transaction about to ask for its first lock. */
  ghost predicate Initial(s: State) {
    && TablesOk(s) && s.locks == map[] && s.claims == map[] && s.tagClaims == map[]
    && forall p: Pid :: p < |s.processes| ==>
      s.processes[p].stage.Locking? && s.processes[p].next == 0 && !s.processes[p].missing
  }

  lemma {:induction false} RunKeeps(states: seq<State>, moves: seq<Move>, i: nat)
    requires Run(states, moves) && Initial(states[0]) && i < |states|
    ensures Inv(states[i])
  {
    if i > 0 {
      RunKeeps(states, moves, i - 1);
      assert StepAt(states[i - 1], moves[i - 1], states[i]);
      StepKeeps(states[i - 1], moves[i - 1].p, moves[i - 1].action);
    }
  }

  /** Whatever the interleaving, all successful replies for one key name the same memory with the
      same sources and mode: the one committed under it. */
  lemma RepliesAgree(states: seq<State>, moves: seq<Move>, i: nat, p: Pid, q: Pid)
    requires Run(states, moves) && Initial(states[0]) && i < |states|
    requires p < |states[i].processes| && q < |states[i].processes|
    requires states[i].processes[p].stage.Replied? && states[i].processes[q].stage.Replied?
    requires SlotOf(states[i].processes[p]) == SlotOf(states[i].processes[q])
    ensures states[i].processes[p].made == states[i].processes[q].made
    ensures SlotOf(states[i].processes[p]) in states[i].composed
    ensures states[i].composed[SlotOf(states[i].processes[p])] == states[i].processes[p].made
  {
    RunKeeps(states, moves, i);
    assert OkAt(states[i], p) && OkAt(states[i], q);
  }

  /** No memory is merged twice: two committed merges have no source in common. */
  lemma MergedOnce(states: seq<State>, moves: seq<Move>, i: nat, k: Slot, l: Slot, x: Id)
    requires Run(states, moves) && Initial(states[0]) && i < |states|
    requires k in states[i].composed && l in states[i].composed
    requires states[i].composed[k].mode.Merge? && states[i].composed[l].mode.Merge?
    requires x in states[i].composed[k].sources && x in states[i].composed[l].sources
    ensures k == l
  {
    RunKeeps(states, moves, i);
    assert ComposedOk(states[i], k) && ComposedOk(states[i], l);
  }

  lemma LookWritesNothing(s: State, p: Pid)
    requires p < |s.processes|
    ensures SameTables(s, Look(s, p)) && SameRequests(s, Look(s, p))
  {
    var me := s.processes[p];
    MovingForms(s, p, me.(stage := Raised));
    if !me.missing && me.request.order != [] && me.request.order[0] in s.homes {
      var found := me.(env := s.homes[me.request.order[0]]);
      if SlotOf(found) in s.composed { ReplayWritesNothing(s, p, found); }
      else { MovingForms(s, p, found.(stage := Missed)); }
    }
  }

  lemma ReplayWritesNothing(s: State, p: Pid, me: Process)
    requires p < |s.processes| && SlotOf(me) in s.composed && me.request == s.processes[p].request
    ensures SameTables(s, Replay(s, p, me)) && SameRequests(s, Replay(s, p, me))
  {
    MovingForms(s, p, me.(stage := Raised));
    MovingForms(s, p, me.(stage := Replied, made := s.composed[SlotOf(me)]));
  }

  ghost predicate SameRequests(s: State, t: State) {
    |t.processes| == |s.processes| && forall p: Pid :: p < |s.processes| ==>
        t.processes[p].request == s.processes[p].request
  }

  lemma MovingForms(s: State, p: Pid, me: Process)
    requires p < |s.processes| && me.request == s.processes[p].request
    ensures SameTables(s, With(s, p, me)) && SameRequests(s, With(s, p, me))
    ensures SameTables(s, Finished(s, p, me)) && SameRequests(s, Finished(s, p, me))
  {}

  lemma TakingWritesNothing(s: State, p: Pid)
    requires p < |s.processes| && s.processes[p].next < |s.processes[p].request.order|
    ensures SameTables(s, Taking(s, p)) && SameRequests(s, Taking(s, p))
  {
    var me := s.processes[p];
    if me.request.order[me.next] !in s.homes { MovingForms(s, p, me.(next := me.next + 1, missing := true)); }
    else {
      var t := With(s, p, me.(next := me.next + 1));
      MovingForms(s, p, me.(next := me.next + 1));
      assert Taking(s, p) == t.(locks := s.locks[me.request.order[me.next] := p]);
    }
  }

  lemma TaggingWritesNothing(s: State, p: Pid)
    requires p < |s.processes| && s.processes[p].tagged < |s.processes[p].request.tags|
    ensures SameTables(s, Tagging(s, p)) && SameRequests(s, Tagging(s, p))
  {
    var me := s.processes[p];
    var t := With(s, p, me.(tagged := me.tagged + 1));
    MovingForms(s, p, me.(tagged := me.tagged + 1));
    if NextTag(me) !in s.tags { assert Tagging(s, p) == t.(tagClaims := s.tagClaims[NextTag(me) := p]); }
  }

  lemma ClaimingWritesNothing(s: State, p: Pid, id: Id)
    requires p < |s.processes|
    ensures SameTables(s, Claiming(s, p, id)) && SameRequests(s, Claiming(s, p, id))
  {}

  lemma PublishKeepsRequests(s: State, p: Pid)
    requires p < |s.processes|
    ensures SameRequests(s, Publish(s, p))
  {}

  /** Nothing but a commit changes the tables: replays, lost claims and errors do not. */
  lemma OnlyCommitWrites(s: State, p: Pid, a: Action)
    requires Enabled(s, p, a)
    ensures !a.Commit? ==> SameTables(s, Perform(s, p, a))
    ensures SameRequests(s, Perform(s, p, a))
  {
    match a
    case Lock => TakingWritesNothing(s, p);
    case LookUp => LookWritesNothing(s, p);
    case Claim(id) =>
      if SlotOf(s.processes[p]) in s.composed { ReplayWritesNothing(s, p, s.processes[p]); }
      else { ClaimingWritesNothing(s, p, id); }
    case InsertTag => TaggingWritesNothing(s, p);
    case Flip(order) => MovingForms(s, p, s.processes[p].(flipped := s.processes[p].flipped + 1, rest := order));
    case Touch => TouchingShape(s, p);
    case Commit => PublishKeepsRequests(s, p);
    case Abort => MovingForms(s, p, s.processes[p].(stage := Raised));
  }

  /** A commit adds one composition under a free key and an id nobody has. */
  lemma CommitAddsOne(s: State, p: Pid)
    requires Inv(s) && Enabled(s, p, Commit)
    ensures var t, me := Publish(s, p), s.processes[p];
            && SlotOf(me) !in s.composed && t.composed == s.composed[SlotOf(me) := me.made]
            && me.made.id !in s.homes && t.homes == s.homes[me.made.id := me.env]
            && me.made.sources == me.request.order && me.made.mode == me.request.mode
            && (forall k :: k in t.tags && k !in s.tags ==> k.env == me.env && k.name in me.request.tags)
  {
    assert OkAt(s, p);
    forall k | k in Publish(s, p).tags && k !in s.tags
      ensures k.env == s.processes[p].env && k.name in s.processes[p].request.tags
    {
      assert TagClaimOk(s, k);
    }
  }

  lemma {:induction false} RequestsStay(states: seq<State>, moves: seq<Move>, i: nat)
    requires Run(states, moves) && i < |states|
    ensures SameRequests(states[0], states[i])
  {
    if i > 0 {
      RequestsStay(states, moves, i - 1);
      assert StepAt(states[i - 1], moves[i - 1], states[i]);
      OnlyCommitWrites(states[i - 1], moves[i - 1].p, moves[i - 1].action);
    }
  }
}
