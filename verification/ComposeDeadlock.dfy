/** When concurrent composes deadlock. Sources, keys and tags are taken in one order by everybody;
    the rows a merge's triggers update come last, whatever their ids, and are all there is to
    close a circle of waits. */
module ComposeDeadlock {
  import opened ComposeProtocol

  ghost predicate Ascending(order: seq<nat>) {
    forall i, j :: 0 <= i < j < |order| ==> order[i] < order[j]
  }

  ghost predicate Sorted(r: Request) {
    Ascending(r.order) && Ascending(r.tags)
  }

  ghost predicate AllSorted(s: State) {
    forall p: Pid :: p < |s.processes| ==> Sorted(s.processes[p].request)
  }

  /** Some process can take a step of its own accord. */
  ghost predicate CanMove(s: State) {
    exists p, a :: Enabled(s, p, a) && !a.Abort?
  }

  ghost predicate Stuck(s: State) {
    !CanMove(s) && exists p: Pid :: p < |s.processes| && InTransaction(s.processes[p].stage)
  }

  lemma {:induction false} FreshId(issued: set<Id>) returns (id: Id)
    ensures forall x :: x in issued ==> x < id
  {
    if issued == {} { id := 0; }
    else {
      var y :| y in issued;
      var z := FreshId(issued - {y});
      id := if y < z then z else y + 1;
      assert forall x :: x in issued ==> x == y || x in issued - {y};
    }
  }

  lemma {:induction false} ListingExists(ids: set<Id>) returns (order: seq<Id>)
    ensures Lists(order, ids)
  {
    order := [];
    if ids != {} {
      var x :| x in ids;
      var rest := ListingExists(ids - {x});
      order := rest + [x];
    }
  }

  // ------------------------------------------------------------ what a deadlock needs

  /** The trigger of one of its merges is kept waiting. */
  ghost predicate WaitsInTrigger(s: State, p: Pid) {
    && p < |s.processes| && Tagged(s.processes[p]) && s.processes[p].rest != []
    && s.processes[p].rest[0] in s.locks && s.locks[s.processes[p].rest[0]] != p
  }

  lemma TaggedMoves(s: State, p: Pid)
    requires Inv(s) && p < |s.processes| && Tagged(s.processes[p]) && !WaitsInTrigger(s, p)
    ensures CanMove(s)
  {
    var me := s.processes[p];
    if Finishing(me) { assert Enabled(s, p, Commit); }
    else if me.rest != [] { assert Enabled(s, p, Touch); }
    else {
      var order := ListingExists(TargetsOf(s, me.request.order[me.flipped]));
      assert Enabled(s, p, Flip(order));
    }
  }

  ghost predicate Below(order: seq<nat>, bound: nat) {
    forall i :: 0 <= i < |order| ==> order[i] < bound
  }

  ghost predicate AllBelow(s: State, bound: nat) {
    forall p: Pid :: p < |s.processes| ==>
        Below(s.processes[p].request.order, bound) && Below(s.processes[p].request.tags, bound)
  }

  /** What a process can wait for: a row, then a key, then a tag. */
  ghost function Rank(stage: Stage): nat {
    if stage.Locking? then 2 else if stage.Missed? then 1 else 0
  }

  /** How far what a process waits for is from the bound. */
  ghost function Distance(s: State, p: Pid, bound: nat): nat
    requires p < |s.processes| && AllBelow(s, bound)
  {
    var me := s.processes[p];
    if me.stage.Locking? && me.next < |me.request.order| then bound - me.request.order[me.next]
    else if me.stage.Claimed? && me.tagged < |me.request.tags| then bound - me.request.tags[me.tagged]
    else 0
  }

  ghost predicate MovesOrTriggers(s: State) {
    CanMove(s) || exists q: Pid :: WaitsInTrigger(s, q)
  }

  /** A process that waits for a tag waits for one that waits for a later tag, or is past its tags. */
  lemma {:induction false} TagChain(s: State, p: Pid, bound: nat)
    requires Inv(s) && AllSorted(s) && AllBelow(s, bound) && p < |s.processes| && s.processes[p].stage.Claimed?
    ensures MovesOrTriggers(s)
    decreases Distance(s, p, bound)
  {
    var me := s.processes[p];
    if Tagged(me) { if !WaitsInTrigger(s, p) { TaggedMoves(s, p); } }
    else if NextTag(me) in s.tagClaims && s.tagClaims[NextTag(me)] != p {
      assert TagClaimOk(s, NextTag(me));
      var q := s.tagClaims[NextTag(me)];
      var you := s.processes[q];
      var i :| 0 <= i < you.tagged && you.request.tags[..you.tagged][i] == me.request.tags[me.tagged];
      if you.tagged < |you.request.tags| { assert you.request.tags[i] < you.request.tags[you.tagged]; }
      TagChain(s, q, bound);
    } else {
      assert Enabled(s, p, InsertTag);
    }
  }

  /** A process that waits for a source waits for one that waits for a later source, if it waits for
      a source at all; one that waits for a key waits for one that holds it. The chain ends at a
      process that can move, or at a trigger. */
  lemma {:induction false} ChainMoves(s: State, p: Pid, bound: nat)
    requires Inv(s) && AllSorted(s) && AllBelow(s, bound) && p < |s.processes| && InTransaction(s.processes[p].stage)
    ensures MovesOrTriggers(s)
    decreases Rank(s.processes[p].stage), Distance(s, p, bound)
  {
    var me := s.processes[p];
    assert OkAt(s, p);
    if me.stage.Claimed? { TagChain(s, p, bound); }
    else if me.stage.Missed? {
      if SlotOf(me) in s.claims {
        assert ClaimOk(s, SlotOf(me));
        ChainMoves(s, s.claims[SlotOf(me)], bound);
      } else {
        var id := FreshId(s.issued);
        assert Enabled(s, p, Claim(id));
      }
    } else if me.next == |me.request.order| { assert Enabled(s, p, LookUp); }
    else if me.request.order[me.next] !in s.locks { assert Enabled(s, p, Lock); }
    else {
      LockChain(s, p);
      ChainMoves(s, s.locks[me.request.order[me.next]], bound);
    }
  }

  lemma LockChain(s: State, p: Pid)
    requires Inv(s) && AllSorted(s) && p < |s.processes| && s.processes[p].stage.Locking?
    requires s.processes[p].next < |s.processes[p].request.order|
             && s.processes[p].request.order[s.processes[p].next] in s.locks
    ensures var id := s.processes[p].request.order[s.processes[p].next]; var q := s.locks[id];
            && q < |s.processes| && InTransaction(s.processes[q].stage)
            && (s.processes[q].stage.Locking? && s.processes[q].next < |s.processes[q].request.order| ==>
                  id < s.processes[q].request.order[s.processes[q].next])
  {
    var id := s.processes[p].request.order[s.processes[p].next];
    assert LockOk(s, id);
    var you := s.processes[s.locks[id]];
    if you.stage.Locking? {
      var i :| 0 <= i < you.next && you.request.order[..you.next][i] == id;
      assert you.next < |you.request.order| ==> you.request.order[i] < you.request.order[you.next];
    }
  }

  lemma {:induction false} OrderBound(order: seq<nat>) returns (bound: nat)
    ensures Below(order, bound)
  {
    if order == [] { bound := 0; }
    else {
      var b := OrderBound(order[1..]);
      bound := if order[0] < b then b else order[0] + 1;
      forall i | 0 <= i < |order| ensures order[i] < bound { if i > 0 { assert order[1..][i - 1] < b; } }
    }
  }

  lemma {:induction false} CommonBound(ps: seq<Process>) returns (bound: nat)
    ensures forall p :: 0 <= p < |ps| ==> Below(ps[p].request.order, bound) && Below(ps[p].request.tags, bound)
  {
    if ps == [] { bound := 0; }
    else {
      var b := CommonBound(ps[1..]);
      var c := OrderBound(ps[0].request.order);
      var d := OrderBound(ps[0].request.tags);
      bound := b + c + d;
      forall p | 0 <= p < |ps| ensures Below(ps[p].request.order, bound) && Below(ps[p].request.tags, bound) {
        if p > 0 { assert ps[p] == ps[1..][p - 1]; }
      }
    }
  }

  /** What a trigger is kept waiting for is a counted target of a source being retired, and no
      source of its own merge. */
  lemma TriggerWaitIsOutside(s: State, p: Pid)
    requires Inv(s) && WaitsInTrigger(s, p)
    ensures var me := s.processes[p];
            && me.request.mode.Merge? && 1 <= me.flipped <= |me.request.order|
            && me.rest[0] in TargetsOf(s, me.request.order[me.flipped - 1]) && me.rest[0] !in me.request.order
  {
    var me := s.processes[p];
    assert OkAt(s, p) && me.rest[0] in me.rest;
    forall i | 0 <= i < |me.request.order| ensures me.request.order[i] != me.rest[0] { assert HoldsAt(s, p, me, i); }
  }

  /** With sources locked and tags inserted in sorted order, every deadlock has a merge in it whose
      trigger waits for a counted target, not among its own sources, of a source it retires. */
  lemma DeadlockNeedsTrigger(states: seq<State>, moves: seq<Move>, i: nat) returns (q: Pid)
    requires Run(states, moves) && Initial(states[0]) && AllSorted(states[0]) && i < |states| && Stuck(states[i])
    ensures WaitsInTrigger(states[i], q)
    ensures var me := states[i].processes[q];
            && me.request.mode.Merge? && 1 <= me.flipped <= |me.request.order|
            && me.rest[0] in TargetsOf(states[i], me.request.order[me.flipped - 1]) && me.rest[0] !in me.request.order
  {
    RunKeeps(states, moves, i);
    RequestsStay(states, moves, i);
    var bound := CommonBound(states[i].processes);
    var p: Pid :| p < |states[i].processes| && InTransaction(states[i].processes[p].stage);
    ChainMoves(states[i], p, bound);
    q :| WaitsInTrigger(states[i], q);
    TriggerWaitIsOutside(states[i], q);
  }

  // ------------------------------------------------------------ climbing triggers

  /** A counted target of a source, and no source itself. */
  ghost predicate Outside(s: State, order: seq<Id>, t: Id) {
    t !in order && exists j :: 0 <= j < |order| && t in TargetsOf(s, order[j])
  }

  /** Some source leads to `t` before any leads to `r`, or both are targets of the same one, whose
      trigger may come upon either first. */
  ghost predicate MayComeFirst(s: State, order: seq<Id>, t: Id, r: Id) {
    exists j :: 0 <= j < |order| && t in TargetsOf(s, order[j]) && forall i :: 0 <= i < j ==>
        r !in TargetsOf(s, order[i])
  }

  /** Whatever order the triggers choose, they update rows outside the sources only with ids above
      all of these, and in ascending order. */
  ghost predicate Climbs(s: State, order: seq<Id>) {
    && (forall t, i :: 0 <= i < |order| && Outside(s, order, t) ==> order[i] < t)
    && (forall t, r :: Outside(s, order, t) && Outside(s, order, r) && t != r && MayComeFirst(s, order, t, r) ==> t < r)
  }

  /** A merge of these sources under this key passes its checks. */
  ghost predicate Mergeable(s: State, order: seq<Id>, key: string) {
    && |order| >= 2 && Ascending(order)
    && (forall i :: 0 <= i < |order| ==> order[i] in s.homes && order[i] !in s.superseded)
    && (forall i :: 0 <= i < |order| ==> s.homes[order[i]] == s.homes[order[0]])
    && Slot(s.homes[order[0]], key) !in s.composed
  }

  ghost predicate AllMergesClimb(s: State) {
    forall order, key {:trigger Mergeable(s, order, key)} :: Mergeable(s, order, key) ==> Climbs(s, order)
  }

  ghost predicate ShareSource(a: Request, b: Request) {
    exists x :: x in a.order && x in b.order
  }

  ghost predicate ShareTag(a: Request, b: Request) {
    exists x :: x in a.tags && x in b.tags
  }

  ghost predicate ApartRequests(a: Request, b: Request) {
    !ShareTag(a, b) && (a.key == b.key ==> ShareSource(a, b))
  }

  /** No two requests insert the same tag, and a key says what the sources are. */
  ghost predicate NoSharing(s: State) {
    forall p: Pid, q: Pid :: p < |s.processes| && q < |s.processes| && p != q ==>
        ApartRequests(s.processes[p].request, s.processes[q].request)
  }

  /** Two or more sources, in order, of memories that exist or have existed. */
  ghost predicate KnownRequest(s: State, r: Request) {
    |r.order| >= 2 && Sorted(r) && forall x :: x in r.order ==> x in s.issued
  }

  ghost predicate KnownRequests(s: State) {
    forall p: Pid :: p < |s.processes| ==> KnownRequest(s, s.processes[p].request)
  }

  // ------------------------------------------------------------ what composes leave alone

  /** Of the memories there before, none has moved, left superseded or changed its counted targets. */
  ghost predicate Grew(s: State, t: State) {
    && s.issued <= t.issued && s.homes.Keys <= t.homes.Keys
    && (forall id :: id in t.homes && id in s.issued ==> id in s.homes && t.homes[id] == s.homes[id])
    && (forall id :: id in s.homes ==> TargetsOf(t, id) == TargetsOf(s, id))
    && s.superseded.Keys <= t.superseded.Keys && s.composed.Keys <= t.composed.Keys
  }

  /** And the memories being made are none of them. */
  ghost predicate PendingNew(s: State, t: State) {
    forall p: Pid :: p < |t.processes| && t.processes[p].stage.Claimed? ==> t.processes[p].made.id !in s.issued
  }

  lemma CommitGrows(s: State, t: State, p: Pid)
    requires Inv(s) && Inv(t) && Grew(s, t) && PendingNew(s, t) && Enabled(t, p, Commit)
    ensures Grew(s, Publish(t, p))
  {
    CommitAddsOne(t, p);
    CommitTables(t, p);
    var u, id := Publish(t, p), t.processes[p].made.id;
    assert u.issued == t.issued && id !in s.issued;
    forall x | x in s.homes ensures TargetsOf(u, x) == TargetsOf(s, x) { assert x != id; }
  }

  lemma PendingStaysNew(s: State, t: State, p: Pid, a: Action)
    requires Inv(t) && s.issued <= t.issued && PendingNew(s, t) && Enabled(t, p, a)
    ensures PendingNew(s, Perform(t, p, a))
  {
    var u := Perform(t, p, a);
    StepShape(t, p, a);
    forall q: Pid | q < |u.processes| && u.processes[q].stage.Claimed? ensures u.processes[q].made.id !in s.issued {
      if q != p { assert u.processes[q] == t.processes[q]; }
    }
  }

  /** A step leaves the other processes as they are, and its own composition is new or as before. */
  ghost predicate Moves(t: State, u: State, p: Pid)
    requires p < |t.processes|
  {
    && |u.processes| == |t.processes|
    && (forall q: Pid :: q < |t.processes| && q != p ==> u.processes[q] == t.processes[q])
    && (u.processes[p].stage.Claimed? ==>
          (t.processes[p].stage.Claimed? && u.processes[p].made == t.processes[p].made)
            || u.processes[p].made.id !in t.issued)
  }

  lemma FormShape(t: State, p: Pid, me: Process)
    requires p < |t.processes|
    requires me.stage.Claimed? ==>
               (t.processes[p].stage.Claimed? && me.made == t.processes[p].made) || me.made.id !in t.issued
    ensures Moves(t, With(t, p, me), p) && Moves(t, Finished(t, p, me), p)
  {}

  lemma ReplayShape(t: State, p: Pid, me: Process)
    requires p < |t.processes| && SlotOf(me) in t.composed
    ensures Moves(t, Replay(t, p, me), p)
  {
    FormShape(t, p, me.(stage := Raised));
    FormShape(t, p, me.(stage := Replied, made := t.composed[SlotOf(me)]));
  }

  lemma LookShape(t: State, p: Pid)
    requires p < |t.processes|
    ensures Moves(t, Look(t, p), p)
  {
    var me := t.processes[p];
    FormShape(t, p, me.(stage := Raised));
    if !me.missing && me.request.order != [] && me.request.order[0] in t.homes {
      var found := me.(env := t.homes[me.request.order[0]]);
      if SlotOf(found) in t.composed { ReplayShape(t, p, found); } else { FormShape(t, p, found.(stage := Missed)); }
    }
  }

  lemma PublishShape(t: State, p: Pid)
    requires p < |t.processes|
    ensures Moves(t, Publish(t, p), p)
  {
    FormShape(t, p, t.processes[p].(stage := Replied));
  }

  lemma StepShape(t: State, p: Pid, a: Action)
    requires Enabled(t, p, a)
    ensures Moves(t, Perform(t, p, a), p)
  {
    var me := t.processes[p];
    match a
    case Lock => TakingShape(t, p);
    case LookUp => LookShape(t, p);
    case Claim(id) => if SlotOf(me) in t.composed { ReplayShape(t, p, me); } else { ClaimShape(t, p, id); }
    case InsertTag => TaggingShape(t, p);
    case Flip(order) => FormShape(t, p, me.(flipped := me.flipped + 1, rest := order));
    case Touch => TouchingShape(t, p);
    case Commit => PublishShape(t, p);
    case Abort => FormShape(t, p, me.(stage := Raised));
  }

  lemma ClaimShape(t: State, p: Pid, id: Id)
    requires p < |t.processes| && id !in t.issued
    ensures Moves(t, Claiming(t, p, id), p)
  {
    var me := t.processes[p];
    FormShape(t, p, me.(stage := Claimed, made := Composition(id, me.request.mode, me.request.order),
                        tagged := 0, flipped := 0, rest := [], touched := {}));
  }

  lemma StepGrows(s: State, t: State, p: Pid, a: Action)
    requires Inv(s) && Inv(t) && Grew(s, t) && PendingNew(s, t) && Enabled(t, p, a)
    ensures Grew(s, Perform(t, p, a)) && PendingNew(s, Perform(t, p, a))
  {
    PendingStaysNew(s, t, p, a);
    if a.Commit? { CommitGrows(s, t, p); } else { OnlyCommitWrites(t, p, a); }
  }

  lemma {:induction false} RunGrows(states: seq<State>, moves: seq<Move>, i: nat)
    requires Run(states, moves) && Initial(states[0]) && i < |states|
    ensures Grew(states[0], states[i]) && PendingNew(states[0], states[i])
  {
    if i > 0 {
      RunGrows(states, moves, i - 1);
      RunKeeps(states, moves, i - 1);
      RunKeeps(states, moves, 0);
      assert StepAt(states[i - 1], moves[i - 1], states[i]);
      StepGrows(states[0], states[i - 1], moves[i - 1].p, moves[i - 1].action);
    }
  }

  lemma ClimbsSame(s: State, t: State, order: seq<Id>)
    requires Climbs(s, order) && forall i :: 0 <= i < |order| ==> TargetsOf(t, order[i]) == TargetsOf(s, order[i])
    ensures Climbs(t, order)
  {
    forall x | Outside(t, order, x) ensures Outside(s, order, x) {
      var j :| 0 <= j < |order| && x in TargetsOf(t, order[j]);
      assert x in TargetsOf(s, order[j]);
    }
    forall x, y | MayComeFirst(t, order, x, y) ensures MayComeFirst(s, order, x, y) {
      var j :| 0 <= j < |order| && x in TargetsOf(t, order[j]) && forall i :: 0 <= i < j ==>
          y !in TargetsOf(t, order[i]);
      assert x in TargetsOf(s, order[j]);
    }
  }

  /** A merge that has claimed its key was possible at the start already, with the same targets. */
  lemma ClaimedMergeable(states: seq<State>, moves: seq<Move>, i: nat, p: Pid)
    requires Run(states, moves) && Initial(states[0]) && KnownRequests(states[0])
    requires i < |states| && p < |states[i].processes| && states[i].processes[p].stage.Claimed?
    ensures Mergeable(states[0], states[i].processes[p].request.order, states[i].processes[p].request.key)
    ensures forall j :: 0 <= j < |states[i].processes[p].request.order| ==>
              TargetsOf(states[i], states[i].processes[p].request.order[j]) ==
                TargetsOf(states[0], states[i].processes[p].request.order[j])
  {
    RunGrows(states, moves, i);
    RunKeeps(states, moves, i);
    RequestsStay(states, moves, i);
    var s, t := states[0], states[i];
    var me := t.processes[p];
    assert OkAt(t, p) && KnownRequest(s, s.processes[p].request);
    forall j | 0 <= j < |me.request.order|
      ensures me.request.order[j] in s.homes && s.homes[me.request.order[j]] == me.env
              && me.request.order[j] !in s.superseded
    {
      assert SourceOk(t, me, me.request.order[j]) && me.request.order[j] in me.request.order;
    }
  }

  /** Where no possible merge has a counted target outside its sources, composes never deadlock,
      whatever keys and tags they share. */
  lemma NeverDeadlocked(states: seq<State>, moves: seq<Move>, i: nat)
    requires Run(states, moves) && Initial(states[0]) && KnownRequests(states[0])
    requires forall order, key {:trigger Mergeable(states[0], order, key)} ::
               Mergeable(states[0], order, key) ==> forall t :: !Outside(states[0], order, t)
    requires i < |states|
    ensures !Stuck(states[i])
  {
    if Stuck(states[i]) {
      forall p: Pid | p < |states[0].processes| ensures Sorted(states[0].processes[p].request) {
        assert KnownRequest(states[0], states[0].processes[p].request);
      }
      var q := DeadlockNeedsTrigger(states, moves, i);
      ClaimedMergeable(states, moves, i, q);
      var me := states[i].processes[q];
      assert me.rest[0] in TargetsOf(states[0], me.request.order[me.flipped - 1]);
      assert Outside(states[0], me.request.order, me.rest[0]);
    }
  }

  // ------------------------------------------------------------ climbing merges do not deadlock

  /** The row the process is kept waiting for. */
  ghost predicate WaitsForRow(s: State, p: Pid, x: Id) {
    && p < |s.processes| && x in s.locks && s.locks[x] != p
    && var me := s.processes[p];
       || (me.stage.Locking? && me.next < |me.request.order| && me.request.order[me.next] == x)
       || (Tagged(me) && me.rest != [] && me.rest[0] == x)
  }

  ghost predicate MergesClimb(s: State) {
    forall p: Pid :: p < |s.processes| && s.processes[p].stage.Claimed? && s.processes[p].request.mode.Merge? ==>
        Climbs(s, s.processes[p].request.order)
  }

  /** A process with rows to wait for waits for one above all it holds. */
  lemma WaitsAbove(s: State, q: Pid, x: Id, y: Id)
    requires Inv(s) && AllSorted(s) && MergesClimb(s) && x in s.locks && s.locks[x] == q && WaitsForRow(s, q, y)
    ensures x < y
  {
    var me := s.processes[q];
    if me.stage.Locking? { LockedBefore(s, q, x); } else { TriggerWaitsAbove(s, q, x); }
  }

  lemma TriggerWaitsAbove(s: State, q: Pid, x: Id)
    requires Inv(s) && MergesClimb(s) && x in s.locks && s.locks[x] == q && WaitsInTrigger(s, q)
    ensures x < s.processes[q].rest[0]
  {
    var me := s.processes[q];
    var order, y := me.request.order, me.rest[0];
    TriggerWaitIsOutside(s, q);
    assert LockOk(s, x) && OkAt(s, q);
    assert Outside(s, order, y);
    if x in order {
      var i :| 0 <= i < |order| && order[i] == x;
    } else {
      assert x in me.touched && TouchedOk(s, q, me, x);
      assert y in me.touched ==> TouchedOk(s, q, me, y);
      var j :| 0 <= j < me.flipped && j < |order| && x in TargetsOf(s, order[j]);
      forall i | 0 <= i < j ensures y !in TargetsOf(s, order[i]) {
        assert FlipDone(s, me, i);
      }
      assert MayComeFirst(s, order, x, y);
    }
  }

  /** Where nothing is shared, a process that waits for no row can move. */
  lemma RowsFreeMoves(s: State, q: Pid)
    requires Inv(s) && AllSorted(s) && NoSharing(s) && q < |s.processes| && InTransaction(s.processes[q].stage)
    requires forall y :: !WaitsForRow(s, q, y)
    ensures CanMove(s)
  {
    var me := s.processes[q];
    assert OkAt(s, q);
    if me.stage.Locking? {
      if me.next == |me.request.order| { assert Enabled(s, q, LookUp); }
      else {
        forall x | x in s.locks && s.locks[x] == q ensures x < me.request.order[me.next] { LockedBefore(s, q, x); }
        assert !WaitsForRow(s, q, me.request.order[me.next]);
        assert Enabled(s, q, Lock);
      }
    } else if me.stage.Missed? {
      KeyIsFree(s, q);
      var id := FreshId(s.issued);
      assert Enabled(s, q, Claim(id));
    } else if !Tagged(me) {
      TagIsFree(s, q);
      assert Enabled(s, q, InsertTag);
    } else {
      assert me.rest != [] ==> !WaitsForRow(s, q, me.rest[0]);
      TaggedMoves(s, q);
    }
  }

  lemma LockedBefore(s: State, q: Pid, x: Id)
    requires Inv(s) && q < |s.processes| && s.processes[q].stage.Locking?
             && s.processes[q].next < |s.processes[q].request.order|
    requires Ascending(s.processes[q].request.order) && x in s.locks && s.locks[x] == q
    ensures x < s.processes[q].request.order[s.processes[q].next]
  {
    var me := s.processes[q];
    assert LockOk(s, x);
    var i :| 0 <= i < me.next && me.request.order[..me.next][i] == x;
    assert me.request.order[i] < me.request.order[me.next];
  }

  lemma KeyIsFree(s: State, q: Pid)
    requires Inv(s) && NoSharing(s) && q < |s.processes| && s.processes[q].stage.Missed?
    ensures SlotOf(s.processes[q]) !in s.claims
  {
    if SlotOf(s.processes[q]) in s.claims {
      assert ClaimOk(s, SlotOf(s.processes[q]));
      var r := s.claims[SlotOf(s.processes[q])];
      assert ApartRequests(s.processes[q].request, s.processes[r].request);
      var x :| x in s.processes[q].request.order && x in s.processes[r].request.order;
      SourcesApart(s, q, r, x);
    }
  }

  lemma TagIsFree(s: State, q: Pid)
    requires Inv(s) && NoSharing(s) && q < |s.processes| && s.processes[q].stage.Claimed?
             && s.processes[q].tagged < |s.processes[q].request.tags|
    ensures NextTag(s.processes[q]) in s.tagClaims ==> s.tagClaims[NextTag(s.processes[q])] == q
  {
    var me := s.processes[q];
    var k := NextTag(me);
    assert k.name in me.request.tags;
    forall r: Pid | r < |s.processes| && r != q ensures k.name !in s.processes[r].request.tags {
      OtherHasNoTag(s, q, r, k.name);
    }
    assert k in s.tagClaims ==> TagClaimOk(s, k);
  }

  lemma OtherHasNoTag(s: State, q: Pid, r: Pid, x: nat)
    requires NoSharing(s) && q < |s.processes| && r < |s.processes| && q != r && x in s.processes[q].request.tags
    ensures x !in s.processes[r].request.tags
  {
    assert ApartRequests(s.processes[q].request, s.processes[r].request);
  }

  /** Waits for rows climb to one that can move. */
  lemma {:induction false} ClimbMoves(s: State, p: Pid, bound: nat)
    requires Inv(s) && AllSorted(s) && NoSharing(s) && MergesClimb(s) && p < |s.processes|
             && InTransaction(s.processes[p].stage)
    requires forall id :: id in s.locks ==> id < bound
    ensures CanMove(s)
    decreases if exists x :: WaitsForRow(s, p, x) then bound - TheRow(s, p) else bound + 1
  {
    if exists x :: WaitsForRow(s, p, x) {
      var x := TheRow(s, p);
      assert LockOk(s, x);
      var q := s.locks[x];
      if exists y :: WaitsForRow(s, q, y) {
        WaitsAbove(s, q, x, TheRow(s, q));
        ClimbMoves(s, q, bound);
      } else {
        RowsFreeMoves(s, q);
      }
    } else {
      RowsFreeMoves(s, p);
    }
  }

  ghost function TheRow(s: State, p: Pid): (x: Id)
    requires exists x :: WaitsForRow(s, p, x)
    ensures WaitsForRow(s, p, x)
  {
    var x :| WaitsForRow(s, p, x);
    x
  }

  /** Where all possible merges climb, composes that share no key and no new tag never get stuck. */
  lemma ClimbingNeverStuck(states: seq<State>, moves: seq<Move>, i: nat)
    requires Run(states, moves) && Initial(states[0]) && KnownRequests(states[0]) && NoSharing(states[0])
             && AllMergesClimb(states[0])
    requires i < |states|
    ensures !Stuck(states[i])
  {
    var s := states[i];
    RunKeeps(states, moves, i);
    RequestsStay(states, moves, i);
    forall p: Pid | p < |s.processes| ensures Sorted(s.processes[p].request) {
      assert KnownRequest(states[0], states[0].processes[p].request);
    }
    forall p: Pid, q: Pid | p < |s.processes| && q < |s.processes| && p != q
      ensures ApartRequests(s.processes[p].request, s.processes[q].request)
    {
      assert ApartRequests(states[0].processes[p].request, states[0].processes[q].request);
    }
    forall p: Pid | p < |s.processes| && s.processes[p].stage.Claimed? && s.processes[p].request.mode.Merge?
      ensures Climbs(s, s.processes[p].request.order)
    {
      ClaimedMergeable(states, moves, i, p);
      ClimbsSame(states[0], s, s.processes[p].request.order);
    }
    if p: Pid :| p < |s.processes| && InTransaction(s.processes[p].stage) {
      var bound := FreshId(s.locks.Keys);
      ClimbMoves(s, p, bound);
    }
  }

  // ------------------------------------------------------------ a merge that does not climb deadlocks

  /** The request as a process that has not begun. */
  function Begun(r: Request): Process {
    Process(r, Locking, 0, false, 0, Composition(0, r.mode, []), 0, 0, [], {})
  }

  ghost predicate Starts(s: State, ps: seq<Process>) {
    && (forall p :: 0 <= p < |ps| ==> ps[p] == Begun(ps[p].request) && KnownRequest(s, ps[p].request))
    && NoSharing(s.(processes := ps))
  }

  ghost predicate RunsTo(s: State, states: seq<State>, moves: seq<Move>) {
    Run(states, moves) && states[0] == s
  }

  /** From these tables some concurrent composes can get stuck. */
  ghost predicate CanDeadlock(s: State) {
    exists ps, states, moves :: Starts(s, ps) && RunsTo(s.(processes := ps), states, moves) && Stuck(states[|moves|])
  }

  /** Process 0 is a merge alone with process 1, which has the row `x` and does nothing. */
  ghost predicate Alone(s: State, u: State, x: Id) {
    && Inv(u) && |u.processes| == 2 && SameRows(s, u)
    && u.processes[1].stage.Locking? && u.processes[1].next == 1
    && x in u.locks && u.locks[x] == 1
    && (forall id :: id in u.locks && id != x ==> u.locks[id] == 0)
    && (forall k :: k in u.claims ==> u.claims[k] == 0)
  }

  ghost predicate SameRows(s: State, u: State) {
    u.homes == s.homes && u.targets == s.targets && u.superseded == s.superseded && u.composed == s.composed
  }

  /** What there is to know of process 0: its sources, none of them `x`, and the orders in which its
      triggers are going to update their targets, `x` last in that of source `k` and in none before. */
  ghost predicate Planned(s: State, u: State, x: Id, plan: seq<seq<Id>>, k: nat)
    requires |u.processes| == 2
  {
    var me := u.processes[0];
    var order := me.request.order;
    && Mergeable(s, order, me.request.key) && me.request.mode.Merge? && me.request.tags == [] && x !in order
    && |plan| == |order| && k < |order| && InTransaction(me.stage) && !me.missing
    && (forall j :: 0 <= j < |order| ==> Lists(plan[j], TargetsOf(s, order[j])))
    && x in plan[k] && plan[k][|plan[k]| - 1] == x && (forall j :: 0 <= j < k ==> x !in plan[j])
    && (me.stage.Claimed? ==> OnPlan(me, x, plan, k))
    && (me.stage.Missed? || me.stage.Claimed? ==> me.env == s.homes[order[0]])
  }

  ghost predicate OnPlan(me: Process, x: Id, plan: seq<seq<Id>>, k: nat)
    requires k < |plan|
  {
    && me.flipped <= k + 1 && (me.flipped == k + 1 ==> me.rest != [] && me.rest[|me.rest| - 1] == x)
    && (me.flipped <= k ==> x !in me.rest)
    && (forall i, j :: 0 <= i < j < |me.rest| ==> me.rest[i] != me.rest[j])
  }

  /** The merge has come to `x`. */
  ghost predicate Arrived(u: State, x: Id)
    requires |u.processes| == 2
  {
    u.processes[0].stage.Claimed? && u.processes[0].rest == [x]
  }

  ghost function Ahead(u: State, plan: seq<seq<Id>>): nat
    requires |u.processes| == 2
  {
    var me := u.processes[0];
    if me.stage.Locking? && me.next <= |me.request.order| then |me.request.order| - me.next else |me.rest|
  }

  ghost function Phase(u: State, k: nat): nat
    requires |u.processes| == 2
  {
    var me := u.processes[0];
    if me.stage.Locking? then k + 4 else if me.stage.Missed? then k + 3
      else if me.flipped <= k + 1 then k + 1 - me.flipped else 0
  }

  /** The next statement of the merge on its way, and where it leads. */
  lemma NextOnWay(s: State, u: State, x: Id, plan: seq<seq<Id>>, k: nat) returns (a: Action)
    requires Alone(s, u, x) && Planned(s, u, x, plan, k) && !Arrived(u, x)
    ensures Enabled(u, 0, a) && !a.Commit? && !a.Abort?
    ensures var v := Perform(u, 0, a);
            && Alone(s, v, x) && Planned(s, v, x, plan, k) && v.processes[1] == u.processes[1]
            && v.processes[0].request == u.processes[0].request
            && (Phase(v, k) < Phase(u, k) || (Phase(v, k) == Phase(u, k) && Ahead(v, plan) < Ahead(u, plan)))
  {
    var me := u.processes[0];
    if me.stage.Locking? && me.next < |me.request.order| { a := LockOnWay(s, u, x, plan, k); }
    else if me.stage.Locking? { a := LookOnWay(s, u, x, plan, k); }
    else if me.stage.Missed? { a := ClaimOnWay(s, u, x, plan, k); }
    else if me.rest == [] { a := FlipOnWay(s, u, x, plan, k); }
    else { a := TouchOnWay(s, u, x, plan, k); }
  }

  lemma LockOnWay(s: State, u: State, x: Id, plan: seq<seq<Id>>, k: nat) returns (a: Action)
    requires Alone(s, u, x) && Planned(s, u, x, plan, k)
    requires u.processes[0].stage.Locking? && u.processes[0].next < |u.processes[0].request.order|
    ensures a == Lock && Enabled(u, 0, a)
    ensures var v := Perform(u, 0, a);
            && Alone(s, v, x) && Planned(s, v, x, plan, k) && v.processes[1] == u.processes[1]
            && v.processes[0] == u.processes[0].(next := u.processes[0].next + 1)
  {
    a := Lock;
    var me := u.processes[0];
    var id := me.request.order[me.next];
    assert id in me.request.order && id != x;
    forall y | y in u.locks && u.locks[y] == 0 ensures y < id { LockedBefore(u, 0, y); }
    TakingShape(u, 0);
    LockKeeps(u, 0);
    TakingWritesNothing(u, 0);
    assert Taking(u, 0).processes[0] == me.(next := me.next + 1);
  }

  lemma LookOnWay(s: State, u: State, x: Id, plan: seq<seq<Id>>, k: nat) returns (a: Action)
    requires Alone(s, u, x) && Planned(s, u, x, plan, k)
    requires u.processes[0].stage.Locking? && u.processes[0].next >= |u.processes[0].request.order|
    ensures a == LookUp && Enabled(u, 0, a)
    ensures var v := Perform(u, 0, a);
            && Alone(s, v, x) && Planned(s, v, x, plan, k) && v.processes[1] == u.processes[1]
            && v.processes[0].stage.Missed? && v.processes[0].request == u.processes[0].request
  {
    a := LookUp;
    var me := u.processes[0];
    assert OkAt(u, 0);
    LookKeeps(u, 0);
    var found := me.(env := u.homes[me.request.order[0]]);
    assert Composable(u, found);
    WithShape(u, 0, found.(stage := Missed));
  }

  lemma ClaimOnWay(s: State, u: State, x: Id, plan: seq<seq<Id>>, k: nat) returns (a: Action)
    requires Alone(s, u, x) && Planned(s, u, x, plan, k) && u.processes[0].stage.Missed?
    ensures a.Claim? && Enabled(u, 0, a)
    ensures var v := Perform(u, 0, a);
            && Alone(s, v, x) && Planned(s, v, x, plan, k) && v.processes[1] == u.processes[1]
            && v.processes[0].stage.Claimed? && v.processes[0].flipped == 0
            && v.processes[0].request == u.processes[0].request
  {
    var id := FreshId(u.issued);
    a := Claim(id);
    var me := u.processes[0];
    assert SlotOf(me) in u.claims ==> ClaimOk(u, SlotOf(me));
    ClaimKeeps(u, 0, id);
  }

  lemma FlipOnWay(s: State, u: State, x: Id, plan: seq<seq<Id>>, k: nat) returns (a: Action)
    requires Alone(s, u, x) && Planned(s, u, x, plan, k) && u.processes[0].stage.Claimed? && u.processes[0].rest == []
    ensures a.Flip? && Enabled(u, 0, a)
    ensures var v := Perform(u, 0, a);
            && Alone(s, v, x) && Planned(s, v, x, plan, k) && v.processes[1] == u.processes[1]
            && v.processes[0] ==
              u.processes[0].(flipped := u.processes[0].flipped + 1, rest := plan[u.processes[0].flipped])
  {
    var me := u.processes[0];
    a := Flip(plan[me.flipped]);
    FlipKeeps(u, 0, plan[me.flipped]);
    WithShape(u, 0, me.(flipped := me.flipped + 1, rest := plan[me.flipped]));
  }

  lemma TouchOnWay(s: State, u: State, x: Id, plan: seq<seq<Id>>, k: nat) returns (a: Action)
    requires Alone(s, u, x) && Planned(s, u, x, plan, k) && !Arrived(u, x)
    requires u.processes[0].stage.Claimed? && u.processes[0].rest != []
    ensures a == Touch && Enabled(u, 0, a)
    ensures var v := Perform(u, 0, a);
            && Alone(s, v, x) && Planned(s, v, x, plan, k) && v.processes[1] == u.processes[1]
            && v.processes[0] ==
              u.processes[0].(rest := u.processes[0].rest[1..],
                              touched := u.processes[0].touched + {u.processes[0].rest[0]})
  {
    a := Touch;
    var me := u.processes[0];
    NotYetThere(me, x, plan, k);
    TouchingShape(u, 0);
    TouchKeeps(u, 0);
  }

  lemma NotYetThere(me: Process, x: Id, plan: seq<seq<Id>>, k: nat)
    requires k < |plan| && OnPlan(me, x, plan, k) && me.rest != [] && me.rest != [x]
    ensures me.rest[0] != x
    ensures OnPlan(me.(rest := me.rest[1..], touched := me.touched + {me.rest[0]}), x, plan, k)
  {
    if |me.rest| == 1 { assert me.rest == [me.rest[0]]; }
  }

  /** So the merge comes to `x`. */
  lemma {:induction false} ComesToWait(s: State, u: State, x: Id, plan: seq<seq<Id>>, k: nat)
    returns (states: seq<State>, moves: seq<Move>)
    requires Alone(s, u, x) && Planned(s, u, x, plan, k)
    ensures RunsTo(u, states, moves)
    ensures var v := states[|moves|];
            && Alone(s, v, x) && Planned(s, v, x, plan, k) && Arrived(v, x)
            && v.processes[1] == u.processes[1] && v.processes[0].request == u.processes[0].request
    decreases Phase(u, k), Ahead(u, plan)
  {
    if Arrived(u, x) { states, moves := [u], []; }
    else {
      var a := NextOnWay(s, u, x, plan, k);
      var m := Move(0, a);
      var rest, after := ComesToWait(s, Perform(u, 0, a), x, plan, k);
      states, moves := [u] + rest, [m] + after;
      Prepended(u, m, rest, after);
    }
  }

  lemma Prepended(u: State, m: Move, states: seq<State>, moves: seq<Move>)
    requires Run(states, moves) && StepAt(u, m, states[0])
    ensures RunsTo(u, [u] + states, [m] + moves)
  {
    var all, turns := [u] + states, [m] + moves;
    forall i | 0 <= i < |turns| ensures StepAt(all[i], turns[i], all[i + 1]) {
      if i > 0 { assert StepAt(states[i - 1], moves[i - 1], states[i]); }
    }
  }

  /** By then it has its sources, and all that its triggers were to update before `x`. */
  lemma HeldOnArrival(s: State, u: State, x: Id, plan: seq<seq<Id>>, k: nat, y: Id)
    requires Alone(s, u, x) && Planned(s, u, x, plan, k) && Arrived(u, x) && y != x
    requires y in u.processes[0].request.order
             || exists j :: 0 <= j <= k && y in TargetsOf(s, u.processes[0].request.order[j])
    ensures y in u.locks && u.locks[y] == 0
  {
    var me := u.processes[0];
    assert OkAt(u, 0);
    if y in me.request.order {
      var i :| 0 <= i < |me.request.order| && me.request.order[i] == y;
      assert HoldsAt(u, 0, me, i);
    } else {
      var j :| 0 <= j <= k && y in TargetsOf(s, me.request.order[j]);
      assert FlipDone(u, me, j);
      assert TouchedOk(u, 0, me, y);
    }
  }

  lemma ArrivedIsStuck(s: State, u: State, x: Id, y: Id)
    requires Alone(s, u, x) && Arrived(u, x) && u.processes[0].request.tags == []
    requires u.processes[1].request.order == [x, y] && y in u.locks
    ensures Stuck(u)
  {
    forall p, a | Enabled(u, p, a) ensures a.Abort? {
      assert p == 0 || p == 1;
    }
  }

  lemma {:induction false} PlanExists(s: State, order: seq<Id>, x: Id, n: nat) returns (plan: seq<seq<Id>>)
    requires n <= |order|
    ensures |plan| == n
    ensures forall j :: 0 <= j < n ==>
              Lists(plan[j], TargetsOf(s, order[j]))
                && (x in TargetsOf(s, order[j]) ==> plan[j] != [] && plan[j][|plan[j]| - 1] == x)
  {
    plan := [];
    if n > 0 {
      plan := PlanExists(s, order, x, n - 1);
      var ids := TargetsOf(s, order[n - 1]);
      var others := ListingExists(ids - {x});
      plan := plan + [if x in ids then others + [x] else others];
    }
  }

  lemma {:induction false} FirstSource(s: State, order: seq<Id>, x: Id, n: nat) returns (k: nat)
    requires n <= |order| && exists j :: 0 <= j < n && x in TargetsOf(s, order[j])
    ensures k < n && x in TargetsOf(s, order[k]) && forall j :: 0 <= j < k ==> x !in TargetsOf(s, order[j])
  {
    if exists j :: 0 <= j < n - 1 && x in TargetsOf(s, order[j]) {
      k := FirstSource(s, order, x, n - 1);
    } else {
      k := n - 1;
    }
  }

  /** The merge, and a promotion of two memories under another key. */
  function MergeAndPromotion(order: seq<Id>, key: string, x: Id, y: Id): seq<Process> {
    [Begun(Request(order, Merge, key, [])), Begun(Request([x, y], Promote, key + "+", []))]
  }

  lemma PairStarts(s: State, order: seq<Id>, key: string, x: Id, y: Id)
    requires TablesOk(s) && Mergeable(s, order, key) && x in s.homes && y in s.homes && x < y
    ensures Starts(s, MergeAndPromotion(order, key, x, y))
  {
    forall z | z in order ensures z in s.issued {}
    assert key + "+" != key;
  }

  /** Process 1 takes its first row before the merge has begun. */
  lemma RowTaken(s: State, order: seq<Id>, key: string, x: Id, y: Id) returns (u: State)
    requires Initial(s) && s.processes == [] && Mergeable(s, order, key) && x in s.homes && x < y
    ensures var u0 := s.(processes := MergeAndPromotion(order, key, x, y));
            && Initial(u0) && Enabled(u0, 1, Lock) && u == Perform(u0, 1, Lock)
            && Alone(s, u, x) && u.processes[0] == u0.processes[0] && u.processes[1].request == u0.processes[1].request
  {
    var u0 := s.(processes := MergeAndPromotion(order, key, x, y));
    assert TablesOk(u0) by {
      forall c | c in u0.composed ensures ComposedOk(u0, c) { assert ComposedOk(s, c); }
      forall r | r in u0.superseded ensures SupersededOk(u0, r) { assert SupersededOk(s, r); }
    }
    RunKeeps([u0], [], 0);
    u := Taking(u0, 1);
    TakingShape(u0, 1);
    LockKeeps(u0, 1);
    TakingWritesNothing(u0, 1);
  }

  /** A merge and a promotion that has a target of it first and wants a row it comes to before. */
  lemma Collide(s: State, order: seq<Id>, key: string, x: Id, y: Id)
    returns (ps: seq<Process>, states: seq<State>, moves: seq<Move>)
    requires Initial(s) && s.processes == [] && Mergeable(s, order, key) && Outside(s, order, x) && x < y
             && y in s.homes
    requires y in order || (Outside(s, order, y) && MayComeFirst(s, order, y, x))
    ensures ps == MergeAndPromotion(order, key, x, y)
    ensures Starts(s, ps) && RunsTo(s.(processes := ps), states, moves) && Stuck(states[|moves|])
  {
    ps := MergeAndPromotion(order, key, x, y);
    assert x in s.homes;
    PairStarts(s, order, key, x, y);
    var u := RowTaken(s, order, key, x, y);
    var later, turns := MeetsPromotion(s, order, key, x, y, u);
    Prepended(s.(processes := ps), Move(1, Lock), later, turns);
    states, moves := [s.(processes := ps)] + later, [Move(1, Lock)] + turns;
  }

  lemma MeetsPromotion(s: State, order: seq<Id>, key: string, x: Id, y: Id, u: State)
    returns (states: seq<State>, moves: seq<Move>)
    requires Mergeable(s, order, key) && Outside(s, order, x) && x != y
    requires y in order || (Outside(s, order, y) && MayComeFirst(s, order, y, x))
    requires Alone(s, u, x) && u.processes[0] == Begun(Request(order, Merge, key, []))
             && u.processes[1].request.order == [x, y]
    ensures RunsTo(u, states, moves) && Stuck(states[|moves|])
  {
    var k := FirstSource(s, order, x, |order|);
    var plan := PlanExists(s, order, x, |order|);
    assert Planned(s, u, x, plan, k);
    states, moves := ComesToWait(s, u, x, plan, k);
    HeldOnArrival(s, states[|moves|], x, plan, k, y);
    ArrivedIsStuck(s, states[|moves|], x, y);
  }

  lemma NotClimbingDeadlocks(s: State, order: seq<Id>, key: string)
    requires Initial(s) && s.processes == [] && Mergeable(s, order, key) && !Climbs(s, order)
    ensures CanDeadlock(s)
  {
    if t, i :| 0 <= i < |order| && Outside(s, order, t) && !(order[i] < t) {
      var ps, states, moves := Collide(s, order, key, t, order[i]);
    } else {
      var t, r :| Outside(s, order, t) && Outside(s, order, r) && t != r && MayComeFirst(s, order, t, r) && !(t < r);
      var ps, states, moves := Collide(s, order, key, r, t);
    }
  }

  /** From given tables, composes that share no key and no new tag can deadlock exactly when some
      possible merge does not climb: a trigger of it may update a row outside its sources with an
      id below a row it has then. */
  lemma DeadlockExactly(s: State)
    requires Initial(s) && s.processes == []
    ensures CanDeadlock(s) <==> !AllMergesClimb(s)
  {
    if CanDeadlock(s) {
      var ps, states, moves :| Starts(s, ps) && RunsTo(s.(processes := ps), states, moves) && Stuck(states[|moves|]);
      StartsInitial(s, ps);
      if AllMergesClimb(s) {
        forall order, key | Mergeable(states[0], order, key) ensures Climbs(states[0], order) {
          assert Mergeable(s, order, key);
          ClimbsSame(s, states[0], order);
        }
        ClimbingNeverStuck(states, moves, |moves|);
      }
    }
    if !AllMergesClimb(s) {
      var order, key :| Mergeable(s, order, key) && !Climbs(s, order);
      NotClimbingDeadlocks(s, order, key);
    }
  }

  lemma StartsInitial(s: State, ps: seq<Process>)
    requires Initial(s) && Starts(s, ps)
    ensures Initial(s.(processes := ps)) && KnownRequests(s.(processes := ps))
  {
    var u := s.(processes := ps);
    forall c | c in u.composed ensures ComposedOk(u, c) { assert ComposedOk(s, c); }
    forall r | r in u.superseded ensures SupersededOk(u, r) { assert SupersededOk(s, r); }
    forall p | 0 <= p < |ps| ensures KnownRequest(u, ps[p].request) { assert KnownRequest(s, ps[p].request); }
  }

  /** With all sources and tags in order: memory 5 was promoted from memory 1, the merge of 5 and 6
      retires 5 and its trigger turns to row 1, which a promotion of 1 and 5 has, waiting for 5. */
  lemma TriggerCanDeadlock() returns (states: seq<State>, moves: seq<Move>)
    ensures Run(states, moves) && Initial(states[0]) && AllSorted(states[0]) && NoSharing(states[0])
            && Stuck(states[|moves|])
    ensures states[0].targets == map[5 := {1}] && |states[0].processes| == 2
    ensures states[0].processes[0].request.order == [5, 6] && states[0].processes[0].request.mode.Merge?
    ensures states[0].processes[1].request.order == [1, 5] && states[0].processes[1].request.mode.Promote?
  {
    var s := State(map[1 := 0, 5 := 0, 6 := 0], map[5 := {1}], map[], map[], {}, map[], map[], map[], {1, 5, 6}, []);
    assert 1 in TargetsOf(s, [5, 6][0]);
    assert Mergeable(s, [5, 6], "");
    var ps;
    ps, states, moves := Collide(s, [5, 6], "", 1, 5);
    forall p: Pid | p < |ps| ensures Sorted(ps[p].request) { assert KnownRequest(s, ps[p].request); }
    StartsInitial(s, ps);
  }

  // ------------------------------------------------------------ what else the orders are for

  /** Without the order of the sources two transactions can deadlock before any trigger. */
  lemma UnsortedCanDeadlock(a: Process, b: Process) returns (states: seq<State>, moves: seq<Move>)
    requires a.request.order == [1, 2] && b.request.order == [2, 1]
    requires a.stage.Locking? && a.next == 0 && !a.missing && b.stage.Locking? && b.next == 0 && !b.missing
    ensures Run(states, moves) && Initial(states[0]) && !CanMove(states[|moves|])
    ensures forall p: Pid :: p < |states[|moves|].processes| ==> InTransaction(states[|moves|].processes[p].stage)
  {
    var s0 := State(map[1 := 0, 2 := 0], map[], map[], map[], {}, map[], map[], map[], {1, 2}, [a, b]);
    var s1 := Perform(s0, 0, Lock);
    var s2 := Perform(s1, 1, Lock);
    states, moves := [s0, s1, s2], [Move(0, Lock), Move(1, Lock)];
    assert StepAt(s0, moves[0], s1) && StepAt(s1, moves[1], s2);
    assert s2.locks == map[1 := 0, 2 := 1];
    assert s2.processes == [a.(next := 1), b.(next := 1)];
  }

  /** Nor is it enough to sort the sources: two transactions that have claimed their keys and
      insert the same two new tags in opposite orders. */
  lemma UnsortedTagsCanDeadlock(s: State)
    requires Inv(s) && |s.processes| == 2 && s.tags == {} && s.tagClaims == map[]
    requires forall p: Pid :: p < 2 ==>
               s.processes[p].stage.Claimed? && s.processes[p].env == 0 && s.processes[p].tagged == 0
    requires s.processes[0].request.tags == [1, 2] && s.processes[1].request.tags == [2, 1]
    ensures Enabled(s, 0, InsertTag) && Enabled(Tagging(s, 0), 1, InsertTag)
    ensures var t := Tagging(Tagging(s, 0), 1);
            !CanMove(t) && InTransaction(t.processes[0].stage) && InTransaction(t.processes[1].stage)
  {
    var t := Tagging(Tagging(s, 0), 1);
    assert t.tagClaims == map[TagKey(0, 1) := 0, TagKey(0, 2) := 1];
    assert NextTag(t.processes[0]) == TagKey(0, 2) && NextTag(t.processes[1]) == TagKey(0, 1);
  }

  /** Memories 1, 2, 5 and 6, of which 1 has 5 as its counted target, and two transactions. */
  function FourMemories(a: Process, b: Process, locks: map<Id, Pid>, claims: map<Slot, Pid>,
                        tagClaims: map<TagKey, Pid>, issued: set<Id>): State {
    State(map[1 := 0, 2 := 0, 5 := 0, 6 := 0], map[1 := {5}], map[], map[], {}, locks, claims, tagClaims, issued,
          [a, b])
  }

  /** A transaction up to its claim. */
  function WithKey(r: Request, id: Id): Process {
    Begun(r).(next := 2, stage := Claimed, made := Composition(id, r.mode, r.order))
  }

  lemma FirstLocks(a: Request, b: Process) returns (states: seq<State>, moves: seq<Move>)
    requires a == Request([1, 2], Merge, "a", [7])
    ensures RunsTo(FourMemories(Begun(a), b, map[], map[], map[], {1, 2, 5, 6}), states, moves) && |moves| == 3
    ensures states[3] ==
            FourMemories(Begun(a).(next := 2, stage := Missed), b, map[1 := 0, 2 := 0], map[], map[], {1, 2, 5, 6})
  {
    var s0 := FourMemories(Begun(a), b, map[], map[], map[], {1, 2, 5, 6});
    var s1 := FourMemories(Begun(a).(next := 1), b, map[1 := 0], map[], map[], {1, 2, 5, 6});
    var s2 := FourMemories(Begun(a).(next := 2), b, map[1 := 0, 2 := 0], map[], map[], {1, 2, 5, 6});
    var s3 := FourMemories(Begun(a).(next := 2, stage := Missed), b, map[1 := 0, 2 := 0], map[], map[], {1, 2, 5, 6});
    states, moves := [s0, s1, s2, s3], [Move(0, Lock), Move(0, Lock), Move(0, LookUp)];
    assert StepAt(s0, moves[0], s1);
    assert StepAt(s1, moves[1], s2);
    assert StepAt(s2, moves[2], s3);
  }

  lemma FirstClaims(a: Request, b: Process) returns (states: seq<State>, moves: seq<Move>)
    requires a == Request([1, 2], Merge, "a", [7])
    ensures RunsTo(FourMemories(Begun(a).(next := 2, stage := Missed), b, map[1 := 0, 2 := 0], map[], map[],
                                {1, 2, 5, 6}), states, moves)
    ensures |moves| == 2
    ensures states[2] ==
            FourMemories(WithKey(a, 8).(tagged := 1), b, map[1 := 0, 2 := 0], map[Slot(0, "a") := 0],
                         map[TagKey(0, 7) := 0],
                                      {1, 2, 5, 6, 8})
  {
    var s3 := FourMemories(Begun(a).(next := 2, stage := Missed), b, map[1 := 0, 2 := 0], map[], map[], {1, 2, 5, 6});
    var s4 := FourMemories(WithKey(a, 8), b, map[1 := 0, 2 := 0], map[Slot(0, "a") := 0], map[], {1, 2, 5, 6, 8});
    var s5 := FourMemories(WithKey(a, 8).(tagged := 1), b, map[1 := 0, 2 := 0], map[Slot(0, "a") := 0],
                           map[TagKey(0, 7) := 0], {1, 2, 5, 6, 8});
    states, moves := [s3, s4, s5], [Move(0, Claim(8)), Move(0, InsertTag)];
    assert StepAt(s3, moves[0], s4);
    assert StepAt(s4, moves[1], s5);
  }

  lemma SecondLocks(a: Process, b: Request, claims: map<Slot, Pid>, tags: map<TagKey, Pid>, issued: set<Id>)
    returns (states: seq<State>, moves: seq<Move>)
    requires b == Request([5, 6], Promote, "b", [7])
    ensures RunsTo(FourMemories(a, Begun(b), map[1 := 0, 2 := 0], claims, tags, issued), states, moves) && |moves| == 2
    ensures states[2] ==
            FourMemories(a, Begun(b).(next := 2), map[1 := 0, 2 := 0, 5 := 1, 6 := 1], claims, tags, issued)
  {
    var s0 := FourMemories(a, Begun(b), map[1 := 0, 2 := 0], claims, tags, issued);
    var s1 := FourMemories(a, Begun(b).(next := 1), map[1 := 0, 2 := 0, 5 := 1], claims, tags, issued);
    var s2 := FourMemories(a, Begun(b).(next := 2), map[1 := 0, 2 := 0, 5 := 1, 6 := 1], claims, tags, issued);
    states, moves := [s0, s1, s2], [Move(1, Lock), Move(1, Lock)];
    assert StepAt(s0, moves[0], s1);
    assert StepAt(s1, moves[1], s2);
  }

  lemma SecondLooks(a: Process, b: Request, locks: map<Id, Pid>, tags: map<TagKey, Pid>)
    requires b == Request([5, 6], Promote, "b", [7])
    ensures StepAt(FourMemories(a, Begun(b).(next := 2), locks, map[Slot(0, "a") := 0], tags, {1, 2, 5, 6, 8}),
                   Move(1, LookUp),
                   FourMemories(a, Begun(b).(next := 2, stage := Missed), locks, map[Slot(0, "a") := 0], tags,
                                {1, 2, 5, 6, 8}))
  {}

  lemma SecondClaims(a: Process, b: Request, locks: map<Id, Pid>, tags: map<TagKey, Pid>)
    requires b == Request([5, 6], Promote, "b", [7])
    ensures StepAt(FourMemories(a, Begun(b).(next := 2, stage := Missed), locks, map[Slot(0, "a") := 0], tags,
                                {1, 2, 5, 6, 8}), Move(1, Claim(9)),
                   FourMemories(a, WithKey(b, 9), locks, map[Slot(0, "a") := 0, Slot(0, "b") := 1], tags,
                                {1, 2, 5, 6, 8, 9}))
  {}

  /** Two runs, one after the other. */
  lemma Joined(a: seq<State>, m: seq<Move>, b: seq<State>, n: seq<Move>) returns (states: seq<State>, moves: seq<Move>)
    requires Run(a, m) && Run(b, n) && a[|m|] == b[0]
    ensures RunsTo(a[0], states, moves) && states[|moves|] == b[|n|]
  {
    states, moves := a + b[1..], m + n;
    forall i | 0 <= i < |moves| ensures StepAt(states[i], moves[i], states[i + 1]) {
      if i < |m| { assert StepAt(a[i], m[i], a[i + 1]); }
      else { assert StepAt(b[i - |m|], n[i - |m|], b[i - |m| + 1]); }
    }
  }

  lemma BothWait(a: Request, b: Request) returns (u: State)
    requires a == Request([1, 2], Merge, "a", [7]) && b == Request([5, 6], Promote, "b", [7])
    ensures var s := FourMemories(WithKey(a, 8).(tagged := 1), WithKey(b, 9), map[1 := 0, 2 := 0, 5 := 1, 6 := 1],
                                  map[Slot(0, "a") := 0, Slot(0, "b") := 1], map[TagKey(0, 7) := 0],
                                    {1, 2, 5, 6, 8, 9});
            StepAt(s, Move(0, Flip([5])), u) && Stuck(u)
  {
    u := FourMemories(WithKey(a, 8).(tagged := 1, flipped := 1, rest := [5]), WithKey(b, 9),
                      map[1 := 0, 2 := 0, 5 := 1, 6 := 1],
                      map[Slot(0, "a") := 0, Slot(0, "b") := 1], map[TagKey(0, 7) := 0], {1, 2, 5, 6, 8, 9});
    assert NextTag(u.processes[1]) == TagKey(0, 7);
  }

  lemma SharedTagRun(a: Request, b: Request) returns (states: seq<State>, moves: seq<Move>)
    requires a == Request([1, 2], Merge, "a", [7]) && b == Request([5, 6], Promote, "b", [7])
    ensures RunsTo(FourMemories(Begun(a), Begun(b), map[], map[], map[], {1, 2, 5, 6}), states, moves)
            && Stuck(states[|moves|])
  {
    var me, locks, tags := WithKey(a, 8).(tagged := 1), map[1 := 0, 2 := 0, 5 := 1, 6 := 1], map[TagKey(0, 7) := 0];
    var s, m := FirstLocks(a, Begun(b));
    var t, n := FirstClaims(a, Begun(b));
    s, m := Joined(s, m, t, n);
    t, n := SecondLocks(me, b, map[Slot(0, "a") := 0], tags, {1, 2, 5, 6, 8});
    s, m := Joined(s, m, t, n);
    SecondLooks(me, b, locks, tags);
    SecondClaims(me, b, locks, tags);
    var missed := FourMemories(me, Begun(b).(next := 2, stage := Missed), locks, map[Slot(0, "a") := 0], tags,
                               {1, 2, 5, 6, 8});
    var claimed := FourMemories(me, WithKey(b, 9), locks, map[Slot(0, "a") := 0, Slot(0, "b") := 1], tags,
                                {1, 2, 5, 6, 8, 9});
    var u := BothWait(a, b);
    states, moves := Joined(s, m, [t[2], missed, claimed, u], [Move(1, LookUp), Move(1, Claim(9)), Move(0, Flip([5]))]);
  }

  /** And where merges climb a shared new tag is enough: one transaction has it and comes to a row of
      the other, which waits for the tag. */
  lemma SharedTagCanDeadlock() returns (states: seq<State>, moves: seq<Move>)
    ensures Run(states, moves) && Initial(states[0]) && AllSorted(states[0]) && Stuck(states[|moves|])
    ensures Climbs(states[0], [1, 2]) && |states[0].processes| == 2
    ensures states[0].processes[0].request == Request([1, 2], Merge, "a", [7])
    ensures states[0].processes[1].request == Request([5, 6], Promote, "b", [7])
  {
    var a, b := Request([1, 2], Merge, "a", [7]), Request([5, 6], Promote, "b", [7]);
    states, moves := SharedTagRun(a, b);
    FourClimb(Begun(a), Begun(b));
  }

  lemma FourClimb(a: Process, b: Process)
    ensures Climbs(FourMemories(a, b, map[], map[], map[], {1, 2, 5, 6}), [1, 2])
  {
    var s := FourMemories(a, b, map[], map[], map[], {1, 2, 5, 6});
    forall t | Outside(s, [1, 2], t) ensures t == 5 {
      var j :| 0 <= j < 2 && t in TargetsOf(s, [1, 2][j]);
    }
  }
}
