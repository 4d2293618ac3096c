/** A projection sink that keeps the highest version it has seen of every memory. */
module ProjectionSink {
  import opened StoreModel
  import opened StoreInvariants

  datatype Entry = Entry(version: nat, event: Event)

  function Deliver(sink: map<Id, Entry>, k: EventKey, e: Event): map<Id, Entry> {
    if k.id in sink && k.version <= sink[k.id].version then sink else sink[k.id := Entry(k.version, e)]
  }

  /** The sink after the deliveries `ds`, in that order. */
  function Feed(outbox: map<EventKey, Event>, ds: seq<EventKey>): map<Id, Entry>
    requires forall i :: 0 <= i < |ds| ==> ds[i] in outbox
  {
    if ds == [] then map[]
    else
      var k := ds[|ds| - 1];
      Deliver(Feed(outbox, ds[..|ds| - 1]), k, outbox[k])
  }

  /** What the sink shows: the payloads whose newest event is not a tombstone. */
  function Shown(sink: map<Id, Entry>): map<Id, Payload> {
    map id | id in sink && !sink[id].event.op.Tombstone? :: sink[id].event.payload
  }

  lemma {:induction false} FeedKeepsNewest(outbox: map<EventKey, Event>, ds: seq<EventKey>)
    requires forall i :: 0 <= i < |ds| ==> ds[i] in outbox
    ensures var sink := Feed(outbox, ds);
            && (forall id :: id in sink ==> EventKey(id, sink[id].version) in ds)
            && (forall id :: id in sink ==> sink[id].event == outbox[EventKey(id, sink[id].version)])
            && (forall k :: k in ds ==> k.id in sink && k.version <= sink[k.id].version)
  {
    if ds != [] {
      var head := ds[..|ds| - 1];
      FeedKeepsNewest(outbox, head);
      assert forall k :: k in ds ==> k in head || k == ds[|ds| - 1];
      assert forall k :: k in head ==> k in ds;
    }
  }

  /** Fed every outbox event at least once, in any order and with any repetition, the sink
      shows exactly the visible memories, each with its row's projection up to salience. */
  lemma SinkConverges(db: Db, ds: seq<EventKey>)
    requires Reachable(db)
    requires forall k :: k in ds <==> k in db.outbox
    ensures var shown := Shown(Feed(db.outbox, ds));
            && (forall id :: id in shown <==> id in db.memories && Visible(db.memories[id].status))
            && (forall id :: id in shown ==>
                shown[id].(salience := db.memories[id].salience) == Project(id, db.memories[id]))
  {
    var sink := Feed(db.outbox, ds);
    forall id | id in sink || id in db.memories ensures SinkAgrees(db, sink, id) { NewestAgrees(db, ds, id); }
  }

  /** The newest event the sink holds of a memory, if any, fits its row or its absence. */
  ghost predicate SinkAgrees(db: Db, sink: map<Id, Entry>, id: Id) {
    if id in db.memories then id in sink && Describes(sink[id].event, id, db.memories[id])
    else id in sink ==> sink[id].event.op.Tombstone?
  }

  lemma NewestAgrees(db: Db, ds: seq<EventKey>, id: Id)
    requires Reachable(db) && forall k :: k in ds <==> k in db.outbox
    ensures SinkAgrees(db, Feed(db.outbox, ds), id)
  {
    FeedKeepsNewest(db.outbox, ds);
    var sink := Feed(db.outbox, ds);
    if id in db.memories {
      LiveOutbox(db, id);
      assert EventKey(id, db.memories[id].version) in ds;
    } else if id in sink {
      assert EventKey(id, sink[id].version) in db.outbox;
      var n := DeadOutbox(db, id);
      assert EventKey(id, n) in ds;
    }
  }
}

/** What becomes of a superseded memory. */
module Supersession {
  import opened Wrappers
  import opened Sorting
  import opened StoreModel
  import opened StoreInvariants

  lemma StatusGoesWithSuccessor(db: Db, id: Id)
    requires Reachable(db) && id in db.memories
    ensures db.memories[id].status.Superseded? <==> db.memories[id].supersededBy.Some?
    ensures db.memories[id].supersededBy.Some? ==>
              var s := db.memories[id].supersededBy.value;
              s in db.memories && db.memories[id].serial < db.memories[s].serial
  {
    ReachableInv(db);
    assert LiveRow(db, id) && HasSuccessor(db, id);
  }

  /** Following successors from any memory passes only later rows and ends at one that is
      not superseded. */
  lemma ChainEnds(db: Db, id: Id) returns (path: seq<Id>)
    requires Reachable(db) && id in db.memories
    ensures |path| > 0 && path[0] == id
    ensures forall i :: 0 <= i < |path| ==> path[i] in db.memories
    ensures forall i :: 0 <= i < |path| - 1 ==> db.memories[path[i]].supersededBy == Some(path[i + 1])
    ensures forall i, j :: 0 <= i < j < |path| ==> db.memories[path[i]].serial < db.memories[path[j]].serial
    ensures !db.memories[path[|path| - 1]].status.Superseded?
    decreases db.clock - db.memories[id].serial
  {
    ReachableInv(db);
    assert LiveRow(db, id) && HasSuccessor(db, id);
    if db.memories[id].supersededBy.None? {
      path := [id];
    } else {
      var s := db.memories[id].supersededBy.value;
      assert LiveRow(db, s);
      var rest := ChainEnds(db, s);
      path := [id] + rest;
    }
  }

  /** The ways a superseded memory is given another successor. */
  predicate Repoints(tx: Tx, id: Id) {
    || (tx.TxSupersede? && tx.oldId == id)
    || (tx.TxMove? && tx.redirect && tx.copy.source == id)
  }

  lemma {:induction false} SupersededAllKeepOthers(db: Db, ids: seq<Id>, newId: Id, now: int, n: nat, id: Id)
    requires n <= |ids| && forall i :: 0 <= i < |ids| ==> ids[i] in db.memories
    requires id in db.memories && id !in ids
    ensures WithSuperseded(db, ids, newId, now, n).memories[id] == db.memories[id]
  {
    if n > 0 { SupersededAllKeepOthers(db, ids, newId, now, n - 1, id); }
  }

  lemma {:induction false} CascadeKeepsRows(db: Db, plan: seq<Victim>, id: Id)
    requires ApplyCascade(db, plan).Ok? && id in ApplyCascade(db, plan).value.memories
    ensures id in db.memories && ApplyCascade(db, plan).value.memories[id] == db.memories[id]
    decreases |plan|
  {
    if plan != [] { CascadeKeepsRows(ApplyDelete(Buried(db, plan[0].id), plan[0].id).value, plan[1..], id); }
  }

  lemma WriteKeepsSuccessor(db: Db, req: WriteRequest, newId: Id, now: int, id: Id)
    requires Inv(db) && id in db.memories && ApplyWrite(db, req, newId, now).Ok?
    ensures id in ApplyWrite(db, req, newId, now).value.memories
    ensures ApplyWrite(db, req, newId, now).value.memories[id] == db.memories[id]
  {}

  lemma UpdateKeepsSuccessor(db: Db, edited: Id, p: Patch, now: int, id: Id)
    requires id in db.memories && ApplyUpdate(db, edited, p, now).Ok?
    ensures id in ApplyUpdate(db, edited, p, now).value.memories
    ensures ApplyUpdate(db, edited, p, now).value.memories[id].supersededBy == db.memories[id].supersededBy
  {}

  lemma SupersedeSetsSuccessor(db: Db, oldId: Id, req: SupersedeRequest, newId: Id, now: int, id: Id)
    requires Inv(db) && id in db.memories && ApplySupersede(db, oldId, req, newId, now).Ok?
    ensures var d := ApplySupersede(db, oldId, req, newId, now).value;
            && newId !in db.memories && id in d.memories
            && d.memories[id].supersededBy == if id == oldId then Some(newId) else db.memories[id].supersededBy
  {}

  lemma CopyKeepsSuccessor(db: Db, req: CopyRequest, newId: Id, now: int, id: Id)
    requires Inv(db) && id in db.memories && ApplyCopy(db, req, newId, now).Ok?
    ensures newId !in db.memories && id in ApplyCopy(db, req, newId, now).value.memories
    ensures ApplyCopy(db, req, newId, now).value.memories[id] == db.memories[id]
  {}

  lemma MoveSetsSuccessor(db: Db, req: CopyRequest, graphRef: bool, newId: Id, now: int, id: Id)
    requires Inv(db) && id in db.memories && ApplyMove(db, req, true, graphRef, newId, now).Ok?
    ensures var d := ApplyMove(db, req, true, graphRef, newId, now).value;
            && newId !in db.memories && id in d.memories
            && d.memories[id].supersededBy == if id == req.source then Some(newId) else db.memories[id].supersededBy
  {
    CopyKeepsSuccessor(db, req, newId, now, id);
  }

  lemma DeleteKeepsSuccessor(db: Db, gone: Id, v: nat, graphRef: bool, id: Id)
    requires ApplyHardDelete(db, gone, v, graphRef).Ok? && id in ApplyHardDelete(db, gone, v, graphRef).value.memories
    ensures id in db.memories && ApplyHardDelete(db, gone, v, graphRef).value.memories[id] == db.memories[id]
  {}

  lemma BumpKeepsSuccessor(db: Db, read: Id, salience: real, id: Id)
    requires id in db.memories && ApplyBump(db, read, salience).Ok?
    ensures id in ApplyBump(db, read, salience).value.memories
    ensures ApplyBump(db, read, salience).value.memories[id].supersededBy == db.memories[id].supersededBy
  {}

  /** What a transaction makes of the successor of a superseded memory it does not delete. */
  lemma SuccessorAfter(db: Db, tx: Tx, id: Id)
    requires Inv(db) && id in db.memories && db.memories[id].status.Superseded? && Apply(db, tx).Ok?
    requires id in Apply(db, tx).value.memories
    ensures !Repoints(tx, id) ==> Apply(db, tx).value.memories[id].supersededBy == db.memories[id].supersededBy
    ensures Repoints(tx, id) ==>
              && Apply(db, tx).value.memories[id].supersededBy.Some?
              && Apply(db, tx).value.memories[id].supersededBy.value !in db.memories
  {
    match tx
    case TxWrite(req, newId, now) => WriteKeepsSuccessor(db, req, newId, now, id);
    case TxUpdate(edited, p, now) => UpdateKeepsSuccessor(db, edited, p, now, id);
    case TxSupersede(oldId, req, newId, now) => SupersedeSetsSuccessor(db, oldId, req, newId, now, id);
    case TxCompose(req, newId, now) => ComposeKeepsSuperseded(db, req, newId, now, id);
    case TxDecompose(req, opId, ids, now) => DecomposeKeepsSuperseded(db, req, opId, ids, now, id);
    case TxCopy(req, newId, now) => CopyKeepsSuccessor(db, req, newId, now, id);
    case TxMove(req, redirect, graphRef, newId, now) =>
      if redirect { MoveSetsSuccessor(db, req, graphRef, newId, now, id); }
      else { MoveWithoutRedirectNeverCommits(db, req, graphRef, newId, now); }
    case TxHardDelete(gone, v, graphRef) => DeleteKeepsSuccessor(db, gone, v, graphRef, id);
    case TxCascade(plan) => CascadeKeepsRows(db, plan, id);
    case TxBump(read, salience) => BumpKeepsSuccessor(db, read, salience, id);
  }

  /** No transaction takes a superseded memory out of that status, short of deleting it, and its
      successor stays the same exactly unless the transaction commits and is a supersede or a
      redirecting move of that very memory. */
  lemma SupersededIsFinal(db: Db, tx: Tx, id: Id)
    requires Inv(db) && id in db.memories && db.memories[id].status.Superseded?
    requires id in Commit(db, tx).memories
    ensures Commit(db, tx).memories[id].status.Superseded?
    ensures Commit(db, tx).memories[id].supersededBy == db.memories[id].supersededBy <==>
              !(Repoints(tx, id) && Apply(db, tx).Ok?)
  {
    CommitKeeps(db, tx);
    assert LiveRow(db, id) && HasSuccessor(db, id) && LiveRow(Commit(db, tx), id);
    if Apply(db, tx).Ok? { SuccessorAfter(db, tx, id); }
  }

  lemma ComposeKeepsSuperseded(db: Db, req: ComposeRequest, newId: Id, now: int, id: Id)
    requires Inv(db) && id in db.memories && db.memories[id].status.Superseded?
    requires ApplyCompose(db, req, newId, now).Ok?
    ensures id in ApplyCompose(db, req, newId, now).value.0.memories
    ensures ApplyCompose(db, req, newId, now).value.0.memories[id] == db.memories[id]
  {
    var locked := SortIds(req.sources);
    var env := db.memories[locked[0]].env;
    if !(exists x :: IsComposed(db, env, req.key, x)) {
      var d := Inserted(db, newId,
                        NewRow(env, req.target, req.salience, EffectiveTags(db, req), Some(req.key), now, db.clock));
      var d' := d.(lineage := d.lineage + ComposeEdges(IdSet(locked), newId, req.mode));
      assert id !in locked;
      if req.mode.Merge? { SupersededAllKeepOthers(d', locked, newId, now, |locked|, id); }
    }
  }

  lemma DecomposeKeepsSuperseded(db: Db, req: DecomposeRequest, opId: Id, ids: seq<Id>, now: int, id: Id)
    requires Inv(db) && id in db.memories && db.memories[id].status.Superseded?
    requires ApplyDecompose(db, req, opId, ids, now).Ok?
    ensures id in ApplyDecompose(db, req, opId, ids, now).value.0.memories
    ensures ApplyDecompose(db, req, opId, ids, now).value.0.memories[id] == db.memories[id]
  {
    var row := db.memories[req.source];
    if OpKey(row.env, req.key) !in db.operations { ChildrenKeep(db, req, row.env, ids, now, |ids|); }
  }

  /** A supersede leaves the successors of all superseded memories alone exactly when the
      memory it is asked to supersede is not superseded yet: the lifecycle table accepts
      superseded again, and the statement then overwrites the successor. */
  lemma SupersedeKeepsSuccessorsExactly(db: Db, oldId: Id, req: SupersedeRequest, newId: Id, now: int)
    requires Reachable(db) && ApplySupersede(db, oldId, req, newId, now).Ok?
    ensures var d := ApplySupersede(db, oldId, req, newId, now).value;
            (forall id :: id in db.memories && db.memories[id].status.Superseded? ==>
               d.memories[id].supersededBy == db.memories[id].supersededBy)
            <==> !db.memories[oldId].status.Superseded?
  {
    ReachableInv(db);
    var d := ApplySupersede(db, oldId, req, newId, now).value;
    assert LiveRow(db, oldId) && HasSuccessor(db, oldId);
    forall id | id in db.memories && id != oldId ensures d.memories[id] == db.memories[id] {}
  }

  /** A memory written and superseded. */
  ghost function OnceSuperseded(req: WriteRequest): Db {
    Commit(Commit(EMPTY, TxWrite(req, 1, 0)),
           TxSupersede(1, SupersedeRequest(1, None, req.content, req.salience, req.tags), 2, 1))
  }

  lemma OnceSupersededRows(req: WriteRequest)
    requires ValidDecisionMeta(req.content)
    ensures var d := OnceSuperseded(req);
            && d.memories.Keys == {1, 2} && d.heads.Keys == {1, 2}
            && d.memories[1].supersededBy == Some(2) && d.memories[1].status.Superseded? && d.memories[1].version == 2
            && d.memories[1].env == req.env && d.memories[2].supersededBy.None?
  {
    var d0 := Commit(EMPTY, TxWrite(req, 1, 0));
    assert d0 == Inserted(EMPTY, 1, NewRow(req.env, req.content, req.salience, req.tags, None, 0, 0));
    assert OnceSuperseded(req).memories.Keys == {1, 2};
  }

  /** A memory superseded twice: its first successor is forgotten. */
  lemma SupersededTwice(req: WriteRequest)
    requires ValidDecisionMeta(req.content)
    ensures var first := OnceSuperseded(req);
            var second := Commit(first,
                                 TxSupersede(1, SupersedeRequest(2, None, req.content, req.salience, req.tags), 3, 2));
            && 1 in first.memories && first.memories[1].supersededBy == Some(2)
            && 1 in second.memories && second.memories[1].supersededBy == Some(3)
            && (forall id :: id in second.memories ==> second.memories[id].supersededBy != Some(2))
  {
    OnceSupersededRows(req);
    var s2 := SupersedeRequest(2, None, req.content, req.salience, req.tags);
    assert Commit(OnceSuperseded(req), TxSupersede(1, s2, 3, 2)).memories.Keys == {1, 2, 3};
  }

  /** A superseded memory moved with a redirect: the move asks nothing of the source's status, and
      the first successor is forgotten. */
  lemma SupersededThenMoved(req: WriteRequest)
    requires ValidDecisionMeta(req.content)
    ensures var first := OnceSuperseded(req);
            var moved := Commit(first,
                                TxMove(CopyRequest(1, req.env + 1, false, false, false, false), true, false, 3, 2));
            && 1 in first.memories && first.memories[1].supersededBy == Some(2)
            && 1 in moved.memories && moved.memories[1].supersededBy == Some(3)
            && (forall id :: id in moved.memories ==> moved.memories[id].supersededBy != Some(2))
  {
    OnceSupersededRows(req);
    var copy := CopyRequest(1, req.env + 1, false, false, false, false);
    assert Commit(OnceSuperseded(req), TxMove(copy, true, false, 3, 2)).memories.Keys == {1, 2, 3};
  }
}
