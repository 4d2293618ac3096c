/** What every committed transaction keeps: the outbox describes the rows, and the
    superseded status goes with a later, living successor. */
module StoreInvariants {
  import opened Wrappers
  import opened Sorting
  import opened StoreModel

  // ------------------------------------------------------------ the invariant

  /** The event says about the row all that is projected of it, except its salience. */
  ghost predicate Describes(e: Event, id: Id, row: Row) {
    && (e.op.Tombstone? <==> !Visible(row.status))
    && e.payload.(salience := row.salience) == Project(id, row)
  }

  /** The events of every id ever used carry the versions 1 to its head, each once. */
  ghost predicate VersionsContiguous(db: Db) {
    forall k :: k in db.outbox <==> k.id in db.heads && 1 <= k.version <= db.heads[k.id]
  }

  ghost predicate LiveRow(db: Db, id: Id)
    requires id in db.memories
  {
    var row := db.memories[id];
    && id in db.heads
    && db.heads[id] == row.version
    && RowChecks(id, row)
    && row.serial < db.clock
    && EventKey(id, row.version) in db.outbox
    && Describes(db.outbox[EventKey(id, row.version)], id, row)
  }

  ghost predicate LiveRows(db: Db) {
    forall id {:trigger LiveRow(db, id)} :: id in db.memories ==> LiveRow(db, id)
  }

  ghost predicate DeadId(db: Db, id: Id)
    requires id in db.heads
  {
    && db.heads[id] >= 2
    && EventKey(id, db.heads[id]) in db.outbox
    && db.outbox[EventKey(id, db.heads[id])].op.Tombstone?
  }

  ghost predicate DeadIds(db: Db) {
    forall id {:trigger DeadId(db, id)} :: id in db.heads && id !in db.memories ==> DeadId(db, id)
  }

  /** The successor of `id`, if it has one, is a living row inserted after it. */
  ghost predicate HasSuccessor(db: Db, id: Id)
    requires id in db.memories
  {
    var row := db.memories[id];
    row.supersededBy.Some? ==>
      row.supersededBy.value in db.memories && row.serial < db.memories[row.supersededBy.value].serial
  }

  ghost predicate Successors(db: Db) {
    forall id {:trigger HasSuccessor(db, id)} :: id in db.memories ==> HasSuccessor(db, id)
  }

  ghost predicate SameComposeKey(a: Row, b: Row) {
    a.composeKey.Some? && a.composeKey == b.composeKey && a.env == b.env
  }

  ghost predicate ComposeKeysUnique(db: Db) {
    forall a, b {:trigger SameComposeKey(db.memories[a], db.memories[b])} ::
      a in db.memories && b in db.memories && SameComposeKey(db.memories[a], db.memories[b]) ==> a == b
  }

  ghost predicate References(db: Db) {
    && (forall k :: k in db.operations ==> db.operations[k].source in db.memories)
    && (forall e :: e in db.lineage ==> e.parent in db.memories && e.child in db.memories && e.parent != e.child)
  }

  ghost predicate Inv(db: Db) {
    && db.memories.Keys <= db.heads.Keys
    && VersionsContiguous(db) && LiveRows(db) && DeadIds(db)
    && Successors(db) && ComposeKeysUnique(db) && References(db)
  }

  // ------------------------------------------------------------ the primitive changes keep it

  /** A row as every INSERT makes it. */
  ghost predicate FreshRow(db: Db, row: Row) {
    && row.status.Active? && row.version == 1 && row.supersededBy.None? && row.serial == db.clock
    && (forall id :: id in db.memories ==> !SameComposeKey(db.memories[id], row))
  }

  lemma InsertedKeepsVersions(db: Db, id: Id, row: Row)
    requires VersionsContiguous(db) && id !in db.heads && row.version == 1
    ensures VersionsContiguous(Inserted(db, id, row))
  {
    var d := Inserted(db, id, row);
    forall k ensures k in d.outbox <==> k.id in d.heads && 1 <= k.version <= d.heads[k.id] {
      assert k in db.outbox <==> k.id in db.heads && 1 <= k.version <= db.heads[k.id];
    }
  }

  lemma InsertedKeeps(db: Db, id: Id, row: Row)
    requires Inv(db) && id !in db.heads && FreshRow(db, row)
    ensures Inv(Inserted(db, id, row))
  {
    var d := Inserted(db, id, row);
    InsertedKeepsVersions(db, id, row);
    forall x | x in d.memories ensures LiveRow(d, x) && HasSuccessor(d, x) {
      if x != id { assert LiveRow(db, x) && HasSuccessor(db, x); }
    }
    forall x | x in d.heads && x !in d.memories ensures DeadId(d, x) {
      assert DeadId(db, x);
    }
    forall a, b | a in d.memories && b in d.memories && SameComposeKey(d.memories[a], d.memories[b]) ensures a == b {
      if a != id && b != id { assert SameComposeKey(db.memories[a], db.memories[b]); }
    }
  }

  /** An edit as every UPDATE makes it: the next version of the same memory; a successor
      it did not have before is a living later row. */
  ghost predicate NextRow(db: Db, id: Id, row: Row)
    requires id in db.memories
  {
    var prior := db.memories[id];
    && row.version == prior.version + 1 && row.env == prior.env && row.serial == prior.serial
    && row.composeKey == prior.composeKey
    && RowChecks(id, row)
    && (row.supersededBy == prior.supersededBy
        || (row.supersededBy.Some? && row.supersededBy.value in db.memories
            && prior.serial < db.memories[row.supersededBy.value].serial))
  }

  lemma EditedKeepsVersions(db: Db, id: Id, row: Row)
    requires VersionsContiguous(db) && id in db.heads && row.version == db.heads[id] + 1
    ensures VersionsContiguous(Edited(db, id, row))
  {
    var d := Edited(db, id, row);
    forall k ensures k in d.outbox <==> k.id in d.heads && 1 <= k.version <= d.heads[k.id] {
      assert k in db.outbox <==> k.id in db.heads && 1 <= k.version <= db.heads[k.id];
    }
  }

  lemma EditedKeepsComposeKeys(db: Db, id: Id, row: Row)
    requires ComposeKeysUnique(db) && id in db.memories
    requires row.env == db.memories[id].env && row.composeKey == db.memories[id].composeKey
    ensures ComposeKeysUnique(Edited(db, id, row))
  {
    var d := Edited(db, id, row);
    forall a, b | a in d.memories && b in d.memories && SameComposeKey(d.memories[a], d.memories[b]) ensures a == b {
      assert SameComposeKey(db.memories[a], db.memories[b]);
    }
  }

  lemma EditedKeepsSuccessors(db: Db, id: Id, row: Row)
    requires Successors(db) && id in db.memories && NextRow(db, id, row)
    ensures Successors(Edited(db, id, row))
  {
    var d := Edited(db, id, row);
    forall x | x in d.memories ensures HasSuccessor(d, x) { assert HasSuccessor(db, x); }
  }

  lemma EditedKeeps(db: Db, id: Id, row: Row)
    requires Inv(db) && id in db.memories && NextRow(db, id, row)
    ensures Inv(Edited(db, id, row))
  {
    var d := Edited(db, id, row);
    assert LiveRow(db, id);
    EditedKeepsVersions(db, id, row);
    EditedKeepsComposeKeys(db, id, row);
    EditedKeepsSuccessors(db, id, row);
    assert LiveRows(d) by {
      forall x | x in d.memories ensures LiveRow(d, x) { if x != id { assert LiveRow(db, x); } }
    }
    assert DeadIds(d) by {
      forall x | x in d.heads && x !in d.memories ensures DeadId(d, x) { assert DeadId(db, x); }
    }
  }

  lemma LineageKeeps(db: Db, edges: set<Edge>)
    requires Inv(db)
    requires forall e :: e in edges ==> e.parent in db.memories && e.child in db.memories && e.parent != e.child
    ensures Inv(db.(lineage := db.lineage + edges))
  {
    var d := db.(lineage := db.lineage + edges);
    forall x | x in d.memories ensures LiveRow(d, x) && HasSuccessor(d, x) {
      assert LiveRow(db, x) && HasSuccessor(db, x);
    }
    forall x | x in d.heads && x !in d.memories ensures DeadId(d, x) { assert DeadId(db, x); }
  }

  lemma OperationKeeps(db: Db, k: OpKey, op: Operation)
    requires Inv(db) && op.source in db.memories
    ensures Inv(db.(operations := db.operations[k := op]))
  {
    var d := db.(operations := db.operations[k := op]);
    forall x | x in d.memories ensures LiveRow(d, x) && HasSuccessor(d, x) {
      assert LiveRow(db, x) && HasSuccessor(db, x);
    }
    forall x | x in d.heads && x !in d.memories ensures DeadId(d, x) { assert DeadId(db, x); }
  }

  lemma BumpKeeps(db: Db, id: Id, salience: real)
    requires Inv(db) && ApplyBump(db, id, salience).Ok?
    ensures Inv(ApplyBump(db, id, salience).value)
  {
    var d := ApplyBump(db, id, salience).value;
    assert d.memories.Keys == db.memories.Keys;
    forall x | x in d.memories ensures LiveRow(d, x) && HasSuccessor(d, x) {
      assert LiveRow(db, x) && HasSuccessor(db, x);
    }
    forall x | x in d.heads && x !in d.memories ensures DeadId(d, x) { assert DeadId(db, x); }
    forall a, b | a in d.memories && b in d.memories && SameComposeKey(d.memories[a], d.memories[b]) ensures a == b {
      assert SameComposeKey(db.memories[a], db.memories[b]);
    }
  }

  lemma BuriedKeepsVersions(db: Db, id: Id)
    requires VersionsContiguous(db) && id in db.memories && id in db.heads && db.heads[id] == db.memories[id].version
    ensures VersionsContiguous(Buried(db, id))
  {
    var d := Buried(db, id);
    forall k ensures k in d.outbox <==> k.id in d.heads && 1 <= k.version <= d.heads[k.id] {
      assert k in db.outbox <==> k.id in db.heads && 1 <= k.version <= db.heads[k.id];
    }
  }

  /** Burying a row and deleting it together leaves a tombstone one version past the row's last. */
  lemma BuriedAndDeletedKeeps(db: Db, id: Id)
    requires Inv(db) && id in db.memories && ApplyDelete(Buried(db, id), id).Ok?
    ensures Inv(ApplyDelete(Buried(db, id), id).value)
  {
    var d := ApplyDelete(Buried(db, id), id).value;
    assert LiveRow(db, id);
    BuriedKeepsVersions(db, id);
    DeletedKeepsRows(db, id);
    forall x | x in d.heads && x !in d.memories ensures DeadId(d, x) {
      if x != id { assert DeadId(db, x); }
    }
    forall a, c | a in d.memories && c in d.memories && SameComposeKey(d.memories[a], d.memories[c]) ensures a == c {
      assert SameComposeKey(db.memories[a], db.memories[c]);
    }
    forall k | k in d.operations ensures d.operations[k].source in d.memories { assert k in Buried(db, id).operations; }
  }

  lemma DeletedKeepsRows(db: Db, id: Id)
    requires LiveRows(db) && Successors(db) && id in db.memories && ApplyDelete(Buried(db, id), id).Ok?
    ensures LiveRows(ApplyDelete(Buried(db, id), id).value) && Successors(ApplyDelete(Buried(db, id), id).value)
  {
    var b := Buried(db, id);
    var d := ApplyDelete(b, id).value;
    forall x | x in d.memories ensures LiveRow(d, x) && HasSuccessor(d, x) {
      assert LiveRow(db, x) && HasSuccessor(db, x);
      assert x in b.memories && x != id;
    }
  }

  // ------------------------------------------------------------ every transaction keeps it

  /** The living members of `ids` all come before `newId`, and `newId` is none of them. */
  ghost predicate AllBefore(db: Db, ids: seq<Id>, newId: Id) {
    && newId in db.memories
    && forall i :: 0 <= i < |ids| ==>
      ids[i] in db.memories && ids[i] != newId && db.memories[ids[i]].serial < db.memories[newId].serial
  }

  lemma {:induction false} SupersededKeeps(db: Db, ids: seq<Id>, newId: Id, now: int, n: nat)
    requires Inv(db) && n <= |ids| && AllBefore(db, ids, newId)
    ensures Inv(WithSuperseded(db, ids, newId, now, n)) && AllBefore(WithSuperseded(db, ids, newId, now, n), ids, newId)
  {
    if n > 0 {
      SupersededKeeps(db, ids, newId, now, n - 1);
      var d := WithSuperseded(db, ids, newId, now, n - 1);
      EditedKeeps(d, ids[n - 1], SupersededRow(d.memories[ids[n - 1]], newId, now));
    }
  }

  lemma ComposedRowKeeps(db: Db, req: ComposeRequest, env: Env, newId: Id, now: int)
    requires Inv(db) && newId !in db.heads && forall id :: !IsComposed(db, env, req.key, id)
    ensures Inv(Inserted(db, newId,
                         NewRow(env, req.target, req.salience, EffectiveTags(db, req), Some(req.key), now, db.clock)))
  {
    var row := NewRow(env, req.target, req.salience, EffectiveTags(db, req), Some(req.key), now, db.clock);
    forall id | id in db.memories ensures !SameComposeKey(db.memories[id], row) {
      assert !IsComposed(db, env, req.key, id);
    }
    InsertedKeeps(db, newId, row);
  }

  lemma ComposedKeeps(db: Db, req: ComposeRequest, locked: seq<Id>, newId: Id, now: int)
    requires Inv(db) && newId !in db.heads && |locked| > 0 && forall i :: 0 <= i < |locked| ==> locked[i] in db.memories
    requires forall id :: !IsComposed(db, db.memories[locked[0]].env, req.key, id)
    ensures Inv(Composed(db, req, locked, newId, now))
  {
    var env := db.memories[locked[0]].env;
    ComposedRowKeeps(db, req, env, newId, now);
    var d := Inserted(db, newId,
                      NewRow(env, req.target, req.salience, EffectiveTags(db, req), Some(req.key), now, db.clock));
    forall i | 0 <= i < |locked|
      ensures locked[i] in db.memories && locked[i] != newId && db.memories[locked[i]].serial < db.clock
    {
      assert LiveRow(db, locked[i]);
    }
    LineageKeeps(d, ComposeEdges(IdSet(locked), newId, req.mode));
    var d' := d.(lineage := d.lineage + ComposeEdges(IdSet(locked), newId, req.mode));
    if req.mode.Merge? { SupersededKeeps(d', locked, newId, now, |locked|); }
  }

  lemma ComposeKeeps(db: Db, req: ComposeRequest, newId: Id, now: int)
    requires Inv(db) && ApplyCompose(db, req, newId, now).Ok?
    ensures Inv(ApplyCompose(db, req, newId, now).value.0)
  {
    var locked := SortIds(req.sources);
    if !(exists id :: IsComposed(db, db.memories[locked[0]].env, req.key, id)) {
      ComposedKeeps(db, req, locked, newId, now);
    }
  }

  lemma {:induction false} ChildrenKeep(db: Db, req: DecomposeRequest, env: Env, ids: seq<Id>, now: int, n: nat)
    requires Inv(db) && n <= |ids| == |req.children| && req.source in db.memories && Distinct(ids)
    requires forall i :: 0 <= i < |ids| ==> ids[i] !in db.heads
    ensures var d := WithChildren(db, req, env, ids, now, n);
            && Inv(d)
            && (forall i :: n <= i < |ids| ==> ids[i] !in d.heads)
            && (forall id :: id in db.memories ==> id in d.memories && d.memories[id] == db.memories[id])
            && d.operations == db.operations
  {
    if n > 0 {
      ChildrenKeep(db, req, env, ids, now, n - 1);
      var d := WithChildren(db, req, env, ids, now, n - 1);
      var row := ChildRow(env, req.children[n - 1], now, d.clock);
      InsertedKeeps(d, ids[n - 1], row);
      LineageKeeps(Inserted(d, ids[n - 1], row), {Edge(req.source, ids[n - 1], DecomposeRelation(req.mode))});
    }
  }

  lemma DecomposeKeeps(db: Db, req: DecomposeRequest, opId: Id, ids: seq<Id>, now: int)
    requires Inv(db) && ApplyDecompose(db, req, opId, ids, now).Ok?
    ensures Inv(ApplyDecompose(db, req, opId, ids, now).value.0)
  {
    var row := db.memories[req.source];
    if OpKey(row.env, req.key) !in db.operations { FirstDecomposeKeeps(db, req, row.env, opId, ids, now); }
  }

  lemma FirstDecomposeKeeps(db: Db, req: DecomposeRequest, env: Env, opId: Id, ids: seq<Id>, now: int)
    requires Inv(db) && |ids| == |req.children| && req.source in db.memories && Distinct(ids)
    requires db.memories[req.source].status.Active? || db.memories[req.source].status.Stale?
    requires forall i :: 0 <= i < |ids| ==> ids[i] !in db.heads
    ensures Inv(Decomposed(db, req, env, opId, ids, now))
  {
    var row := db.memories[req.source];
    ChildrenKeep(db, req, env, ids, now, |ids|);
    var d := WithChildren(db, req, env, ids, now, |ids|);
    var op := Operation(opId, req.source, req.mode, req.fingerprint, ids);
    OperationKeeps(d, OpKey(env, req.key), op);
    assert LiveRow(db, req.source);
    if req.mode.Split? {
      EditedKeeps(d.(operations := d.operations[OpKey(env, req.key) := op]), req.source, RetiredRow(row, now));
    }
  }

  lemma CopyKeeps(db: Db, req: CopyRequest, newId: Id, now: int)
    requires Inv(db) && ApplyCopy(db, req, newId, now).Ok?
    ensures Inv(ApplyCopy(db, req, newId, now).value)
  {
    var row := CopyOf(db.memories[req.source], req, now, db.clock);
    InsertedKeeps(db, newId, row);
    forall e | e in CopyEdges(db, req, newId)
      ensures e.parent in db.memories + map[newId := row] && e.child in db.memories + map[newId := row]
              && e.parent != e.child {}
    LineageKeeps(Inserted(db, newId, row), CopyEdges(db, req, newId));
  }

  /** A move that does not redirect asks for an outbox version its source already has, so it
      never commits: the unique key rolls it back whenever no earlier check does. */
  lemma MoveWithoutRedirectNeverCommits(db: Db, req: CopyRequest, graphRef: bool, newId: Id, now: int)
    requires Inv(db)
    ensures ApplyMove(db, req, false, graphRef, newId, now).Err?
  {
    if ApplyCopy(db, req, newId, now).Ok? {
      var row := db.memories[req.source];
      assert LiveRow(db, req.source);
      assert EventKey(req.source, row.version) in ApplyCopy(db, req, newId, now).value.outbox;
    }
  }

  lemma MoveKeeps(db: Db, req: CopyRequest, redirect: bool, graphRef: bool, newId: Id, now: int)
    requires Inv(db) && ApplyMove(db, req, redirect, graphRef, newId, now).Ok?
    ensures Inv(ApplyMove(db, req, redirect, graphRef, newId, now).value)
  {
    if redirect {
      CopyKeeps(db, req, newId, now);
      var d := ApplyCopy(db, req, newId, now).value;
      assert LiveRow(db, req.source);
      EditedKeeps(d, req.source, SupersededRow(db.memories[req.source], newId, now));
    } else {
      MoveWithoutRedirectNeverCommits(db, req, graphRef, newId, now);
    }
  }

  lemma SupersedeKeeps(db: Db, oldId: Id, req: SupersedeRequest, newId: Id, now: int)
    requires Inv(db) && ApplySupersede(db, oldId, req, newId, now).Ok?
    ensures Inv(ApplySupersede(db, oldId, req, newId, now).value)
  {
    var row := db.memories[oldId];
    var added := NewRow(row.env, req.content, req.salience, req.tags, None, now, db.clock);
    InsertedKeeps(db, newId, added);
    assert LiveRow(db, oldId);
    var d := Inserted(db, newId, added);
    EditedKeeps(d, oldId, SupersededRow(row, newId, now));
    LineageKeeps(Edited(d, oldId, SupersededRow(row, newId, now)), {Edge(oldId, newId, Supersedes)});
  }

  lemma {:induction false} CascadeKeeps(db: Db, plan: seq<Victim>)
    requires Inv(db) && ApplyCascade(db, plan).Ok?
    ensures Inv(ApplyCascade(db, plan).value)
    decreases |plan|
  {
    if plan != [] {
      BuriedAndDeletedKeeps(db, plan[0].id);
      CascadeKeeps(ApplyDelete(Buried(db, plan[0].id), plan[0].id).value, plan[1..]);
    }
  }

  /** Every transaction, committed or rolled back, keeps the invariant. */
  lemma CommitKeeps(db: Db, tx: Tx)
    requires Inv(db)
    ensures Inv(Commit(db, tx))
  {
    if Apply(db, tx).Ok? {
      match tx
      case TxWrite(req, id, now) =>
        InsertedKeeps(db, id, NewRow(req.env, req.content, req.salience, req.tags, None, now, db.clock));
      case TxUpdate(id, p, now) => EditedKeeps(db, id, PatchedRow(db.memories[id], p, now));
      case TxSupersede(oldId, req, newId, now) => SupersedeKeeps(db, oldId, req, newId, now);
      case TxCompose(req, newId, now) => ComposeKeeps(db, req, newId, now);
      case TxDecompose(req, opId, ids, now) => DecomposeKeeps(db, req, opId, ids, now);
      case TxCopy(req, newId, now) => CopyKeeps(db, req, newId, now);
      case TxMove(req, redirect, graphRef, newId, now) => MoveKeeps(db, req, redirect, graphRef, newId, now);
      case TxHardDelete(id, v, graphRef) => BuriedAndDeletedKeeps(db, id);
      case TxCascade(plan) => CascadeKeeps(db, plan);
      case TxBump(id, salience) => BumpKeeps(db, id, salience);
    }
  }

  lemma {:induction false} RunKeeps(txs: seq<Tx>)
    ensures Inv(Run(txs))
  {
    if txs != [] {
      RunKeeps(txs[..|txs| - 1]);
      CommitKeeps(Run(txs[..|txs| - 1]), txs[|txs| - 1]);
    }
  }

  /** The tables after some run of transactions from the empty store. */
  ghost predicate Reachable(db: Db) {
    exists txs :: db == Run(txs)
  }

  lemma ReachableInv(db: Db)
    requires Reachable(db)
    ensures Inv(db)
  {
    var txs :| db == Run(txs);
    RunKeeps(txs);
  }

  // ------------------------------------------------------------ what it means

  /** In every reachable state, a live memory at version v has events with versions exactly
      1 to v, the last of which is a tombstone exactly when the memory is hidden and
      otherwise tells every projected field but the salience. */
  lemma LiveOutbox(db: Db, id: Id)
    requires Reachable(db) && id in db.memories
    ensures forall v: nat :: EventKey(id, v) in db.outbox <==> 1 <= v <= db.memories[id].version
    ensures EventKey(id, db.memories[id].version) in db.outbox
    ensures Describes(db.outbox[EventKey(id, db.memories[id].version)], id, db.memories[id])
  {
    ReachableInv(db);
    assert LiveRow(db, id);
  }

  /** A hard-deleted memory's events go from 1 to one past its last version and end in a tombstone. */
  lemma DeadOutbox(db: Db, id: Id) returns (n: nat)
    requires Reachable(db) && id !in db.memories && exists v: nat :: EventKey(id, v) in db.outbox
    ensures n >= 2 && forall v: nat :: EventKey(id, v) in db.outbox <==> 1 <= v <= n
    ensures EventKey(id, n) in db.outbox && db.outbox[EventKey(id, n)].op.Tombstone?
  {
    ReachableInv(db);
    var w: nat :| EventKey(id, w) in db.outbox;
    n := db.heads[id];
    assert DeadId(db, id);
  }

  /** Deleting a memory at version v is what puts the tombstone at v + 1, and nothing else changes. */
  lemma DeleteBuriesAtNextVersion(db: Db, id: Id, v: nat, graphRef: bool)
    requires Reachable(db) && ApplyHardDelete(db, id, v, graphRef).Ok?
    ensures var d := ApplyHardDelete(db, id, v, graphRef).value;
            && d.memories == db.memories - {id} && d.lineage == db.lineage && d.operations == db.operations
            && (forall k :: k in d.outbox <==> k in db.outbox || k == EventKey(id, v + 1))
            && d.outbox[EventKey(id, v + 1)].op.Tombstone?
    ensures forall k: nat :: EventKey(id, k) in db.outbox <==> 1 <= k <= v
  {
    LiveOutbox(db, id);
    var d := ApplyHardDelete(db, id, v, graphRef).value;
    assert forall e :: e in db.lineage ==> e.parent != id && e.child != id;
    assert d.lineage == db.lineage;
  }
}
