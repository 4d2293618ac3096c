/** The store as the program drives it: each transaction issues its statements in order, any
    violated constraint or failed guard rolls everything back, and what is left is exactly
    the state `StoreModel` describes. */
module MemoryStore {
  import opened Wrappers
  import opened Sorting
  import opened StoreModel
  import opened StoreInvariants

  class Store {
    var memories: map<Id, Row>
    var lineage: set<Edge>
    var outbox: map<EventKey, Event>
    var operations: map<OpKey, Operation>
    var heads: map<Id, nat>
    var clock: nat

    constructor ()
      ensures Tables() == EMPTY
    {
      memories, lineage, outbox, operations, heads, clock := map[], {}, map[], map[], map[], 0;
    }

    function Tables(): Db
      reads this
    {
      Db(memories, lineage, outbox, operations, heads, clock)
    }

    // ---------------------------------------------------------- statements

    /** INSERT INTO memories: the primary key, the row checks and the unique dedupe key. */
    method InsertMemory(id: Id, row: Row) returns (ok: bool)
      modifies this`memories, this`clock
      ensures ok <==> && id !in old(heads) && RowChecks(id, row)
                      && (forall x :: x in old(memories) ==> !SameComposeKey(old(memories)[x], row))
      ensures Tables() == if ok then old(Tables()).(memories := old(memories)[id := row], clock := old(clock) + 1)
              else old(Tables())
    {
      var taken := exists x :: x in memories && memories[x].composeKey.Some?
                               && memories[x].composeKey == row.composeKey && memories[x].env == row.env;
      ok := id !in heads && RowChecks(id, row) && !taken;
      if ok {
        memories := memories[id := row];
        clock := clock + 1;
      }
    }

    /** UPDATE memories ... WHERE id AND version: how many rows it hit, and whether the checks held. */
    method UpdateMemory(id: Id, expected: nat, row: Row) returns (rowcount: nat, ok: bool)
      modifies this`memories
      ensures rowcount == (if id in old(memories) && old(memories)[id].version == expected then 1 else 0)
      ensures ok <==> rowcount == 0 || (RowChecks(id, row) && row.version >= expected)
      ensures Tables() == if ok && rowcount == 1 then old(Tables()).(memories := old(memories)[id := row])
              else old(Tables())
    {
      rowcount := if id in memories && memories[id].version == expected then 1 else 0;
      ok := rowcount == 0 || (RowChecks(id, row) && row.version >= memories[id].version);
      if ok && rowcount == 1 { memories := memories[id := row]; }
    }

    /** INSERT INTO memory_lineage: primary key, not-self check and both foreign keys. */
    method InsertLineage(e: Edge) returns (ok: bool)
      modifies this`lineage
      ensures ok <==> e !in old(lineage) && e.parent != e.child && e.parent in memories && e.child in memories
      ensures Tables() == if ok then old(Tables()).(lineage := old(lineage) + {e}) else old(Tables())
    {
      ok := e !in lineage && e.parent != e.child && e.parent in memories && e.child in memories;
      if ok { lineage := lineage + {e}; }
    }

    /** INSERT INTO outbox: the unique key over aggregate and version. */
    method Enqueue(id: Id, version: nat, e: Event) returns (ok: bool)
      modifies this`outbox, this`heads
      ensures ok <==> EventKey(id, version) !in old(outbox)
      ensures Tables() ==
              if ok then old(Tables()).(outbox := old(outbox)[EventKey(id, version) := e],
                                        heads := old(heads)[id := version])
                          else old(Tables())
    {
      ok := EventKey(id, version) !in outbox;
      if ok {
        outbox := outbox[EventKey(id, version) := e];
        heads := heads[id := version];
      }
    }

    /** DELETE FROM memories: restricted by successors and operations, cascading to lineage. */
    method DeleteMemory(id: Id) returns (ok: bool)
      modifies this
      ensures ok <==> ApplyDelete(old(Tables()), id).Ok?
      ensures Tables() == if ok then ApplyDelete(old(Tables()), id).value else old(Tables())
    {
      ok := ApplyDelete(Tables(), id).Ok?;
      if ok {
        memories := memories - {id};
        lineage := set e | e in lineage && e.parent != id && e.child != id;
      }
    }

    method Rollback(saved: Db)
      modifies this
      ensures Tables() == saved
    {
      memories, lineage, outbox, operations, heads, clock :=
        saved.memories, saved.lineage, saved.outbox, saved.operations, saved.heads, saved.clock;
    }

    // ---------------------------------------------------------- transactions

    method Write(req: WriteRequest, id: Id, now: int) returns (error: Option<Error>)
      requires Inv(Tables())
      modifies this
      ensures Tables() == Commit(old(Tables()), TxWrite(req, id, now)) && Inv(Tables())
      ensures error == ErrorOf(ApplyWrite(old(Tables()), req, id, now))
    {
      var saved := Tables();
      CommitKeeps(saved, TxWrite(req, id, now));
      if !ValidDecisionMeta(req.content) { return Some(InvalidInput); }
      var row := NewRow(req.env, req.content, req.salience, req.tags, None, now, clock);
      var ok := InsertMemory(id, row);
      if !ok { return Some(IntegrityError); }
      assert EventKey(id, 1) !in saved.outbox;
      ok := Enqueue(id, 1, CreateEvent(id, row));
      return None;
    }

    method Update(id: Id, p: Patch, now: int) returns (error: Option<Error>)
      requires Inv(Tables())
      modifies this
      ensures Tables() == Commit(old(Tables()), TxUpdate(id, p, now)) && Inv(Tables())
      ensures error == ErrorOf(ApplyUpdate(old(Tables()), id, p, now))
    {
      var saved := Tables();
      CommitKeeps(saved, TxUpdate(id, p, now));
      if id !in memories { return Some(NotFound); }
      var row := memories[id];
      if row.version != p.expectedVersion { return Some(VersionConflict); }
      if p.body == Set(None) { return Some(InvalidInput); }
      var next := PatchedRow(row, p, now);
      if !IsValidTransition(row.status, next.status) { return Some(InvalidTransition); }
      if !ValidDecisionMeta(next.content) { return Some(InvalidInput); }
      var rowcount, ok := UpdateMemory(id, p.expectedVersion, next);
      if !ok { return Some(IntegrityError); }
      assert LiveRow(saved, id);
      assert EventKey(id, next.version) !in saved.outbox;
      ok := Enqueue(id, next.version, EditEvent(id, next));
      return None;
    }

    method Supersede(oldId: Id, req: SupersedeRequest, newId: Id, now: int) returns (error: Option<Error>)
      requires Inv(Tables())
      modifies this
      ensures Tables() == Commit(old(Tables()), TxSupersede(oldId, req, newId, now)) && Inv(Tables())
      ensures error == ErrorOf(ApplySupersede(old(Tables()), oldId, req, newId, now))
    {
      var saved := Tables();
      CommitKeeps(saved, TxSupersede(oldId, req, newId, now));
      if oldId !in memories { return Some(NotFound); }
      var row := memories[oldId];
      if req.env.Some? && req.env.value != row.env { return Some(InvalidTransition); }
      if row.version != req.expectedVersion { return Some(VersionConflict); }
      if !IsValidTransition(row.status, Superseded) { return Some(InvalidTransition); }
      if !ValidDecisionMeta(req.content) { return Some(InvalidInput); }
      var added := AddSuccessor(oldId, req, newId, now);
      return if added then None else Some(IntegrityError);
    }

    /** The statements of a supersede whose checks passed: the successor, the retired row,
        the lineage row and the two events. */
    method AddSuccessor(oldId: Id, req: SupersedeRequest, newId: Id, now: int) returns (ok: bool)
      requires Inv(Tables()) && oldId in memories && memories[oldId].version == req.expectedVersion
      modifies this
      ensures ok <==> newId !in old(heads)
      ensures Tables() == if ok then Superseding(old(Tables()), oldId, req, newId, now) else old(Tables())
    {
      ghost var saved := Tables();
      SupersedeMeetsNoKey(saved, oldId, newId);
      var row := memories[oldId];
      var newRow := NewRow(row.env, req.content, req.salience, req.tags, None, now, clock);
      ok := InsertMemory(newId, newRow);
      if !ok { return; }
      var oldRow := SupersededRow(row, newId, now);
      var rowcount;
      rowcount, ok := UpdateMemory(oldId, req.expectedVersion, oldRow);
      ok := InsertLineage(Edge(oldId, newId, Supersedes));
      ok := Enqueue(newId, 1, CreateEvent(newId, newRow));
      ok := Enqueue(oldId, oldRow.version, EditEvent(oldId, oldRow));
    }

    method Bump(id: Id, salience: real) returns (error: Option<Error>)
      requires Inv(Tables())
      modifies this`memories
      ensures Tables() == Commit(old(Tables()), TxBump(id, salience)) && Inv(Tables())
      ensures error == ErrorOf(ApplyBump(old(Tables()), id, salience))
    {
      CommitKeeps(Tables(), TxBump(id, salience));
      if id !in memories { return Some(NotFound); }
      if Visible(memories[id].status) { memories := memories[id := memories[id].(salience := salience)]; }
      return None;
    }

    /** SELECT the memory that carries a dedupe key, if there is one. */
    method FindComposed(env: Env, key: string) returns (found: Option<Id>)
      ensures found.Some? ==> IsComposed(Tables(), env, key, found.value)
      ensures found.None? ==> forall id :: !IsComposed(Tables(), env, key, id)
    {
      var rest := memories.Keys;
      while rest != {}
        invariant rest <= memories.Keys
        invariant forall id :: id in memories && id !in rest ==> !IsComposed(Tables(), env, key, id)
        decreases |rest|
      {
        var id :| id in rest;
        if memories[id].env == env && memories[id].composeKey == Some(key) { return Some(id); }
        rest := rest - {id};
      }
      return None;
    }

    method Compose(req: ComposeRequest, newId: Id, now: int) returns (r: Result<ComposeResponse>)
      requires Inv(Tables())
      modifies this
      ensures Tables() == Commit(old(Tables()), TxCompose(req, newId, now)) && Inv(Tables())
      ensures match ApplyCompose(old(Tables()), req, newId, now)
              case Ok(p) => r == Ok(p.1)
              case Err(e) => r == Err(e)
    {
      ghost var saved := Tables();
      CommitKeeps(saved, TxCompose(req, newId, now));
      var locked := SortIds(req.sources);
      if |locked| < 2 || !Distinct(req.sources) { return Err(InvalidInput); }
      if exists i :: 0 <= i < |locked| && locked[i] !in memories { return Err(NotFound); }
      var env := memories[locked[0]].env;
      var existing := FindComposed(env, req.key);
      if existing.Some? {
        forall id | IsComposed(saved, env, req.key, id) ensures id == existing.value {
          assert SameComposeKey(saved.memories[id], saved.memories[existing.value]);
        }
        return ReplayCompose(Tables(), existing.value, req.mode);
      }
      var refusal := SourceError(Tables(), req, locked);
      if refusal.Some? { return Err(refusal.value); }
      if !VersionsAcceptable(Tables(), req, locked) { return Err(VersionConflict); }
      if !ValidDecisionMeta(req.target) { return Err(InvalidInput); }
      forall x | x in saved.memories
        ensures !(saved.memories[x].env == env && saved.memories[x].composeKey == Some(req.key))
      {
        assert !IsComposed(saved, env, req.key, x);
      }
      DistinctIgnoresOrder(req.sources, locked);
      var added := ComposeFirst(req, locked, newId, now);
      return if added then Ok(FirstResponse(req, locked, newId)) else Err(IntegrityError);
    }

    /** The mutations of a compose whose dedupe key is not taken. */
    method ComposeFirst(req: ComposeRequest, locked: seq<Id>, newId: Id, now: int) returns (ok: bool)
      requires Inv(Tables()) && Distinct(locked) && |locked| > 0
      requires forall i :: 0 <= i < |locked| ==> locked[i] in memories
      requires forall x :: x in memories ==>
                 !(memories[x].env == memories[locked[0]].env && memories[x].composeKey == Some(req.key))
      modifies this
      ensures ok <==> newId !in old(heads)
      ensures Tables() == if ok then Composed(old(Tables()), req, locked, newId, now) else old(Tables())
    {
      ghost var saved := Tables();
      var row := NewRow(memories[locked[0]].env, req.target, req.salience, EffectiveTags(Tables(), req), Some(req.key),
                        now, clock);
      ok := InsertMemory(newId, row);
      if !ok { return; }
      LinkSources(locked, newId, req.mode, saved);
      ghost var d := Inserted(saved, newId, row).(lineage := lineage);
      forall x | x in locked ensures Supersedable(x, newId) { assert LiveRow(saved, x); }
      assert EventKey(newId, 1) !in outbox;
      if req.mode.Merge? { SupersedeSources(locked, newId, now, d, CreateEvent(newId, row)); }
      ok := Enqueue(newId, 1, CreateEvent(newId, row));
    }

    /** One lineage row per source, in lock order. */
    method LinkSources(locked: seq<Id>, newId: Id, mode: ComposeMode, ghost saved: Db)
      requires Inv(saved) && Distinct(locked) && newId !in saved.memories && newId in memories
      requires forall i :: 0 <= i < |locked| ==> locked[i] in saved.memories && locked[i] in memories
      requires lineage == saved.lineage
      modifies this
      ensures Tables() == old(Tables()).(lineage := saved.lineage + ComposeEdges(IdSet(locked), newId, mode))
    {
      for k := 0 to |locked|
        invariant Tables() == old(Tables()).(lineage := saved.lineage + ComposeEdges(IdSet(locked[..k]), newId, mode))
      {
        var e := Edge(locked[k], newId, ComposeRelation(mode));
        assert e !in saved.lineage;
        assert locked[k] !in IdSet(locked[..k]);
        var ok := InsertLineage(e);
        assert IdSet(locked[..k + 1]) == IdSet(locked[..k]) + {locked[k]};
        assert ComposeEdges(IdSet(locked[..k + 1]), newId, mode) == ComposeEdges(IdSet(locked[..k]), newId, mode) + {e};
      }
      assert locked[..|locked|] == locked;
    }

    /** Every source takes its superseding version and its tombstone, in lock order; `last`, the
        event of the merged row, is still to come. */
    method SupersedeSources(locked: seq<Id>, newId: Id, now: int, ghost d: Db, ghost last: Event)
      requires Distinct(locked) && EventKey(newId, 1) !in outbox
      requires Tables().(outbox := outbox[EventKey(newId, 1) := last], heads := heads[newId := 1]) == d
      requires forall i :: 0 <= i < |locked| ==> locked[i] in d.memories
      requires AllSupersedable(locked, newId)
      modifies this`memories, this`outbox, this`heads
      ensures Tables().(outbox := outbox[EventKey(newId, 1) := last], heads := heads[newId := 1])
              == WithSuperseded(d, locked, newId, now, |locked|)
      ensures EventKey(newId, 1) !in outbox
    {
      ghost var w := d;
      for k := 0 to |locked|
        invariant EventKey(newId, 1) !in outbox
        invariant Tables().(outbox := outbox[EventKey(newId, 1) := last], heads := heads[newId := 1]) == w
        invariant w == WithSuperseded(d, locked, newId, now, k)
        invariant AllSupersedable(locked[k..], newId)
      {
        assert locked[k] == locked[k..][0] && locked[k + 1..] == locked[k..][1..];
        assert locked[k] !in locked[k + 1..];
        SupersedeSource(locked[k], newId, now, w, last, locked[k + 1..]);
        w := Edited(w, locked[k], SupersededRow(w.memories[locked[k]], newId, now));
      }
    }

    ghost predicate AllSupersedable(ids: seq<Id>, newId: Id)
      reads this
    {
      forall x :: x in ids ==> Supersedable(x, newId)
    }

    /** A row other than `newId` whose next version is not in the outbox yet. */
    ghost predicate Supersedable(id: Id, newId: Id)
      reads this
    {
      id in memories && id != newId && EventKey(id, memories[id].version + 1) !in outbox
    }

    method SupersedeSource(id: Id, newId: Id, now: int, ghost before: Db, ghost last: Event, ghost rest: seq<Id>)
      requires Supersedable(id, newId) && EventKey(newId, 1) !in outbox && AllSupersedable(rest, newId) && id !in rest
      requires Tables().(outbox := outbox[EventKey(newId, 1) := last], heads := heads[newId := 1]) == before
      modifies this`memories, this`outbox, this`heads
      ensures Tables().(outbox := outbox[EventKey(newId, 1) := last], heads := heads[newId := 1])
              == Edited(before, id, SupersededRow(before.memories[id], newId, now))
      ensures EventKey(newId, 1) !in outbox
      ensures AllSupersedable(rest, newId)
    {
      var src := memories[id];
      var next := SupersededRow(src, newId, now);
      var rowcount, ok := UpdateMemory(id, src.version, next);
      ok := Enqueue(id, next.version, EditEvent(id, next));
    }

    method Decompose(req: DecomposeRequest, opId: Id, ids: seq<Id>, now: int) returns (r: Result<DecomposeResponse>)
      requires Inv(Tables())
      modifies this
      ensures Tables() == Commit(old(Tables()), TxDecompose(req, opId, ids, now)) && Inv(Tables())
      ensures match ApplyDecompose(old(Tables()), req, opId, ids, now)
              case Ok(p) => r == Ok(p.1)
              case Err(e) => r == Err(e)
    {
      var saved := Tables();
      CommitKeeps(saved, TxDecompose(req, opId, ids, now));
      if !ChildrenAcceptable(req.children) { return Err(InvalidInput); }
      if req.source !in memories { return Err(NotFound); }
      var row := memories[req.source];
      var slot := OpKey(row.env, req.key);
      if slot in operations {
        var op := operations[slot];
        if op.fingerprint != req.fingerprint { return Err(InvalidInput); }
        if row.content.kind == "playbook" { return Err(InvalidInput); }
        if op.source !in memories { return Err(NotFound); }
        if exists i :: 0 <= i < |op.children| && op.children[i] !in memories { return Err(NotFound); }
        return Ok(DecomposeResponse(op.id, op.source, op.mode, op.children));
      }
      if row.content.kind == "playbook" { return Err(InvalidInput); }
      if !(row.status.Active? || row.status.Stale?) { return Err(InvalidTransition); }
      if req.expectedVersion.Some? && req.expectedVersion.value != row.version { return Err(VersionConflict); }
      if |ids| != |req.children| || !Distinct(ids) || exists i :: 0 <= i < |ids| && ids[i] in heads {
        return Err(IntegrityError);
      }
      DecomposeFirst(req, row.env, opId, ids, now);
      return Ok(DecomposeResponse(opId, req.source, req.mode, ids));
    }

    /** The mutations of a decompose that claimed its dedupe slot. */
    method DecomposeFirst(req: DecomposeRequest, env: Env, opId: Id, ids: seq<Id>, now: int)
      requires Inv(Tables()) && |ids| == |req.children| && req.source in memories && Distinct(ids)
      requires memories[req.source].status.Active? || memories[req.source].status.Stale?
      requires forall i :: 0 <= i < |ids| ==> ids[i] !in heads
      modifies this
      ensures Tables() == Decomposed(old(Tables()), req, env, opId, ids, now)
    {
      ghost var saved := Tables();
      var row := memories[req.source];
      assert LiveRow(saved, req.source);
      operations := operations[OpKey(env, req.key) := Operation(opId, req.source, req.mode, req.fingerprint, ids)];
      InsertChildren(req, env, ids, now, saved);
      LinkChildren(req, env, ids, now, saved);
      ChildrenPresent(saved, req, env, ids, now, |ids|);
      var retired := RetiredRow(row, now);
      var ok;
      if req.mode.Split? {
        var rowcount;
        rowcount, ok := UpdateMemory(req.source, row.version, retired);
      }
      AnnounceChildren(req, env, ids, now, saved);
      ghost var w := WithChildren(saved, req, env, ids, now, |ids|);
      assert operations ==
        w.operations[OpKey(env, req.key) := Operation(opId, req.source, req.mode, req.fingerprint, ids)];
      assert lineage == w.lineage && outbox == w.outbox && heads == w.heads && clock == w.clock;
      if req.mode.Split? {
        assert memories == w.memories[req.source := retired];
        assert EventKey(req.source, retired.version) !in outbox;
        ok := Enqueue(req.source, retired.version, EditEvent(req.source, retired));
      }
    }

    /** All children are inserted before any of them is linked or announced. */
    method InsertChildren(req: DecomposeRequest, env: Env, ids: seq<Id>, now: int, ghost saved: Db)
      requires Inv(saved) && |ids| == |req.children| && req.source in saved.memories && Distinct(ids)
      requires forall i :: 0 <= i < |ids| ==> ids[i] !in saved.heads
      requires memories == saved.memories && clock == saved.clock && heads == saved.heads
      modifies this
      ensures Tables() == old(Tables()).(memories := WithChildren(saved, req, env, ids, now, |ids|).memories,
                                         clock := WithChildren(saved, req, env, ids, now, |ids|).clock)
    {
      for k := 0 to |ids|
        invariant Tables() == old(Tables()).(memories := WithChildren(saved, req, env, ids, now, k).memories,
                                             clock := WithChildren(saved, req, env, ids, now, k).clock)
      {
        var ok := InsertMemory(ids[k], ChildRow(env, req.children[k], now, clock));
      }
    }

    method LinkChildren(req: DecomposeRequest, env: Env, ids: seq<Id>, now: int, ghost saved: Db)
      requires saved.memories.Keys <= saved.heads.Keys && References(saved)
      requires |ids| == |req.children| && req.source in saved.memories && Distinct(ids)
      requires forall i :: 0 <= i < |ids| ==> ids[i] !in saved.heads
      requires memories == WithChildren(saved, req, env, ids, now, |ids|).memories && lineage == saved.lineage
      modifies this`lineage
      ensures lineage == WithChildren(saved, req, env, ids, now, |ids|).lineage
    {
      for k := 0 to |ids|
        invariant lineage == WithChildren(saved, req, env, ids, now, k).lineage
      {
        LinkIsNew(saved, req, env, ids, now, k);
        var ok := InsertLineage(Edge(req.source, ids[k], DecomposeRelation(req.mode)));
      }
    }

    method AnnounceChildren(req: DecomposeRequest, env: Env, ids: seq<Id>, now: int, ghost saved: Db)
      requires Inv(saved) && |ids| == |req.children| && req.source in saved.memories && Distinct(ids)
      requires forall i :: 0 <= i < |ids| ==> ids[i] !in saved.heads
      requires outbox == saved.outbox && heads == saved.heads
      requires forall i :: 0 <= i < |ids| ==>
                 ids[i] in memories && memories[ids[i]] == ChildRow(env, req.children[i], now, saved.clock + i)
      modifies this
      ensures Tables() == old(Tables()).(outbox := WithChildren(saved, req, env, ids, now, |ids|).outbox,
                                         heads := WithChildren(saved, req, env, ids, now, |ids|).heads)
    {
      for k := 0 to |ids|
        invariant Tables() == old(Tables()).(outbox := WithChildren(saved, req, env, ids, now, k).outbox,
                                             heads := WithChildren(saved, req, env, ids, now, k).heads)
      {
        ChildToAnnounce(saved, req, env, ids, now, k);
        var ok := Enqueue(ids[k], 1, CreateEvent(ids[k], memories[ids[k]]));
      }
    }

    /** The copy's row, its lineage and its event, without the checks on the request. */
    method CopyRow(req: CopyRequest, newId: Id, now: int) returns (error: Option<Error>)
      requires Inv(Tables())
      modifies this
      ensures error == ErrorOf(ApplyCopy(old(Tables()), req, newId, now))
      ensures Tables() == match ApplyCopy(old(Tables()), req, newId, now) case Ok(d) => d case Err(_) => old(Tables())
    {
      ghost var saved := Tables();
      if req.source !in memories { return Some(NotFound); }
      var row := memories[req.source];
      if row.env == req.dstEnv { return Some(InvalidInput); }
      var copy := CopyOf(row, req, now, clock);
      var ok := InsertMemory(newId, copy);
      if !ok { return Some(IntegrityError); }
      LinkCopy(req, newId, saved);
      assert EventKey(newId, 1) !in saved.outbox;
      ok := Enqueue(newId, 1, CreateEvent(newId, copy));
      return None;
    }

    /** The lineage a copy takes along and the row that says what it was copied from. */
    method LinkCopy(req: CopyRequest, newId: Id, ghost saved: Db)
      requires References(saved) && req.source in saved.memories && newId !in saved.memories && lineage == saved.lineage
      requires memories.Keys == saved.memories.Keys + {newId}
      modifies this`lineage
      ensures lineage == saved.lineage + CopyEdges(saved, req, newId)
    {
      if req.copyLineage { CopyLineage(req.source, newId, saved); }
      if req.createEdge {
        assert Edge(req.source, newId, CopiedFrom) !in lineage;
        var ok := InsertLineage(Edge(req.source, newId, CopiedFrom));
      }
    }

    /** Every lineage row that touches the source is repeated for the copy. */
    method CopyLineage(source: Id, newId: Id, ghost saved: Db)
      requires References(saved) && source in saved.memories && newId !in saved.memories && lineage == saved.lineage
      requires memories.Keys == saved.memories.Keys + {newId}
      modifies this`lineage
      ensures lineage == saved.lineage + CopiedEdges(saved.lineage, source, newId)
    {
      var rest := set e | e in lineage && (e.parent == source || e.child == source);
      ghost var all := rest;
      while rest != {}
        invariant rest <= all
        invariant lineage == saved.lineage + RenamedAll(all - rest, source, newId)
        decreases |rest|
      {
        var e :| e in rest;
        RenamedStep(saved, all, rest, e, source, newId);
        var ok := InsertLineage(Renamed(e, source, newId));
        rest := rest - {e};
      }
      assert all - rest == all;
    }

    method Copy(req: CopyRequest, newId: Id, now: int) returns (error: Option<Error>)
      requires Inv(Tables())
      modifies this
      ensures Tables() == Commit(old(Tables()), TxCopy(req, newId, now)) && Inv(Tables())
      ensures error == ErrorOf(ApplyCopy(old(Tables()), req, newId, now))
    {
      CommitKeeps(Tables(), TxCopy(req, newId, now));
      error := CopyRow(req, newId, now);
    }

    method Move(req: CopyRequest, redirect: bool, graphRef: bool, newId: Id, now: int) returns (error: Option<Error>)
      requires Inv(Tables())
      modifies this
      ensures Tables() == Commit(old(Tables()), TxMove(req, redirect, graphRef, newId, now)) && Inv(Tables())
      ensures error == ErrorOf(ApplyMove(old(Tables()), req, redirect, graphRef, newId, now))
      ensures !redirect ==> error.Some?
    {
      var saved := Tables();
      CommitKeeps(saved, TxMove(req, redirect, graphRef, newId, now));
      MoveWithoutRedirectNeverCommits(saved, req, graphRef, newId, now);
      error := CopyRow(req, newId, now);
      if error.Some? { return; }
      assert LiveRow(saved, req.source);
      var row := memories[req.source];
      if redirect {
        var next := SupersededRow(row, newId, now);
        var rowcount, ok := UpdateMemory(req.source, row.version, next);
        assert EventKey(req.source, next.version) !in saved.outbox;
        ok := Enqueue(req.source, next.version, EditEvent(req.source, next));
        return None;
      }
      if Referenced(Tables(), req.source) || graphRef { Rollback(saved); return Some(Conflict); }
      var ok := Enqueue(req.source, row.version, Event(Tombstone, Project(req.source, row)));
      assert !ok;
      Rollback(saved);
      return Some(IntegrityError);
    }

    method HardDelete(id: Id, expectedVersion: nat, graphRef: bool) returns (error: Option<Error>)
      requires Inv(Tables())
      modifies this
      ensures Tables() == Commit(old(Tables()), TxHardDelete(id, expectedVersion, graphRef)) && Inv(Tables())
      ensures error == ErrorOf(ApplyHardDelete(old(Tables()), id, expectedVersion, graphRef))
    {
      var saved := Tables();
      CommitKeeps(saved, TxHardDelete(id, expectedVersion, graphRef));
      if id !in memories { return Some(NotFound); }
      if memories[id].version != expectedVersion { return Some(VersionConflict); }
      if Referenced(Tables(), id) || graphRef { return Some(Conflict); }
      error := BuryAndDelete(id);
      if error.Some? { Rollback(saved); }
    }

    method BuryAndDelete(id: Id) returns (error: Option<Error>)
      requires Inv(Tables()) && id in memories
      modifies this
      ensures error == ErrorOf(ApplyDelete(Buried(old(Tables()), id), id))
      ensures error.None? ==> Tables() == ApplyDelete(Buried(old(Tables()), id), id).value
    {
      var row := memories[id];
      assert LiveRow(Tables(), id);
      var ok := Enqueue(id, row.version + 1, Event(Tombstone, Project(id, row)));
      ok := DeleteMemory(id);
      return if ok then None else Some(IntegrityError);
    }

    /** The execute half of a cascade: lock, recheck, bury and delete each victim in turn. */
    method Cascade(plan: seq<Victim>) returns (error: Option<Error>)
      requires Inv(Tables())
      modifies this
      ensures Tables() == Commit(old(Tables()), TxCascade(plan)) && Inv(Tables())
      ensures error == ErrorOf(ApplyCascade(old(Tables()), plan))
    {
      var saved := Tables();
      CommitKeeps(saved, TxCascade(plan));
      for k := 0 to |plan|
        invariant Inv(Tables())
        invariant ApplyCascade(saved, plan) == ApplyCascade(Tables(), plan[k..])
      {
        var v := plan[k];
        assert plan[k..][1..] == plan[k + 1..];
        if v.id !in memories || memories[v.id].version != v.version {
          Rollback(saved);
          return Some(VersionConflict);
        }
        ghost var before := Tables();
        error := BuryAndDelete(v.id);
        if error.Some? { Rollback(saved); return; }
        BuriedAndDeletedKeeps(before, v.id);
      }
      error := None;
    }
  }

  /** An unused id meets no key of lineage or outbox, and neither does the next version of a row. */
  lemma SupersedeMeetsNoKey(db: Db, oldId: Id, newId: Id)
    requires Inv(db) && oldId in db.memories
    ensures EventKey(oldId, db.memories[oldId].version + 1) !in db.outbox
    ensures newId !in db.heads ==>
              newId != oldId && newId !in db.memories && EventKey(newId, 1) !in db.outbox
                && Edge(oldId, newId, Supersedes) !in db.lineage
  {
    assert LiveRow(db, oldId);
  }

  ghost function RenamedAll(edges: set<Edge>, source: Id, newId: Id): set<Edge> {
    set e | e in edges :: Renamed(e, source, newId)
  }

  /** Renaming one more row of the source adds one more row, and one not there yet. */
  lemma RenamedStep(saved: Db, all: set<Edge>, rest: set<Edge>, e: Edge, source: Id, newId: Id)
    requires References(saved) && newId !in saved.memories && rest <= all <= saved.lineage && e in rest
    requires e.parent == source || e.child == source
    ensures RenamedAll(all - (rest - {e}), source, newId) ==
            RenamedAll(all - rest, source, newId) + {Renamed(e, source, newId)}
    ensures Renamed(e, source, newId) !in saved.lineage + RenamedAll(all - rest, source, newId)
  {
    assert all - (rest - {e}) == (all - rest) + {e};
    forall f | f in all - rest ensures Renamed(f, source, newId) != Renamed(e, source, newId) {}
  }

  /** The first `n` children carry the rows and the versions the request gave them. */
  lemma {:induction false} ChildrenPresent(db: Db, req: DecomposeRequest, env: Env, ids: seq<Id>, now: int, n: nat)
    requires db.memories.Keys <= db.heads.Keys && n <= |ids| == |req.children| && Distinct(ids)
    requires forall i :: 0 <= i < |ids| ==> ids[i] !in db.heads
    ensures var d := WithChildren(db, req, env, ids, now, n);
            && d.clock == db.clock + n && d.operations == db.operations
            && (forall i :: 0 <= i < n ==>
                ids[i] in d.memories && d.memories[ids[i]] == ChildRow(env, req.children[i], now, db.clock + i))
            && (forall i :: n <= i < |ids| ==> ids[i] !in d.memories && ids[i] !in d.heads)
            && (forall e :: e in d.lineage ==> e in db.lineage || exists i :: 0 <= i < n && e.child == ids[i])
            && (forall id :: id in db.memories ==> id in d.memories && d.memories[id] == db.memories[id])
            && (forall k :: k in d.outbox ==> k in db.outbox || exists i :: 0 <= i < n && k == EventKey(ids[i], 1))
  {
    if n > 0 { ChildrenPresent(db, req, env, ids, now, n - 1); }
  }

  /** The next child to announce: its event key is free, and where its row and clock stand. */
  lemma ChildToAnnounce(db: Db, req: DecomposeRequest, env: Env, ids: seq<Id>, now: int, k: nat)
    requires Inv(db) && k < |ids| == |req.children| && req.source in db.memories && Distinct(ids)
    requires forall i :: 0 <= i < |ids| ==> ids[i] !in db.heads
    ensures EventKey(ids[k], 1) !in WithChildren(db, req, env, ids, now, k).outbox
    ensures WithChildren(db, req, env, ids, now, k).clock == db.clock + k
  {
    ChildrenPresent(db, req, env, ids, now, k);
    ChildrenKeep(db, req, env, ids, now, k);
  }

  lemma LinkIsNew(db: Db, req: DecomposeRequest, env: Env, ids: seq<Id>, now: int, k: nat)
    requires db.memories.Keys <= db.heads.Keys && References(db)
    requires k < |ids| == |req.children| && req.source in db.memories && Distinct(ids)
    requires forall i :: 0 <= i < |ids| ==> ids[i] !in db.heads
    ensures Edge(req.source, ids[k], DecomposeRelation(req.mode)) !in WithChildren(db, req, env, ids, now, k).lineage
    ensures ids[k] != req.source
    ensures ids[k] in WithChildren(db, req, env, ids, now, |ids|).memories
    ensures req.source in WithChildren(db, req, env, ids, now, |ids|).memories
  {
    ChildrenPresent(db, req, env, ids, now, k);
    ChildrenPresent(db, req, env, ids, now, |ids|);
  }

  function ErrorOf<T>(r: Result<T>): Option<Error> {
    if r.Ok? then None else Some(r.error)
  }
}
