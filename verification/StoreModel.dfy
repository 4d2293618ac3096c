/** The canonical tables of the memory store and what one committed transaction does to them.

    Every function here answers a new value of the tables, or the error that rolls the
    transaction back. `MemoryStore` executes the same transactions statement by statement
    and is proved to end in exactly these states. */
module StoreModel {
  import opened Wrappers
  import opened Sorting

  type Id = nat
  type Env = nat
  type Tag = string

  datatype Status = Proposed | Active | Stale | Archived | Superseded | Retired

  /** The statuses for which a memory appears in projections. */
  predicate Visible(s: Status) {
    s.Proposed? || s.Active? || s.Stale?
  }

  /** The lifecycle table; re-applying the current status is always allowed. */
  predicate IsValidTransition(src: Status, dst: Status) {
    src == dst ||
    match src
    case Proposed => dst.Active? || dst.Retired?
    case Active => dst.Stale? || dst.Archived? || dst.Superseded? || dst.Retired?
    case Stale => dst.Active? || dst.Archived? || dst.Superseded? || dst.Retired?
    case Archived => dst.Active? || dst.Superseded? || dst.Retired?
    case Superseded => dst.Retired?
    case Retired => false
  }

  /** The caller-supplied part of a memory, all of it projected. */
  datatype Content = Content(
    kind: string,
    title: Option<string>,
    body: string,
    trigger: Option<string>,
    confidence: real,
    pinned: bool,
    metadata: string,
    decisionMeta: Option<string>,
    expiresAt: Option<int>,
    verifiedAt: Option<int>)

  /** One row of `memories` with its tags. `serial` is a history variable: the
      position of the INSERT among all INSERTs, whatever `createdAt` says. */
  datatype Row = Row(
    env: Env,
    status: Status,
    content: Content,
    salience: real,
    tags: set<Tag>,
    supersededBy: Option<Id>,
    composeKey: Option<string>,
    version: nat,
    createdAt: int,
    updatedAt: int,
    serial: nat)

  datatype Relation = PromotedFrom | SummarizedFrom | CopiedFrom | MovedFrom | Supersedes | SplitFrom | DerivedFrom

  datatype Edge = Edge(parent: Id, child: Id, relation: Relation)

  datatype OutboxOp = Upsert | Update | Tombstone

  datatype Payload = Payload(
    id: Id, env: Env, status: Status, content: Content, salience: real,
    tags: set<Tag>, supersededBy: Option<Id>, version: nat, createdAt: int, updatedAt: int)

  /** The unique key of the outbox. */
  datatype EventKey = EventKey(id: Id, version: nat)

  datatype Event = Event(op: OutboxOp, payload: Payload)

  datatype DecomposeMode = Split | Derive

  datatype Operation = Operation(id: Id, source: Id, mode: DecomposeMode, fingerprint: string, children: seq<Id>)

  datatype OpKey = OpKey(env: Env, key: string)

  /** `heads` is a history variable: the last aggregate version enqueued for every id ever used. */
  datatype Db = Db(
    memories: map<Id, Row>,
    lineage: set<Edge>,
    outbox: map<EventKey, Event>,
    operations: map<OpKey, Operation>,
    heads: map<Id, nat>,
    clock: nat)

  const EMPTY := Db(map[], {}, map[], map[], map[], 0)

  function OutboxOpFor(s: Status, isCreate: bool): OutboxOp {
    if !Visible(s) then Tombstone else if isCreate then Upsert else Update
  }

  function Project(id: Id, row: Row): Payload {
    Payload(id, row.env, row.status, row.content, row.salience, row.tags,
            row.supersededBy, row.version, row.createdAt, row.updatedAt)
  }

  /** The CHECK constraints on one row of `memories`. */
  predicate RowChecks(id: Id, row: Row) {
    && (row.status.Superseded? <==> row.supersededBy.Some?)
    && row.supersededBy != Some(id)
    && row.version > 0
  }

  predicate ValidDecisionMeta(c: Content) {
    c.decisionMeta.Some? ==> c.kind == "decision"
  }

  function NewRow(env: Env, c: Content, salience: real, tags: set<Tag>, composeKey: Option<string>, now: int,
                  serial: nat): Row {
    Row(env, Active, c, salience, tags, None, composeKey, 1, now, now, serial)
  }

  function CreateEvent(id: Id, row: Row): Event {
    Event(OutboxOpFor(row.status, true), Project(id, row))
  }

  function EditEvent(id: Id, row: Row): Event {
    Event(OutboxOpFor(row.status, false), Project(id, row))
  }

  /** A transaction that inserts `row` under a never-used id, with its outbox event. */
  function Inserted(db: Db, id: Id, row: Row): Db {
    db.(memories := db.memories[id := row],
        outbox := db.outbox[EventKey(id, row.version) := CreateEvent(id, row)],
        heads := db.heads[id := row.version],
        clock := db.clock + 1)
  }

  /** A transaction that replaces the row of `id` by its next version, with its outbox event. */
  function Edited(db: Db, id: Id, row: Row): Db {
    db.(memories := db.memories[id := row],
        outbox := db.outbox[EventKey(id, row.version) := EditEvent(id, row)],
        heads := db.heads[id := row.version])
  }

  // ------------------------------------------------------------ write

  datatype WriteRequest = WriteRequest(env: Env, content: Content, salience: real, tags: set<Tag>)

  function ApplyWrite(db: Db, req: WriteRequest, id: Id, now: int): Result<Db> {
    if !ValidDecisionMeta(req.content) then Err(InvalidInput)
    else if id in db.heads then Err(IntegrityError)
    else Ok(Inserted(db, id, NewRow(req.env, req.content, req.salience, req.tags, None, now, db.clock)))
  }

  // ------------------------------------------------------------ update

  /** A patch field: absent means no change, which is not the same as clearing it. */
  datatype Field<T> = Unset | Set(value: T)

  datatype Patch = Patch(
    expectedVersion: nat,
    kind: Option<string>, title: Field<Option<string>>, body: Field<Option<string>>,
    trigger: Field<Option<string>>, metadata: Field<string>, decisionMeta: Field<Option<string>>,
    confidence: Option<real>, pinned: Option<bool>, expiresAt: Field<Option<int>>, verifiedAt: Field<Option<int>>,
    salience: Option<real>, status: Option<Status>, tags: Field<set<Tag>>)

  function Pick<T>(f: Field<T>, current: T): T {
    if f.Set? then f.value else current
  }

  function GetOr<T>(o: Option<T>, current: T): T {
    if o.Some? then o.value else current
  }

  function PatchedContent(c: Content, p: Patch): Content {
    Content(GetOr(p.kind, c.kind), Pick(p.title, c.title),
            if p.body.Set? && p.body.value.Some? then p.body.value.value else c.body,
            Pick(p.trigger, c.trigger), GetOr(p.confidence, c.confidence), GetOr(p.pinned, c.pinned),
            Pick(p.metadata, c.metadata), Pick(p.decisionMeta, c.decisionMeta),
            Pick(p.expiresAt, c.expiresAt), Pick(p.verifiedAt, c.verifiedAt))
  }

  function PatchedRow(row: Row, p: Patch, now: int): Row {
    row.(content := PatchedContent(row.content, p),
         salience := GetOr(p.salience, row.salience),
         status := GetOr(p.status, row.status),
         tags := Pick(p.tags, row.tags),
         version := row.version + 1,
         updatedAt := now)
  }

  function ApplyUpdate(db: Db, id: Id, p: Patch, now: int): Result<Db> {
    if id !in db.memories then Err(NotFound)
    else
      var row := db.memories[id];
      var next := PatchedRow(row, p, now);
      if row.version != p.expectedVersion then Err(VersionConflict)
      else if p.body == Set(None) then Err(InvalidInput)
      else if !IsValidTransition(row.status, next.status) then Err(InvalidTransition)
      else if !ValidDecisionMeta(next.content) then Err(InvalidInput)
      else if !RowChecks(id, next) then Err(IntegrityError)
      else Ok(Edited(db, id, next))
  }

  // ------------------------------------------------------------ supersede

  datatype SupersedeRequest = SupersedeRequest(
    expectedVersion: nat, env: Option<Env>, content: Content, salience: real, tags: set<Tag>)

  function SupersededRow(row: Row, successor: Id, now: int): Row {
    row.(status := Superseded, supersededBy := Some(successor), version := row.version + 1, updatedAt := now)
  }

  /** The tables after a supersede: the successor's row, the retired row and the lineage between them. */
  function Superseding(db: Db, oldId: Id, req: SupersedeRequest, newId: Id, now: int): Db
    requires oldId in db.memories
  {
    var row := db.memories[oldId];
    var d := Inserted(db, newId, NewRow(row.env, req.content, req.salience, req.tags, None, now, db.clock));
    var d := Edited(d, oldId, SupersededRow(row, newId, now));
    d.(lineage := d.lineage + {Edge(oldId, newId, Supersedes)})
  }

  function ApplySupersede(db: Db, oldId: Id, req: SupersedeRequest, newId: Id, now: int): Result<Db> {
    if oldId !in db.memories then Err(NotFound)
    else
      var row := db.memories[oldId];
      if req.env.Some? && req.env.value != row.env then Err(InvalidTransition)
      else if row.version != req.expectedVersion then Err(VersionConflict)
      else if !IsValidTransition(row.status, Superseded) then Err(InvalidTransition)
      else if !ValidDecisionMeta(req.content) then Err(InvalidInput)
      else if newId in db.heads then Err(IntegrityError)
      else Ok(Superseding(db, oldId, req, newId, now))
  }

  // ------------------------------------------------------------ compose

  datatype ComposeMode = Promote | Merge
  datatype TagPolicy = TargetOnly | UnionOnly | TargetPlusUnion

  /** `key` is the dedupe key, a function of the request and the environment of its sources. */
  datatype ComposeRequest = ComposeRequest(
    sources: seq<Id>, mode: ComposeMode, env: Option<Env>, expectedVersions: map<Id, nat>,
    target: Content, salience: real, tags: set<Tag>, tagPolicy: Option<TagPolicy>, key: string)

  function ResolvePolicy(req: ComposeRequest): TagPolicy {
    if req.tagPolicy.Some? then req.tagPolicy.value
    else if req.mode.Promote? then TargetOnly else TargetPlusUnion
  }

  function EffectiveTags(db: Db, req: ComposeRequest): set<Tag> {
    var fromSources := set id, t | id in req.sources && id in db.memories && t in db.memories[id].tags :: t;
    match ResolvePolicy(req)
    case TargetOnly => req.tags
    case UnionOnly => fromSources
    case TargetPlusUnion => req.tags + fromSources
  }

  function ComposeRelation(mode: ComposeMode): Relation {
    if mode.Merge? then Supersedes else PromotedFrom
  }

  /** The environment and the key already name a composed memory. */
  ghost predicate IsComposed(db: Db, env: Env, key: string, id: Id) {
    id in db.memories && db.memories[id].env == env && db.memories[id].composeKey == Some(key)
  }

  /** The reason the locked sources cannot be composed, if there is one. */
  function SourceError(db: Db, req: ComposeRequest, locked: seq<Id>): Option<Error>
    requires |locked| > 0 && forall i :: 0 <= i < |locked| ==> locked[i] in db.memories
  {
    var env := db.memories[locked[0]].env;
    if exists i :: 0 <= i < |locked| && db.memories[locked[i]].env != env then Some(InvalidInput)
    else if req.env.Some? && req.env.value != env then Some(InvalidInput)
    else if exists i ::
        0 <= i < |locked| && !(db.memories[locked[i]].status.Active? || db.memories[locked[i]].status.Stale?) then
      Some(InvalidTransition)
    else if req.target.kind == "playbook" then Some(InvalidInput)
    else if req.mode.Merge? && exists i ::
        0 <= i < |locked| && db.memories[locked[i]].content.kind != req.target.kind then
      Some(InvalidInput)
    else None
  }

  predicate VersionsAcceptable(db: Db, req: ComposeRequest, locked: seq<Id>)
    requires forall i :: 0 <= i < |locked| ==> locked[i] in db.memories
  {
    forall id :: id in req.expectedVersions ==> id in locked && db.memories[id].version == req.expectedVersions[id]
  }

  /** The first `n` of `ids` superseded by `newId`, each with its next version and its event. */
  function WithSuperseded(db: Db, ids: seq<Id>, newId: Id, now: int, n: nat): (d: Db)
    requires n <= |ids| && forall i :: 0 <= i < |ids| ==> ids[i] in db.memories
    ensures d.memories.Keys == db.memories.Keys
  {
    if n == 0 then db
    else
      var d := WithSuperseded(db, ids, newId, now, n - 1);
      Edited(d, ids[n - 1], SupersededRow(d.memories[ids[n - 1]], newId, now))
  }

  function IdSet(ids: seq<Id>): set<Id> {
    set id | id in ids
  }

  function ComposeEdges(ids: set<Id>, newId: Id, mode: ComposeMode): set<Edge> {
    set id | id in ids :: Edge(id, newId, ComposeRelation(mode))
  }

  /** The tables after a first compose: the merged row, its lineage, and in merge mode its superseded sources. */
  function Composed(db: Db, req: ComposeRequest, locked: seq<Id>, newId: Id, now: int): Db
    requires |locked| > 0 && forall i :: 0 <= i < |locked| ==> locked[i] in db.memories
  {
    var env := db.memories[locked[0]].env;
    var d := Inserted(db, newId,
                      NewRow(env, req.target, req.salience, EffectiveTags(db, req), Some(req.key), now, db.clock));
    var d := d.(lineage := d.lineage + ComposeEdges(IdSet(locked), newId, req.mode));
    if req.mode.Promote? then d else WithSuperseded(d, locked, newId, now, |locked|)
  }

  /** The mode a replay reads off the lineage of the composed memory. */
  function ReplayParents(db: Db, id: Id): set<Id> {
    set e | e in db.lineage && e.child == id :: e.parent
  }

  function ReplayRetired(db: Db, id: Id): set<Id> {
    set e | e in db.lineage && e.child == id && e.relation == Supersedes :: e.parent
  }

  function ReplayPromoted(db: Db, id: Id): set<Id> {
    set e | e in db.lineage && e.child == id && e.relation == PromotedFrom :: e.parent
  }

  datatype ComposeResponse = ComposeResponse(
    id: Id, mode: ComposeMode, sources: set<Id>, retired: set<Id>, lineage: set<Edge>)

  function FirstResponse(req: ComposeRequest, locked: seq<Id>, newId: Id): ComposeResponse {
    ComposeResponse(newId, req.mode, IdSet(locked), if req.mode.Merge? then IdSet(locked) else {},
                    ComposeEdges(IdSet(locked), newId, req.mode))
  }

  /** What a dedupe-key hit answers, or the error it raises. */
  function ReplayCompose(db: Db, id: Id, mode: ComposeMode): Result<ComposeResponse> {
    var parents := ReplayParents(db, id);
    var retired := ReplayRetired(db, id);
    var promoted := ReplayPromoted(db, id);
    if parents == {} then Err(InvalidTransition)
    else if (retired != {}) == (promoted != {}) then Err(InvalidTransition)
    else
      var prior := if retired != {} then Merge else Promote;
      if prior != mode then Err(InvalidInput)
      else Ok(ComposeResponse(id, mode, parents, if mode.Merge? then retired else {},
                              ComposeEdges(parents, id, mode)))
  }

  /** The outcome of a compose: the tables after it and its response. Rows are locked in id
      order, and the environment is that of the first one. */
  ghost function ApplyCompose(db: Db, req: ComposeRequest, newId: Id, now: int): Result<(Db, ComposeResponse)> {
    var locked := SortIds(req.sources);
    if |locked| < 2 || !Distinct(req.sources) then Err(InvalidInput)
    else if exists i :: 0 <= i < |locked| && locked[i] !in db.memories then Err(NotFound)
    else
      var env := db.memories[locked[0]].env;
      if exists id :: IsComposed(db, env, req.key, id) then
        var id :| IsComposed(db, env, req.key, id);
        match ReplayCompose(db, id, req.mode)
        case Ok(r) => Ok((db, r))
        case Err(e) => Err(e)
      else if SourceError(db, req, locked).Some? then Err(SourceError(db, req, locked).value)
      else if !VersionsAcceptable(db, req, locked) then Err(VersionConflict)
      else if !ValidDecisionMeta(req.target) then Err(InvalidInput)
      else if newId in db.heads then Err(IntegrityError)
      else
        Ok((Composed(db, req, locked, newId, now), FirstResponse(req, locked, newId)))
  }

  // ------------------------------------------------------------ decompose

  datatype Child = Child(content: Content, salience: real, tags: set<Tag>)

  datatype DecomposeRequest = DecomposeRequest(
    source: Id, mode: DecomposeMode, children: seq<Child>, expectedVersion: Option<nat>,
    key: string, fingerprint: string)

  datatype DecomposeResponse = DecomposeResponse(operation: Id, source: Id, mode: DecomposeMode, children: seq<Id>)

  function DecomposeRelation(mode: DecomposeMode): Relation {
    if mode.Split? then SplitFrom else DerivedFrom
  }

  /** The identity-bearing part of a child: the trigger text and the expiry are not in it. */
  function Canonical(c: Child): Child {
    c.(content := c.content.(trigger := None, expiresAt := None))
  }

  predicate ChildrenAcceptable(children: seq<Child>) {
    && (forall i :: 0 <= i < |children| ==> ValidDecisionMeta(children[i].content))
    && (forall i, j :: 0 <= i < j < |children| ==> Canonical(children[i]) != Canonical(children[j]))
  }

  function ChildRow(env: Env, c: Child, now: int, serial: nat): Row {
    NewRow(env, c.content, c.salience, c.tags, None, now, serial)
  }

  /** The first `n` children inserted, each with its event and its lineage row. */
  function WithChildren(db: Db, req: DecomposeRequest, env: Env, ids: seq<Id>, now: int, n: nat): Db
    requires n <= |ids| == |req.children|
  {
    if n == 0 then db
    else
      var d := WithChildren(db, req, env, ids, now, n - 1);
      var d := Inserted(d, ids[n - 1], ChildRow(env, req.children[n - 1], now, d.clock));
      d.(lineage := d.lineage + {Edge(req.source, ids[n - 1], DecomposeRelation(req.mode))})
  }

  function RetiredRow(row: Row, now: int): Row {
    row.(status := Retired, version := row.version + 1, updatedAt := now)
  }

  function Decomposed(db: Db, req: DecomposeRequest, env: Env, opId: Id, ids: seq<Id>, now: int): Db
    requires |ids| == |req.children| && req.source in db.memories
  {
    var d := WithChildren(db, req, env, ids, now, |ids|);
    var d := d.(operations :=
                  d.operations[OpKey(env, req.key) := Operation(opId, req.source, req.mode, req.fingerprint, ids)]);
    if req.mode.Derive? then d else Edited(d, req.source, RetiredRow(db.memories[req.source], now))
  }

  function ApplyDecompose(db: Db, req: DecomposeRequest, opId: Id, ids: seq<Id>,
                          now: int): Result<(Db, DecomposeResponse)> {
    if !ChildrenAcceptable(req.children) then Err(InvalidInput)
    else if req.source !in db.memories then Err(NotFound)
    else
      var row := db.memories[req.source];
      var slot := OpKey(row.env, req.key);
      if slot in db.operations then
        var op := db.operations[slot];
        if op.fingerprint != req.fingerprint then Err(InvalidInput)
        else if row.content.kind == "playbook" then Err(InvalidInput)
        else if op.source !in db.memories then Err(NotFound)
        else if exists i :: 0 <= i < |op.children| && op.children[i] !in db.memories then Err(NotFound)
        else Ok((db, DecomposeResponse(op.id, op.source, op.mode, op.children)))
      else if row.content.kind == "playbook" then Err(InvalidInput)
      else if !(row.status.Active? || row.status.Stale?) then Err(InvalidTransition)
      else if req.expectedVersion.Some? && req.expectedVersion.value != row.version then Err(VersionConflict)
      else if |ids| != |req.children| || !Distinct(ids)
        || (exists i :: 0 <= i < |ids| && ids[i] in db.heads) then Err(IntegrityError)
      else Ok((Decomposed(db, req, row.env, opId, ids, now), DecomposeResponse(opId, req.source, req.mode, ids)))
  }

  // ------------------------------------------------------------ copy and move

  datatype CopyRequest = CopyRequest(
    source: Id, dstEnv: Env, copyTags: bool, copyLineage: bool, createEdge: bool, preserveTimestamps: bool)

  function CopyOf(row: Row, req: CopyRequest, now: int, serial: nat): Row {
    var created := if req.preserveTimestamps then row.createdAt else now;
    var updated := if req.preserveTimestamps then row.updatedAt else now;
    Row(req.dstEnv, Active, row.content, row.salience, if req.copyTags then row.tags else {}, None, None, 1,
        created, updated, serial)
  }

  function Renamed(e: Edge, src: Id, dst: Id): Edge {
    Edge(if e.parent == src then dst else e.parent, if e.child == src then dst else e.child, e.relation)
  }

  function CopiedEdges(lineage: set<Edge>, src: Id, dst: Id): set<Edge> {
    set e | e in lineage && (e.parent == src || e.child == src) :: Renamed(e, src, dst)
  }

  function CopyEdges(db: Db, req: CopyRequest, dst: Id): set<Edge> {
    (if req.copyLineage then CopiedEdges(db.lineage, req.source, dst) else {})
    + (if req.createEdge then {Edge(req.source, dst, CopiedFrom)} else {})
  }

  function ApplyCopy(db: Db, req: CopyRequest, newId: Id, now: int): Result<Db> {
    if req.source !in db.memories then Err(NotFound)
    else if db.memories[req.source].env == req.dstEnv then Err(InvalidInput)
    else if newId in db.heads then Err(IntegrityError)
    else
      var d := Inserted(db, newId, CopyOf(db.memories[req.source], req, now, db.clock));
      Ok(d.(lineage := d.lineage + CopyEdges(db, req, newId)))
  }

  predicate Referenced(db: Db, id: Id) {
    || (exists e :: e in db.lineage && (e.parent == id || e.child == id))
    || (exists r :: r in db.memories && db.memories[r].supersededBy == Some(id))
  }

  function ApplyMove(db: Db, req: CopyRequest, redirect: bool, graphRef: bool, newId: Id, now: int): Result<Db> {
    match ApplyCopy(db, req, newId, now)
    case Err(e) => Err(e)
    case Ok(d) =>
      var row := db.memories[req.source];
      if redirect then Ok(Edited(d, req.source, SupersededRow(row, newId, now)))
      else if Referenced(d, req.source) || graphRef then Err(Conflict)
      else if EventKey(req.source, row.version) in d.outbox then Err(IntegrityError)
      else match ApplyDelete(d.(outbox :=
                                  d.outbox[EventKey(req.source, row.version) :=
                                             Event(Tombstone, Project(req.source, row))]), req.source)
           case Err(e) => Err(e)
           case Ok(d') => Ok(d')
  }

  // ------------------------------------------------------------ hard delete

  /** DELETE of one row: rejected while another row names it as successor or an operation
      names it as source; lineage rows go with it. */
  function ApplyDelete(db: Db, id: Id): Result<Db> {
    if exists r :: r in db.memories && r != id && db.memories[r].supersededBy == Some(id) then Err(IntegrityError)
    else if exists k :: k in db.operations && db.operations[k].source == id then Err(IntegrityError)
    else Ok(db.(memories := db.memories - {id},
                lineage := set e | e in db.lineage && e.parent != id && e.child != id))
  }

  /** The tombstone event takes the version after the row's last one. */
  function Buried(db: Db, id: Id): Db
    requires id in db.memories
  {
    var row := db.memories[id];
    db.(outbox := db.outbox[EventKey(id, row.version + 1) := Event(Tombstone, Project(id, row))],
        heads := db.heads[id := row.version + 1])
  }

  function ApplyHardDelete(db: Db, id: Id, expectedVersion: nat, graphRef: bool): Result<Db> {
    if id !in db.memories then Err(NotFound)
    else if db.memories[id].version != expectedVersion then Err(VersionConflict)
    else if Referenced(db, id) || graphRef then Err(Conflict)
    else ApplyDelete(Buried(db, id), id)
  }

  /** One planned victim of a cascade: the id and the version seen when planning. */
  datatype Victim = Victim(id: Id, version: nat)

  /** The delete half of a cascade: every planned row, in plan order, in one transaction. */
  function ApplyCascade(db: Db, plan: seq<Victim>): Result<Db>
    decreases |plan|
  {
    if plan == [] then Ok(db)
    else
      var v := plan[0];
      if v.id !in db.memories || db.memories[v.id].version != v.version then Err(VersionConflict)
      else match ApplyDelete(Buried(db, v.id), v.id)
           case Err(e) => Err(e)
           case Ok(d) => ApplyCascade(d, plan[1..])
  }

  // ------------------------------------------------------------ access bump

  /** A read of a visible memory rewrites its salience, and nothing the version guards. */
  function ApplyBump(db: Db, id: Id, salience: real): Result<Db> {
    if id !in db.memories then Err(NotFound)
    else if !Visible(db.memories[id].status) then Ok(db)
    else Ok(db.(memories := db.memories[id := db.memories[id].(salience := salience)]))
  }

  // ------------------------------------------------------------ runs

  datatype Tx =
    | TxWrite(write: WriteRequest, id: Id, now: int)
    | TxUpdate(id: Id, patch: Patch, now: int)
    | TxSupersede(oldId: Id, supersede: SupersedeRequest, newId: Id, now: int)
    | TxCompose(compose: ComposeRequest, newId: Id, now: int)
    | TxDecompose(decompose: DecomposeRequest, opId: Id, ids: seq<Id>, now: int)
    | TxCopy(copy: CopyRequest, newId: Id, now: int)
    | TxMove(copy: CopyRequest, redirect: bool, graphRef: bool, newId: Id, now: int)
    | TxHardDelete(id: Id, expectedVersion: nat, graphRef: bool)
    | TxCascade(plan: seq<Victim>)
    | TxBump(id: Id, salience: real)

  ghost function Apply(db: Db, tx: Tx): Result<Db> {
    match tx
    case TxWrite(req, id, now) => ApplyWrite(db, req, id, now)
    case TxUpdate(id, p, now) => ApplyUpdate(db, id, p, now)
    case TxSupersede(oldId, req, newId, now) => ApplySupersede(db, oldId, req, newId, now)
    case TxCompose(req, newId, now) =>
      (match ApplyCompose(db, req, newId, now)
       case Ok(p) => Ok(p.0)
       case Err(e) => Err(e))
    case TxDecompose(req, opId, ids, now) =>
      (match ApplyDecompose(db, req, opId, ids, now)
       case Ok(p) => Ok(p.0)
       case Err(e) => Err(e))
    case TxCopy(req, newId, now) => ApplyCopy(db, req, newId, now)
    case TxMove(req, redirect, graphRef, newId, now) => ApplyMove(db, req, redirect, graphRef, newId, now)
    case TxHardDelete(id, v, graphRef) => ApplyHardDelete(db, id, v, graphRef)
    case TxCascade(plan) => ApplyCascade(db, plan)
    case TxBump(id, salience) => ApplyBump(db, id, salience)
  }

  /** A transaction that raises leaves the tables as they were. */
  ghost function Commit(db: Db, tx: Tx): Db {
    match Apply(db, tx)
    case Ok(d) => d
    case Err(_) => db
  }

  ghost function Run(txs: seq<Tx>): Db {
    if txs == [] then EMPTY else Commit(Run(txs[..|txs| - 1]), txs[|txs| - 1])
  }
}
