/**
 * The trajectory repository: a table of recorded agent steps whose
 * structured fields are stored serialised and handed back parsed, and the
 * manager that publishes one repository in a process-wide slot.
 */
module Trajectory {
  import opened Wrappers
  import opened JsonValue
  import KeyedStore

  /**
   * The fields of a trajectory other than its id. `S` is the form of the
   * structured fields: parsed values for callers, serialised streams in the
   * table. The cost is carried, never computed with.
   */
  datatype Fields<S> = Fields(
    toolName: string,
    toolParameters: Option<S>, toolResult: Option<S>, stepData: Option<S>,
    recordType: Option<string>, humanInputId: Option<int>,
    cost: Option<real>, tokens: Option<int>,
    isError: bool, errorMessage: Option<string>, errorType: Option<string>, errorDetails: Option<string>)

  /** What the repository returns: an id and parsed fields. */
  datatype TrajectoryModel = TrajectoryModel(id: int, fields: Fields<Json>)

  /** The fields `create` fills when it is given only a tool name. */
  function Minimal(toolName: string): Fields<Json>
  {
    Fields(toolName, None, None, None, None, None, None, None, false, None, None, None)
  }

  function SerialiseField(v: Option<Json>): Option<seq<Token>>
  {
    match v
    case Some(j) => Some(Encode(j))
    case None => None
  }

  /** An absent field stays absent; a stored stream must decode. */
  function ParseField(v: Option<seq<Token>>): Option<Option<Json>>
  {
    match v
    case None => Some(None)
    case Some(ts) =>
      match Decode(ts)
      case Some(j) => Some(Some(j))
      case None => None
  }

  /** The row written for some fields: each structured field serialised. */
  function Serialise(f: Fields<Json>): Fields<seq<Token>>
  {
    Fields(f.toolName, SerialiseField(f.toolParameters), SerialiseField(f.toolResult), SerialiseField(f.stepData),
           f.recordType, f.humanInputId, f.cost, f.tokens, f.isError, f.errorMessage, f.errorType, f.errorDetails)
  }

  /** The fields read back from a row, or nothing when a stored stream does not decode. */
  function Parse(row: Fields<seq<Token>>): Option<Fields<Json>>
  {
    match (ParseField(row.toolParameters), ParseField(row.toolResult), ParseField(row.stepData))
    case (Some(p), Some(r), Some(d)) =>
      Some(Fields(row.toolName, p, r, d, row.recordType, row.humanInputId, row.cost, row.tokens,
                  row.isError, row.errorMessage, row.errorType, row.errorDetails))
    case _ => None
  }

  /** Reading back what was written gives the same fields: the structured round trip is the identity. */
  lemma ParseSerialise(f: Fields<Json>)
    ensures Parse(Serialise(f)) == Some(f)
  {
    if f.toolParameters.Some? { DecodeEncode(f.toolParameters.value); }
    if f.toolResult.Some? { DecodeEncode(f.toolResult.value); }
    if f.stepData.Some? { DecodeEncode(f.stepData.value); }
  }

  /** A row as the repository writes it: serialised from some fields. */
  ghost predicate Canonical(row: Fields<seq<Token>>)
  {
    Parse(row).Some? && Serialise(Parse(row).value) == row
  }

  lemma SerialisedIsCanonical(f: Fields<Json>)
    ensures Canonical(Serialise(f))
  {
    ParseSerialise(f);
  }

  /** The arguments of `update`: each field is overwritten only when supplied. */
  datatype Update = Update(
    toolResult: Option<Json>, stepData: Option<Json>,
    cost: Option<real>, tokens: Option<int>, isError: Option<bool>,
    errorMessage: Option<string>, errorType: Option<string>, errorDetails: Option<string>)

  /** The fields after an update. */
  function Apply(f: Fields<Json>, u: Update): Fields<Json>
  {
    f.(toolResult := if u.toolResult.Some? then u.toolResult else f.toolResult,
       stepData := if u.stepData.Some? then u.stepData else f.stepData,
       cost := if u.cost.Some? then u.cost else f.cost,
       tokens := if u.tokens.Some? then u.tokens else f.tokens,
       isError := if u.isError.Some? then u.isError.value else f.isError,
       errorMessage := if u.errorMessage.Some? then u.errorMessage else f.errorMessage,
       errorType := if u.errorType.Some? then u.errorType else f.errorType,
       errorDetails := if u.errorDetails.Some? then u.errorDetails else f.errorDetails)
  }

  /**
   * An update overwrites exactly the supplied fields: a supplied field takes
   * the new value, an omitted one keeps the old, and the tool name, the tool
   * parameters, the record type and the human input are never touched.
   */
  lemma ApplyOverwritesSupplied(f: Fields<Json>, u: Update)
    ensures var g := Apply(f, u);
      && (u.toolResult.Some? ==> g.toolResult == u.toolResult) && (u.toolResult.None? ==> g.toolResult == f.toolResult)
      && (u.stepData.Some? ==> g.stepData == u.stepData) && (u.stepData.None? ==> g.stepData == f.stepData)
      && (u.cost.Some? ==> g.cost == u.cost) && (u.cost.None? ==> g.cost == f.cost)
      && (u.tokens.Some? ==> g.tokens == u.tokens) && (u.tokens.None? ==> g.tokens == f.tokens)
      && (u.isError.Some? ==> g.isError == u.isError.value) && (u.isError.None? ==> g.isError == f.isError)
      && (u.errorMessage.Some? ==> g.errorMessage == u.errorMessage) && (u.errorMessage.None? ==> g.errorMessage == f.errorMessage)
      && (u.errorType.Some? ==> g.errorType == u.errorType) && (u.errorType.None? ==> g.errorType == f.errorType)
      && (u.errorDetails.Some? ==> g.errorDetails == u.errorDetails) && (u.errorDetails.None? ==> g.errorDetails == f.errorDetails)
      && g.toolName == f.toolName && g.toolParameters == f.toolParameters
      && g.recordType == f.recordType && g.humanInputId == f.humanInputId
  {
  }

  /** An update that supplies nothing changes nothing, and applying the same update twice is applying it once. */
  lemma ApplyIdempotent(f: Fields<Json>, u: Update)
    ensures Apply(f, Update(None, None, None, None, None, None, None, None)) == f
    ensures Apply(Apply(f, u), u) == Apply(f, u)
  {
  }

  /**
   * The database connection and its Trajectory table: the rows by id and the
   * id the next inserted row receives. Every repository built on the
   * connection reads and writes this one table.
   */
  class Database {
    var rows: map<int, Fields<seq<Token>>>
    /** Ids start at 1. */
    var nextId: nat

    ghost predicate Valid()
      reads this
    {
      && nextId >= 1
      && KeyedStore.IdsBelow(rows, nextId)
      && (forall k :: k in rows ==> k >= 1 && Canonical(rows[k]))
    }

    /** A connection whose Trajectory table is empty. */
    constructor()
      ensures Valid()
      ensures rows == map[] && nextId == 1
    {
      rows := map[];
      nextId := 1;
    }

    /**
     * `Trajectory.create(...)` on the table: a new row under a fresh id, each
     * structured field serialised as the caller's `json.dumps` does.
     */
    method Insert(fields: Fields<Json>) returns (id: int)
      requires Valid()
      modifies this
      ensures Valid()
      ensures id >= 1 && id !in old(rows)
      ensures rows == old(rows)[id := Serialise(fields)]
      ensures nextId == old(nextId) + 1
    {
      id := nextId;
      SerialisedIsCanonical(fields);
      rows := rows[id := Serialise(fields)];
      nextId := nextId + 1;
    }
  }

  /** `TrajectoryRepository`: a view of its connection's Trajectory table. */
  class TrajectoryRepository {
    const db: Database

    /** Binding a repository to a connection leaves the table as it is. */
    constructor(db: Database)
      ensures this.db == db
      ensures unchanged(db)
    {
      this.db := db;
    }

    /** `get`: the trajectory with that id, parsed, or nothing when there is none. */
    function Get(id: int): (t: Option<TrajectoryModel>)
      reads db
      requires db.Valid()
      ensures t.Some? <==> id in db.rows
      ensures t.Some? ==> t.value.id == id && Serialise(t.value.fields) == db.rows[id]
    {
      if id in db.rows then Some(TrajectoryModel(id, Parse(db.rows[id]).value)) else None
    }

    /** `get_parsed_trajectory`: the same lookup as `get`. */
    function GetParsedTrajectory(id: int): (t: Option<TrajectoryModel>)
      reads db
      requires db.Valid()
      ensures t.Some? <==> id in db.rows
      ensures t.Some? ==> t.value.id == id && Parse(db.rows[id]) == Some(t.value.fields)
    {
      Get(id)
    }

    /** `get_all`: every trajectory, keyed by id. */
    function GetAll(): (all: map<int, TrajectoryModel>)
      reads db
      requires db.Valid()
      ensures all.Keys == db.rows.Keys
      ensures forall k :: k in all ==> Get(k) == Some(all[k])
    {
      map k | k in db.rows :: Get(k).value
    }

    /** Every trajectory, by ascending id. */
    function Listing(): (ts: seq<TrajectoryModel>)
      reads db
      requires db.Valid()
      ensures forall t :: t in ts <==> t.id in db.rows && Get(t.id) == Some(t)
      ensures forall i, j :: 0 <= i < j < |ts| ==> ts[i].id < ts[j].id
    {
      var ids := KeyedStore.AscendingIds(db.rows, db.nextId);
      KeyedStore.AscendingIdsSorted(db.rows, db.nextId);
      var ts := Models(this, ids);
      assert forall t: TrajectoryModel :: t.id in db.rows && Get(t.id) == Some(t) ==> t.id in ids;
      ts
    }

    /**
     * `get_trajectories_by_human_input`: exactly the trajectories of that
     * human input, by ascending id.
     */
    function GetTrajectoriesByHumanInput(humanInputId: int): (ts: seq<TrajectoryModel>)
      reads db
      requires db.Valid()
      ensures forall t :: t in ts <==> t.id in db.rows && Get(t.id) == Some(t) && t.fields.humanInputId == Some(humanInputId)
      ensures forall i, j :: 0 <= i < j < |ts| ==> ts[i].id < ts[j].id
    {
      var all := Listing();
      SelectMembers(all, humanInputId);
      SelectOrdered(all, humanInputId);
      SelectByHumanInput(all, humanInputId)
    }

    /** `create`: store the fields under a fresh id and return the new trajectory. */
    method Create(fields: Fields<Json>) returns (t: TrajectoryModel)
      requires db.Valid()
      modifies db
      ensures db.Valid()
      ensures t.id !in old(db.rows) && t.fields == fields
      ensures db.rows == old(db.rows)[t.id := Serialise(fields)]
      ensures Get(t.id) == Some(t)
      ensures |GetAll()| == |old(db.rows)| + 1
    {
      var id := db.Insert(fields);
      ParseSerialise(fields);
      t := TrajectoryModel(id, fields);
      assert GetAll().Keys == old(db.rows).Keys + {id};
    }

    /**
     * `create` given only a tool name: no structured data, no human input,
     * cost or tokens, and no error, both in what it returns and in what `get`
     * reads back.
     */
    method CreateMinimal(toolName: string) returns (t: TrajectoryModel)
      requires db.Valid()
      modifies db
      ensures db.Valid()
      ensures t.id !in old(db.rows) && t.fields.toolName == toolName
      ensures t.fields.toolParameters == None && t.fields.toolResult == None && t.fields.stepData == None
      ensures t.fields.humanInputId == None && t.fields.cost == None && t.fields.tokens == None
      ensures !t.fields.isError
      ensures t.fields.errorMessage == None && t.fields.errorType == None && t.fields.errorDetails == None
      ensures Get(t.id) == Some(t)
      ensures db.rows == old(db.rows)[t.id := Serialise(t.fields)]
    {
      t := Create(Minimal(toolName));
    }

    /** `update`: overwrite the supplied fields; nothing happens and nothing is returned for an unknown id. */
    method Update(id: int, u: Update) returns (t: Option<TrajectoryModel>)
      requires db.Valid()
      modifies db
      ensures db.Valid()
      ensures t.Some? <==> id in old(db.rows)
      ensures id !in old(db.rows) ==> db.rows == old(db.rows)
      ensures id in old(db.rows) ==>
        && t.value == TrajectoryModel(id, Apply(Parse(old(db.rows)[id]).value, u))
        && db.rows == old(db.rows)[id := Serialise(t.value.fields)]
        && Get(id) == t
      ensures db.nextId == old(db.nextId)
    {
      if id in db.rows {
        var fields := Apply(Parse(db.rows[id]).value, u);
        SerialisedIsCanonical(fields);
        ParseSerialise(fields);
        db.rows := db.rows[id := Serialise(fields)];
        t := Some(TrajectoryModel(id, fields));
      } else {
        t := None;
      }
    }

    /** `delete`: remove the trajectory, reporting whether there was one. */
    method Delete(id: int) returns (deleted: bool)
      requires db.Valid()
      modifies db
      ensures db.Valid()
      ensures deleted <==> id in old(db.rows)
      ensures db.rows == old(db.rows) - {id}
      ensures Get(id) == None
      ensures db.nextId == old(db.nextId)
    {
      deleted := id in db.rows;
      db.rows := db.rows - {id};
    }
  }

  /**
   * Repositories share their connection's table: a row written on the table
   * before any repository exists is found by a repository built afterwards,
   * and a row one repository creates is found by another on the same
   * connection.
   */
  method RepositoriesShareTable(db: Database, existing: Fields<Json>, fields: Fields<Json>)
    returns (existingId: int, found: Option<TrajectoryModel>, created: TrajectoryModel, foundByOther: Option<TrajectoryModel>)
    requires db.Valid()
    modifies db
    ensures db.Valid()
    ensures existingId !in old(db.rows)
    ensures found == Some(TrajectoryModel(existingId, existing))
    ensures created.fields == fields && created.id != existingId
    ensures foundByOther == Some(created)
    ensures db.rows == old(db.rows)[existingId := Serialise(existing)][created.id := Serialise(fields)]
  {
    existingId := db.Insert(existing);
    ParseSerialise(existing);
    var repo := new TrajectoryRepository(db);
    found := repo.Get(existingId);
    var other := new TrajectoryRepository(db);
    created := other.Create(fields);
    foundByOther := repo.Get(created.id);
  }

  /** The trajectories with the given ids, in the order of the ids. */
  function Models(repo: TrajectoryRepository, ids: seq<int>): (ts: seq<TrajectoryModel>)
    reads repo.db
    requires repo.db.Valid()
    requires forall i :: 0 <= i < |ids| ==> ids[i] in repo.db.rows
    ensures |ts| == |ids|
    ensures forall i :: 0 <= i < |ids| ==> ts[i] == repo.Get(ids[i]).value && ts[i].id == ids[i]
  {
    if ids == [] then [] else [repo.Get(ids[0]).value] + Models(repo, ids[1..])
  }

  /** The trajectories of one human input, in the order given. */
  function SelectByHumanInput(ts: seq<TrajectoryModel>, humanInputId: int): seq<TrajectoryModel>
  {
    if ts == [] then []
    else
      var last := ts[|ts| - 1];
      SelectByHumanInput(ts[..|ts| - 1], humanInputId) + (if last.fields.humanInputId == Some(humanInputId) then [last] else [])
  }

  /** Selection keeps exactly the trajectories of that human input. */
  lemma {:induction false} SelectMembers(ts: seq<TrajectoryModel>, humanInputId: int)
    ensures forall t :: t in SelectByHumanInput(ts, humanInputId) <==> t in ts && t.fields.humanInputId == Some(humanInputId)
  {
    if ts != [] {
      var init := ts[..|ts| - 1];
      SelectMembers(init, humanInputId);
      assert ts == init + [ts[|ts| - 1]];
    }
  }

  /** Selection keeps the order: ascending ids stay ascending. */
  lemma {:induction false} SelectOrdered(ts: seq<TrajectoryModel>, humanInputId: int)
    requires forall i, j :: 0 <= i < j < |ts| ==> ts[i].id < ts[j].id
    ensures forall i, j :: 0 <= i < j < |SelectByHumanInput(ts, humanInputId)| ==>
      SelectByHumanInput(ts, humanInputId)[i].id < SelectByHumanInput(ts, humanInputId)[j].id
  {
    if ts != [] {
      var init := ts[..|ts| - 1];
      var last := ts[|ts| - 1];
      SelectOrdered(init, humanInputId);
      SelectMembers(init, humanInputId);
      var prev := SelectByHumanInput(init, humanInputId);
      forall i | 0 <= i < |prev|
        ensures prev[i].id < last.id
      {
        assert prev[i] in prev;
        var j :| 0 <= j < |init| && init[j] == prev[i];
      }
    }
  }

  /** Where a process publishes its trajectory repository. */
  class RepositorySlot {
    var current: TrajectoryRepository?

    constructor()
      ensures current == null
    {
      current := null;
    }
  }

  /**
   * `TrajectoryRepository(db=...)`: a repository needs a database connection;
   * without one, construction fails with a ValueError.
   */
  method NewTrajectoryRepository(db: Database?) returns (r: Result<TrajectoryRepository, string>)
    ensures r.Failure? <==> db == null
    ensures r.Failure? ==> r.error == "Database connection is required"
    ensures r.Success? ==> fresh(r.value) && r.value.db == db && unchanged(r.value.db)
  {
    if db == null {
      r := Failure("Database connection is required");
    } else {
      var repo := new TrajectoryRepository(db);
      r := Success(repo);
    }
  }

  /** `get_trajectory_repository`: the published repository, or a RuntimeError when none is. */
  method GetTrajectoryRepository(slot: RepositorySlot) returns (r: Result<TrajectoryRepository, string>)
    ensures r.Failure? <==> slot.current == null
    ensures r.Failure? ==> r.error == "No TrajectoryRepository available"
    ensures r.Success? ==> r.value == slot.current
  {
    if slot.current == null {
      r := Failure("No TrajectoryRepository available");
    } else {
      r := Success(slot.current);
    }
  }

  /** `TrajectoryRepositoryManager`: a `with` block that publishes a fresh repository and withdraws it on exit. */
  class TrajectoryRepositoryManager {
    const db: Database?
    const slot: RepositorySlot

    constructor(db: Database?, slot: RepositorySlot)
      ensures this.db == db && this.slot == slot
    {
      this.db := db;
      this.slot := slot;
    }

    /** `__enter__`: build a repository on the connection and publish it. */
    method Enter() returns (r: Result<TrajectoryRepository, string>)
      modifies slot
      ensures r.Failure? <==> db == null
      ensures r.Failure? ==> r.error == "Database connection is required" && slot.current == old(slot.current)
      ensures r.Success? ==> fresh(r.value) && r.value.db == db && unchanged(r.value.db) && slot.current == r.value
    {
      r := NewTrajectoryRepository(db);
      if r.Success? {
        slot.current := r.value;
      }
    }

    /** `__exit__`: withdraw the repository. */
    method Exit()
      modifies slot
      ensures slot.current == null
    {
      slot.current := null;
    }
  }

  /**
   * The manager's life cycle: `__enter__` gives a repository on the
   * connection, a trajectory created through it lands in the connection's
   * table, inside the block the published repository is the very one
   * `__enter__` gave, and after the block asking for it fails.
   */
  method ManagerLifecycle(db: Database, fields: Fields<Json>)
    returns (entered: Result<TrajectoryRepository, string>, created: TrajectoryModel,
             inside: Result<TrajectoryRepository, string>, after: Result<TrajectoryRepository, string>)
    requires db.Valid()
    modifies db
    ensures db.Valid()
    ensures entered.Success? && entered.value.db == db
    ensures created.fields == fields && db.rows == old(db.rows)[created.id := Serialise(fields)]
    ensures inside == entered
    ensures after == Failure("No TrajectoryRepository available")
  {
    var slot := new RepositorySlot();
    var manager := new TrajectoryRepositoryManager(db, slot);
    entered := manager.Enter();
    created := entered.value.Create(fields);
    inside := GetTrajectoryRepository(slot);
    manager.Exit();
    after := GetTrajectoryRepository(slot);
  }
}
