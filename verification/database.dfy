/**
  The native `Database`: whether the engine is open, the column families it
  opened, and the registry of closables (iterators) attached to it.
 */
module Database {
  import opened Wrappers

  /** An engine status: OK, or a failure with its message. */
  type Status = Outcome<string>

  /** A column family the engine opened: its id and its descriptor's name. */
  datatype ColumnFamily = ColumnFamily(id: nat, name: string)

  datatype Database = Database(
    open: bool,                   // `db` is set
    columns: map<nat, string>,    // `columns`: id to descriptor name
    closables: set<nat>)          // `closables_`: the attached iterators

  /** `db_init`: nothing open, nothing attached. */
  const Initial := Database(false, map[], {})

  /** `Attach`: register a closable; nothing else changes. */
  function Attach(d: Database, c: nat): (r: Database)
    ensures c in r.closables
    ensures forall x :: x != c ==> (x in r.closables <==> x in d.closables)
    ensures r.open == d.open && r.columns == d.columns
  {
    d.(closables := d.closables + {c})
  }

  /** `Detach`: unregister a closable, if it is registered; nothing else changes. */
  function Detach(d: Database, c: nat): (r: Database)
    ensures c !in r.closables
    ensures forall x :: x != c ==> (x in r.closables <==> x in d.closables)
    ensures r.open == d.open && r.columns == d.columns
  {
    d.(closables := d.closables - {c})
  }

  /** Attaching a new closable and detaching it again restores the database. */
  lemma AttachDetach(d: Database, c: nat)
    requires c !in d.closables
    ensures Detach(Attach(d, c), c) == d
  {
    assert Detach(Attach(d, c), c).closables == d.closables;
  }

  /** What `Close` leaves behind, what it reports, and the closables it closed, in the order it closed them. */
  datatype Closed = Closed(db: Database, status: Status, closed: seq<nat>)

  /** No closable appears twice. */
  predicate Distinct(s: seq<nat>) {
    forall i, j :: 0 <= i < j < |s| ==> s[i] != s[j]
  }

  /**
    `Database::Close`. A database that is not open is left alone and OK is
    reported. Otherwise the registry is moved out, every closable in it is
    closed exactly once (and detaches itself from the emptied registry), the
    column handles are dropped and the engine is closed, its status being
    the one reported.
   */
  method Close(d: Database, engineStatus: Status) returns (r: Closed)
    ensures !d.open ==> r == Closed(d, Pass, [])
    ensures d.open ==> && r.db == Database(false, map[], {})
                       && r.status == engineStatus
                       && Distinct(r.closed) && |r.closed| == |d.closables|
                       && (forall c :: c in r.closed <==> c in d.closables)
  {
    if !d.open {
      return Closed(d, Pass, []);
    }
    var pending := d.closables;
    var db := d.(closables := {});
    var closed := [];
    while pending != {}
      invariant forall c :: c in closed <==> c in d.closables && c !in pending
      invariant pending <= d.closables
      invariant Distinct(closed) && |closed| + |pending| == |d.closables|
      invariant db == d.(closables := {})
      decreases |pending|
    {
      var c :| c in pending;
      db := Detach(db, c);
      closed := closed + [c];
      pending := pending - {c};
    }
    db := db.(columns := map[], open := false);
    return Closed(db, engineStatus, closed);
  }

  /** Closing twice: the second `Close` finds the database closed, closes nothing and reports OK. */
  method CloseTwice(d: Database, engineStatus: Status, again: Status) returns (first: Closed, second: Closed)
    ensures d.open ==> first.status == engineStatus && second == Closed(first.db, Pass, [])
  {
    first := Close(d, engineStatus);
    second := Close(first.db, again);
  }

  /** The ids of the handles. */
  function IdsOf(handles: seq<ColumnFamily>): (r: set<nat>)
    ensures forall i :: 0 <= i < |handles| ==> handles[i].id in r
    ensures forall id :: id in r ==> exists i :: 0 <= i < |handles| && handles[i].id == id
  {
    set i | 0 <= i < |handles| :: handles[i].id
  }

  /** The column families the engine reports, stored by id over the existing map; later ones win. */
  function Install(columns: map<nat, string>, handles: seq<ColumnFamily>): (r: map<nat, string>)
    ensures r.Keys == columns.Keys + IdsOf(handles)
    decreases |handles|
  {
    if handles == [] then columns
    else
      var init := handles[..|handles| - 1];
      var h := handles[|handles| - 1];
      assert IdsOf(handles) == IdsOf(init) + {h.id};
      Install(columns, init)[h.id := h.name]
  }

  /** No later handle has the same id as handle `i`. */
  predicate LastWithId(handles: seq<ColumnFamily>, i: nat)
    requires i < |handles|
  {
    forall j :: i < j < |handles| ==> handles[j].id != handles[i].id
  }

  /** Each id maps to the name of the last handle with that id. */
  lemma {:induction false} InstallLast(columns: map<nat, string>, handles: seq<ColumnFamily>, i: nat)
    requires i < |handles| && LastWithId(handles, i)
    ensures Install(columns, handles)[handles[i].id] == handles[i].name
    decreases |handles|
  {
    if i < |handles| - 1 {
      var init := handles[..|handles| - 1];
      InstallLast(columns, init, i);
    }
  }

  /** An id no handle carries keeps its old name. */
  lemma {:induction false} InstallKeeps(columns: map<nat, string>, handles: seq<ColumnFamily>, id: nat)
    requires id in columns && id !in IdsOf(handles)
    ensures Install(columns, handles)[id] == columns[id]
    decreases |handles|
  {
    if handles != [] {
      var init := handles[..|handles| - 1];
      assert IdsOf(handles) == IdsOf(init) + {handles[|handles| - 1].id};
      InstallKeeps(columns, init, id);
    }
  }

  /**
    How `db_open` answers: an open database returns the column object at
    once and never calls the callback; otherwise the callback receives the
    columns or the engine's error once the open has run.
   */
  datatype Reply = Returned(columns: map<nat, string>) | CalledBack(result: Result<map<nat, string>, Status>)

  datatype Opened = Opened(db: Database, reply: Reply)

  /**
    `db_open`. An open database is not reopened: its current columns are
    returned synchronously, the callback is never called and nothing
    changes. Otherwise the engine is asked and the callback answers: on
    success the database is open with the handles it returned installed, on
    failure nothing changes.
   */
  function Open(d: Database, engine: Result<seq<ColumnFamily>, Status>): (r: Opened)
    ensures r.reply.Returned? <==> d.open
    ensures d.open ==> r == Opened(d, Returned(d.columns))
    ensures !d.open && engine.Err? ==> r == Opened(d, CalledBack(Err(engine.error)))
    ensures !d.open && engine.Ok? ==>
              && r.db == Database(true, Install(d.columns, engine.value), d.closables)
              && r.reply == CalledBack(Ok(r.db.columns))
  {
    if d.open then Opened(d, Returned(d.columns))
    else
      match engine
      case Ok(handles) =>
        var db := Database(true, Install(d.columns, handles), d.closables);
        Opened(db, CalledBack(Ok(db.columns)))
      case Err(status) => Opened(d, CalledBack(Err(status)))
  }

  /**
    Opening a fresh database calls back with exactly the column families the
    engine opened, each under its own id; opening it again changes nothing,
    never calls back, and returns the same columns directly.
   */
  lemma OpenTwice(handles: seq<ColumnFamily>, again: Result<seq<ColumnFamily>, Status>)
    requires forall i, j :: 0 <= i < j < |handles| ==> handles[i].id != handles[j].id
    ensures var first := Open(Initial, Ok(handles));
            && first.reply.CalledBack? && first.reply.result.Ok?
            && first.reply.result.value.Keys == IdsOf(handles)
            && (forall i :: 0 <= i < |handles| ==> first.reply.result.value[handles[i].id] == handles[i].name)
            && Open(first.db, again) == Opened(first.db, Returned(first.reply.result.value))
  {
    forall i | 0 <= i < |handles|
      ensures Install(map[], handles)[handles[i].id] == handles[i].name
    {
      InstallLast(map[], handles, i);
    }
  }
}
