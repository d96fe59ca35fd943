/**
  `RocksLevel`, the JavaScript database class: constructor checks, the
  open-state guards of the additional methods, the set of columns created
  through `createColumn`, and the teardown order of `_close`.

  The `status` field and the resource registry belong to the `abstract-level`
  base class; they are modelled here only as the values these methods read.
 */
module RocksLevel {
  import opened Wrappers
  import opened Js

  /** The `status` of the `abstract-level` base class. */
  datatype Status = Opening | Open | Closing | Closed

  /** What the methods throw (or reject with). */
  datatype LevelError =
    | Legacy          // ModuleError, code LEVEL_LEGACY
    | TypeError(message: string)
    | NotOpen         // ModuleError, code LEVEL_DATABASE_NOT_OPEN

  const LocationMessage := "The first argument 'location' must be a non-empty string"
  const PropertyMessage := "The first argument 'property' must be a string"

  datatype Level = Level(
    location: string,
    status: Status,
    columns: seq<nat>,      // the `kColumns` set, in insertion order
    resources: set<nat>)    // resources attached through `attachResource`

  /** The columns set never holds a handle twice. */
  predicate Distinct(s: seq<nat>) {
    forall i, j :: 0 <= i < j < |s| ==> s[i] != s[j]
  }

  /**
    The constructor: a function as second or third argument is the legacy
    callback style and is refused first; then the location must be a
    non-empty string. The new database starts opening with no columns.
   */
  function Construct(location: JsValue, options: JsValue, third: JsValue): (r: Result<Level, LevelError>)
    ensures r == Err(Legacy) <==> options.Function? || third.Function?
    ensures r == Err(TypeError(LocationMessage)) <==>
              !(options.Function? || third.Function?) && !(location.Str? && location.s != "")
    ensures r.Ok? ==> r.value == Level(location.s, Opening, [], {})
  {
    if options.Function? || third.Function? then Err(Legacy)
    else if !location.Str? || location.s == "" then Err(TypeError(LocationMessage))
    else Ok(Level(location.s, Opening, [], {}))
  }

  /**
    `getProperty`: the argument's type is checked before the status; on
    success the property name is what goes to `db_get_property`.
   */
  function GetProperty(db: Level, property: JsValue): (r: Result<string, LevelError>)
    ensures r == Err(TypeError(PropertyMessage)) <==> !property.Str?
    ensures r == Err(NotOpen) <==> property.Str? && db.status != Open
    ensures r.Ok? <==> property.Str? && db.status == Open
    ensures r.Ok? ==> r.value == property.s
  {
    if !property.Str? then Err(TypeError(PropertyMessage))
    else if db.status != Open then Err(NotOpen)
    else Ok(property.s)
  }

  /**
    `createColumn`: refused unless open; otherwise the handle `column_init`
    returns is added to the columns set (a no-op if already there).
   */
  function CreateColumn(db: Level, handle: nat): (r: Result<Level, LevelError>)
    requires Distinct(db.columns)
    ensures r.Err? <==> db.status != Open
    ensures r.Err? ==> r.error == NotOpen
    ensures r.Ok? ==> && Distinct(r.value.columns)
                      && (forall h :: h in r.value.columns <==> h in db.columns || h == handle)
                      && |db.columns| <= |r.value.columns| && r.value.columns[..|db.columns|] == db.columns
                      && r.value.(columns := db.columns) == db
  {
    if db.status != Open then Err(NotOpen)
    else if handle in db.columns then Ok(db)
    else Ok(db.(columns := db.columns + [handle]))
  }

  /** A native call `_close` makes. */
  datatype Teardown = ColumnClose(handle: nat) | DbClose

  /** `_close`: `column_close` for every column in the set, in insertion order, then `db_close`. */
  function Close(db: Level): (r: seq<Teardown>)
    ensures |r| == |db.columns| + 1
    ensures forall i :: 0 <= i < |db.columns| ==> r[i] == ColumnClose(db.columns[i])
    ensures r[|db.columns|] == DbClose
    decreases |db.columns|
  {
    if db.columns == [] then [DbClose]
    else [ColumnClose(db.columns[0])] + Close(db.(columns := db.columns[1..]))
  }

  /** Creating columns one after another on an open database, each with the handle `column_init` gave. */
  function CreateAll(db: Level, handles: seq<nat>): (r: Level)
    requires db.status == Open && Distinct(db.columns)
    ensures r.status == Open && Distinct(r.columns)
    decreases |handles|
  {
    if handles == [] then db
    else CreateAll(CreateColumn(db, handles[0]).value, handles[1..])
  }

  /**
    Every column created through `createColumn` is closed exactly once, and
    before the database itself, when the database closes.
   */
  lemma {:induction false} ColumnsClosedFirst(db: Level, handles: seq<nat>)
    requires db.status == Open && Distinct(db.columns)
    ensures var calls := Close(CreateAll(db, handles));
            && calls[|calls| - 1] == DbClose
            && (forall h :: h in handles ==> ColumnClose(h) in calls[..|calls| - 1])
            && (forall i, j :: 0 <= i < j < |calls| ==> calls[i] != calls[j])
    decreases |handles|
  {
    var fin := CreateAll(db, handles);
    var calls := Close(fin);
    if handles != [] {
      var next := CreateColumn(db, handles[0]).value;
      ColumnsClosedFirst(next, handles[1..]);
      CreateAllKeeps(next, handles[1..]);
      assert handles[0] in fin.columns;
    }
    forall h | h in handles ensures ColumnClose(h) in calls[..|calls| - 1] {
      CreateAllHas(db, handles, h);
      var i :| 0 <= i < |fin.columns| && fin.columns[i] == h;
      assert calls[..|calls| - 1][i] == ColumnClose(h);
    }
  }

  lemma {:induction false} CreateAllKeeps(db: Level, handles: seq<nat>)
    requires db.status == Open && Distinct(db.columns)
    ensures forall h :: h in db.columns ==> h in CreateAll(db, handles).columns
    decreases |handles|
  {
    if handles != [] {
      CreateAllKeeps(CreateColumn(db, handles[0]).value, handles[1..]);
    }
  }

  lemma {:induction false} CreateAllHas(db: Level, handles: seq<nat>, h: nat)
    requires db.status == Open && Distinct(db.columns)
    requires h in handles
    ensures h in CreateAll(db, handles).columns
    decreases |handles|
  {
    var next := CreateColumn(db, handles[0]).value;
    if h == handles[0] {
      CreateAllKeeps(next, handles[1..]);
    } else {
      CreateAllHas(next, handles[1..], h);
    }
  }

  /** The guard `query` and `updates` apply before creating their resource. */
  function RequireOpen(db: Level): (r: Outcome<LevelError>)
    ensures r.Pass? <==> db.status == Open
    ensures r.Fail? ==> r.error == NotOpen
  {
    if db.status != Open then Fail(NotOpen) else Pass
  }
}
