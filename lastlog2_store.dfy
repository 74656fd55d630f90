/** The lastlog2 record store: one row per user name in the SQLite table
    `Lastlog(Name, Time, TTY, RemoteHost)`, and the library calls that read,
    write, update, delete, rename and scan those rows.

    The table is a map from name to row. Every primitive statement can fail
    (opening the database, preparing, binding, executing); which one fails in a
    given call is an input, a `Faults` value, and a failed statement leaves the
    map as it was. */
module Lastlog2 {
  import opened Wrappers
  import Decimal

  type Int64 = x: int | -0x8000_0000_0000_0000 <= x < 0x8000_0000_0000_0000

  /** A stored row. The library always stores tty and rhost as text, the
      empty text when the caller gave none. */
  datatype Row = Row(time: Int64, tty: string, rhost: string)

  /** What a successful read reports: the time, and tty and rhost only when
      the stored value is present and not empty. */
  datatype Entry = Entry(time: Int64, tty: Option<string>, rhost: Option<string>)

  datatype Error =
    | CannotOpen                // sqlite3_open / sqlite3_open_v2 failed
    | StatementFailed           // sqlite3_prepare_v2 failed
    | BindFailed                // sqlite3_bind_text failed
    | NotFound                  // no row for the name
    | WrongUser(returned: string) // the engine returned a row for another name
    | SqlError                  // sqlite3_exec failed
    | DeleteNotDone             // the DELETE step did not finish with SQLITE_DONE
    | LegacyOpenFailed          // fopen of the legacy file failed
    | LegacyStatFailed          // fstat of the legacy file failed
    | LegacyReadFailed(uid: nat) // fread of a slot that lies inside the file failed

  /** The outcome of `sqlite3_step` on `SELECT * FROM Lastlog WHERE Name = ?`:
      a row (SQL NULL columns as None), or no row (SQLITE_DONE or an error
      code; the library treats both alike). */
  datatype StepResult =
    | RowStep(key: string, time: Int64, tty: Option<string>, rhost: Option<string>)
    | NoRow

  /** How the SELECT of one read goes. `EngineAnswers` lets the engine
      produce any step result, including a row for another name. */
  datatype ReadFault = ReadOk | PrepareFails | BindFails | EngineAnswers(answer: StepResult)

  /** How the DELETE of one removal goes. */
  datatype DeleteFault = DeleteOk | DeletePrepareFails | DeleteBindFails | DeleteStepFails

  /** The engine's behaviour during one library call: whether the database
      opens, how its SELECT goes, whether its `sqlite3_exec` (REPLACE, or the
      full-table SELECT of a scan) succeeds, and how its DELETE goes. Each call
      consults only the parts it uses. */
  datatype Faults = Faults(openOk: bool, read: ReadFault, execOk: bool, delete: DeleteFault)

  const NoFaults := Faults(true, ReadOk, true, DeleteOk)

  /** The outcome of a state-changing call and the table it leaves. */
  datatype Effect = Effect(outcome: Outcome<Error>, rows: map<string, Row>)

  /** A text column as the library surfaces it: absent when NULL or empty. */
  function Present(column: Option<string>): (r: Option<string>)
    ensures r.Some? <==> column.Some? && column.value != ""
    ensures r.Some? ==> r == column
  {
    if column.Some? && |column.value| > 0 then column else None
  }

  /** What a faithful engine answers for the SELECT of `user`. */
  function Select(rows: map<string, Row>, user: string): StepResult {
    if user in rows then RowStep(user, rows[user].time, Some(rows[user].tty), Some(rows[user].rhost))
    else NoRow
  }

  /** How `read_entry` turns the step result into its answer: no row is
      "not found"; a row for another name is an error of its own and yields
      no data; otherwise the time, and tty and rhost when present. */
  function DecodeStep(user: string, step: StepResult): (r: Result<Entry, Error>)
    ensures step.NoRow? ==> r == Failure(NotFound)
    ensures step.RowStep? && step.key != user ==> r == Failure(WrongUser(step.key))
    ensures r.Success? <==> step.RowStep? && step.key == user
    ensures r.Success? ==> r.value == Entry(step.time, Present(step.tty), Present(step.rhost))
  {
    match step
    case NoRow => Failure(NotFound)
    case RowStep(key, time, tty, rhost) =>
      if key != user then Failure(WrongUser(key)) else Success(Entry(time, Present(tty), Present(rhost)))
  }

  /** The answer of `read_entry` for `user` under `fault`. With a faithful
      engine, a read succeeds exactly when the name has a row; otherwise it is
      "not found", never a zeroed entry, and the key check never fires. */
  function ReadResult(rows: map<string, Row>, user: string, fault: ReadFault): (r: Result<Entry, Error>)
    ensures fault == ReadOk ==> (r.Success? <==> user in rows)
    ensures fault == ReadOk && user !in rows ==> r == Failure(NotFound)
    ensures fault == ReadOk && user in rows ==>
              r == Success(Entry(rows[user].time, Present(Some(rows[user].tty)), Present(Some(rows[user].rhost))))
    ensures fault == PrepareFails ==> r == Failure(StatementFailed)
    ensures fault == BindFails ==> r == Failure(BindFailed)
    ensures fault.EngineAnswers? ==> r == DecodeStep(user, fault.answer)
  {
    match fault
    case ReadOk => DecodeStep(user, Select(rows, user))
    case PrepareFails => Failure(StatementFailed)
    case BindFails => Failure(BindFailed)
    case EngineAnswers(answer) => DecodeStep(user, answer)
  }

  /** The table after `REPLACE INTO Lastlog VALUES(user, time, tty, rhost)`,
      a missing tty or rhost stored as the empty text. */
  function Written(rows: map<string, Row>, user: string, time: Int64,
                   tty: Option<string>, rhost: Option<string>): (m: map<string, Row>)
    ensures m.Keys == rows.Keys + {user}
    ensures m[user] == Row(time, tty.GetOr(""), rhost.GetOr(""))
    ensures forall n :: n in rows && n != user ==> m[n] == rows[n]
  {
    rows[user := Row(time, tty.GetOr(""), rhost.GetOr(""))]
  }

  /** `write_entry`: the REPLACE either happens in full or not at all. */
  function WriteStatement(rows: map<string, Row>, user: string, time: Int64,
                          tty: Option<string>, rhost: Option<string>, execOk: bool): Effect
  {
    if execOk then Effect(Pass, Written(rows, user, time, tty, rhost)) else Effect(Fail(SqlError), rows)
  }

  /** `remove_entry`: the DELETE removes the name's row, if any, when all of
      its steps succeed. */
  function RemoveStatement(rows: map<string, Row>, user: string, fault: DeleteFault): Effect {
    match fault
    case DeleteOk => Effect(Pass, rows - {user})
    case DeletePrepareFails => Effect(Fail(StatementFailed), rows)
    case DeleteBindFails => Effect(Fail(BindFailed), rows)
    case DeleteStepFails => Effect(Fail(DeleteNotDone), rows)
  }

  /** `ll2_read_entry`. */
  function ReadEntryResult(rows: map<string, Row>, user: string, f: Faults): Result<Entry, Error> {
    if !f.openOk then Failure(CannotOpen) else ReadResult(rows, user, f.read)
  }

  /** `ll2_write_entry`. */
  function WriteEffect(rows: map<string, Row>, user: string, time: Int64,
                       tty: Option<string>, rhost: Option<string>, f: Faults): Effect
  {
    if !f.openOk then Effect(Fail(CannotOpen), rows) else WriteStatement(rows, user, time, tty, rhost, f.execOk)
  }

  /** `ll2_update_login_time`: read the name's tty and rhost, then write them
      back with the new time. */
  function UpdateEffect(rows: map<string, Row>, user: string, time: Int64, f: Faults): Effect {
    if !f.openOk then Effect(Fail(CannotOpen), rows)
    else
      match ReadResult(rows, user, f.read)
      case Failure(err) => Effect(Fail(err), rows)
      case Success(entry) => WriteStatement(rows, user, time, entry.tty, entry.rhost, f.execOk)
  }

  /** `ll2_remove_entry`. */
  function RemoveEffect(rows: map<string, Row>, user: string, f: Faults): Effect {
    if !f.openOk then Effect(Fail(CannotOpen), rows) else RemoveStatement(rows, user, f.delete)
  }

  /** `ll2_rename_user`: read `user`, write its data under `newname`, and
      only then delete `user`. */
  function RenameEffect(rows: map<string, Row>, user: string, newname: string, f: Faults): Effect {
    if !f.openOk then Effect(Fail(CannotOpen), rows)
    else
      match ReadResult(rows, user, f.read)
      case Failure(err) => Effect(Fail(err), rows)
      case Success(entry) =>
        var w := WriteStatement(rows, newname, entry.time, entry.tty, entry.rhost, f.execOk);
        if w.outcome.Fail? then w else RemoveStatement(w.rows, user, f.delete)
  }

  // ---------------------------------------------------------------------
  // The full-table scan.

  /** A column as `sqlite3_exec` hands it to the callback: None for NULL. */
  type Column = Option<string>

  /** One call of the caller's visitor: name, time, tty, rhost as the
      callback passes them, and whether it warned about the time text. */
  datatype Visit = Visit(user: Column, time: Int64, tty: Column, rhost: Column, invalidTime: bool)

  datatype CallbackResult = Mangled | Visited(visit: Visit)

  /** `callback` for one result row: a row without exactly four columns is
      "mangled" (the process exits); otherwise the time text is converted with
      `strtol`, a conversion that stops early, reads nothing or overflows only
      draws a warning, and the row is visited with the best-effort time. A NULL
      time column is read as the empty text. */
  function Callback(argv: seq<Column>): (c: CallbackResult)
    ensures c.Mangled? <==> |argv| != 4
    ensures c.Visited? ==> c.visit.user == argv[0] && c.visit.tty == argv[2] && c.visit.rhost == argv[3]
    ensures c.Visited? && argv[1].GetOr("") == "" ==> c.visit.invalidTime && c.visit.time == 0
    ensures c.Visited? && !c.visit.invalidTime ==> Decimal.StrToL(argv[1].GetOr("")).end == |argv[1].GetOr("")|
    ensures c.Visited? ==> c.visit.time == Decimal.StrToL(argv[1].GetOr("")).value
    ensures c.Visited? ==>
              var text := argv[1].GetOr("");
              (c.visit.invalidTime <==>
                 text == [] || Decimal.StrToL(text).range || Decimal.StrToL(text).end != |text|)
  {
    if |argv| != 4 then Mangled
    else
      var text := argv[1].GetOr("");
      var conv := Decimal.StrToL(text);
      var invalid := (conv.range && (conv.value == Decimal.LONG_MAX || conv.value == Decimal.LONG_MIN))
                     || conv.end == 0 || conv.end != |text|;
      Visited(Visit(argv[0], conv.value, argv[2], argv[3], invalid))
  }

  /** The result row the engine produces for a stored row. */
  function EngineRow(name: string, row: Row): seq<Column> {
    [Some(name), Some(Decimal.Int64Text(row.time)), Some(row.tty), Some(row.rhost)]
  }

  /** The visit a stored row should produce: its own name, time, tty and rhost. */
  function RowVisit(name: string, row: Row): Visit {
    Visit(Some(name), row.time, Some(row.tty), Some(row.rhost), false)
  }

  /** The engine's text for a stored row comes back through the callback
      unchanged and without a warning. */
  lemma CallbackOfEngineRow(name: string, row: Row)
    ensures Callback(EngineRow(name, row)) == Visited(RowVisit(name, row))
  {
    Decimal.StrToLOfInt64Text(row.time);
  }

  /** What `ll2_read_all` returns: every row visited, the process ended by a
      mangled row after the visits before it, or an error before any visit. */
  datatype ScanResult = Completed(visits: seq<Visit>) | Exited(visits: seq<Visit>) | ScanFailed(error: Error)

  /** `visits` is a scan of `rows`: each visit is the visit of one stored row,
      no name is visited twice and every name is visited. */
  ghost predicate IsScanOf(visits: seq<Visit>, rows: map<string, Row>) {
    && (forall i :: 0 <= i < |visits| ==>
          visits[i].user.Some? && visits[i].user.value in rows
          && visits[i] == RowVisit(visits[i].user.value, rows[visits[i].user.value]))
    && (forall i, j :: 0 <= i < j < |visits| ==> visits[i].user != visits[j].user)
    && (forall n :: n in rows ==> exists i :: 0 <= i < |visits| && visits[i].user == Some(n))
  }

  /** The row loop of `sqlite3_exec` with `callback`: visits the rows in
      order and stops the process at the first mangled one. */
  method ScanRows(raw: seq<seq<Column>>) returns (r: ScanResult)
    ensures r.Completed? || r.Exited?
    ensures r.Completed? <==> forall i :: 0 <= i < |raw| ==> |raw[i]| == 4
    ensures r.Completed? ==> |r.visits| == |raw|
    ensures r.Exited? ==> |r.visits| < |raw| && |raw[|r.visits|]| != 4
    ensures forall i :: 0 <= i < |r.visits| ==> i < |raw| && Callback(raw[i]) == Visited(r.visits[i])
  {
    var visits: seq<Visit> := [];
    var i := 0;
    while i < |raw|
      invariant 0 <= i <= |raw| && |visits| == i
      invariant forall k :: 0 <= k < i ==> |raw[k]| == 4 && Callback(raw[k]) == Visited(visits[k])
    {
      var c := Callback(raw[i]);
      if c.Mangled? {
        return Exited(visits);
      }
      visits := visits + [c.visit];
      i := i + 1;
    }
    r := Completed(visits);
  }

  // ---------------------------------------------------------------------
  // The database.

  /** One lastlog2 database file. Every library call opens it, runs its
      statements and closes it; its only state is the table. */
  class Database {
    var rows: map<string, Row>

    constructor (initial: map<string, Row>)
      ensures rows == initial
    {
      rows := initial;
    }

    /** `read_entry`: SELECT the row of `user` and check that the engine
        answered for that name. */
    method ReadRow(user: string, fault: ReadFault) returns (r: Result<Entry, Error>)
      ensures r == ReadResult(rows, user, fault)
    {
      if fault.PrepareFails? {
        return Failure(StatementFailed);
      }
      if fault.BindFails? {
        return Failure(BindFailed);
      }
      var step := if fault.EngineAnswers? then fault.answer else Select(rows, user);
      if step.NoRow? {
        return Failure(NotFound);
      }
      if step.key != user {
        return Failure(WrongUser(step.key));
      }
      // The output arguments are assigned only for non-empty, non-NULL columns.
      var tty: Option<string> := None;
      var rhost: Option<string> := None;
      if step.tty.Some? && |step.tty.value| > 0 {
        tty := step.tty;
      }
      if step.rhost.Some? && |step.rhost.value| > 0 {
        rhost := step.rhost;
      }
      r := Success(Entry(step.time, tty, rhost));
    }

    /** `write_entry`: REPLACE the row of `user`. */
    method WriteRow(user: string, time: Int64, tty: Option<string>, rhost: Option<string>, execOk: bool)
      returns (r: Outcome<Error>)
      modifies this
      ensures Effect(r, rows) == WriteStatement(old(rows), user, time, tty, rhost, execOk)
    {
      if !execOk {
        return Fail(SqlError);
      }
      rows := rows[user := Row(time, tty.GetOr(""), rhost.GetOr(""))];
      r := Pass;
    }

    /** `remove_entry`: DELETE the row of `user`. */
    method RemoveRow(user: string, fault: DeleteFault) returns (r: Outcome<Error>)
      modifies this
      ensures Effect(r, rows) == RemoveStatement(old(rows), user, fault)
    {
      match fault
      case DeletePrepareFails => r := Fail(StatementFailed);
      case DeleteBindFails => r := Fail(BindFailed);
      case DeleteStepFails => r := Fail(DeleteNotDone);
      case DeleteOk =>
        rows := rows - {user};
        r := Pass;
    }

    /** `ll2_read_entry`. */
    method ReadEntry(user: string, f: Faults) returns (r: Result<Entry, Error>)
      ensures !f.openOk ==> r == Failure(CannotOpen)
      ensures f.openOk ==> r == ReadResult(rows, user, f.read)
    {
      if !f.openOk {
        return Failure(CannotOpen);
      }
      r := ReadRow(user, f.read);
    }

    /** `ll2_write_entry`. */
    method WriteEntry(user: string, time: Int64, tty: Option<string>, rhost: Option<string>, f: Faults)
      returns (r: Outcome<Error>)
      modifies this
      ensures Effect(r, rows) == WriteEffect(old(rows), user, time, tty, rhost, f)
    {
      if !f.openOk {
        return Fail(CannotOpen);
      }
      r := WriteRow(user, time, tty, rhost, f.execOk);
    }

    /** `ll2_update_login_time`. */
    method UpdateLoginTime(user: string, time: Int64, f: Faults) returns (r: Outcome<Error>)
      modifies this
      ensures Effect(r, rows) == UpdateEffect(old(rows), user, time, f)
    {
      if !f.openOk {
        return Fail(CannotOpen);
      }
      var read := ReadRow(user, f.read);
      if read.Failure? {
        return Fail(read.error);
      }
      r := WriteRow(user, time, read.value.tty, read.value.rhost, f.execOk);
    }

    /** `ll2_remove_entry`. */
    method RemoveEntry(user: string, f: Faults) returns (r: Outcome<Error>)
      modifies this
      ensures Effect(r, rows) == RemoveEffect(old(rows), user, f)
    {
      if !f.openOk {
        return Fail(CannotOpen);
      }
      r := RemoveRow(user, f.delete);
    }

    /** `ll2_rename_user`. */
    method RenameUser(user: string, newname: string, f: Faults) returns (r: Outcome<Error>)
      modifies this
      ensures Effect(r, rows) == RenameEffect(old(rows), user, newname, f)
    {
      if !f.openOk {
        return Fail(CannotOpen);
      }
      var read := ReadRow(user, f.read);
      if read.Failure? {
        return Fail(read.error);
      }
      var w := WriteRow(newname, read.value.time, read.value.tty, read.value.rhost, f.execOk);
      if w.Fail? {
        return w;
      }
      r := RemoveRow(user, f.delete);
    }

    /** `ll2_read_all`: visit every row of the table once, in the engine's
        order. */
    method ReadAll(f: Faults) returns (r: ScanResult)
      ensures !f.openOk ==> r == ScanFailed(CannotOpen)
      ensures f.openOk && !f.execOk ==> r == ScanFailed(SqlError)
      ensures f.openOk && f.execOk ==> r.Completed? && IsScanOf(r.visits, rows)
    {
      if !f.openOk {
        return ScanFailed(CannotOpen);
      }
      if !f.execOk {
        return ScanFailed(SqlError);
      }
      var table := rows;
      var order := EngineOrder(table.Keys);
      var raw := seq(|order|, i requires 0 <= i < |order| => EngineRow(order[i], table[order[i]]));
      forall i | 0 <= i < |raw|
        ensures Callback(raw[i]) == Visited(RowVisit(order[i], table[order[i]]))
      {
        CallbackOfEngineRow(order[i], table[order[i]]);
      }
      r := ScanRows(raw);
      VisitsInOrderAreScan(order, table, r.visits);
    }
  }

  /** Some order of `names`, each once: the order in which the engine
      returns the rows of the table. */
  method EngineOrder(names: set<string>) returns (order: seq<string>)
    ensures forall i :: 0 <= i < |order| ==> order[i] in names
    ensures forall i, j :: 0 <= i < j < |order| ==> order[i] != order[j]
    ensures forall n :: n in names ==> n in order
  {
    order := [];
    var remaining := names;
    while remaining != {}
      invariant remaining <= names
      invariant forall i :: 0 <= i < |order| ==> order[i] in names && order[i] !in remaining
      invariant forall i, j :: 0 <= i < j < |order| ==> order[i] != order[j]
      invariant forall n :: n in names ==> n in remaining || n in order
      decreases |remaining|
    {
      var n :| n in remaining;
      order := order + [n];
      remaining := remaining - {n};
    }
  }

  /** Visiting the rows of `table` in an order that lists each name once is
      a scan of the table. */
  lemma VisitsInOrderAreScan(order: seq<string>, table: map<string, Row>, visits: seq<Visit>)
    requires forall i :: 0 <= i < |order| ==> order[i] in table
    requires forall i, j :: 0 <= i < j < |order| ==> order[i] != order[j]
    requires forall n :: n in table ==> n in order
    requires |visits| == |order|
    requires forall i :: 0 <= i < |visits| ==> visits[i] == RowVisit(order[i], table[order[i]])
    ensures IsScanOf(visits, table)
  {
    forall n | n in table
      ensures exists i :: 0 <= i < |visits| && visits[i].user == Some(n)
    {
      var i :| 0 <= i < |order| && order[i] == n;
      assert visits[i].user == Some(n);
    }
  }

  // ---------------------------------------------------------------------
  // Properties of the calls and of their composition.

  /** A write followed by a read returns the written time, and tty and rhost
      as given, or absent when not given or empty. */
  lemma WriteThenRead(rows: map<string, Row>, user: string, time: Int64,
                      tty: Option<string>, rhost: Option<string>)
    ensures ReadEntryResult(WriteEffect(rows, user, time, tty, rhost, NoFaults).rows, user, NoFaults)
            == Success(Entry(time, Present(tty), Present(rhost)))
  {
  }

  /** A write is a full upsert: a second write replaces every field of the
      first, so writing the same values twice is writing them once. */
  lemma WriteOverwrites(rows: map<string, Row>, user: string, t1: Int64, tty1: Option<string>,
                        rhost1: Option<string>, t2: Int64, tty2: Option<string>, rhost2: Option<string>)
    ensures Written(Written(rows, user, t1, tty1, rhost1), user, t2, tty2, rhost2)
            == Written(rows, user, t2, tty2, rhost2)
  {
  }

  /** A write touches no other name. */
  lemma WriteKeepsOtherNames(rows: map<string, Row>, user: string, time: Int64,
                             tty: Option<string>, rhost: Option<string>, f: Faults, other: string)
    requires other != user
    ensures ReadEntryResult(WriteEffect(rows, user, time, tty, rhost, f).rows, other, NoFaults)
            == ReadEntryResult(rows, other, NoFaults)
  {
  }

  /** Every failed call leaves the table as it was. */
  lemma FailedCallsChangeNothing(rows: map<string, Row>, user: string, newname: string, time: Int64,
                                 tty: Option<string>, rhost: Option<string>, f: Faults)
    ensures WriteEffect(rows, user, time, tty, rhost, f).outcome.Fail? ==> WriteEffect(rows, user, time, tty, rhost, f).rows == rows
    ensures UpdateEffect(rows, user, time, f).outcome.Fail? ==> UpdateEffect(rows, user, time, f).rows == rows
    ensures RemoveEffect(rows, user, f).outcome.Fail? ==> RemoveEffect(rows, user, f).rows == rows
  {
  }

  /** `update_login_time` never creates a record: with no row for the name it
      fails with "not found" and changes nothing. */
  lemma UpdateNeedsRecord(rows: map<string, Row>, user: string, time: Int64, f: Faults)
    requires f.openOk && f.read == ReadOk && user !in rows
    ensures UpdateEffect(rows, user, time, f) == Effect(Fail(NotFound), rows)
  {
  }

  /** A stored text read back and written again is the same text. */
  lemma PresentRestores(s: string)
    ensures Present(Some(s)).GetOr("") == s
  {
  }

  /** A successful `update_login_time` changes only the time of the record;
      tty and rhost are carried over exactly, empty ones included. */
  lemma UpdateChangesOnlyTime(rows: map<string, Row>, user: string, time: Int64, f: Faults)
    requires f.openOk && f.read == ReadOk && f.execOk && user in rows
    ensures UpdateEffect(rows, user, time, f) == Effect(Pass, rows[user := rows[user].(time := time)])
  {
    PresentRestores(rows[user].tty);
    PresentRestores(rows[user].rhost);
  }

  /** After a successful delete the name has no row, found or not before;
      deleting an absent name succeeds and changes nothing. */
  lemma RemoveResult(rows: map<string, Row>, user: string, f: Faults)
    ensures RemoveEffect(rows, user, f).outcome.Pass? ==>
              RemoveEffect(rows, user, f).rows == rows - {user}
              && ReadEntryResult(RemoveEffect(rows, user, f).rows, user, NoFaults) == Failure(NotFound)
    ensures f.openOk && f.delete == DeleteOk && user !in rows ==> RemoveEffect(rows, user, f) == Effect(Pass, rows)
  {
  }

  /** A rename whose read of the old name fails changes nothing. */
  lemma RenameReadFails(rows: map<string, Row>, user: string, newname: string, f: Faults)
    requires !f.openOk || ReadResult(rows, user, f.read).Failure?
    ensures RenameEffect(rows, user, newname, f).rows == rows
    ensures RenameEffect(rows, user, newname, f).outcome.Fail?
  {
  }

  /** A rename whose write of the new name fails leaves the old row as it was
      and creates nothing. */
  lemma RenameWriteFails(rows: map<string, Row>, user: string, newname: string, f: Faults)
    requires f.openOk && ReadResult(rows, user, f.read).Success? && !f.execOk
    ensures RenameEffect(rows, user, newname, f) == Effect(Fail(SqlError), rows)
  {
  }

  /** A rename whose final delete fails reports the failure and leaves both
      the old row and the new copy of it. */
  lemma RenameDeleteFails(rows: map<string, Row>, user: string, newname: string, f: Faults)
    requires f.openOk && f.read == ReadOk && f.execOk && f.delete != DeleteOk
    requires user in rows && user != newname
    ensures RenameEffect(rows, user, newname, f).outcome.Fail?
    ensures RenameEffect(rows, user, newname, f).rows == rows[newname := rows[user]]
  {
    PresentRestores(rows[user].tty);
    PresentRestores(rows[user].rhost);
  }

  /** A successful rename moves the record: a read of the old name is "not
      found", a read of the new name returns what the old name held, and no
      other name changes. */
  lemma RenameMoves(rows: map<string, Row>, user: string, newname: string)
    requires user in rows && user != newname
    ensures RenameEffect(rows, user, newname, NoFaults) == Effect(Pass, (rows - {user})[newname := rows[user]])
    ensures ReadEntryResult(RenameEffect(rows, user, newname, NoFaults).rows, user, NoFaults) == Failure(NotFound)
    ensures ReadEntryResult(RenameEffect(rows, user, newname, NoFaults).rows, newname, NoFaults)
            == ReadEntryResult(rows, user, NoFaults)
  {
    PresentRestores(rows[user].tty);
    PresentRestores(rows[user].rhost);
    var moved := (rows - {user})[newname := rows[user]];
    assert RenameEffect(rows, user, newname, NoFaults).rows == moved;
  }

  /** Whatever the engine does, a rename between two different names never
      loses the record: either the old row is intact or the new name holds
      its data; no third name changes. */
  lemma RenameNeverLosesData(rows: map<string, Row>, user: string, newname: string, f: Faults)
    requires user in rows && user != newname && f.read == ReadOk
    ensures var m := RenameEffect(rows, user, newname, f).rows;
            (user in m && m[user] == rows[user]) || (newname in m && m[newname] == rows[user])
    ensures var m := RenameEffect(rows, user, newname, f).rows;
            forall n :: n != user && n != newname ==> (n in m <==> n in rows) && (n in rows ==> m[n] == rows[n])
  {
    PresentRestores(rows[user].tty);
    PresentRestores(rows[user].rhost);
  }

  /** Renaming a name to itself writes the row back and then deletes it: the
      record is gone although the call succeeds. */
  lemma RenameToSameNameDeletes(rows: map<string, Row>, user: string)
    requires user in rows
    ensures RenameEffect(rows, user, user, NoFaults) == Effect(Pass, rows - {user})
  {
  }

  /** A login record through its life: written, its time updated, renamed. */
  lemma WriteUpdateRenameScenario()
    ensures var w := WriteEffect(map[], "alice", 1000, Some("tty1"), Some("10.0.0.5"), NoFaults);
            var u := UpdateEffect(w.rows, "alice", 2000, NoFaults);
            var r := RenameEffect(u.rows, "alice", "alicia", NoFaults);
            && ReadEntryResult(w.rows, "alice", NoFaults) == Success(Entry(1000, Some("tty1"), Some("10.0.0.5")))
            && ReadEntryResult(u.rows, "alice", NoFaults) == Success(Entry(2000, Some("tty1"), Some("10.0.0.5")))
            && r.outcome == Pass
            && ReadEntryResult(r.rows, "alice", NoFaults) == Failure(NotFound)
            && ReadEntryResult(r.rows, "alicia", NoFaults) == Success(Entry(2000, Some("tty1"), Some("10.0.0.5")))
  {
    var w := WriteEffect(map[], "alice", 1000, Some("tty1"), Some("10.0.0.5"), NoFaults);
    assert w.rows == map["alice" := Row(1000, "tty1", "10.0.0.5")];
    UpdateChangesOnlyTime(w.rows, "alice", 2000, NoFaults);
    var u := UpdateEffect(w.rows, "alice", 2000, NoFaults);
    assert u.rows == map["alice" := Row(2000, "tty1", "10.0.0.5")];
    RenameMoves(u.rows, "alice", "alicia");
  }

  // ---------------------------------------------------------------------
  // The read-back of the source as written.

  /** The tty or rhost that `ll2_update_login_time` and `ll2_rename_user`
      pass on to `write_entry`, as written: their `char *tty, *rhost` locals
      are not initialised and `read_entry` assigns them only for a non-empty
      stored value, so for an empty one the write receives whatever the local
      held (`indeterminate`). */
  function CarriedAsWritten(read: Option<string>, indeterminate: Option<string>): Option<string> {
    if read.Some? then read else indeterminate
  }

  /** `ll2_update_login_time` as written. */
  function UpdateEffectAsWritten(rows: map<string, Row>, user: string, time: Int64, f: Faults,
                                 ttyLocal: Option<string>, rhostLocal: Option<string>): (r: Effect)
    ensures ttyLocal.None? && rhostLocal.None? ==> r == UpdateEffect(rows, user, time, f)
    ensures r.outcome == UpdateEffect(rows, user, time, f).outcome
  {
    if !f.openOk then Effect(Fail(CannotOpen), rows)
    else
      match ReadResult(rows, user, f.read)
      case Failure(err) => Effect(Fail(err), rows)
      case Success(entry) =>
        WriteStatement(rows, user, time, CarriedAsWritten(entry.tty, ttyLocal),
                       CarriedAsWritten(entry.rhost, rhostLocal), f.execOk)
  }

  /** `ll2_rename_user` as written. */
  function RenameEffectAsWritten(rows: map<string, Row>, user: string, newname: string, f: Faults,
                                 ttyLocal: Option<string>, rhostLocal: Option<string>): (r: Effect)
    ensures ttyLocal.None? && rhostLocal.None? ==> r == RenameEffect(rows, user, newname, f)
    ensures r.outcome == RenameEffect(rows, user, newname, f).outcome
  {
    if !f.openOk then Effect(Fail(CannotOpen), rows)
    else
      match ReadResult(rows, user, f.read)
      case Failure(err) => Effect(Fail(err), rows)
      case Success(entry) =>
        var w := WriteStatement(rows, newname, entry.time, CarriedAsWritten(entry.tty, ttyLocal),
                                CarriedAsWritten(entry.rhost, rhostLocal), f.execOk);
        if w.outcome.Fail? then w else RemoveStatement(w.rows, user, f.delete)
  }

  /** As written, updating the time of a record with an empty tty stores
      whatever text the uninitialised local pointed to. */
  lemma UpdateAsWrittenLeaksLocal()
    ensures UpdateEffectAsWritten(map["u" := Row(1, "", "")], "u", 2, NoFaults, Some("junk"), None).rows["u"]
            == Row(2, "junk", "")
  {
  }

  /** As written, renaming a record with an empty rhost gives the new name
      whatever text the uninitialised local pointed to. */
  lemma RenameAsWrittenLeaksLocal()
    ensures RenameEffectAsWritten(map["u" := Row(1, "pts/0", "")], "u", "v", NoFaults, None, Some("junk")).rows
            == map["v" := Row(1, "pts/0", "junk")]
  {
    var m := map["u" := Row(1, "pts/0", "")];
    var w := m["v" := Row(1, "pts/0", "junk")];
    assert w - {"u"} == map["v" := Row(1, "pts/0", "junk")];
  }
}
