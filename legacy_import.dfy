/** `ll2_import_lastlog`: the one-time migration of the legacy `lastlog`
    file, one fixed-size `struct lastlog` slot per numeric user ID, into the
    lastlog2 table.

    The file is its size plus the slot stored at each index; the passwd
    enumeration is the sequence of `(uid, name)` pairs `getpwent` yields.
    Which seek, read or write fails is an input, indexed by the position of
    the passwd entry. */
module LegacyImport {
  import opened Wrappers
  import opened Lastlog2

  /** Width of `ll_line`. */
  const UT_LINESIZE: nat := 32
  /** Width of `ll_host`. */
  const UT_HOSTSIZE: nat := 256
  /** `sizeof (struct lastlog)`: a 32-bit `ll_time`, then `ll_line` and
      `ll_host`, without padding. */
  const RECSIZE: nat := 4 + UT_LINESIZE + UT_HOSTSIZE

  type Byte = b: int | 0 <= b < 0x100
  type Int32 = x: int | -0x8000_0000 <= x < 0x8000_0000
  /** `uid_t`. */
  type Uid = x: int | 0 <= x < 0x1_0000_0000

  /** One `struct lastlog`. */
  datatype Slot = Slot(time: Int32, line: seq<Byte>, host: seq<Byte>)

  /** One passwd entry, as far as the import uses it. */
  datatype PwEntry = PwEntry(uid: Uid, name: string)

  /** The legacy file: its size in bytes (`st_size`) and the slot at each
      index. */
  datatype LegacyFile = LegacyFile(size: nat, slot: nat -> Slot)

  /** How the engine and the file behave for one passwd entry. */
  datatype EntryIo = EntryIo(seekOk: bool, readOk: bool, writeOk: bool)

  /** How the set-up before the loop goes: opening the database, opening the
      legacy file and `fstat` on it. */
  datatype ImportSetup = ImportSetup(dbOpenOk: bool, fileOpenOk: bool, statOk: bool)

  /** `strncpy (dst, field, width); dst[width] = '\0'`: the bytes of a
      fixed-width field before its first NUL, at most `width` of them. */
  function Clamp(field: seq<Byte>, width: nat): (s: seq<Byte>)
    ensures |s| <= width && s <= field
    ensures forall i :: 0 <= i < |s| ==> s[i] != 0
    ensures |s| < width && |s| < |field| ==> field[|s|] == 0
  {
    if width == 0 || field == [] || field[0] == 0 then []
    else
      var rest := Clamp(field[1..], width - 1);
      assert field == [field[0]] + field[1..];
      [field[0]] + rest
  }

  /** The three properties of `Clamp` determine its result. */
  lemma {:induction false} ClampUnique(field: seq<Byte>, width: nat, s: seq<Byte>)
    requires |s| <= width && s <= field
    requires forall i :: 0 <= i < |s| ==> s[i] != 0
    requires |s| < width && |s| < |field| ==> field[|s|] == 0
    ensures s == Clamp(field, width)
  {
    if s != [] {
      assert field[0] == s[0];
      ClampUnique(field[1..], width - 1, s[1..]);
    }
  }

  /** The bytes of a C string as characters, each with the byte's code. */
  function Text(bytes: seq<Byte>): (t: string)
    ensures |t| == |bytes| && forall i :: 0 <= i < |t| ==> t[i] as int == bytes[i]
  {
    seq(|bytes|, i requires 0 <= i < |bytes| => bytes[i] as char)
  }

  /** Byte offset of the slot of `uid`. With a 32-bit uid it stays far below
      the range of `off_t`. */
  function Offset(uid: Uid): (offset: nat)
    ensures offset < 0x8000_0000_0000_0000
  {
    uid * RECSIZE
  }

  /** The whole slot of `uid` lies within a file of `size` bytes. */
  predicate SlotInFile(uid: Uid, size: nat): (b: bool)
    ensures b ==> Offset(uid) < size
    ensures b <==> (uid + 1) * RECSIZE <= size
  {
    Offset(uid) + RECSIZE <= size
  }

  /** A slot is in the file exactly when its uid is below the number of
      whole slots the file holds. */
  lemma SlotInFileIffBelowCount(uid: Uid, size: nat)
    ensures SlotInFile(uid, size) <==> uid < size / RECSIZE
  {
    var q := size / RECSIZE;
    assert size == q * RECSIZE + size % RECSIZE;
    if uid < q {
      assert (uid + 1) * RECSIZE <= q * RECSIZE;
    } else {
      assert (uid + 1) * RECSIZE >= (q + 1) * RECSIZE;
    }
  }

  /** The row written for a slot: its time, and its tty and host fields cut at
      the first NUL and at their widths. */
  function LegacyRow(slot: Slot): (r: Row)
    ensures r.time == slot.time
    ensures |r.tty| <= UT_LINESIZE && |r.rhost| <= UT_HOSTSIZE
    ensures forall i :: 0 <= i < |r.tty| ==> r.tty[i] != 0 as char
    ensures forall i :: 0 <= i < |r.rhost| ==> r.rhost[i] != 0 as char
  {
    Row(slot.time, Text(Clamp(slot.line, UT_LINESIZE)), Text(Clamp(slot.host, UT_HOSTSIZE)))
  }

  /** What the loop does with one passwd entry before its write. */
  datatype Action = Skip | Abort(error: Error) | Store(row: Row)

  /** A slot beyond the end of the file, a failed seek and a zero time are
      skipped; a failed read of a slot inside the file aborts the import;
      every other slot is stored. */
  function EntryAction(pw: PwEntry, file: LegacyFile, io: EntryIo): (a: Action)
    ensures a.Abort? <==> SlotInFile(pw.uid, file.size) && io.seekOk && !io.readOk
    ensures a.Abort? ==> a.error == LegacyReadFailed(pw.uid)
    ensures a.Store? <==> SlotInFile(pw.uid, file.size) && io.seekOk && io.readOk && file.slot(pw.uid).time != 0
    ensures a.Store? ==> a.row == LegacyRow(file.slot(pw.uid))
  {
    if !SlotInFile(pw.uid, file.size) then Skip
    else if !io.seekOk then Skip
    else if !io.readOk then Abort(LegacyReadFailed(pw.uid))
    else if file.slot(pw.uid).time == 0 then Skip
    else Store(LegacyRow(file.slot(pw.uid)))
  }

  /** The import either runs through every entry, or stops at entry `at`
      with the table as it then is. */
  datatype ImportState = Done(rows: map<string, Row>) | Stopped(rows: map<string, Row>, error: Error, at: nat)

  /** The import of `entries[i..]` into `rows`. */
  function ImportFrom(rows: map<string, Row>, entries: seq<PwEntry>, file: LegacyFile,
                      io: nat -> EntryIo, i: nat): ImportState
    requires i <= |entries|
    decreases |entries| - i
  {
    if i == |entries| then Done(rows)
    else
      match EntryAction(entries[i], file, io(i))
      case Skip => ImportFrom(rows, entries, file, io, i + 1)
      case Abort(err) => Stopped(rows, err, i)
      case Store(row) =>
        if io(i).writeOk then ImportFrom(rows[entries[i].name := row], entries, file, io, i + 1)
        else Stopped(rows, SqlError, i)
  }

  /** `ll2_import_lastlog`. */
  method ImportLastlog(db: Database, entries: seq<PwEntry>, file: LegacyFile,
                       setup: ImportSetup, io: nat -> EntryIo) returns (r: Outcome<Error>)
    modifies db
    ensures !setup.dbOpenOk ==> r == Fail(CannotOpen) && db.rows == old(db.rows)
    ensures setup.dbOpenOk && !setup.fileOpenOk ==> r == Fail(LegacyOpenFailed) && db.rows == old(db.rows)
    ensures setup.dbOpenOk && setup.fileOpenOk && !setup.statOk ==>
              r == Fail(LegacyStatFailed) && db.rows == old(db.rows)
    ensures setup == ImportSetup(true, true, true) ==>
              var s := ImportFrom(old(db.rows), entries, file, io, 0);
              db.rows == s.rows && r == (if s.Done? then Pass else Fail(s.error))
  {
    if !setup.dbOpenOk {
      return Fail(CannotOpen);
    }
    if !setup.fileOpenOk {
      return Fail(LegacyOpenFailed);
    }
    if !setup.statOk {
      return Fail(LegacyStatFailed);
    }
    var i := 0;
    while i < |entries|
      invariant 0 <= i <= |entries|
      invariant ImportFrom(db.rows, entries, file, io, i) == ImportFrom(old(db.rows), entries, file, io, 0)
    {
      var pw := entries[i];
      var offset := pw.uid * RECSIZE;
      if offset + RECSIZE <= file.size {
        // A failed seek is ignored.
        if io(i).seekOk {
          if !io(i).readOk {
            return Fail(LegacyReadFailed(pw.uid));
          }
          var ll := file.slot(pw.uid);
          if ll.time != 0 {
            var tty := Text(Clamp(ll.line, UT_LINESIZE));
            var rhost := Text(Clamp(ll.host, UT_HOSTSIZE));
            var w := db.WriteRow(pw.name, ll.time, Some(tty), Some(rhost), io(i).writeOk);
            if w.Fail? {
              return w;
            }
          }
        }
      }
      i := i + 1;
    }
    r := Pass;
  }

  // ---------------------------------------------------------------------
  // Properties of the import.

  /** A name none of whose remaining entries stores a slot keeps its row, or
      its absence, whatever happens to the import: in particular a user whose
      slot has time 0 or lies beyond the end of the file never gets a row. */
  lemma {:induction false} ImportKeepsUnstoredNames(rows: map<string, Row>, entries: seq<PwEntry>,
                                                    file: LegacyFile, io: nat -> EntryIo, i: nat, name: string)
    requires i <= |entries|
    requires forall j :: i <= j < |entries| && entries[j].name == name ==> !EntryAction(entries[j], file, io(j)).Store?
    ensures var m := ImportFrom(rows, entries, file, io, i).rows;
            (name in m <==> name in rows) && (name in rows ==> m[name] == rows[name])
    decreases |entries| - i
  {
    if i < |entries| {
      match EntryAction(entries[i], file, io(i))
      case Skip => ImportKeepsUnstoredNames(rows, entries, file, io, i + 1, name);
      case Abort(_) =>
      case Store(row) =>
        if io(i).writeOk {
          ImportKeepsUnstoredNames(rows[entries[i].name := row], entries, file, io, i + 1, name);
        }
    }
  }

  /** A legacy slot with time 0, or beyond the end of the file, never
      produces a row. */
  lemma ZeroOrMissingSlotsNeverStored(rows: map<string, Row>, entries: seq<PwEntry>,
                                      file: LegacyFile, io: nat -> EntryIo, name: string)
    requires name !in rows
    requires forall j :: 0 <= j < |entries| && entries[j].name == name ==>
               file.slot(entries[j].uid).time == 0 || !SlotInFile(entries[j].uid, file.size)
    ensures name !in ImportFrom(rows, entries, file, io, 0).rows
  {
    ImportKeepsUnstoredNames(rows, entries, file, io, 0, name);
  }

  /** The import only adds and replaces rows; it never removes one. */
  lemma {:induction false} ImportNeverRemoves(rows: map<string, Row>, entries: seq<PwEntry>,
                                              file: LegacyFile, io: nat -> EntryIo, i: nat)
    requires i <= |entries|
    ensures rows.Keys <= ImportFrom(rows, entries, file, io, i).rows.Keys
    decreases |entries| - i
  {
    if i < |entries| {
      match EntryAction(entries[i], file, io(i))
      case Skip => ImportNeverRemoves(rows, entries, file, io, i + 1);
      case Abort(_) =>
      case Store(row) =>
        if io(i).writeOk {
          ImportNeverRemoves(rows[entries[i].name := row], entries, file, io, i + 1);
        }
    }
  }

  /** After a complete import, a name holds the row of the last of its
      entries that stored a slot. */
  lemma {:induction false} ImportLastStoreWins(rows: map<string, Row>, entries: seq<PwEntry>,
                                               file: LegacyFile, io: nat -> EntryIo, i: nat, j: nat)
    requires i <= j < |entries|
    requires ImportFrom(rows, entries, file, io, i).Done?
    requires EntryAction(entries[j], file, io(j)).Store?
    requires forall k :: j < k < |entries| && entries[k].name == entries[j].name ==>
               !EntryAction(entries[k], file, io(k)).Store?
    ensures var m := ImportFrom(rows, entries, file, io, i).rows;
            entries[j].name in m && m[entries[j].name] == EntryAction(entries[j], file, io(j)).row
    decreases |entries| - i
  {
    match EntryAction(entries[i], file, io(i))
    case Skip => ImportLastStoreWins(rows, entries, file, io, i + 1, j);
    case Store(row) =>
      var next := rows[entries[i].name := row];
      if i == j {
        ImportKeepsUnstoredNames(next, entries, file, io, i + 1, entries[j].name);
      } else {
        ImportLastStoreWins(next, entries, file, io, i + 1, j);
      }
  }

  /** An import that stops at entry `k` leaves the table exactly as a
      complete import of the entries before `k` would: earlier writes remain,
      nothing after them happens. The entry it stops at is one whose read or
      write failed. */
  lemma {:induction false} StoppedImportKeepsEarlierWrites(rows: map<string, Row>, entries: seq<PwEntry>,
                                                           file: LegacyFile, io: nat -> EntryIo, i: nat)
    requires i <= |entries|
    requires ImportFrom(rows, entries, file, io, i).Stopped?
    ensures var s := ImportFrom(rows, entries, file, io, i);
            && i <= s.at < |entries|
            && ImportFrom(rows, entries[..s.at], file, io, i) == Done(s.rows)
            && (EntryAction(entries[s.at], file, io(s.at)).Abort?
                || (EntryAction(entries[s.at], file, io(s.at)).Store? && !io(s.at).writeOk))
    decreases |entries| - i
  {
    var s := ImportFrom(rows, entries, file, io, i);
    match EntryAction(entries[i], file, io(i))
    case Skip =>
      StoppedImportKeepsEarlierWrites(rows, entries, file, io, i + 1);
      assert entries[..s.at][i] == entries[i];
    case Abort(_) =>
    case Store(row) =>
      if io(i).writeOk {
        StoppedImportKeepsEarlierWrites(rows[entries[i].name := row], entries, file, io, i + 1);
        assert entries[..s.at][i] == entries[i];
      }
  }
}
