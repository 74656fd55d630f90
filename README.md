# lastlog2 in Dafny

lastlog2 keeps, for every user name, the most recent login: its time (seconds
since the epoch; 0 for "never"), its terminal and its remote host. The data
lives in an SQLite table `Lastlog(Name, Time, TTY, RemoteHost)`. This project
models the three C files that make up the system's logic:

- `lib/lastlog2.c`, the record store. Module `Lastlog2` (`lastlog2_store.dfy`)
  holds it as a class `Database` with a single field `rows: map<string, Row>`.
  There is one method per library call: `read_entry`, `write_entry`,
  `remove_entry`, `ll2_read_entry`, `ll2_write_entry`,
  `ll2_update_login_time`, `ll2_remove_entry`, `ll2_rename_user` and
  `ll2_read_all`. Each one is proved against a specification function of
  the old table. The row `callback` is the function `Callback`, and the
  engine's row loop that calls it is the method `ScanRows`. The properties of the library
  are lemmas about those functions.
- The legacy import `ll2_import_lastlog` from the same file. Module
  `LegacyImport` (`legacy_import.dfy`) has the loop over the passwd entries,
  the slot-offset test, the fixed-width clamp of `ll_line`/`ll_host`, and the
  skip and abort rules. The loop is proved against a recursive function.
- `src/pam_lastlog2.c`, the PAM session module: module `PamLastlog2`
  (`pam_lastlog2.dfy`). It covers argument parsing into the control bitmask,
  the tty/rhost derivation, the "Last login:" banner rule, and the
  show-then-write order of `pam_sm_open_session`.
- `src/lastlog2.c`, the command `lastlog2`: module `Lastlog2Cli`
  (`lastlog2_cli.dfy`). It covers the option loop, the day-count conversion,
  the option checks, the actions in the order `-C`, `-S`, `-r`, the
  single-user query and the `-b`/`-t` age filter of `print_entry`.

`decimal.dfy` (module `Decimal`) models `strtol` and `strtoul` in base 10,
and the decimal text SQLite gives for an INTEGER. `wrappers.dfy` holds
`Option`, `Result` and `Outcome`.

The behaviour of SQLite is an input to each call, a `Faults` value:
- whether the database opens;
- how the SELECT goes: it may fail to prepare or bind, or the engine may
  answer with any row or none;
- whether an `exec` succeeds;
- how the DELETE goes.

A statement that fails leaves the table as it was. The same holds for the
PAM items, the passwd database, the legacy file, the clock and `localtime`:
each is a parameter.

The two callers treat a user with no record differently. `show_lastlogin`
reports PAM_SYSTEM_ERR for such a user
(`PamLastlog2.FirstLoginShowsNothing`); `pam_sm_open_session` then ignores
that status. Only the single-user query of the `lastlog2` command turns a
failed read into time 0.

## Model

| member | source | states |
|---|---|---|
| Decimal.StrToL | lib/lastlog2.c:276-280 | `strtol` base 10. White space and the sign are stated by `StrToLSkipsSpace` and `StrToLSign`. The result stays within the range of `long`, and ERANGE means it was clamped to LONG_MIN or LONG_MAX. When nothing is converted, the end is 0 and the value is 0. Otherwise the end is just past the longest digit run after the white space and the sign. ERANGE is set iff the signed value of that run lies outside the `long` range, and otherwise the result is that value. A plain digit string is read to its end. |
| Decimal.StrToUL | src/lastlog2.c:151-154 | `strtoul` base 10: the value is within ULONG_MAX, with ERANGE exactly when it is clamped. The end is 0 when there are no digits, and otherwise just past the longest digit run after the white space and the sign. ERANGE is set iff the run's value exceeds ULONG_MAX. Otherwise the result is that value, or, after a minus sign, its negation modulo 2^64. A plain digit string is read to its end. |
| Decimal.StrToLOfInt64Text | lib/lastlog2.c:276-282 | Reading the decimal text of any 64-bit time gives back that time, consumes all of the text and sets no ERANGE. |
| Decimal.LeadingDigits | lib/lastlog2.c:277 | The digits a conversion reads are the longest digit run that follows the white space and the sign: all digits, and the character after them is not one. |
| Decimal.LeadingDigitsToEnd | lib/lastlog2.c:277 | When everything after the white space and the sign is digits, the conversion reads all of it. |
| Decimal.StrToLSkipsSpace | lib/lastlog2.c:276-280 | A white-space character before the text leaves the value and ERANGE as they were, and moves a nonzero end by one. |
| Decimal.StrToLSign | lib/lastlog2.c:276-280 | Before a digit string within the range of `long`, '-' negates the value and '+' keeps it; the sign is counted in the end, and ERANGE is not set. |
| Lastlog2.Present | lib/lastlog2.c:126-140 | A tty or rhost column is reported exactly when it is non-NULL and non-empty, and then with its stored text. |
| Lastlog2.DecodeStep | lib/lastlog2.c:109-149 | No row gives "not found". A row for another name is an error of its own and yields no data. Only a row for the requested name succeeds, with its time and with tty and rhost where present. |
| Lastlog2.ReadResult | lib/lastlog2.c:80-154 | When the engine is faithful, a read succeeds exactly when the name has a row and returns that row's data; otherwise it is "not found", never a zeroed entry. A prepare or bind failure is its own error. |
| Lastlog2.Written | lib/lastlog2.c:183-186 | REPLACE is a full upsert: the name's row becomes `(time, tty or "", rhost or "")`, the set of names gains the user, and every other row is unchanged. |
| Lastlog2.Callback | lib/lastlog2.c:261-286 | A row without exactly four columns is mangled. Otherwise the name, tty and rhost are passed through, and the time is the value `strtol` gives for the time text. The warning is drawn iff that text is empty, is not read to its end, or is out of range. The row is visited either way. |
| Lastlog2.CallbackOfEngineRow | lib/lastlog2.c:276-284 | A stored row, as the engine renders it, reaches the visitor with its own name, time, tty and rhost and draws no warning. |
| Lastlog2.ScanRows | lib/lastlog2.c:261-286 | The row loop of `sqlite3_exec` runs the callback on each row in order. It completes exactly when every row has four columns, and otherwise stops at the first mangled row. |
| Lastlog2.Database.ReadRow | lib/lastlog2.c:80-154 | `read_entry` on the table returns `ReadResult` and changes nothing. |
| Lastlog2.Database.WriteRow | lib/lastlog2.c:175-205 | `write_entry`: the new table is `Written` of the old one when `exec` succeeds, else the old table with an SQL error. |
| Lastlog2.Database.RemoveRow | lib/lastlog2.c:320-363 | `remove_entry`: the row is deleted when prepare, bind and step all succeed (a missing row included); each failure has its own error and leaves the table as it was. |
| Lastlog2.Database.ReadEntry | lib/lastlog2.c:157-172 | `ll2_read_entry`: an open failure, else `read_entry`'s answer; the table is unchanged. |
| Lastlog2.Database.WriteEntry | lib/lastlog2.c:208-224 | `ll2_write_entry`: outcome and new table are `WriteEffect` of the old table. |
| Lastlog2.Database.UpdateLoginTime | lib/lastlog2.c:227-255 | `ll2_update_login_time`: outcome and new table are `UpdateEffect` of the old table (read, then write back tty and rhost with the new time). |
| Lastlog2.Database.RemoveEntry | lib/lastlog2.c:366-381 | `ll2_remove_entry`: outcome and new table are `RemoveEffect` of the old table. |
| Lastlog2.Database.RenameUser | lib/lastlog2.c:384-423 | `ll2_rename_user`: outcome and new table are `RenameEffect` of the old table (read old, write new, then delete old). |
| Lastlog2.Database.ReadAll | lib/lastlog2.c:289-317 | `ll2_read_all`: a failure to open or to exec gives that error. Otherwise the scan completes and visits every stored row exactly once, with its own data. |
| Lastlog2.WriteThenRead | tests/tst-write-read-user.c:49-94 | After a write, a read returns the written time. It returns tty and rhost as given, or absent when they were not given or are empty. |
| Lastlog2.WriteOverwrites | lib/lastlog2.c:183-186 | A second write of a name replaces the first completely. |
| Lastlog2.WriteKeepsOtherNames | lib/lastlog2.c:183-186 | A write, failed or not, never changes what a read of another name returns. |
| Lastlog2.FailedCallsChangeNothing | lib/lastlog2.c:208-381 | A failed write, update or delete leaves the table exactly as it was. |
| Lastlog2.UpdateNeedsRecord | lib/lastlog2.c:239-243 | `update_login_time` never creates a record: with no row it fails with "not found" and changes nothing. |
| Lastlog2.PresentRestores | lib/lastlog2.c:126-140 | A stored text read back and written again is the same text, the empty text included. |
| Lastlog2.UpdateChangesOnlyTime | lib/lastlog2.c:239-245 | A successful update changes only the record's time; tty and rhost are carried over exactly. |
| Lastlog2.RemoveResult | lib/lastlog2.c:347-362 | After a successful delete the name reads as "not found". Deleting a name with no row succeeds and changes nothing. |
| Lastlog2.RenameReadFails | lib/lastlog2.c:397-401 | A rename whose read of the old name fails, or whose open fails, changes nothing and fails. |
| Lastlog2.RenameWriteFails | lib/lastlog2.c:403-411 | A rename whose write fails leaves the old row untouched and creates nothing. |
| Lastlog2.RenameDeleteFails | lib/lastlog2.c:413-422 | A rename whose final delete fails reports failure, and both the old row and its copy under the new name remain. |
| Lastlog2.RenameMoves | lib/lastlog2.c:397-422 | A successful rename between two different names moves the record: the old name reads "not found", the new name reads what the old one held, and nothing else changes. |
| Lastlog2.RenameNeverLosesData | lib/lastlog2.c:397-422 | Under any engine behaviour after a faithful read, a rename between different names leaves the record at the old name or at the new one, and no third name changes. |
| Lastlog2.RenameToSameNameDeletes | lib/lastlog2.c:384-423 | Renaming a name to itself rewrites the row and then deletes it; the call succeeds with the record gone. |
| Lastlog2.WriteUpdateRenameScenario | lib/lastlog2.c:208-423 | Write alice (1000, tty1, 10.0.0.5), update her time to 2000, rename her to alicia. Then alice is "not found" and alicia reads (2000, tty1, 10.0.0.5). |
| Lastlog2.UpdateEffectAsWritten | lib/lastlog2.c:227-255 | `ll2_update_login_time` as written, with the uninitialised `tty`/`rhost` locals as the parameters `ttyLocal`/`rhostLocal`. Its outcome is always that of the corrected update. When both locals are NULL, its whole effect equals the corrected one. |
| Lastlog2.RenameEffectAsWritten | lib/lastlog2.c:384-423 | `ll2_rename_user` as written, with the uninitialised `tty`/`rhost` locals as the parameters `ttyLocal`/`rhostLocal`. Its outcome is always that of the corrected rename. When both locals are NULL, its whole effect equals the corrected one. |
| Lastlog2.UpdateAsWrittenLeaksLocal | lib/lastlog2.c:227-245 | As written, updating a record whose tty is empty stores whatever the uninitialised local held. |
| Lastlog2.RenameAsWrittenLeaksLocal | lib/lastlog2.c:384-411 | As written, renaming a record whose rhost is empty gives the new name whatever the uninitialised local held. |
| LegacyImport.Clamp | lib/lastlog2.c:492-495 | `strncpy` into a buffer of width+1 with a final NUL keeps the bytes before the first NUL, at most `width` of them, and no NUL. |
| LegacyImport.ClampUnique | lib/lastlog2.c:492-495 | Those three properties determine the result. |
| LegacyImport.Text | lib/lastlog2.c:492-497 | The written text has one character per byte, with that byte's code. |
| LegacyImport.Offset | lib/lastlog2.c:466 | The offset is `uid * sizeof(struct lastlog)` and stays within `off_t`. |
| LegacyImport.SlotInFile | lib/lastlog2.c:468 | The slot test `offset + RECSIZE <= size` holds exactly when the slot after the uid's one starts within the file; the slot's offset is then inside the file. |
| LegacyImport.SlotInFileIffBelowCount | lib/lastlog2.c:468 | `offset + RECSIZE <= size` holds exactly when the uid is below the number of whole slots in the file. |
| LegacyImport.EntryAction | lib/lastlog2.c:466-503 | A slot beyond the file, a failed seek or a zero time is skipped. A failed read inside the file aborts. Any other slot is stored as its time plus the clamped tty and host. |
| LegacyImport.LegacyRow | lib/lastlog2.c:487-497 | The row written for a slot keeps its time. Its tty has at most 32 characters, its host at most 256, and neither holds a NUL. |
| LegacyImport.ImportLastlog | lib/lastlog2.c:427-512 | The import fails, unchanged, when the database, the file or its size is unavailable. Otherwise its outcome and final table are those of `ImportFrom` over the passwd entries. |
| LegacyImport.ImportKeepsUnstoredNames | lib/lastlog2.c:466-503 | A name for which no remaining entry stores a slot keeps its row, or its absence, however the import ends. |
| LegacyImport.ZeroOrMissingSlotsNeverStored | lib/lastlog2.c:468-485 | A user whose slot has time 0 or lies beyond the end of the file never gets a row from the import. |
| LegacyImport.ImportNeverRemoves | lib/lastlog2.c:466-503 | The import only adds and replaces rows, and never removes one. |
| LegacyImport.ImportLastStoreWins | lib/lastlog2.c:466-503 | After a complete import, a name holds the row of the last of its entries that stored a slot. |
| LegacyImport.StoppedImportKeepsEarlierWrites | lib/lastlog2.c:473-503 | An import that aborts at entry k leaves the table that a complete import of the entries before k gives. The entry at k failed its read or its write. |
| PamLastlog2.SkipPrefix | src/pam_lastlog2.c:50-56 | The result is `Some(rest)` exactly when `str == prefix + rest`, and None when `str` does not start with `prefix`. |
| PamLastlog2.ParseArgs | src/pam_lastlog2.c:58-84 | DEBUG is set iff some argument is `debug`. QUIET is set iff PAM_SILENT is among the flags or some argument is `silent`. No other bit is set. The path is that of the last `database=` argument, or the old path when there is none. |
| PamLastlog2.LoginTty | src/pam_lastlog2.c:96-109 | A missing tty becomes "". A tty starting with "/dev/" loses exactly that prefix. Any other tty is kept as it is. |
| PamLastlog2.LoginRhost | src/pam_lastlog2.c:111-116 | A missing rhost becomes "", and any other value is kept. |
| PamLastlog2.BannerFor | src/pam_lastlog2.c:165-183 | A banner is shown iff a date (a nonzero time `localtime_r` converts), an rhost or a tty is present. " from " appears iff rhost is present, and " on " iff tty is present. |
| PamLastlog2.ShowLastLogin | src/pam_lastlog2.c:139-189 | QUIET returns success without reading. A read failure gives PAM_SYSTEM_ERR and no banner. Otherwise the result is the banner of the record and `pam_info`'s status (success when there is no banner). The table is unchanged. |
| PamLastlog2.WriteLoginData | src/pam_lastlog2.c:86-137 | A failing clock gives PAM_SYSTEM_ERR without a write. Otherwise the new table is that of writing the derived tty and rhost at that time, with PAM_SUCCESS exactly when the write passes. |
| PamLastlog2.OpenSession | src/pam_lastlog2.c:218-255 | A missing, empty or unknown user gives PAM_USER_UNKNOWN and nothing else. Otherwise the banner comes from the record as it was before the login, and the result and new table are those of the write. |
| PamLastlog2.FirstLoginShowsNothing | src/pam_lastlog2.c:153-163 | For a user with no record, the read that `show_lastlogin` makes fails with "not found". By `ShowLastLogin`'s failure case, the result is then PAM_SYSTEM_ERR with no banner. |
| PamLastlog2.BannerText | src/pam_lastlog2.c:176-183 | The message starts with "Last login:". It ends with " on TTY" when the tty is present, and otherwise with " from RHOST" when the rhost is present. With neither, it is "Last login:" followed by the date. |
| PamLastlog2.BannerTextOfUndatedLogin | src/pam_lastlog2.c:165-183 | For a record with time 0 and at least a tty or an rhost, the message is "Last login:", then " from RHOST" if there is an rhost, then " on TTY" if there is a tty. |
| PamLastlog2.NextSessionShowsRecordedLogin | src/pam_lastlog2.c:96-183 | After a recorded login, the next session reads back that time, tty and rhost. Its banner names the tty and the rhost when they are non-empty. |
| PamLastlog2.Authenticate | src/pam_lastlog2.c:191-198 | Always PAM_IGNORE. |
| PamLastlog2.SetCred | src/pam_lastlog2.c:200-207 | Always PAM_IGNORE. |
| PamLastlog2.AcctMgmt | src/pam_lastlog2.c:209-216 | Always PAM_IGNORE. |
| PamLastlog2.CloseSession | src/pam_lastlog2.c:257-264 | Always PAM_SUCCESS. |
| Lastlog2Cli.WrapInt64 | src/lastlog2.c:159 | The `time_t` value is congruent to the input modulo 2^64, and equals it when the input fits. |
| Lastlog2Cli.ParseDays | src/lastlog2.c:146-158 | An argument is accepted exactly when what follows its white space and sign is a non-empty digit string whose value is at most ULONG_MAX. Its days are then that value, or its negation modulo 2^64 after a minus sign. So the empty argument, trailing text and an overflow are refused. |
| Lastlog2Cli.TrailingTextRefused | src/lastlog2.c:152-154 | "12a3" is refused, although it ends in a digit. |
| Lastlog2Cli.Seconds | src/lastlog2.c:159 | `(time_t) days * (24L*3600L)` (also at :193) is congruent to days * 86400 modulo 2^64. |
| Lastlog2Cli.SecondsExact | src/lastlog2.c:159 | Up to MAX_EXACT_DAYS, the stored seconds are exactly days * 86400; one more day no longer fits in `time_t`. |
| Lastlog2Cli.SignedDayCounts | src/lastlog2.c:151-159 | "-1" passes the check as ULONG_MAX days, stored as -86400 seconds. " 7" is 7 days, and "7d" is rejected. |
| Lastlog2Cli.FirstStop | src/lastlog2.c:142-205 | The first `-h`, bad option or unparsable day count among the options, or None exactly when there is none. |
| Lastlog2Cli.Last | src/lastlog2.c:142-205 | The value of the last option of one kind, or None exactly when there is no option of that kind. |
| Lastlog2Cli.OptionsOfLast | src/lastlog2.c:142-205 | After the loop, each value option holds its last occurrence, and each flag is set iff it was given at all. |
| Lastlog2Cli.HandleOption | src/lastlog2.c:144-204 | One pass of the `switch`: it ends the program exactly for `-h`, an unknown option or a bad day count; otherwise it applies the option. |
| Lastlog2Cli.ScanOptions | src/lastlog2.c:142-205 | The getopt loop stops at the first option that ends the program. Otherwise it yields the options of the whole command line. |
| Lastlog2Cli.Refuse | src/lastlog2.c:207-231 | The run is refused unless: no operand is left; `-C` and `-S` are not both given; every action has a non-empty `-u`; and `-C`/`-S` name a user known to passwd. The first operand is the one reported. |
| Lastlog2Cli.RenameNeedsNoAccount | src/lastlog2.c:219-231 | `-r` works for a user unknown to passwd, while adding `-S` makes the same run fail as an unknown user. |
| Lastlog2Cli.Administer | src/lastlog2.c:233-288 | Exit status and new table are `AdminEffect` of the old table: clear, then set, then rename, stopping at the first failure. |
| Lastlog2Cli.AdminKeepsOtherNames | src/lastlog2.c:233-288 | Whatever the engine does, the actions change no name but the user's and the rename target. |
| Lastlog2Cli.ClearThenRenameFails | src/lastlog2.c:233-286 | With `-C -r`, the clear removes the record the rename needs, so the run fails with the record gone. |
| Lastlog2Cli.SetThenRenameCarriesNewTime | src/lastlog2.c:248-286 | With `-S -r`, the new name receives the record with the new time, and the old name is gone. |
| Lastlog2Cli.SetWithoutRecordFails | src/lastlog2.c:248-271 | `-S` for a user with no record fails without changing anything, and no rename follows. |
| Lastlog2Cli.Port | src/lastlog2.c:84 | The port column is the tty cut to at most eight characters; "" when there is none. |
| Lastlog2Cli.Age | src/lastlog2.c:59-64 | `time (NULL) - ll_time` is congruent to the difference modulo 2^64, and equal to it when the difference fits in `time_t`. |
| Lastlog2Cli.PrintEntry | src/lastlog2.c:46-88 | An entry is hidden exactly when `-b` is given and its age is below the limit, or `-t` is given and its age is above it. Time 0 shows as never logged in. Any other time shows as a date, or as unknown when `localtime` fails. |
| Lastlog2Cli.PrintedWithinWindow | src/lastlog2.c:59-65 | With `-b B -t T` and non-negative times, an entry is shown exactly when B <= now - t <= T. |
| Lastlog2Cli.ShownIndices | src/lastlog2.c:58-64 | The positions of the visits the `-b`/`-t` filter lets through: increasing, each one once, and every shown visit among them. |
| Lastlog2Cli.ListLines | src/lastlog2.c:311-322 | The listing has exactly one line per shown visit, in scan order: the k-th line is the line of the k-th shown visit. |
| Lastlog2Cli.ListedIffShown | src/lastlog2.c:311-322 | Every listed line is the line of some visit, and every visit the filter lets through is listed. |
| Lastlog2Cli.EveryRecordListed | src/lastlog2.c:311-322 | Without `-b` and `-t`, there is a line for every stored record, with its own name, port, host and time. |
| Lastlog2Cli.QueryEntry | src/lastlog2.c:291-306 | The single-user query shows the record when the read succeeds, and time 0 with no tty or rhost when it fails. |
| Lastlog2Cli.QueryWithoutRecordShowsNever | src/lastlog2.c:291-308 | A user with no record is shown as never logged in with empty port and host, unless the filter hides the entry. |
| Lastlog2Cli.QueryLines | src/lastlog2.c:291-308 | The single-user query prints at most one line, about that user. After a failed read the line says never logged in, with empty port and host. After a successful read, the line is left out exactly when the filter hides the record. |
| Lastlog2Cli.RunCli | src/lastlog2.c:119-325 | The exit status follows the first stopping option (0 for help, 1 otherwise), then a refusal (1, or 255 for an unknown user). Then come the actions, or the single-user query (255 for an unknown user, else 0), or the listing (0 with every record, or 1 when the scan fails). Only the actions change the table. |

## Left out

- SQLite as a program is not modelled: statement text, the schema, `CREATE TABLE IF NOT EXISTS` and the `STRICT` table.
- `write_entry` builds its SQL with unescaped `'%s'` and renders the time as `%llu`. Quote characters in a value can therefore break or change the statement, and a negative time is rendered as a large unsigned number. The model writes the values as given.
- `Lastlog2.Database.ReadAll`: an `exec` error after some rows have been visited is not modelled; a failing `exec` fails before the first row.
- `Lastlog2.Database.ReadAll`: the engine's row order is chosen by the model. Any order is allowed, and the properties hold for every order.
- `Lastlog2.Callback`: a NULL time column, on which the C code calls `strtol` with undefined behaviour, is read as the empty text.
- A mangled row makes `callback` exit the process. The scan result `Exited` stands for that exit, with the visits made before it.
- The path of the database file is not modelled: the `database=`/`-d` values are parsed and returned, and every call is given the one table. Which file a path denotes, and whether it opens read-only or read-write, is left out.
- The following are not modelled: resource handling (`db` left open on the fopen/fstat failure paths of the import, `free`, `strdup`) and the "Out of memory" fallbacks of `asprintf`.
- Error message texts are not modelled; only their kind is kept as `Lastlog2.Error`.
- `fopen`, `fstat`, `fseeko`, `fread` and the passwd enumeration are not modelled. Their results are inputs: the file's size and slots, a per-entry seek/read result, and the sequence of passwd entries. The layout of `struct lastlog` is fixed as RECSIZE = 4 + 32 + 256.
- `pam_get_item`, `pam_syslog`, `pam_info` and `pam_modutil_getpwnam` are not modelled. They become the `Items` record, the passwd set and the `infoStatus` result; log output is dropped.
- `localtime`, `localtime_r`, `strftime`, the column layout of `printf` and the once-only header line are not modelled. Dates are kept as the time they show, with "could not convert" as a predicate passed in.
- `Lastlog2Cli.PrintEntry`: a NULL name reaching the visitor is printed as "" instead of glibc's "(null)".
- `getopt_long` is not modelled (short and long options, argument permutation, "--"). Its result is the input: the options in order and the remaining operands. A missing option argument counts as an unknown option.
- `exit` and `usage` are not modelled: exit happens when the model returns its status, and the usage text is dropped.
- `Lastlog2Cli.RunCli`: every call of `time` in one run returns the same `clock`.
- `Lastlog2Cli.Age`: `time(NULL) - ll_time` is signed overflow in C. The model takes it as 64-bit two's complement, the same as the day scaling.
- Texts are C strings: byte strings without NUL, modelled as `string`. Character counts in the model are byte counts in C, so `Lastlog2.Present`'s non-empty test is `strlen (uc) > 0` and `Lastlog2Cli.Port`'s eight characters are the eight bytes of `%-8.8s`. Multi-byte encodings, and a NUL inside a value, are not modelled.
- Concurrency between processes is not modelled. Nothing stops another process from writing between the read and the write of `update_login_time` or `rename`; the model runs each call alone.

## Findings

| source | as written | input that shows it | evidently intended | confidence | as-written member | corrected member |
|---|---|---|---|---|---|---|
| lib/lastlog2.c:233-234 | `char *tty; char *rhost;` are not initialised. `read_entry` assigns them only for a non-empty stored value, and `write_entry` then stores whatever they held. | the record `u = (1, "", "")` updated to time 2 with the stray local "junk" stores `(2, "junk", "")` | an empty tty or rhost stays empty: the locals start as NULL | not executed | Lastlog2.UpdateAsWrittenLeaksLocal | Lastlog2.UpdateChangesOnlyTime |
| lib/lastlog2.c:390-391 | The same uninitialised `tty` and `rhost` in `ll2_rename_user` are written under the new name. | renaming `u = (1, "pts/0", "")` to `v` with the stray local "junk" gives `v = (1, "pts/0", "junk")` | the new name receives exactly the old record | not executed | Lastlog2.RenameAsWrittenLeaksLocal | Lastlog2.RenameNeverLosesData |
