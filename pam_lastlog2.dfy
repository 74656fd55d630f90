/** `pam_lastlog2`: the PAM session module that shows the previous login of
    a user and records the new one.

    The PAM items (user, tty, rhost), the passwd lookup and the clock are
    inputs; `pam_syslog` and `pam_info` are left out except for the banner
    `pam_info` would show and the status it returns. The module-wide
    `lastlog2_path` is passed in and returned. */
module PamLastlog2 {
  import opened Wrappers
  import opened Lastlog2

  const LASTLOG2_DEBUG: bv32 := 1
  const LASTLOG2_QUIET: bv32 := 2

  /** The PAM flag asking modules not to print messages. */
  const PAM_SILENT: bv32 := 0x8000

  const PAM_SUCCESS: int := 0
  const PAM_SYSTEM_ERR: int := 4
  const PAM_USER_UNKNOWN: int := 10
  const PAM_IGNORE: int := 25

  /** `skip_prefix`: the rest of `str` after `prefix` when `str` starts with
      `prefix`, and None otherwise. */
  function SkipPrefix(str: string, prefix: string): (r: Option<string>)
    ensures forall rest :: r == Some(rest) <==> str == prefix + rest
  {
    if |prefix| <= |str| && str[..|prefix|] == prefix then
      assert str == prefix + str[|prefix|..];
      Some(str[|prefix|..])
    else
      assert forall rest :: (prefix + rest)[..|prefix|] == prefix;
      None
  }

  /** An argument of the form `database=FILE`. */
  predicate IsDatabaseArg(arg: string) {
    SkipPrefix(arg, "database=").Some?
  }

  /** `path` is the database chosen by the first `n` arguments: the file of
      the last `database=` among them, or `default` when there is none. */
  ghost predicate ChosenDatabase(argv: seq<string>, n: nat, default: string, path: string)
    requires n <= |argv|
  {
    || ((forall i :: 0 <= i < n ==> !IsDatabaseArg(argv[i])) && path == default)
    || (exists i :: 0 <= i < n && argv[i] == "database=" + path
                    && forall j :: i < j < n ==> !IsDatabaseArg(argv[j]))
  }

  /** `_pam_parse_args`: `PAM_SILENT` or `silent` sets QUIET, `debug` sets
      DEBUG, `database=FILE` chooses the database; any other argument is only
      logged. */
  method ParseArgs(flags: bv32, argv: seq<string>, path: string) returns (ctrl: bv32, dbPath: string)
    ensures ctrl & !(LASTLOG2_DEBUG | LASTLOG2_QUIET) == 0
    ensures (ctrl & LASTLOG2_DEBUG != 0) <==> "debug" in argv
    ensures (ctrl & LASTLOG2_QUIET != 0) <==> (flags & PAM_SILENT != 0 || "silent" in argv)
    ensures ChosenDatabase(argv, |argv|, path, dbPath)
  {
    ctrl := 0;
    if flags & PAM_SILENT != 0 {
      ctrl := ctrl | LASTLOG2_QUIET;
    }
    dbPath := path;
    var i := 0;
    while i < |argv|
      invariant 0 <= i <= |argv|
      invariant ctrl & !(LASTLOG2_DEBUG | LASTLOG2_QUIET) == 0
      invariant (ctrl & LASTLOG2_DEBUG != 0) <==> "debug" in argv[..i]
      invariant (ctrl & LASTLOG2_QUIET != 0) <==> (flags & PAM_SILENT != 0 || "silent" in argv[..i])
      invariant ChosenDatabase(argv, i, path, dbPath)
    {
      var arg := argv[i];
      assert argv[..i + 1] == argv[..i] + [arg];
      if arg == "debug" {
        ctrl := ctrl | LASTLOG2_DEBUG;
        assert !IsDatabaseArg(arg);
      } else if arg == "silent" {
        ctrl := ctrl | LASTLOG2_QUIET;
        assert !IsDatabaseArg(arg);
      } else {
        var str := SkipPrefix(arg, "database=");
        if str.Some? {
          dbPath := str.value;
        }
        // Otherwise: logged as an unknown option.
      }
      i := i + 1;
    }
    assert argv[..|argv|] == argv;
  }

  /** The PAM items the module reads: None when `pam_get_item` fails or
      yields NULL. */
  datatype Items = Items(user: Option<string>, tty: Option<string>, rhost: Option<string>)

  /** The tty `write_login_data` records: "" when missing, with one leading
      "/dev/" removed; any other tty text is kept as it is. */
  function LoginTty(item: Option<string>): (tty: string)
    ensures item.None? ==> tty == ""
    ensures item.Some? && IsDevPath(item.value) ==> item.value == "/dev/" + tty
    ensures item.Some? && !IsDevPath(item.value) ==> tty == item.value
  {
    var t := item.GetOr("");
    var str := SkipPrefix(t, "/dev/");
    if str.Some? then str.value else t
  }

  predicate IsDevPath(s: string) {
    SkipPrefix(s, "/dev/").Some?
  }

  /** The rhost `write_login_data` records: "" when missing. */
  function LoginRhost(item: Option<string>): (rhost: string)
    ensures item.None? ==> rhost == ""
    ensures item.Some? ==> rhost == item.value
  {
    item.GetOr("")
  }

  /** The parts of the "Last login:" message: a date, " from RHOST",
      " on TTY". */
  datatype Banner = Banner(date: Option<Int64>, from: Option<string>, on: Option<string>)

  /** The banner of `show_lastlogin` for an entry: a date only for a nonzero
      time that `localtime_r` can convert, " from " exactly when rhost is
      present, " on " exactly when tty is present, and no message at all when
      none of the three is there. */
  function BannerFor(e: Entry, localtimeOk: bool): (b: Option<Banner>)
    ensures b.Some? <==> (e.time != 0 && localtimeOk) || e.rhost.Some? || e.tty.Some?
    ensures b.Some? ==> b.value.date == (if e.time != 0 && localtimeOk then Some(e.time) else None)
    ensures b.Some? ==> b.value.from == e.rhost && b.value.on == e.tty
  {
    var date := if e.time != 0 && localtimeOk then Some(e.time) else None;
    if date.Some? || e.rhost.Some? || e.tty.Some? then Some(Banner(date, e.rhost, e.tty)) else None
  }

  /** The text `pam_info` is given, with `formatDate` standing for
      `strftime`: "Last login:", then the date, " from RHOST" and " on TTY"
      for the parts present, in that order. */
  function BannerText(b: Banner, formatDate: Int64 -> string): (t: string)
    ensures |t| >= 11 && t[..11] == "Last login:"
    ensures b.on.Some? ==> |t| >= |" on " + b.on.value| && t[|t| - |" on " + b.on.value|..] == " on " + b.on.value
    ensures b.on.None? && b.from.Some? ==>
              |t| >= |" from " + b.from.value| && t[|t| - |" from " + b.from.value|..] == " from " + b.from.value
    ensures b.on.None? && b.from.None? ==>
              t == "Last login:" + (if b.date.Some? then formatDate(b.date.value) else "")
  {
    "Last login:"
    + (if b.date.Some? then formatDate(b.date.value) else "")
    + (if b.from.Some? then " from " + b.from.value else "")
    + (if b.on.Some? then " on " + b.on.value else "")
  }

  /** What `show_lastlogin` returns and shows. */
  datatype Shown = Shown(status: int, banner: Option<Banner>)

  /** `show_lastlogin`: nothing when QUIET; PAM_SYSTEM_ERR when the read
      fails, a first login included; otherwise the banner, if any, and the
      status `pam_info` returns for it (`infoStatus`). */
  method ShowLastLogin(db: Database, ctrl: bv32, user: string, f: Faults, localtimeOk: bool, infoStatus: int)
    returns (s: Shown)
    ensures ctrl & LASTLOG2_QUIET != 0 ==> s == Shown(PAM_SUCCESS, None)
    ensures ctrl & LASTLOG2_QUIET == 0 && ReadEntryResult(db.rows, user, f).Failure? ==>
              s == Shown(PAM_SYSTEM_ERR, None)
    ensures ctrl & LASTLOG2_QUIET == 0 && ReadEntryResult(db.rows, user, f).Success? ==>
              var b := BannerFor(ReadEntryResult(db.rows, user, f).value, localtimeOk);
              s == Shown(if b.Some? then infoStatus else PAM_SUCCESS, b)
  {
    if ctrl & LASTLOG2_QUIET != 0 {
      return Shown(PAM_SUCCESS, None);
    }
    var read := db.ReadEntry(user, f);
    if read.Failure? {
      return Shown(PAM_SYSTEM_ERR, None);
    }
    var banner := BannerFor(read.value, localtimeOk);
    s := Shown(if banner.Some? then infoStatus else PAM_SUCCESS, banner);
  }

  /** `write_login_data`: record the login at `clock` (the value `time`
      returned, negative on failure) with the derived tty and rhost. */
  method WriteLoginData(db: Database, ctrl: bv32, user: string, items: Items, clock: Int64, f: Faults)
    returns (status: int)
    modifies db
    ensures clock < 0 ==> status == PAM_SYSTEM_ERR && db.rows == old(db.rows)
    ensures clock >= 0 ==>
              var e := WriteEffect(old(db.rows), user, clock, Some(LoginTty(items.tty)), Some(LoginRhost(items.rhost)), f);
              db.rows == e.rows && status == (if e.outcome.Pass? then PAM_SUCCESS else PAM_SYSTEM_ERR)
  {
    var tty := LoginTty(items.tty);
    var rhost := LoginRhost(items.rhost);
    if clock < 0 {
      return PAM_SYSTEM_ERR;
    }
    var w := db.WriteEntry(user, clock, Some(tty), Some(rhost), f);
    status := if w.Pass? then PAM_SUCCESS else PAM_SYSTEM_ERR;
  }

  /** The engine and the environment during one `pam_sm_open_session`: the
      faults of its read and of its write, whether `localtime_r` works and
      what `pam_info` returns. */
  datatype SessionFaults = SessionFaults(read: Faults, localtimeOk: bool, infoStatus: int, write: Faults)

  /** `pam_sm_open_session`: PAM_USER_UNKNOWN for a missing, empty or
      unknown user; otherwise show the previous record, then write the new
      one. The result is the write's; the show's is ignored. */
  method OpenSession(db: Database, flags: bv32, argv: seq<string>, path: string, items: Items,
                     passwd: set<string>, clock: Int64, f: SessionFaults)
    returns (status: int, banner: Option<Banner>, dbPath: string)
    modifies db
    ensures ChosenDatabase(argv, |argv|, path, dbPath)
    ensures items.user.None? || items.user.value == "" || items.user.value !in passwd ==>
              status == PAM_USER_UNKNOWN && banner.None? && db.rows == old(db.rows)
    ensures items.user.Some? && items.user.value != "" && items.user.value in passwd ==>
              var user := items.user.value;
              var quiet := (flags & PAM_SILENT != 0 || "silent" in argv);
              var read := ReadEntryResult(old(db.rows), user, f.read);
              && banner == (if quiet || read.Failure? then None else BannerFor(read.value, f.localtimeOk))
              && (clock < 0 ==> status == PAM_SYSTEM_ERR && db.rows == old(db.rows))
              && (clock >= 0 ==>
                    var e := WriteEffect(old(db.rows), user, clock, Some(LoginTty(items.tty)),
                                         Some(LoginRhost(items.rhost)), f.write);
                    db.rows == e.rows && status == (if e.outcome.Pass? then PAM_SUCCESS else PAM_SYSTEM_ERR))
  {
    var ctrl;
    ctrl, dbPath := ParseArgs(flags, argv, path);
    if items.user.None? || |items.user.value| == 0 {
      return PAM_USER_UNKNOWN, None, dbPath;
    }
    var user := items.user.value;
    if user !in passwd {
      return PAM_USER_UNKNOWN, None, dbPath;
    }
    var shown := ShowLastLogin(db, ctrl, user, f.read, f.localtimeOk, f.infoStatus);
    banner := shown.banner;
    status := WriteLoginData(db, ctrl, user, items, clock, f.write);
  }

  /** A first login has no record: the read `show_lastlogin` makes fails
      with "not found". The failure case of `ShowLastLogin`'s contract then
      gives PAM_SYSTEM_ERR and no banner. */
  lemma FirstLoginShowsNothing(rows: map<string, Row>, user: string)
    requires user !in rows
    ensures ReadEntryResult(rows, user, NoFaults) == Failure(NotFound)
  {
  }

  /** The message a login recorded without a date shows: the host after
      " from ", then the tty after " on ", each only when present. */
  lemma BannerTextOfUndatedLogin(rhost: Option<string>, tty: Option<string>, localtimeOk: bool,
                                 formatDate: Int64 -> string)
    requires rhost.Some? || tty.Some?
    ensures var b := BannerFor(Entry(0, tty, rhost), localtimeOk);
            && b.Some?
            && BannerText(b.value, formatDate)
               == "Last login:" + (if rhost.Some? then " from " + rhost.value else "")
                                + (if tty.Some? then " on " + tty.value else "")
  {
    var b := BannerFor(Entry(0, tty, rhost), localtimeOk);
    assert b.value == Banner(None, rhost, tty);
    assert "Last login:" + "" == "Last login:";
  }

  /** The session after a recorded one shows what was recorded: the time
      (unless it is 0 or cannot be converted), the rhost and the tty without
      "/dev/", each empty text left out of the message. */
  lemma NextSessionShowsRecordedLogin(rows: map<string, Row>, user: string, items: Items, clock: Int64, localtimeOk: bool)
    requires clock >= 0
    ensures var tty := LoginTty(items.tty);
            var rhost := LoginRhost(items.rhost);
            var m := WriteEffect(rows, user, clock, Some(tty), Some(rhost), NoFaults).rows;
            var read := ReadEntryResult(m, user, NoFaults);
            && read == Success(Entry(clock, Present(Some(tty)), Present(Some(rhost))))
            && (BannerFor(read.value, localtimeOk).Some? <==> (clock != 0 && localtimeOk) || tty != "" || rhost != "")
            && (tty != "" ==> BannerFor(read.value, localtimeOk).value.on == Some(tty))
            && (rhost != "" ==> BannerFor(read.value, localtimeOk).value.from == Some(rhost))
  {
  }

  /** `pam_sm_authenticate`: the module takes no part in authentication. */
  function Authenticate(flags: bv32, argv: seq<string>): (r: int)
    ensures r == PAM_IGNORE
  {
    PAM_IGNORE
  }

  /** `pam_sm_setcred`. */
  function SetCred(flags: bv32, argv: seq<string>): (r: int)
    ensures r == PAM_IGNORE
  {
    PAM_IGNORE
  }

  /** `pam_sm_acct_mgmt`. */
  function AcctMgmt(flags: bv32, argv: seq<string>): (r: int)
    ensures r == PAM_IGNORE
  {
    PAM_IGNORE
  }

  /** `pam_sm_close_session`: closing a session records nothing. */
  function CloseSession(flags: bv32, argv: seq<string>): (r: int)
    ensures r == PAM_SUCCESS
  {
    PAM_SUCCESS
  }
}
