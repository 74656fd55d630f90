/** The `lastlog2` command: option handling, the administrative actions
    `-C`, `-S` and `-r`, and the listing with its `-b`/`-t` age filter.

    `getopt_long` is replaced by its result, the options in the order given
    and the operands left over; the passwd database is the set of known
    names; `time` is the `clock` parameter; `localtime` is a predicate
    telling which times it can convert. */
module Lastlog2Cli {
  import opened Wrappers
  import opened Decimal
  import opened Lastlog2

  const EXIT_SUCCESS: int := 0
  const EXIT_FAILURE: int := 1

  /** The exit status of `main` returning -1. */
  const EXIT_MINUS_ONE: int := 255

  /** `24L*3600L`, seconds per day. */
  const SECONDS_PER_DAY: int := 86400

  /** The largest day count whose seconds fit in a `time_t`. */
  const MAX_EXACT_DAYS: int := 106751991167300

  /** What `getopt_long` hands to the option loop: one value per option. A
      missing required argument or an unknown option is `UnknownOpt` ('?'). */
  datatype CliOption =
    | BeforeOpt(days: string)
    | ClearOpt
    | DatabaseOpt(file: string)
    | HelpOpt
    | RenameOpt(newname: string)
    | SetOpt
    | TimeOpt(days: string)
    | UserOpt(login: string)
    | UnknownOpt

  /** The flags and values the option loop leaves: `-b`/`-t` in seconds. */
  datatype Options = Options(before: Option<Int64>, clear: bool, database: Option<string>,
                             rename: Option<string>, setTime: bool, time: Option<Int64>, user: Option<string>)

  /** Why the option loop ends the program: `-h`, a bad option (usage), or a
      day count that does not parse. */
  datatype Stop = ShowHelp | BadUsage | InvalidNumber(arg: string)

  // ---------------------------------------------------------------------
  // Day counts.

  /** A value converted to `time_t`, two's complement. */
  function WrapInt64(x: int): (r: Int64)
    ensures (r - x) % 0x1_0000_0000_0000_0000 == 0
    ensures LONG_MIN <= x <= LONG_MAX ==> r == x
  {
    (x - LONG_MIN) % 0x1_0000_0000_0000_0000 + LONG_MIN
  }

  /** The `-b`/`-t` check on `strtoul`: reject an overflow, an argument with
      no digits and one with anything after the digits. */
  function ParseDays(arg: string): (r: Option<nat>)
    ensures r.Some? ==> r.value <= ULONG_MAX
    ensures arg == [] ==> r.None?
    ensures r.Some? ==> arg != [] && IsDigit(arg[|arg| - 1])
    ensures arg != [] && AllDigits(arg) ==>
              (r.Some? <==> DigitsValue(arg) <= ULONG_MAX) && (r.Some? ==> r.value == DigitsValue(arg))
    ensures var st := NumeralStart(arg);
            r.Some? <==> st < |arg| && AllDigits(arg[st..]) && DigitsValue(arg[st..]) <= ULONG_MAX
    ensures r.Some? ==>
              var m := DigitsValue(arg[NumeralStart(arg)..]);
              (!Negative(arg) ==> r.value == m) && (Negative(arg) ==> (r.value + m) % (ULONG_MAX + 1) == 0)
  {
    LeadingDigitsToEnd(arg);
    var c := StrToUL(arg);
    assert c.end == |arg| && c.end > 0 ==> LeadingDigits(arg) == arg[NumeralStart(arg)..];
    if (c.range && c.value == ULONG_MAX) || c.end == 0 || c.end != |arg| then None
    else Some(c.value)
  }

  /** `(time_t) days * 86400`: the unsigned count cast to `time_t`, then
      multiplied, each step in 64-bit two's complement. */
  function Seconds(days: nat): (s: Int64)
    requires days <= ULONG_MAX
    ensures (s - days * SECONDS_PER_DAY) % 0x1_0000_0000_0000_0000 == 0
  {
    var w := WrapInt64(days);
    var s := WrapInt64(w * SECONDS_PER_DAY);
    ScaledWrap(w, days, s);
    s
  }

  /** Scaling keeps a congruence modulo 2^64, and a wrap of the product
      stays congruent to the scaled original. */
  lemma ScaledWrap(w: int, x: int, s: int)
    requires (w - x) % 0x1_0000_0000_0000_0000 == 0
    requires (s - w * SECONDS_PER_DAY) % 0x1_0000_0000_0000_0000 == 0
    ensures (s - x * SECONDS_PER_DAY) % 0x1_0000_0000_0000_0000 == 0
  {
    var m := 0x1_0000_0000_0000_0000;
    var k := (w - x) / m;
    var j := (s - w * SECONDS_PER_DAY) / m;
    assert w - x == k * m;
    assert s - w * SECONDS_PER_DAY == j * m;
    assert (w - x) * SECONDS_PER_DAY == (k * SECONDS_PER_DAY) * m;
    assert s - x * SECONDS_PER_DAY == (j + k * SECONDS_PER_DAY) * m;
  }

  /** Up to MAX_EXACT_DAYS, the seconds are exact; one day more and the
      product no longer fits. */
  lemma SecondsExact(days: nat)
    requires days <= MAX_EXACT_DAYS
    ensures Seconds(days) == days * SECONDS_PER_DAY
    ensures (MAX_EXACT_DAYS + 1) * SECONDS_PER_DAY > LONG_MAX
  {
  }

  /** `strtoul` takes a sign and leading white space: "-1" passes the check
      as ULONG_MAX days, which become minus one day; " 7" is seven days. */
  lemma SignedDayCounts()
    ensures ParseDays("-1") == Some(ULONG_MAX)
    ensures Seconds(ULONG_MAX) == -SECONDS_PER_DAY
    ensures ParseDays(" 7") == Some(7)
    ensures ParseDays("7d") == None
  {
    MinusOneDays();
    SpacedDays();
    SuffixedDays();
  }

  /** A minus sign wraps the count modulo 2^64. */
  lemma MinusOneDays()
    ensures ParseDays("-1") == Some(ULONG_MAX)
  {
    assert SpaceRun("1") == 0 && SpaceRun("-1") == 0;
    assert "-1"[1..] == "1" && "1"[..1] == "1";
    assert DigitRun("1") == 1;
  }

  /** Leading white space is skipped. */
  lemma SpacedDays()
    ensures ParseDays(" 7") == Some(7)
  {
    assert SpaceRun(" 7") == 1 && " 7"[1..] == "7" && "7"[..1] == "7";
    assert DigitRun("7") == 1;
  }

  /** A unit suffix is text after the digits. */
  lemma SuffixedDays()
    ensures ParseDays("7d") == None
  {
    assert SpaceRun("7d") == 0;
    assert DigitRun("7d") == 1 && "7d"[..1] == "7";
  }

  /** Text after the digits is refused even when the text ends in a digit. */
  lemma TrailingTextRefused()
    ensures ParseDays("12a3") == None
  {
    assert SpaceRun("12a3") == 0 && NumeralStart("12a3") == 0;
    assert "12a3"[0..][2] == 'a';
  }

  // ---------------------------------------------------------------------
  // The option loop.

  /** The option that ends the loop, if `o` is one. */
  function StopOf(o: CliOption): Option<Stop> {
    match o
    case HelpOpt => Some(ShowHelp)
    case UnknownOpt => Some(BadUsage)
    case BeforeOpt(a) => if ParseDays(a).None? then Some(InvalidNumber(a)) else None
    case TimeOpt(a) => if ParseDays(a).None? then Some(InvalidNumber(a)) else None
    case _ => None
  }

  /** The first option that ends the loop. */
  function FirstStop(args: seq<CliOption>): (r: Option<Stop>)
    ensures r.None? <==> forall i :: 0 <= i < |args| ==> StopOf(args[i]).None?
    ensures r.Some? ==> exists i :: 0 <= i < |args| && StopOf(args[i]) == r
                                  && forall j :: 0 <= j < i ==> StopOf(args[j]).None?
  {
    if args == [] then None
    else if StopOf(args[0]).Some? then StopOf(args[0])
    else
      var r := FirstStop(args[1..]);
      assert forall i :: 1 <= i < |args| ==> args[i] == args[1..][i - 1];
      r
  }

  /** The value the last option of one kind gives, where `pick` tells the
      options of that kind and their value. */
  function Last<T>(args: seq<CliOption>, pick: CliOption -> Option<T>): (r: Option<T>)
    ensures r.None? <==> forall i :: 0 <= i < |args| ==> pick(args[i]).None?
    ensures r.Some? ==> exists i :: 0 <= i < |args| && pick(args[i]) == r
                                  && forall j :: i < j < |args| ==> pick(args[j]).None?
  {
    if args == [] then None
    else if pick(args[|args| - 1]).Some? then pick(args[|args| - 1])
    else
      var r := Last(args[..|args| - 1], pick);
      LastOfPrefix(args, pick, r);
      r
  }

  /** When the last option is not of the kind, the answer for the options
      before it is the answer for all of them. */
  lemma LastOfPrefix<T>(args: seq<CliOption>, pick: CliOption -> Option<T>, r: Option<T>)
    requires args != [] && pick(args[|args| - 1]).None?
    requires var p := args[..|args| - 1];
             && (r.None? <==> forall i :: 0 <= i < |p| ==> pick(p[i]).None?)
             && (r.Some? ==> exists i :: 0 <= i < |p| && pick(p[i]) == r && forall j :: i < j < |p| ==> pick(p[j]).None?)
    ensures r.None? <==> forall i :: 0 <= i < |args| ==> pick(args[i]).None?
    ensures r.Some? ==> exists i :: 0 <= i < |args| && pick(args[i]) == r
                                  && forall j :: i < j < |args| ==> pick(args[j]).None?
  {
    var p := args[..|args| - 1];
    assert forall i :: 0 <= i < |p| ==> args[i] == p[i];
    if r.Some? {
      var i :| 0 <= i < |p| && pick(p[i]) == r && forall j :: i < j < |p| ==> pick(p[j]).None?;
      assert pick(args[i]) == r;
    }
  }

  function BeforeOf(o: CliOption): Option<Int64> {
    if o.BeforeOpt? && ParseDays(o.days).Some? then Some(Seconds(ParseDays(o.days).value)) else None
  }

  function TimeOf(o: CliOption): Option<Int64> {
    if o.TimeOpt? && ParseDays(o.days).Some? then Some(Seconds(ParseDays(o.days).value)) else None
  }

  function DatabaseOf(o: CliOption): Option<string> {
    if o.DatabaseOpt? then Some(o.file) else None
  }

  function RenameOf(o: CliOption): Option<string> {
    if o.RenameOpt? then Some(o.newname) else None
  }

  function UserOf(o: CliOption): Option<string> {
    if o.UserOpt? then Some(o.login) else None
  }

  /** The first option that ends the loop is the stop. */
  lemma FirstStopAt(args: seq<CliOption>, i: nat)
    requires i < |args| && StopOf(args[i]).Some?
    requires forall j :: 0 <= j < i ==> StopOf(args[j]).None?
    ensures FirstStop(args) == StopOf(args[i])
  {
    var r := FirstStop(args);
    var k :| 0 <= k < |args| && StopOf(args[k]) == r && forall j :: 0 <= j < k ==> StopOf(args[j]).None?;
    assert k == i;
  }

  /** The effect of one option that does not end the loop. */
  function ApplyOption(o: Options, x: CliOption): Options {
    Options(if BeforeOf(x).Some? then BeforeOf(x) else o.before,
            o.clear || x == ClearOpt,
            if DatabaseOf(x).Some? then DatabaseOf(x) else o.database,
            if RenameOf(x).Some? then RenameOf(x) else o.rename,
            o.setTime || x == SetOpt,
            if TimeOf(x).Some? then TimeOf(x) else o.time,
            if UserOf(x).Some? then UserOf(x) else o.user)
  }

  /** An option occurs in `args` iff it is the last one or occurs before. */
  lemma InAppend(args: seq<CliOption>, x: CliOption)
    requires args != []
    ensures x in args <==> x in args[..|args| - 1] || x == args[|args| - 1]
  {
    assert args == args[..|args| - 1] + [args[|args| - 1]];
  }

  const NoOptions := Options(None, false, None, None, false, None, None)

  /** The options the loop leaves after `args`, none of which ends it. */
  function OptionsOf(args: seq<CliOption>): Options {
    if args == [] then NoOptions else ApplyOption(OptionsOf(args[..|args| - 1]), args[|args| - 1])
  }

  /** For each value option the last one given counts; each flag is set
      when it was given at all. */
  lemma {:induction false} OptionsOfLast(args: seq<CliOption>)
    ensures OptionsOf(args) == Options(Last(args, BeforeOf), ClearOpt in args, Last(args, DatabaseOf),
                                       Last(args, RenameOf), SetOpt in args, Last(args, TimeOf), Last(args, UserOf))
  {
    if args != [] {
      var p := args[..|args| - 1];
      var x := args[|args| - 1];
      OptionsOfLast(p);
      InAppend(args, ClearOpt);
      InAppend(args, SetOpt);
    }
  }

  /** One more option that does not end the loop keeps the loop's
      invariant: no stop so far, and the options of the longer prefix. */
  lemma ScanStep(args: seq<CliOption>, i: nat)
    requires i < |args| && StopOf(args[i]).None?
    requires forall j :: 0 <= j < i ==> StopOf(args[j]).None?
    ensures forall j :: 0 <= j < i + 1 ==> StopOf(args[j]).None?
    ensures OptionsOf(args[..i + 1]) == ApplyOption(OptionsOf(args[..i]), args[i])
  {
    assert args[..i + 1][..i] == args[..i];
  }

  /** The `switch` of the option loop for one option: it ends the program
      or changes the flags and values. */
  method HandleOption(o: Options, arg: CliOption) returns (r: Result<Options, Stop>)
    ensures r.Failure? <==> StopOf(arg).Some?
    ensures r.Failure? ==> StopOf(arg) == Some(r.error)
    ensures r.Success? ==> r.value == ApplyOption(o, arg)
  {
    match arg {
      case BeforeOpt(a) =>
        var days := ParseDays(a);
        if days.None? {
          return Failure(InvalidNumber(a));
        }
        r := Success(o.(before := Some(Seconds(days.value))));
      case ClearOpt =>
        r := Success(o.(clear := true));
      case DatabaseOpt(file) =>
        r := Success(o.(database := Some(file)));
      case HelpOpt =>
        r := Failure(ShowHelp);
      case RenameOpt(newname) =>
        r := Success(o.(rename := Some(newname)));
      case SetOpt =>
        r := Success(o.(setTime := true));
      case TimeOpt(a) =>
        var days := ParseDays(a);
        if days.None? {
          return Failure(InvalidNumber(a));
        }
        r := Success(o.(time := Some(Seconds(days.value))));
      case UserOpt(login) =>
        r := Success(o.(user := Some(login)));
      case UnknownOpt =>
        r := Failure(BadUsage);
    }
  }

  /** The `getopt_long` loop of `main`: options take effect in order, the
      first that ends the program ends it, and otherwise a later value of one
      kind replaces an earlier one (`OptionsOfLast`). */
  method ScanOptions(args: seq<CliOption>) returns (r: Result<Options, Stop>)
    ensures r.Failure? <==> FirstStop(args).Some?
    ensures r.Failure? ==> FirstStop(args) == Some(r.error)
    ensures r.Success? ==> r.value == OptionsOf(args)
  {
    var o := NoOptions;
    var i := 0;
    while i < |args|
      invariant 0 <= i <= |args|
      invariant forall j :: 0 <= j < i ==> StopOf(args[j]).None?
      invariant o == OptionsOf(args[..i])
    {
      var step := HandleOption(o, args[i]);
      if step.Failure? {
        FirstStopAt(args, i);
        return step;
      }
      ScanStep(args, i);
      o := step.value;
      i := i + 1;
    }
    assert args[..|args|] == args;
    r := Success(o);
  }

  /** The exit status for an option that ends the loop. */
  function StopExit(s: Stop): int {
    if s.ShowHelp? then EXIT_SUCCESS else EXIT_FAILURE
  }

  // ---------------------------------------------------------------------
  // Checks on the options.

  /** Why `main` refuses to go on once the options are read. */
  datatype Refusal = UnexpectedArgument(operand: string) | ClearWithSet | NeedsUser | UnknownUser(name: string)

  /** Whether the run changes the database. */
  predicate Administers(o: Options) {
    o.clear || o.setTime || o.rename.Some?
  }

  /** The checks of `main` after the option loop, in their order: no
      operand may be left, `-C` excludes `-S`, `-C`, `-S` and `-r` need a
      non-empty `-u`, and `-C` and `-S` (but not `-r`) need a user that
      exists. */
  function Refuse(o: Options, operands: seq<string>, passwd: set<string>): (r: Option<Refusal>)
    ensures r.None? <==>
              && |operands| == 0
              && !(o.clear && o.setTime)
              && (Administers(o) ==> o.user.Some? && o.user.value != "")
              && (o.clear || o.setTime ==> o.user.Some? && o.user.value in passwd)
    ensures |operands| > 0 ==> r == Some(UnexpectedArgument(operands[0]))
    ensures r.Some? && r.value.UnknownUser? ==>
              (o.clear || o.setTime) && o.user == Some(r.value.name) && r.value.name !in passwd
  {
    if |operands| > 0 then Some(UnexpectedArgument(operands[0]))
    else if o.clear && o.setTime then Some(ClearWithSet)
    else if Administers(o) && (o.user.None? || o.user.value == "") then Some(NeedsUser)
    else if (o.clear || o.setTime) && o.user.value !in passwd then Some(UnknownUser(o.user.value))
    else None
  }

  /** The exit status of a refusal: usage for all but the unknown user,
      for which `main` returns -1. */
  function RefusalExit(r: Refusal): int {
    if r.UnknownUser? then EXIT_MINUS_ONE else EXIT_FAILURE
  }

  /** `-r` alone does not ask passwd about the user, `-S` does. */
  lemma RenameNeedsNoAccount(o: Options, user: string, passwd: set<string>)
    requires o.rename.Some? && !o.clear && o.user == Some(user) && user != "" && user !in passwd
    ensures !o.setTime ==> Refuse(o, [], passwd).None?
    ensures o.setTime ==> Refuse(o, [], passwd) == Some(UnknownUser(user))
  {
  }

  // ---------------------------------------------------------------------
  // The actions.

  /** The engine faults of each library call `main` may make. */
  datatype CliFaults = CliFaults(clear: Faults, setTime: Faults, rename: Faults, query: Faults, list: Faults)

  datatype AdminResult = AdminResult(exit: int, rows: map<string, Row>)

  /** `-C`, then `-S`, then `-r`, each only when asked for; the first
      failure, or a `time` failing with -1 before `-S`, ends the program. */
  function AdminEffect(rows: map<string, Row>, user: string, o: Options, clock: Int64, f: CliFaults): AdminResult {
    var cleared := if o.clear then RemoveEffect(rows, user, f.clear) else Effect(Pass, rows);
    if cleared.outcome.Fail? then AdminResult(EXIT_FAILURE, cleared.rows)
    else if o.setTime && clock == -1 then AdminResult(EXIT_FAILURE, cleared.rows)
    else
      var updated := if o.setTime then UpdateEffect(cleared.rows, user, clock, f.setTime) else cleared;
      if updated.outcome.Fail? then AdminResult(EXIT_FAILURE, updated.rows)
      else
        var renamed := if o.rename.Some? then RenameEffect(updated.rows, user, o.rename.value, f.rename) else updated;
        AdminResult(if renamed.outcome.Fail? then EXIT_FAILURE else EXIT_SUCCESS, renamed.rows)
  }

  /** The actions of `main` on the database, in their order. */
  method Administer(db: Database, user: string, o: Options, clock: Int64, f: CliFaults) returns (exit: int)
    modifies db
    ensures AdminResult(exit, db.rows) == AdminEffect(old(db.rows), user, o, clock, f)
  {
    if o.clear {
      var r := db.RemoveEntry(user, f.clear);
      if r.Fail? {
        return EXIT_FAILURE;
      }
    }
    if o.setTime {
      if clock == -1 {
        return EXIT_FAILURE;
      }
      var r := db.UpdateLoginTime(user, clock, f.setTime);
      if r.Fail? {
        return EXIT_FAILURE;
      }
    }
    if o.rename.Some? {
      var r := db.RenameUser(user, o.rename.value, f.rename);
      if r.Fail? {
        return EXIT_FAILURE;
      }
    }
    exit := EXIT_SUCCESS;
  }

  /** Whatever the engine does, the actions touch no name but the user's
      and, with `-r`, the new name. */
  lemma AdminKeepsOtherNames(rows: map<string, Row>, user: string, o: Options, clock: Int64, f: CliFaults, n: string)
    requires n != user && (o.rename.None? || n != o.rename.value)
    ensures var m := AdminEffect(rows, user, o, clock, f).rows;
            (n in m <==> n in rows) && (n in rows ==> m[n] == rows[n])
  {
    var cleared := if o.clear then RemoveEffect(rows, user, f.clear) else Effect(Pass, rows);
    if o.clear { RemoveKeepsName(rows, user, f.clear, n); }
    if !cleared.outcome.Fail? && !(o.setTime && clock == -1) {
      var updated := if o.setTime then UpdateEffect(cleared.rows, user, clock, f.setTime) else cleared;
      if o.setTime { UpdateKeepsName(cleared.rows, user, clock, f.setTime, n); }
      if !updated.outcome.Fail? && o.rename.Some? {
        RenameKeepsName(updated.rows, user, o.rename.value, f.rename, n);
      }
    }
  }

  /** `n` has the same row, or the same absence, in `a` and `b`. */
  predicate SameAt(a: map<string, Row>, b: map<string, Row>, n: string) {
    (n in b <==> n in a) && (n in a ==> b[n] == a[n])
  }

  lemma RemoveKeepsName(rows: map<string, Row>, user: string, f: Faults, n: string)
    requires n != user
    ensures SameAt(rows, RemoveEffect(rows, user, f).rows, n)
  {
  }

  lemma UpdateKeepsName(rows: map<string, Row>, user: string, time: Int64, f: Faults, n: string)
    requires n != user
    ensures SameAt(rows, UpdateEffect(rows, user, time, f).rows, n)
  {
  }

  lemma RenameKeepsName(rows: map<string, Row>, user: string, newname: string, f: Faults, n: string)
    requires n != user && n != newname
    ensures SameAt(rows, RenameEffect(rows, user, newname, f).rows, n)
  {
  }

  /** `-C -r`: the clear removes the record the rename needs, so the rename
      fails with the record gone. */
  lemma ClearThenRenameFails(rows: map<string, Row>, user: string, o: Options, clock: Int64, f: CliFaults)
    requires o.clear && !o.setTime && o.rename.Some?
    requires f.clear == NoFaults && f.rename == NoFaults
    ensures AdminEffect(rows, user, o, clock, f) == AdminResult(EXIT_FAILURE, rows - {user})
  {
  }

  /** `-S -r`: the new name receives the record with the new time. */
  lemma SetThenRenameCarriesNewTime(rows: map<string, Row>, user: string, newname: string, o: Options,
                                    clock: Int64, f: CliFaults)
    requires !o.clear && o.setTime && o.rename == Some(newname)
    requires user in rows && user != newname && clock != -1
    requires f.setTime == NoFaults && f.rename == NoFaults
    ensures AdminEffect(rows, user, o, clock, f)
            == AdminResult(EXIT_SUCCESS, (rows - {user})[newname := rows[user].(time := clock)])
  {
    UpdateChangesOnlyTime(rows, user, clock, NoFaults);
    var updated := rows[user := rows[user].(time := clock)];
    RenameMoves(updated, user, newname);
    assert (updated - {user})[newname := updated[user]] == (rows - {user})[newname := rows[user].(time := clock)];
  }

  /** `-S` for a user without a record fails and changes nothing: setting
      the time never creates a record, and a rename after it is not made. */
  lemma SetWithoutRecordFails(rows: map<string, Row>, user: string, o: Options, clock: Int64, f: CliFaults)
    requires !o.clear && o.setTime && user !in rows && clock != -1
    requires f.setTime.openOk && f.setTime.read == ReadOk
    ensures AdminEffect(rows, user, o, clock, f) == AdminResult(EXIT_FAILURE, rows)
  {
    UpdateNeedsRecord(rows, user, clock, f.setTime);
  }

  // ---------------------------------------------------------------------
  // Printing.

  /** What the "Latest" column shows. */
  datatype Latest = NeverLoggedIn | UnknownDate | LoggedInAt(time: Int64)

  /** One line of the listing: name, port, from, latest. */
  datatype Line = Line(user: string, port: string, from: string, latest: Latest)

  /** The port column, `%-8.8s`: at most the first eight characters of the
      tty, "" for none. */
  function Port(tty: Option<string>): (p: string)
    ensures |p| <= 8
    ensures |tty.GetOr("")| <= 8 ==> p == tty.GetOr("")
    ensures |tty.GetOr("")| > 8 ==> tty.GetOr("") == p + tty.GetOr("")[8..]
  {
    var t := tty.GetOr("");
    if |t| <= 8 then t else t[..8]
  }

  /** How long ago `t` was at `now`, as the `time_t` subtraction gives it. */
  function Age(now: Int64, t: Int64): (a: Int64)
    ensures (a - (now - t)) % 0x1_0000_0000_0000_0000 == 0
    ensures LONG_MIN <= now - t <= LONG_MAX ==> a == now - t
  {
    WrapInt64(now - t)
  }

  /** `print_entry`: suppress the entry under `-b` when it is younger than
      the limit and under `-t` when it is older; show time 0 as never
      logged in, and a time `localtime` cannot convert as unknown. */
  function PrintEntry(user: string, t: Int64, tty: Option<string>, rhost: Option<string>,
                      o: Options, now: Int64, localtimeOk: bool): (line: Option<Line>)
    ensures line.None? <==> (o.before.Some? && Age(now, t) < o.before.value) || (o.time.Some? && Age(now, t) > o.time.value)
    ensures line.Some? ==> line.value.user == user && line.value.port == Port(tty) && line.value.from == rhost.GetOr("")
    ensures line.Some? ==> (line.value.latest == NeverLoggedIn <==> t == 0)
    ensures line.Some? && t != 0 ==> line.value.latest == (if localtimeOk then LoggedInAt(t) else UnknownDate)
  {
    if (o.before.Some? && Age(now, t) < o.before.value) || (o.time.Some? && Age(now, t) > o.time.value) then None
    else
      var latest := if t == 0 then NeverLoggedIn else if localtimeOk then LoggedInAt(t) else UnknownDate;
      Some(Line(user, Port(tty), rhost.GetOr(""), latest))
  }

  /** With `-b B -t T` and times that cannot wrap, an entry is shown
      exactly when its age lies between B and T. */
  lemma PrintedWithinWindow(user: string, t: Int64, tty: Option<string>, rhost: Option<string>,
                            o: Options, now: Int64, localtimeOk: bool)
    requires o.before.Some? && o.time.Some?
    requires 0 <= t && 0 <= now
    ensures PrintEntry(user, t, tty, rhost, o, now, localtimeOk).Some?
            <==> o.before.value <= now - t <= o.time.value
  {
  }

  /** The line of one visit of `ll2_read_all`. */
  function VisitLine(v: Visit, o: Options, now: Int64, localtimeOk: Int64 -> bool): Option<Line> {
    PrintEntry(v.user.GetOr(""), v.time, v.tty, v.rhost, o, now, localtimeOk(v.time))
  }

  /** The positions of the visits the filter lets through, in increasing
      order: each shown visit once, and no other. */
  function ShownIndices(visits: seq<Visit>, o: Options, now: Int64, localtimeOk: Int64 -> bool): (idx: seq<nat>)
    ensures forall k :: 0 <= k < |idx| ==> idx[k] < |visits| && VisitLine(visits[idx[k]], o, now, localtimeOk).Some?
    ensures forall k, m :: 0 <= k < m < |idx| ==> idx[k] < idx[m]
    ensures forall i :: 0 <= i < |visits| && VisitLine(visits[i], o, now, localtimeOk).Some? ==> i in idx
  {
    if visits == [] then []
    else
      var n := |visits| - 1;
      var front := ShownIndices(visits[..n], o, now, localtimeOk);
      assert forall i :: 0 <= i < n ==> visits[..n][i] == visits[i];
      front + (if VisitLine(visits[n], o, now, localtimeOk).Some? then [n] else [])
  }

  /** The listing: the lines of the visits the filter lets through, in the
      order of the visits, one line for each. */
  function ListLines(visits: seq<Visit>, o: Options, now: Int64, localtimeOk: Int64 -> bool): (lines: seq<Line>)
    ensures |lines| <= |visits|
    ensures |lines| == |ShownIndices(visits, o, now, localtimeOk)|
    ensures forall k :: 0 <= k < |lines| ==>
              lines[k] == VisitLine(visits[ShownIndices(visits, o, now, localtimeOk)[k]], o, now, localtimeOk).value
  {
    if visits == [] then []
    else
      var n := |visits| - 1;
      var line := VisitLine(visits[n], o, now, localtimeOk);
      var front := ListLines(visits[..n], o, now, localtimeOk);
      assert forall i :: 0 <= i < n ==> visits[..n][i] == visits[i];
      var fidx := ShownIndices(visits[..n], o, now, localtimeOk);
      assert ShownIndices(visits, o, now, localtimeOk) == fidx + (if line.Some? then [n] else []);
      ListLinesStep(visits, o, now, localtimeOk, front, fidx);
      front + (if line.Some? then [line.value] else [])
  }

  /** The lines of all visits but the last, followed by the last visit's
      line if it is shown, are the lines of the shown visits. */
  lemma ListLinesStep(visits: seq<Visit>, o: Options, now: Int64, localtimeOk: Int64 -> bool,
                      front: seq<Line>, fidx: seq<nat>)
    requires visits != []
    requires |front| == |fidx|
    requires forall k :: 0 <= k < |front| ==>
               && fidx[k] < |visits| - 1
               && VisitLine(visits[..|visits| - 1][fidx[k]], o, now, localtimeOk).Some?
               && front[k] == VisitLine(visits[..|visits| - 1][fidx[k]], o, now, localtimeOk).value
    ensures var n := |visits| - 1;
            var line := VisitLine(visits[n], o, now, localtimeOk);
            var lines := front + (if line.Some? then [line.value] else []);
            var idx := fidx + (if line.Some? then [n] else []);
            && |lines| == |idx|
            && forall k :: 0 <= k < |lines| ==>
                 && idx[k] < |visits|
                 && VisitLine(visits[idx[k]], o, now, localtimeOk).Some?
                 && lines[k] == VisitLine(visits[idx[k]], o, now, localtimeOk).value
  {
    var n := |visits| - 1;
    assert forall k :: 0 <= k < |front| ==> visits[..n][fidx[k]] == visits[fidx[k]];
  }

  /** A line is listed exactly when some visit shows it. */
  lemma ListedIffShown(visits: seq<Visit>, o: Options, now: Int64, localtimeOk: Int64 -> bool)
    ensures forall l :: l in ListLines(visits, o, now, localtimeOk) ==>
              exists i :: 0 <= i < |visits| && VisitLine(visits[i], o, now, localtimeOk) == Some(l)
    ensures forall i :: 0 <= i < |visits| && VisitLine(visits[i], o, now, localtimeOk).Some? ==>
              VisitLine(visits[i], o, now, localtimeOk).value in ListLines(visits, o, now, localtimeOk)
  {
    var lines := ListLines(visits, o, now, localtimeOk);
    var idx := ShownIndices(visits, o, now, localtimeOk);
    forall l | l in lines
      ensures exists i :: 0 <= i < |visits| && VisitLine(visits[i], o, now, localtimeOk) == Some(l)
    {
      var k :| 0 <= k < |lines| && lines[k] == l;
      assert VisitLine(visits[idx[k]], o, now, localtimeOk) == Some(l);
    }
    forall i | 0 <= i < |visits| && VisitLine(visits[i], o, now, localtimeOk).Some?
      ensures VisitLine(visits[i], o, now, localtimeOk).value in lines
    {
      var k :| 0 <= k < |idx| && idx[k] == i;
      assert lines[k] == VisitLine(visits[i], o, now, localtimeOk).value;
    }
  }

  /** Without `-b` and `-t`, the listing has a line for every stored
      record, with its name, port, host and time. */
  lemma EveryRecordListed(visits: seq<Visit>, rows: map<string, Row>, o: Options, now: Int64, localtimeOk: Int64 -> bool)
    requires IsScanOf(visits, rows)
    requires o.before.None? && o.time.None?
    ensures forall n :: n in rows ==>
              PrintEntry(n, rows[n].time, Some(rows[n].tty), Some(rows[n].rhost), o, now, localtimeOk(rows[n].time)).value
              in ListLines(visits, o, now, localtimeOk)
  {
    forall n | n in rows
      ensures PrintEntry(n, rows[n].time, Some(rows[n].tty), Some(rows[n].rhost), o, now, localtimeOk(rows[n].time)).value
              in ListLines(visits, o, now, localtimeOk)
    {
      var i :| 0 <= i < |visits| && visits[i].user == Some(n);
      assert visits[i] == RowVisit(n, rows[n]);
      assert VisitLine(visits[i], o, now, localtimeOk).Some?;
      ListedIffShown(visits, o, now, localtimeOk);
    }
  }

  /** The entry the single-user query prints: the record, or, since read
      errors are ignored, time 0 and neither tty nor rhost. */
  function QueryEntry(rows: map<string, Row>, user: string, f: Faults): (e: Entry)
    ensures ReadEntryResult(rows, user, f).Success? ==> e == ReadEntryResult(rows, user, f).value
    ensures ReadEntryResult(rows, user, f).Failure? ==> e == Entry(0, None, None)
  {
    var r := ReadEntryResult(rows, user, f);
    if r.Success? then r.value else Entry(0, None, None)
  }

  /** A user with no record is shown as never logged in, with empty port
      and host, unless `-b` or `-t` hides the entry. */
  lemma QueryWithoutRecordShowsNever(rows: map<string, Row>, user: string, o: Options, now: Int64, localtimeOk: bool)
    requires user !in rows
    ensures var line := PrintEntry(user, QueryEntry(rows, user, NoFaults).time, None, None, o, now, localtimeOk);
            line.Some? ==> line.value == Line(user, "", "", NeverLoggedIn)
  {
  }

  /** The lines of the single-user query. */
  function QueryLines(rows: map<string, Row>, user: string, o: Options, now: Int64,
                      localtimeOk: Int64 -> bool, f: Faults): (lines: seq<Line>)
    ensures |lines| <= 1
    ensures forall k :: 0 <= k < |lines| ==> lines[k].user == user
    ensures ReadEntryResult(rows, user, f).Failure? && lines != [] ==> lines[0] == Line(user, "", "", NeverLoggedIn)
    ensures ReadEntryResult(rows, user, f).Success? ==>
              var e := ReadEntryResult(rows, user, f).value;
              lines == [] <==> PrintEntry(user, e.time, e.tty, e.rhost, o, now, localtimeOk(e.time)).None?
  {
    var e := QueryEntry(rows, user, f);
    var line := PrintEntry(user, e.time, e.tty, e.rhost, o, now, localtimeOk(e.time));
    if line.Some? then [line.value] else []
  }

  // ---------------------------------------------------------------------
  // The program.

  /** `main`: read the options, check them, then either run the actions,
      print one user, or print every record; `clock` is what `time` returns
      in each of its calls. */
  method RunCli(db: Database, args: seq<CliOption>, operands: seq<string>, passwd: set<string>,
                clock: Int64, localtimeOk: Int64 -> bool, f: CliFaults)
    returns (exit: int, lines: seq<Line>)
    modifies db
    ensures FirstStop(args).Some? ==>
              exit == StopExit(FirstStop(args).value) && lines == [] && db.rows == old(db.rows)
    ensures FirstStop(args).None? && Refuse(OptionsOf(args), operands, passwd).Some? ==>
              exit == RefusalExit(Refuse(OptionsOf(args), operands, passwd).value) && lines == []
              && db.rows == old(db.rows)
    ensures FirstStop(args).None? && Refuse(OptionsOf(args), operands, passwd).None? && Administers(OptionsOf(args)) ==>
              AdminResult(exit, db.rows) == AdminEffect(old(db.rows), OptionsOf(args).user.value, OptionsOf(args), clock, f)
              && lines == []
    ensures FirstStop(args).None? && Refuse(OptionsOf(args), operands, passwd).None? && !Administers(OptionsOf(args)) ==>
              db.rows == old(db.rows)
    ensures FirstStop(args).None? && Refuse(OptionsOf(args), operands, passwd).None? && !Administers(OptionsOf(args))
            && OptionsOf(args).user.Some? ==>
              var user := OptionsOf(args).user.value;
              if user !in passwd then exit == EXIT_MINUS_ONE && lines == []
              else exit == EXIT_SUCCESS && lines == QueryLines(old(db.rows), user, OptionsOf(args), clock, localtimeOk, f.query)
    ensures FirstStop(args).None? && Refuse(OptionsOf(args), operands, passwd).None? && !Administers(OptionsOf(args))
            && OptionsOf(args).user.None? ==>
              if f.list.openOk && f.list.execOk then
                exit == EXIT_SUCCESS
                && exists visits :: IsScanOf(visits, old(db.rows)) && lines == ListLines(visits, OptionsOf(args), clock, localtimeOk)
              else exit == EXIT_FAILURE && lines == []
  {
    lines := [];
    var scanned := ScanOptions(args);
    if scanned.Failure? {
      return StopExit(scanned.error), [];
    }
    var o := scanned.value;
    var refusal := Refuse(o, operands, passwd);
    if refusal.Some? {
      return RefusalExit(refusal.value), [];
    }
    if Administers(o) {
      exit := Administer(db, o.user.value, o, clock, f);
      return;
    }
    if o.user.Some? {
      var user := o.user.value;
      if user !in passwd {
        return EXIT_MINUS_ONE, [];
      }
      var read := db.ReadEntry(user, f.query);
      var e := if read.Success? then read.value else Entry(0, None, None);
      var line := PrintEntry(user, e.time, e.tty, e.rhost, o, clock, localtimeOk(e.time));
      return EXIT_SUCCESS, if line.Some? then [line.value] else [];
    }
    var all := db.ReadAll(f.list);
    if all.ScanFailed? {
      return EXIT_FAILURE, [];
    }
    lines := ListLines(all.visits, o, clock, localtimeOk);
    exit := if all.Completed? then EXIT_SUCCESS else EXIT_FAILURE;
  }
}
