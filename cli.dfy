/** The command-line entry point: the decision between the help banner, the
    argument parser's own exits, the nested-session notice, entering a
    session ("burrow") and running one subcommand directly; the direct
    commands with their outputs and exits; and the session itself, whose
    helper functions call back into the entry point. */
module Cli {
  import opened Wrappers
  import opened Paths
  import FS = FileSystem
  import opened Storage
  import Manager
  import Peek
  import Decimal

  // ------------------------------------------------------------ routing

  /** A subcommand with the arguments argparse gave it. */
  datatype Command =
    | SpotCmd
    | HopCmd(dest: Option<string>)
    | PeekCmd(all: bool)
    | CopyCmd(src: string, dst: string)
    | MoveCmd(src: string, dst: string)
    | BuryCmd(path: string)
    | RenameCmd(src: string, dst: string)
    | DigCmd(path: string)
    | CarrotCmd(path: string)

  /** What parser.parse_args() does: gives the chosen subcommand (if any), or
      exits by itself (help of a subcommand, --version, a usage error). */
  datatype Parsed = Args(cmd: Option<Command>) | ParserExit(code: int)

  const Subcommands: set<string> := {"spot", "hop", "peek", "copy", "move", "bury", "rename", "dig", "carrot"}

  const HelpFlags: set<string> := {"-h", "--help"}

  /** any(token in names for token in argv). */
  function AnyIn(argv: seq<string>, names: set<string>): (b: bool)
    ensures b <==> exists i :: 0 <= i < |argv| && argv[i] in names
  {
    if argv == [] then false
    else if argv[0] in names then true
    else
      var b := AnyIn(argv[1..], names);
      assert forall i :: 0 < i < |argv| ==> argv[i] == argv[1..][i - 1];
      b
  }

  /** -h or --help without any subcommand name: the banner is printed. */
  predicate IsTopLevelHelp(argv: seq<string>)
  {
    AnyIn(argv, HelpFlags) && !AnyIn(argv, Subcommands)
  }

  datatype Mode = Banner | ArgparseExit(code: int) | NestedNotice | EnterBurrow | Direct(cmd: Command)

  /** The order main decides in: help banner, then argparse, then the guard
      against nesting, then session entry; a subcommand runs directly. */
  function Route(argv: seq<string>, parsed: Parsed, burrow: Option<string>): Mode
  {
    if IsTopLevelHelp(argv) then Banner
    else if parsed.ParserExit? then ArgparseExit(parsed.code)
    else if parsed.cmd == None then (if burrow == Some("1") then NestedNotice else EnterBurrow)
    else Direct(parsed.cmd.value)
  }

  /** Top-level help wins over everything else. */
  lemma RouteBanner(argv: seq<string>, parsed: Parsed, burrow: Option<string>)
    requires exists i :: 0 <= i < |argv| && argv[i] in HelpFlags
    requires forall i :: 0 <= i < |argv| ==> argv[i] !in Subcommands
    ensures Route(argv, parsed, burrow) == Banner
  {
  }

  /** A help flag next to a subcommand name is left to argparse. */
  lemma RouteSubcommandHelp(argv: seq<string>, parsed: Parsed, burrow: Option<string>)
    requires exists i :: 0 <= i < |argv| && argv[i] in Subcommands
    ensures Route(argv, parsed, burrow) != Banner
  {
  }

  /** A subcommand runs the same way inside and outside a session. */
  lemma RouteDirect(argv: seq<string>, c: Command, b1: Option<string>, b2: Option<string>)
    requires !IsTopLevelHelp(argv)
    ensures Route(argv, Args(Some(c)), b1) == Route(argv, Args(Some(c)), b2) == Direct(c)
  {
  }

  /** Without a subcommand, the marker alone decides between the notice and a new session. */
  lemma RouteNoSubcommand(argv: seq<string>, burrow: Option<string>)
    requires !IsTopLevelHelp(argv)
    ensures Route(argv, Args(None), burrow) == NestedNotice <==> burrow == Some("1")
    ensures Route(argv, Args(None), burrow) == EnterBurrow <==> burrow != Some("1")
  {
  }

  // ---------------------------------------------------------- the host

  /** What main reads from its process: the working directory, the home
      directory, the platform and the SHELL, FILEBUNNY_BURROW and
      FILEBUNNY_ORIGIN variables. */
  datatype Host = Host(
    realCwd: Path,
    home: string,
    windows: bool,
    shell: Option<string>,
    burrow: Option<string>,
    origin: Option<string>)

  /** A line main writes to stdout. */
  datatype Line =
    | Text(text: string)
    | BannerArt
    | Listing(root: string, rows: seq<Peek.Entry>)

  /** An exception main lets escape. */
  datatype Fault = ReadFault(read: ReadError) | OsFault(failure: FS.Failure)

  datatype ShellKind = PowerShell | Bash(program: string) | PlainShell(program: string)

  /** A session shell as started: its kind, its working directory and the two
      variables it sees. */
  datatype Launch = Launch(kind: ShellKind, cwd: Path, burrow: Option<string>, origin: Option<string>)

  /** How one run of main ends: with output and an exit code, with an escaping
      exception, or by starting a session shell. */
  datatype Run =
    | Exit(stdout: seq<Line>, stderr: seq<string>, code: int)
    | Raised(fault: Fault)
    | Session(launch: Launch)

  const NestedMessage := "Already inside a filebunny burrow. Use 'leave' to exit."

  predicate EndsWith(s: string, suffix: string)
  {
    |suffix| <= |s| && s[|s| - |suffix|..] == suffix
  }

  /** powershell on Windows; otherwise $SHELL (or /bin/sh), with helpers only for bash. */
  function ShellFor(host: Host): ShellKind
  {
    if host.windows then PowerShell
    else
      var sh := if host.shell == None || host.shell == Some("") then "/bin/sh" else host.shell.value;
      if EndsWith(sh, "bash") then Bash(sh) else PlainShell(sh)
  }

  /** Which launcher starts the session shell: the one main has, or the one it
      evidently means (see NestedSessionAsWritten and NoNestedSession). */
  datatype Marking = AsWritten | Corrected

  /** FILEBUNNY_BURROW in the session shell. The PowerShell command and the
      bash rc file set it; as written, any other shell inherits the caller's
      environment, where the guard has just seen it is not "1". Corrected,
      every session is marked. */
  function ChildMarker(marking: Marking, kind: ShellKind, host: Host): Option<string>
  {
    if marking == AsWritten && kind.PlainShell? then host.burrow else Some("1")
  }

  /** FILEBUNNY_ORIGIN in the session shell: dest where the launcher exports it. */
  function ChildOrigin(kind: ShellKind, host: Host, dest: string): Option<string>
  {
    if kind.PlainShell? then host.origin else Some(dest)
  }

  /** The session entry once dest = fm.spot() is known: PowerShell starts where
      it was launched and moves to dest with Set-Location; the other shells are
      started with cwd=dest, which must be an existing directory (the error
      names dest as given). */
  function SessionLaunch(host: Host, dest: string, fs: FS.Fs, marking: Marking): Run
  {
    var kind := ShellFor(host);
    var target := Resolve(Parse(dest), host.realCwd);
    var launch := Launch(kind, target, ChildMarker(marking, kind, host), ChildOrigin(kind, host, dest));
    if kind.PowerShell? then
      Session(launch.(cwd := if FS.IsDirAt(fs, target) then target else host.realCwd))
    else if FS.IsDirAt(fs, target) then Session(launch)
    else
      var failure := FS.OsErrorNamed(if target in fs then FS.NotADirectory else FS.MissingKind(fs, target), dest);
      Exit([], ["burrow error: " + failure.message], 1)
  }

  /** Session entry from the persisted record: a record that cannot be read
      escapes before any shell starts; otherwise a shell starts unless it is
      not PowerShell and the persisted spot is not a directory, in which case
      main prints one burrow error and exits with 1. */
  function SessionEntry(rec: Record, fs: FS.Fs, host: Host, marking: Marking): (r: Run)
    ensures r.Raised? <==> Manager.StartCwd(rec, host.realCwd).Err? || CwdGone(rec, fs, host)
    ensures Manager.StartCwd(rec, host.realCwd).Err? ==> r == Raised(ReadFault(Manager.StartCwd(rec, host.realCwd).error))
    ensures CwdGone(rec, fs, host) ==> r == Raised(OsFault(FS.OsErrorBare(FS.NotFound)))
    ensures r.Session? <==>
      && Manager.StartCwd(rec, host.realCwd).Ok? && !CwdGone(rec, fs, host)
      && (ShellFor(host).PowerShell? || FS.IsDirAt(fs, Resolve(Manager.StartCwd(rec, host.realCwd).value, host.realCwd)))
    ensures r.Exit? ==>
      var cwd := Manager.StartCwd(rec, host.realCwd).value;
      var t := Resolve(cwd, host.realCwd);
      var kind := if t in fs then FS.NotADirectory else FS.MissingKind(fs, t);
      (r.stdout == [] && r.code == 1 && r.stderr == ["burrow error: " + FS.OsErrorNamed(kind, Show(cwd)).message])
  {
    if CwdGone(rec, fs, host) then Raised(OsFault(FS.OsErrorBare(FS.NotFound)))
    else
      match Manager.StartCwd(rec, host.realCwd)
      case Err(e) => Raised(ReadFault(e))
      case Ok(cwd) => ParseShow(cwd); SessionLaunch(host, Show(cwd), fs, marking)
  }

  /** Reading the record needs Path.cwd(), and the process's directory is gone:
      the read raises FileNotFoundError before the manager exists. */
  predicate CwdGone(rec: Record, fs: FS.Fs, host: Host)
  {
    ReadsCwd(rec) && !FS.IsDirAt(fs, host.realCwd)
  }

  /** A started session begins in the persisted spot, remembers it as the
      origin (except in a plain shell, which gets no helpers), and is marked,
      except, as written, a plain shell. */
  lemma SessionEntrySpec(rec: Record, fs: FS.Fs, host: Host, marking: Marking)
    requires SessionEntry(rec, fs, host, marking).Session?
    ensures var launch := SessionEntry(rec, fs, host, marking).launch;
      var cwd := Manager.StartCwd(rec, host.realCwd).value;
      && (marking == Corrected || !launch.kind.PlainShell? ==> launch.burrow == Some("1"))
      && (marking == AsWritten && launch.kind.PlainShell? ==> launch.burrow == host.burrow)
      && launch.kind == ShellFor(host)
      && (!launch.kind.PlainShell? ==> launch.origin == Some(Show(cwd)))
      && (!launch.kind.PowerShell? ==> launch.cwd == Resolve(cwd, host.realCwd))
      && (FS.IsDirAt(fs, Resolve(cwd, host.realCwd)) ==> launch.cwd == Resolve(cwd, host.realCwd))
  {
    var cwd := Manager.StartCwd(rec, host.realCwd).value;
    ParseShow(cwd);
  }

  /** Inside a corrected session, running filebunny with no subcommand only
      prints the notice. */
  lemma NoNestedSession(rec: Record, fs: FS.Fs, host: Host, argv: seq<string>)
    requires SessionEntry(rec, fs, host, Corrected).Session? && !IsTopLevelHelp(argv)
    ensures Route(argv, Args(None), SessionEntry(rec, fs, host, Corrected).launch.burrow) == NestedNotice
  {
    SessionEntrySpec(rec, fs, host, Corrected);
  }

  /** As written, a zsh session entered from outside any session is not
      marked, so filebunny with no subcommand inside it enters a second,
      nested session. */
  lemma NestedSessionAsWritten(rec: Record, fs: FS.Fs, host: Host)
    requires !host.windows && host.shell == Some("/bin/zsh") && host.burrow == None
    requires SessionEntry(rec, fs, host, AsWritten).Session?
    ensures Route([], Args(None), host.burrow) == EnterBurrow
    ensures Route([], Args(None), SessionEntry(rec, fs, host, AsWritten).launch.burrow) == EnterBurrow
  {
    assert "/bin/zsh"[8 - 4..] == "/zsh";
    SessionEntrySpec(rec, fs, host, AsWritten);
  }

  // ---------------------------------------------------------- direct mode

  /** The named file as a subcommand sees it from the process's directory. */
  function Arg(host: Host, a: string): Path
  {
    Manager.Target(AsSpec(host.realCwd), a, host.realCwd)
  }

  /** A copy, move, bury or rename: on success the message, on failure the
      exception escapes and nothing changed. */
  predicate FileOpOutcome(fs0: FS.Fs, res: Result<FS.Fs, FS.Failure>, fs1: FS.Fs, message: string, r: Run)
  {
    match res
    case Ok(g) => fs1 == g && r == Exit([Text(message)], [], 0)
    case Err(e) => fs1 == fs0 && r == Raised(OsFault(e))
  }

  /** A dig or carrot: on success the path, on failure "<cmd> error: ..." and exit 1. */
  predicate MakeOutcome(fs0: FS.Fs, res: Result<FS.Fs, FS.Failure>, fs1: FS.Fs, t: Path, prefix: string, r: Run)
  {
    match res
    case Ok(g) => fs1 == g && r == Exit([Text(ShowPath(t))], [], 0)
    case Err(e) => fs1 == fs0 && r == Exit([], [prefix + e.message], 1)
  }

  /** The peek entry for a name in dir. */
  function EntryOf(fs: FS.Fs, dir: Path, name: string): Peek.Entry
  {
    Peek.Entry(name, FS.IsDirAt(fs, dir + [name]))
  }

  /** peek: each of the directory's entries once, with --all's filter,
      directories first, then by lower-cased name; a missing or non-directory
      root raises. */
  ghost predicate PeekOutcome(fs: FS.Fs, root: Path, all: bool, r: Run)
  {
    if root !in fs then r == Raised(OsFault(FS.OsError(FS.MissingKind(fs, root), root)))
    else if !FS.IsDirAt(fs, root) then r == Raised(OsFault(FS.OsError(FS.NotADirectory, root)))
    else
      && r.Exit? && r.code == 0 && r.stderr == [] && |r.stdout| == 1
      && r.stdout[0].Listing? && r.stdout[0].root == ShowPath(root)
      && Peek.Sorted(r.stdout[0].rows)
      && (forall e :: e in r.stdout[0].rows <==>
            e.name in FS.ChildNames(fs, root) && e == EntryOf(fs, root, e.name) && (all || !Peek.IsHidden(e.name)))
      && (forall i, j :: 0 <= i < j < |r.stdout[0].rows| ==> r.stdout[0].rows[i].name != r.stdout[0].rows[j].name)
  }

  /** What a subcommand does, run from the process's directory whatever the
      persisted spot is: before and after the disk (fs0, fs1) and the storage
      files (st0, st1), and the run's end r. */
  ghost predicate DirectOutcome(cmd: Command, host: Host, fs0: FS.Fs, fs1: FS.Fs, st0: Files, st1: Files, r: Run)
  {
    match cmd
    case SpotCmd => fs1 == fs0 && st1 == st0 && r == Exit([Text(ShowPath(host.realCwd))], [], 0)
    case HopCmd(path) =>
      var t := Manager.HopTarget(AsSpec(host.realCwd), path, host.home, host.realCwd);
      && fs1 == fs0
      && if FS.IsDirAt(fs0, t) then
           st1 == Files(Encode(State(ShowPath(t))), Absent) && r == Exit([Text(ShowPath(t))], [], 0)
         else
           var message := if t in fs0 then "not a directory: " else "path does not exist: ";
           st1 == st0 && r == Exit([], ["hop error: " + (message + ShowPath(t))], 1)
    case PeekCmd(all) => fs1 == fs0 && st1 == st0 && PeekOutcome(fs0, host.realCwd, all, r)
    case CopyCmd(src, dst) =>
      st1 == st0 && FileOpOutcome(fs0, FS.Copy(fs0, Arg(host, src), Arg(host, dst)), fs1, "Copied " + src + " to " + dst, r)
    case MoveCmd(src, dst) =>
      st1 == st0 && FileOpOutcome(fs0, FS.Move(fs0, Arg(host, src), Arg(host, dst)), fs1, "Moved " + src + " to " + dst, r)
    case BuryCmd(path) =>
      st1 == st0 && FileOpOutcome(fs0, FS.Bury(fs0, Arg(host, path)), fs1, "Buried " + path, r)
    case RenameCmd(src, dst) =>
      st1 == st0 && FileOpOutcome(fs0, FS.Rename(fs0, Arg(host, src), Arg(host, dst)), fs1, "Renamed " + src + " to " + dst, r)
    case DigCmd(path) =>
      st1 == st0 && MakeOutcome(fs0, FS.MakeDirs(fs0, Arg(host, path)), fs1, Arg(host, path), "dig error: ", r)
    case CarrotCmd(path) =>
      st1 == st0 && MakeOutcome(fs0, FS.Touch(fs0, Arg(host, path)), fs1, Arg(host, path), "carrot error: ", r)
  }

  /** The entries of a listing, in the order listed. */
  function EntriesOf(fs: FS.Fs, dir: Path, names: seq<string>): (es: seq<Peek.Entry>)
    ensures |es| == |names|
    ensures forall i :: 0 <= i < |names| ==> es[i] == EntryOf(fs, dir, names[i])
  {
    if names == [] then [] else [EntryOf(fs, dir, names[0])] + EntriesOf(fs, dir, names[1..])
  }

  /** The match in main, on a manager whose cwd was set to the process's directory. */
  method Dispatch(fm: Manager.FileManager, cmd: Command, host: Host) returns (r: Run)
    requires fm.Valid() && fm.disk.Valid() && IsResolved(host.realCwd)
    requires fm.cwd == AsSpec(host.realCwd)
    modifies fm, fm.storage, fm.disk
    ensures fm.disk.Valid()
    ensures DirectOutcome(cmd, host, old(fm.disk.nodes), fm.disk.nodes,
      old(Files(fm.storage.record, fm.storage.tmp)), Files(fm.storage.record, fm.storage.tmp), r)
  {
    var root := host.realCwd;
    NormalizeNames([], root);
    assert [] + root == root;
    match cmd {
      case SpotCmd =>
        r := Exit([Text(fm.Spot())], [], 0);
      case HopCmd(path) =>
        var res := fm.Hop(path, host.home, host.realCwd);
        r := if res.Ok? then Exit([Text(res.value)], [], 0) else Exit([], ["hop error: " + res.error.message], 1);
      case PeekCmd(all) =>
        var listed := fm.List(host.realCwd);
        if listed.Err? {
          r := Raised(OsFault(listed.error));
        } else {
          var names := listed.value;
          var rows := Peek.PeekRows(EntriesOf(fm.disk.nodes, root, names), all);
          r := Exit([Listing(fm.Spot(), rows)], [], 0);
          PeekListing(fm.disk.nodes, root, names, all);
        }
      case CopyCmd(src, dst) =>
        var res := fm.Copy(src, dst, host.realCwd);
        r := if res.Pass? then Exit([Text("Copied " + src + " to " + dst)], [], 0) else Raised(OsFault(res.error));
      case MoveCmd(src, dst) =>
        var res := fm.Move(src, dst, host.realCwd);
        r := if res.Pass? then Exit([Text("Moved " + src + " to " + dst)], [], 0) else Raised(OsFault(res.error));
      case BuryCmd(path) =>
        var res := fm.Delete(path, host.realCwd);
        r := if res.Pass? then Exit([Text("Buried " + path)], [], 0) else Raised(OsFault(res.error));
      case RenameCmd(src, dst) =>
        var res := fm.Rename(src, dst, host.realCwd);
        r := if res.Pass? then Exit([Text("Renamed " + src + " to " + dst)], [], 0) else Raised(OsFault(res.error));
      case DigCmd(path) =>
        var res := fm.Dig(path, host.realCwd);
        r := if res.Ok? then Exit([Text(res.value)], [], 0) else Exit([], ["dig error: " + res.error.message], 1);
      case CarrotCmd(path) =>
        var res := fm.Carrot(path, host.realCwd);
        r := if res.Ok? then Exit([Text(res.value)], [], 0) else Exit([], ["carrot error: " + res.error.message], 1);
    }
  }

  /** The entries of a listing are the entries of its names. */
  lemma EntriesOfMembers(fs: FS.Fs, dir: Path, names: seq<string>)
    ensures forall e :: e in EntriesOf(fs, dir, names) <==> e.name in names && e == EntryOf(fs, dir, e.name)
  {
    var es := EntriesOf(fs, dir, names);
    forall e ensures e in es <==> e.name in names && e == EntryOf(fs, dir, e.name) {
      if e in es {
        var i :| 0 <= i < |es| && es[i] == e;
        assert names[i] in names;
      }
      if e.name in names && e == EntryOf(fs, dir, e.name) {
        var i :| 0 <= i < |names| && names[i] == e.name;
        assert es[i] == e;
      }
    }
  }

  /** A listing without repeated names gives each entry at most once. */
  lemma {:induction false} EntriesOfOnce(fs: FS.Fs, dir: Path, names: seq<string>)
    requires FS.NoDuplicates(names)
    ensures forall e :: multiset(EntriesOf(fs, dir, names))[e] <= 1
  {
    if names != [] {
      var rest := names[1..];
      assert FS.NoDuplicates(rest) by {
        forall i, j | 0 <= i < j < |rest| ensures rest[i] != rest[j] {
          assert rest[i] == names[i + 1] && rest[j] == names[j + 1];
        }
      }
      EntriesOfOnce(fs, dir, rest);
      EntriesOfMembers(fs, dir, rest);
      assert names[0] !in rest by {
        forall i | 0 <= i < |rest| ensures rest[i] != names[0] {
          assert rest[i] == names[i + 1];
        }
      }
      assert EntriesOf(fs, dir, names) == [EntryOf(fs, dir, names[0])] + EntriesOf(fs, dir, rest);
    }
  }

  /** The peek rows built from a complete listing of distinct names meet
      PeekOutcome: ordered, each visible child once. */
  lemma PeekListing(fs: FS.Fs, root: Path, names: seq<string>, all: bool)
    requires FS.IsDirAt(fs, root) && FS.NoDuplicates(names)
    requires forall n :: n in names <==> n in FS.ChildNames(fs, root)
    ensures var rows := Peek.PeekRows(EntriesOf(fs, root, names), all);
      && Peek.Sorted(rows)
      && (forall e :: e in rows <==>
            e.name in FS.ChildNames(fs, root) && e == EntryOf(fs, root, e.name) && (all || !Peek.IsHidden(e.name)))
      && (forall i, j :: 0 <= i < j < |rows| ==> rows[i].name != rows[j].name)
  {
    var es := EntriesOf(fs, root, names);
    var rows := Peek.PeekRows(es, all);
    Peek.PeekRowsSpec(es, all);
    EntriesOfMembers(fs, root, names);
    forall e ensures e in rows <==> e in es && (all || !Peek.IsHidden(e.name)) {
      assert e in rows <==> multiset(rows)[e] > 0;
      assert e in es <==> multiset(es)[e] > 0;
    }
    EntriesOfOnce(fs, root, names);
    Peek.AtMostOnce(rows);
    forall i, j | 0 <= i < j < |rows| ensures rows[i].name != rows[j].name {
      assert rows[i] in rows && rows[j] in rows;
    }
  }

  // ---------------------------------------------------------------- main

  /** main(): nothing but a run that hops, or a subcommand that changes files,
      writes the storage or the disk; a subcommand runs from the process's
      directory, never from the persisted spot. marking chooses the session
      launcher as written or corrected; the sessions below use the corrected one. */
  method EntryPoint(argv: seq<string>, parsed: Parsed, host: Host, marking: Marking, storage: Store, disk: FS.Disk) returns (r: Run)
    requires disk.Valid() && IsResolved(host.realCwd)
    modifies storage, disk
    ensures disk.Valid()
    ensures var mode := Route(argv, parsed, host.burrow);
      && (mode == Banner ==> r == Exit([BannerArt], [], 0) && unchanged(storage, disk))
      && (mode.ArgparseExit? ==> r == Exit([], [], mode.code) && unchanged(storage, disk))
      && (mode == NestedNotice ==> r == Exit([Text(NestedMessage)], [], 0) && unchanged(storage, disk))
      && (mode == EnterBurrow ==> r == SessionEntry(old(storage.record), old(disk.nodes), host, marking) && unchanged(storage, disk))
      && (mode.Direct? && Manager.StartCwd(old(storage.record), host.realCwd).Err? ==>
            r == Raised(ReadFault(Manager.StartCwd(old(storage.record), host.realCwd).error)) && unchanged(storage, disk))
      && (mode.Direct? && Manager.StartCwd(old(storage.record), host.realCwd).Ok? && !FS.IsDirAt(old(disk.nodes), host.realCwd) ==>
            r == Raised(OsFault(FS.OsErrorBare(FS.NotFound))) && unchanged(storage, disk))
      && (mode.Direct? && Manager.StartCwd(old(storage.record), host.realCwd).Ok? && FS.IsDirAt(old(disk.nodes), host.realCwd) ==>
            DirectOutcome(mode.cmd, host, old(disk.nodes), disk.nodes,
              old(Files(storage.record, storage.tmp)), Files(storage.record, storage.tmp), r))
  {
    var mode := Route(argv, parsed, host.burrow);
    match mode {
      case Banner =>
        r := Exit([BannerArt], [], 0);
      case ArgparseExit(code) =>
        r := Exit([], [], code);
      case NestedNotice =>
        r := Exit([Text(NestedMessage)], [], 0);
      case EnterBurrow =>
        var made := Manager.FileManager.Open(storage, disk, host.realCwd);
        if CwdGone(storage.record, disk.nodes, host) {
          r := Raised(OsFault(FS.OsErrorBare(FS.NotFound)));
        } else if made.Err? {
          r := Raised(ReadFault(made.error));
        } else {
          var dest := made.value.Spot();
          r := SessionLaunch(host, dest, disk.nodes, marking);
        }
      case Direct(cmd) =>
        var made := Manager.FileManager.Open(storage, disk, host.realCwd);
        if made.Err? {
          r := Raised(ReadFault(made.error));
        } else if !FS.IsDirAt(disk.nodes, host.realCwd) {
          // Path.cwd(), in read() or in fm.cwd = Path.cwd()
          r := Raised(OsFault(FS.OsErrorBare(FS.NotFound)));
        } else {
          var fm := made.value;
          fm.cwd := AsSpec(host.realCwd);
          ResolvedParts(host.realCwd);
          r := Dispatch(fm, cmd, host);
        }
    }
  }

  // ------------------------------------------------------------ a session

  /** A running session shell with its helper functions: the directory the
      shell is in, and the variables main exported to it. */
  class Burrow {
    const storage: Store
    const disk: FS.Disk
    /** The environment main ran in when it started the session. */
    const host: Host
    /** FILEBUNNY_BURROW and FILEBUNNY_ORIGIN as the shell sees them. */
    const marker: Option<string>
    const origin: Option<string>
    var shellCwd: Path
    var open: bool

    ghost predicate Valid()
      reads this
    {
      IsResolved(shellCwd)
    }

    constructor (storage: Store, disk: FS.Disk, host: Host, launch: Launch)
      requires IsResolved(launch.cwd)
      ensures Valid() && open
      ensures this.storage == storage && this.disk == disk && this.host == host
      ensures marker == launch.burrow && origin == launch.origin && shellCwd == launch.cwd
    {
      this.storage := storage;
      this.disk := disk;
      this.host := host;
      marker := launch.burrow;
      origin := launch.origin;
      shellCwd := launch.cwd;
      open := true;
    }

    /** The environment of a filebunny run from the session's prompt. */
    function Env(): Host
      reads this
    {
      host.(realCwd := shellCwd, burrow := marker, origin := origin)
    }

    /** filebunny with arguments, typed at the prompt or forwarded by a helper. */
    method Invoke(argv: seq<string>, parsed: Parsed) returns (r: Run)
      requires Valid() && disk.Valid()
      modifies storage, disk
      ensures disk.Valid()
      ensures marker == Some("1") && parsed == Args(None) && !IsTopLevelHelp(argv) ==>
        r == Exit([Text(NestedMessage)], [], 0) && unchanged(storage, disk)
      ensures parsed.Args? && parsed.cmd.Some? && !IsTopLevelHelp(argv)
              && Manager.StartCwd(old(storage.record), shellCwd).Err? ==>
        r == Raised(ReadFault(Manager.StartCwd(old(storage.record), shellCwd).error)) && unchanged(storage, disk)
      ensures parsed.Args? && parsed.cmd.Some? && !IsTopLevelHelp(argv)
              && Manager.StartCwd(old(storage.record), shellCwd).Ok? && !FS.IsDirAt(old(disk.nodes), shellCwd) ==>
        r == Raised(OsFault(FS.OsErrorBare(FS.NotFound))) && unchanged(storage, disk)
      ensures parsed.Args? && parsed.cmd.Some? && !IsTopLevelHelp(argv)
              && Manager.StartCwd(old(storage.record), shellCwd).Ok? && FS.IsDirAt(old(disk.nodes), shellCwd) ==>
        DirectOutcome(parsed.cmd.value, Env(), old(disk.nodes), disk.nodes,
          old(Files(storage.record, storage.tmp)), Files(storage.record, storage.tmp), r)
    {
      r := EntryPoint(argv, parsed, Env(), Corrected, storage, disk);
    }

    /** The hop helper: runs filebunny hop and changes the shell's directory
        to the printed path when it is an existing directory. */
    method Hop(path: Option<string>)
      requires Valid() && disk.Valid()
      modifies this, storage, disk
      ensures Valid() && disk.Valid() && disk.nodes == old(disk.nodes) && open == old(open)
      ensures var t := Manager.HopTarget(AsSpec(old(shellCwd)), path, host.home, old(shellCwd));
        Manager.StartCwd(old(storage.record), old(shellCwd)).Ok? ==>
          if FS.IsDirAt(disk.nodes, old(shellCwd)) && FS.IsDirAt(disk.nodes, t) then
            shellCwd == t && storage.record == Encode(State(ShowPath(shellCwd))) && storage.tmp == Absent
          else
            shellCwd == old(shellCwd) && storage.record == old(storage.record) && storage.tmp == old(storage.tmp)
      ensures Manager.StartCwd(old(storage.record), old(shellCwd)).Err? ==> shellCwd == old(shellCwd) && unchanged(storage)
    {
      var r := RunHop(path, Env(), storage, disk);
      if r.Exit? && |r.stdout| == 1 && r.stdout[0].Text? {
        var dest := r.stdout[0].text;
        var t := Resolve(Parse(dest), shellCwd);
        var h := Manager.HopTarget(AsSpec(shellCwd), path, host.home, shellCwd);
        if dest == ShowPath(h) {
          ResolveShown(h, AsSpec([]), shellCwd);
        }
        if dest != "" && FS.IsDirAt(disk.nodes, t) {
          shellCwd := t;
        }
      }
    }

    /** leave [-d]: with -d, hop back to the origin first; the shell exits with
        the status of its last command. */
    method Leave(discard: bool) returns (status: int)
      requires Valid() && disk.Valid()
      modifies this, storage, disk
      ensures disk.Valid() && disk.nodes == old(disk.nodes) && !open
      ensures !discard ==> status == 0 && storage.record == old(storage.record) && storage.tmp == old(storage.tmp)
      ensures discard ==>
        var t := Manager.HopTarget(AsSpec(old(shellCwd)), Some(if origin.Some? then origin.value else ""), host.home, old(shellCwd));
        Manager.StartCwd(old(storage.record), old(shellCwd)).Ok? ==>
          if FS.IsDirAt(disk.nodes, old(shellCwd)) && FS.IsDirAt(disk.nodes, t) then
            status == 0 && storage.record == Encode(State(ShowPath(t)))
          else
            status == 1 && storage.record == old(storage.record) && storage.tmp == old(storage.tmp)
      ensures discard && Manager.StartCwd(old(storage.record), old(shellCwd)).Err? ==> status == 1 && unchanged(storage)
    {
      status := 0;
      if discard {
        // An unset FILEBUNNY_ORIGIN expands to "", which hops home.
        var r := RunHop(Some(if origin.Some? then origin.value else ""), Env(), storage, disk);
        status := if r.Exit? then r.code else 1;
      }
      open := false;
    }
  }

  /** filebunny hop [path], as the session helpers run it. */
  method RunHop(path: Option<string>, env: Host, storage: Store, disk: FS.Disk) returns (r: Run)
    requires disk.Valid() && IsResolved(env.realCwd)
    modifies storage, disk
    ensures disk.Valid() && disk.nodes == old(disk.nodes)
    ensures var t := Manager.HopTarget(AsSpec(env.realCwd), path, env.home, env.realCwd);
      Manager.StartCwd(old(storage.record), env.realCwd).Ok? ==>
        if !FS.IsDirAt(disk.nodes, env.realCwd) then
          r == Raised(OsFault(FS.OsErrorBare(FS.NotFound))) && storage.record == old(storage.record) && storage.tmp == old(storage.tmp)
        else if FS.IsDirAt(disk.nodes, t) then
          r == Exit([Text(ShowPath(t))], [], 0) && storage.record == Encode(State(ShowPath(t))) && storage.tmp == Absent
        else
          r.Exit? && r.stdout == [] && r.code == 1 && storage.record == old(storage.record) && storage.tmp == old(storage.tmp)
    ensures Manager.StartCwd(old(storage.record), env.realCwd).Err? ==>
      r == Raised(ReadFault(Manager.StartCwd(old(storage.record), env.realCwd).error)) && unchanged(storage)
  {
    var argv := ["hop"] + (if path.Some? then [path.value] else []);
    assert argv[0] in Subcommands;
    assert Route(argv, Args(Some(HopCmd(path))), env.burrow) == Direct(HopCmd(path));
    r := EntryPoint(argv, Args(Some(HopCmd(path))), env, Corrected, storage, disk);
  }

  /** A session entered after a hop to p remembers p as its origin, and
      leave -d hops back to exactly p from wherever the shell has moved. */
  lemma OriginAfterHop(p: Path, fs: FS.Fs, host: Host, shellCwd: Path)
    requires IsResolved(p)
    requires SessionEntry(Encode(State(ShowPath(p))), fs, host, Corrected).Session?
    requires !ShellFor(host).PlainShell?
    ensures var launch := SessionEntry(Encode(State(ShowPath(p))), fs, host, Corrected).launch;
      && launch.origin == Some(ShowPath(p))
      && Manager.HopTarget(AsSpec(shellCwd), launch.origin, host.home, shellCwd) == p
  {
    Manager.ReopenAfterHop(p, host.realCwd);
    SessionEntrySpec(Encode(State(ShowPath(p))), fs, host, Corrected);
    Manager.HopToPrinted(p, AsSpec(shellCwd), host.home, shellCwd);
  }
}
