# filebunny, modelled in Dafny

filebunny is a small command-line file manager (Python). It keeps one persisted
value, the "spot": the last directory you hopped to. It offers subcommands
(`spot`, `hop`, `peek`, `copy`, `move`, `bury`, `rename`, `dig`, `carrot`). Run
with no subcommand, it opens an interactive sub-shell, the "burrow", whose
helper functions forward to those subcommands.

This project models the core of that program and proves properties of the model:

- `FileManager`: the in-memory working directory, `hop` and how it persists the
  spot, and the file operations it hands to the file system;
- `Storage`: how the spot is read back, with its fallbacks, and how it is
  written through a temporary file and an atomic replace;
- the routing in `main`: top-level help, the guard against nested sessions,
  session entry and its origin, and direct mode, where the process's own
  directory is used instead of the spot. Also the `peek` ordering and filter,
  and the 12-hour `fmt_time`.

Files, in dependency order:

| file | module | contents |
|---|---|---|
| wrappers.dfy | Wrappers | `Option`, `Result`, `Outcome` |
| decimal.dfy | Decimal | `f"{n}"` and `f"{n:02d}"`, and reading digits back |
| paths.dfy | Paths | pathlib's parsing, `str()`, the `/` join and lexical `resolve()` |
| filesystem.dfy | FileSystem | the disk as `map<Path, Node>`; mkdir -p, touch, rmtree/unlink, rename, move, copy2/copytree, iterdir; the errors they raise |
| storage.dfy | Storage | `State`, the record file, `read`, the `Store` class and its `Write` |
| manager.dfy | Manager | the `FileManager` class |
| peek.dfy | Peek | the sort key, the dot filter, `fmt_time` and a reader for its output |
| cli.dfy | Cli | `Route`, session entry, direct dispatch, `EntryPoint` (Python's `main`) and the `Burrow` session class |

Inputs from outside the program are parameters:

- `realCwd`: the process's working directory, `Path.cwd()`, which may have been removed from the disk (then `Path.cwd()` raises FileNotFoundError);
- `home`: the home directory;
- `Host`: the platform, `$SHELL` and the two `FILEBUNNY_*` variables;
- `Parsed`: what argparse returned.

The disk is a `Disk` object whose `nodes` map the methods reassign. The records
on disk are a `Store` object whose `record` and `tmp` fields `Write` updates in
place.

## Model

| member | source | states |
|---|---|---|
| Paths.Parse | src/filebunny/manager.py:27 | `Path(s)` yields parts that are non-empty, free of `/` and not `.` |
| Paths.ParseShow | src/filebunny/manager.py:16-20 | parsing `str(p)` gives `p` back, so `Path(str(cwd)) == cwd` |
| Paths.Resolve | src/filebunny/manager.py:28 | resolving a well-formed path from a resolved working directory gives a resolved path (no `.`, `..` or empty part) |
| Paths.ResolveAbsolute | src/filebunny/manager.py:28 | an anchored right operand of `/` resolves the same way whatever the left operand |
| Paths.ResolveRelative | src/filebunny/manager.py:28 | `(base / p).resolve()` for a relative `p` walks `p`'s parts from where `base` resolves |
| Paths.ResolveShown | src/filebunny/manager.py:33-35 | the printed form of a resolved path parses to it and resolves to it again from any base |
| Decimal.Digits | src/filebunny/cli.py:388 | `f"{n}"` is a non-empty digit string with no leading zero, one character exactly when `n < 10` |
| Decimal.ValueOfDigits | src/filebunny/cli.py:388 | the digits of `n` denote `n` |
| Decimal.Pad2 | src/filebunny/cli.py:388 | `f"{minute:02d}"` is exactly two digits |
| Decimal.ValueOfPad2 | src/filebunny/cli.py:388 | the two padded digits denote the minute |
| FileSystem.MakeDirsSpec | src/filebunny/manager.py:93 | `mkdir(parents=True, exist_ok=True)` succeeds iff no existing prefix is a file; it then makes every prefix a directory, keeps every old entry, adds only prefixes, and the tree stays well formed |
| FileSystem.MakeDirsIdempotent | src/filebunny/manager.py:93 | a second mkdir -p of the same path changes nothing |
| FileSystem.TouchSpec | src/filebunny/manager.py:103-104 | touch succeeds iff the parent path is clear; it makes the parents, creates an empty file only when nothing is there, and keeps an existing entry's content |
| FileSystem.TouchIdempotent | src/filebunny/manager.py:103-104 | a second touch changes nothing, so no truncation |
| FileSystem.BurySpec | src/filebunny/manager.py:74-78 | delete succeeds iff the target exists and is not `/`; a missing target raises FileNotFoundError, or NotADirectoryError when a file stands on its path; exactly the target and what lies below it are removed |
| FileSystem.RenameSpec | src/filebunny/manager.py:85 | after a rename nothing remains at or below the source, its whole tree is at the destination, and every entry outside both trees is unchanged |
| FileSystem.RenameOntoItself | src/filebunny/manager.py:85 | renaming a path onto itself succeeds iff the path exists and is not `/`, and then changes nothing |
| FileSystem.MoveSpec | src/filebunny/manager.py:65-67 | a move into an existing directory lands at `dir/basename`. Whether os.rename moved it or the copy fallback did, nothing remains at or below the source, its tree is at the destination, entries outside both trees are unchanged, and only the destination's tree and its missing ancestors are new. A move onto itself changes nothing |
| FileSystem.MoveTreeByCopySpec | src/filebunny/manager.py:67 | the fallback for a directory: copytree to the destination, which lies neither inside nor above the source, then rmtree of the source |
| FileSystem.MoveFileByCopySpec | src/filebunny/manager.py:67 | the fallback for anything else: copy2 writes the destination, then the source is unlinked |
| FileSystem.MoveTreeMakesParents | src/filebunny/manager.py:67 | a directory moved to a path with missing ancestors arrives: os.rename fails and copytree creates them |
| FileSystem.MoveFileNeedsParent | src/filebunny/manager.py:67 | a file moved below a parent that is not a directory fails with copy2's error, which names the destination only |
| FileSystem.CopyTreeGraftSpec | src/filebunny/manager.py:57-58 | copytree creates the missing ancestors of the destination and copies the source tree below it, keeping every old entry |
| FileSystem.CopyTreeBlockedByFile | src/filebunny/manager.py:57-58 | a file on the destination's path makes copytree fail in os.makedirs with NotADirectoryError naming the destination, even for a destination inside the source |
| FileSystem.CopyFileSpec | src/filebunny/manager.py:59-60 | copy2 of a file sets the destination (or `dir/basename`) to the source's content |
| FileSystem.CopySpec | src/filebunny/manager.py:54-60 | after copy the destination holds the source's tree, old entries other than the destination are unchanged, and new entries lie on the destination's path |
| FileSystem.IterDir | src/filebunny/manager.py:49 | iterdir lists each child name exactly once; a missing directory raises FileNotFoundError (NotADirectoryError when a file stands on its path), a file raises NotADirectoryError, with their OS messages |
| Storage.ReadAfterWrite | src/filebunny/storage.py:29-37 | what `write(State(s))` stores reads back as `State(s)` |
| Storage.DecodeCases | src/filebunny/storage.py:23-31 | a missing file and invalid JSON fall back to the working directory; undecodable bytes and JSON of the wrong shape raise, and only they do |
| Storage.WriteIsAtomic | src/filebunny/storage.py:33-37 | every state the files pass through during a write reads as the old state or the new one, never a partial file; the last one reads as the state written |
| Storage.LastWriteWins | src/filebunny/storage.py:33-37 | a second write leaves exactly what that write alone leaves, whatever was there before |
| Storage.Store.Write | src/filebunny/storage.py:33-37 | the files pass through the states of `WriteSteps`, each appended to `history`; at every one of them a reader gets the old state or the new one; then `spot.json` is the new record, `spot.tmp` is gone, and every read gives the state written |
| Manager.HopTarget | src/filebunny/manager.py:27-28 | the hop target is fully resolved when the working directory is |
| Manager.FileManager.Open | src/filebunny/manager.py:13-16 | construction reads storage; a read that raises aborts it, otherwise `cwd` is `Path(state.last_spot)` |
| Manager.FileManager.Spot | src/filebunny/manager.py:40-42 | `spot()` is text that parses back to the working directory |
| Manager.FileManager.Persist | src/filebunny/manager.py:18-20 | `_persist` writes `State(str(cwd))` |
| Manager.FileManager.Hop | src/filebunny/manager.py:25-35 | on an existing directory: `cwd` becomes the target, the target is persisted, and the text returned is what `spot()` then returns. Otherwise FileNotFoundError or NotADirectoryError with the source's message, with `cwd` and storage unchanged |
| Manager.FileManager.List | src/filebunny/manager.py:47-49 | the names in the working directory, each once, or the error iterdir raises |
| Manager.FileManager.Copy | src/filebunny/manager.py:54-60 | the disk becomes the result of copy, or stays unchanged when copy raises; `cwd` and storage are not touched |
| Manager.FileManager.Move | src/filebunny/manager.py:65-67 | the same for shutil.move, with its copy fallback |
| Manager.FileManager.Delete | src/filebunny/manager.py:72-78 | the same for rmtree or unlink of the resolved target |
| Manager.FileManager.Rename | src/filebunny/manager.py:83-85 | the same for Path.rename |
| Manager.FileManager.Dig | src/filebunny/manager.py:90-94 | on success every prefix of the target is a directory and its text is returned; on failure the disk is unchanged |
| Manager.FileManager.Carrot | src/filebunny/manager.py:99-105 | on success the target exists, keeps any old content, and its text is returned; on failure the disk is unchanged |
| Manager.ReopenAfterHop | src/filebunny/manager.py:13-20 | a new manager over the record a hop wrote starts at the hopped-to directory |
| Manager.HopHome | src/filebunny/manager.py:27 | `hop()` and `hop("")` both target home |
| Manager.HopAbsolute | src/filebunny/manager.py:28 | an absolute path lands in the same place from any working directory |
| Manager.HopRelative | src/filebunny/manager.py:28 | a relative path is walked from the resolved working directory |
| Manager.HopToPrinted | src/filebunny/manager.py:33-35 | hopping to the text a hop returned lands on the same directory from anywhere |
| Manager.DigIdempotent | src/filebunny/manager.py:90-94 | dig of an existing directory succeeds and changes nothing |
| Manager.CarrotIdempotent | src/filebunny/manager.py:99-105 | carrot on an existing file changes nothing; it does not truncate |
| Peek.Lower | src/filebunny/cli.py:368 | `name.lower()` keeps the length and lower-cases each letter |
| Peek.StrLeTotal | src/filebunny/cli.py:368 | Python's string order is total |
| Peek.StrLeTrans | src/filebunny/cli.py:368 | Python's string order is transitive |
| Peek.KeyLeTotal | src/filebunny/cli.py:368 | the sort key `(0 if dir else 1, name.lower())` orders any two entries |
| Peek.KeyLeTrans | src/filebunny/cli.py:368 | that order is transitive |
| Peek.Insert | src/filebunny/cli.py:368 | one insertion step adds exactly one entry to the multiset |
| Peek.InsertSorted | src/filebunny/cli.py:368 | inserting into an ordered list keeps it ordered |
| Peek.SortEntries | src/filebunny/cli.py:368 | `sorted` returns a permutation of its input |
| Peek.SortEntriesSorted | src/filebunny/cli.py:368 | `sorted` returns the entries in key order |
| Peek.HideDottedCounts | src/filebunny/cli.py:369-370 | the filter drops exactly the dot-prefixed entries and keeps each other entry as often as before |
| Peek.HideDottedSorted | src/filebunny/cli.py:369-370 | the filter keeps the order |
| Peek.PeekRowsSpec | src/filebunny/cli.py:368-370 | the rows are in key order and are a permutation of the entries, minus the hidden ones without `--all` |
| Peek.DirsFirst | src/filebunny/cli.py:368 | in the listing no file comes before a directory |
| Peek.Hour12 | src/filebunny/cli.py:385 | `hour % 12 or 12` lies in 1..12 and agrees with the hour modulo 12 |
| Peek.Hour12Inverse | src/filebunny/cli.py:385-387 | the 12-hour reading and the marker give the 24-hour hour back; AM exactly when the hour is below 12 |
| Peek.FmtTimeRoundTrip | src/filebunny/cli.py:379-388 | the text `fmt_time` writes reads back as the same month, day, year, hour and minute |
| Cli.AnyIn | src/filebunny/cli.py:139-142 | `any(token in names for token in argv)` holds iff some token is one of the names |
| Cli.RouteBanner | src/filebunny/cli.py:139-151 | `-h` or `--help` with no subcommand name anywhere in argv prints the banner, before argument parsing |
| Cli.RouteSubcommandHelp | src/filebunny/cli.py:142-153 | once a subcommand name appears, the banner is not printed and argparse takes over |
| Cli.RouteDirect | src/filebunny/cli.py:162-166 | a subcommand runs directly, whatever `FILEBUNNY_BURROW` says |
| Cli.RouteNoSubcommand | src/filebunny/cli.py:162-168 | with no subcommand, the notice is printed iff `FILEBUNNY_BURROW == "1"`, and a session is entered otherwise |
| Cli.SessionEntry | src/filebunny/cli.py:168-342 | a session starts iff the record reads, `Path.cwd()` is not needed by a fallback read of a removed directory, and the shell is PowerShell or the spot is a directory. An unreadable record, or such a fallback read, raises out of `main` before any shell starts; otherwise exit 1 with empty stdout and the single stderr line `burrow error: ` followed by the NotADirectoryError, FileNotFoundError or ENOTDIR text naming the spot as persisted |
| Cli.SessionEntrySpec | src/filebunny/cli.py:168-339 | a started session runs the platform's shell and gets the persisted spot as its origin (bash, PowerShell). A non-PowerShell shell starts in the spot; PowerShell moves there when it is a directory. Corrected, every session is marked; as written, a plain shell inherits the caller's `FILEBUNNY_BURROW` |
| Cli.NoNestedSession | src/filebunny/cli.py:162-166 | filebunny with no subcommand inside a (corrected) session only prints the notice |
| Cli.NestedSessionAsWritten | src/filebunny/cli.py:338-339 | as written, a zsh session is unmarked, and filebunny inside it opens a second session |
| Cli.EntriesOfOnce | src/filebunny/cli.py:365-368 | a listing without repeated names yields each entry at most once |
| Cli.PeekListing | src/filebunny/cli.py:365-370 | the peek rows are exactly the visible entries of the directory listing, no name twice, in key order |
| Cli.Dispatch | src/filebunny/cli.py:352-426 | every subcommand meets `DirectOutcome`: the output, stderr text and exit code of each case, the `<cmd> error:` exits of spot/hop/dig/carrot, the escaping exceptions of peek, copy, move, bury and rename, and the new disk and storage |
| Cli.EntryPoint | src/filebunny/cli.py:138-347 | `main` in the order banner, argparse, nested guard, session entry (with the launcher as written or corrected), direct mode. Only direct mode changes disk or storage, and it then resolves from the process's directory, never from the persisted spot. When that directory is gone, direct mode raises FileNotFoundError (from `Path.cwd()`) and changes nothing |
| Cli.Burrow.constructor | src/filebunny/cli.py:249-332 | the session shell keeps its marker, its origin and its starting directory |
| Cli.Burrow.Invoke | src/filebunny/cli.py:162-166 | inside a marked session a bare `filebunny` only prints the notice; subcommands behave as in direct mode from the shell's directory, or raise FileNotFoundError with nothing changed once that directory has been removed; over an unreadable record a subcommand raises that read error with nothing changed |
| Cli.Burrow.Hop | src/filebunny/cli.py:274-284 | the hop helper changes the shell's directory exactly when the hop succeeds (the shell's directory still exists and the target is a directory), to the directory hopped to, and the spot is persisted with no temporary file left; otherwise the directory and the stored record stay as they were, and over an unreadable record the storage is untouched |
| Cli.Burrow.Leave | src/filebunny/cli.py:313-318 | plain `leave` exits and leaves the spot alone; `leave -d` first hops back to the origin and exits with that hop's status: 0 when the hop succeeded and the spot is persisted, 1 otherwise, including over an unreadable record with the storage untouched |
| Cli.RunHop | src/filebunny/cli.py:359-364 | `filebunny hop` prints and persists the target with no temporary file left, or exits 1 with nothing on stdout and storage unchanged; from a removed directory it raises FileNotFoundError, and over an unreadable record it raises the read error, storage unchanged in both |
| Cli.OriginAfterHop | src/filebunny/cli.py:313-326 | a session entered after a hop to `p` has origin `p`, and `leave -d` hops back to exactly `p` from wherever the shell has moved |

## Left out

- Shell-script text: the PowerShell function bodies, the bash rc template and its substitutions, alias removal, the banner echo and the prompt. Only their effect is modelled: the marker, the origin, the starting directory and the `hop`/`leave` helpers.
- Process plumbing is left out: `subprocess.run`, the temporary rc file and its unlink, `platform.system()`, the `$SHELL` lookup and `user_config_dir`. The platform, shell, environment and working directory are parameters (`Host`, `realCwd`, `home`).
- src/filebunny/utils.py is not part of this model. Its logging decorators return or re-raise the wrapped result unchanged. The log-level calls in cli.py and the `-V/--verbose` flag affect only logging.
- Log records written to stderr by the logging decorators are not part of `Run.stderr`. At the default WARNING level, `log_errors` (src/filebunny/utils.py:48-57) writes an `ERROR in <name>: <error>` record to stderr before cli's `hop error:`, `dig error:` or `carrot error:` line, and before an escaping exception; `DirectOutcome` lists only cli's own lines.
- argparse itself: the parser's construction, help and usage text, `--version` and its lookup, and how argv is split into arguments. `Parsed` stands for what `parse_args()` returns or the exit it makes (`ArgparseExit`). The banner is the abstract line `BannerArt`.
- Symlinks: `resolve()` is modelled lexically (`.` and `..` collapse, no link is followed). So is the operating system's resolution of `self.cwd / src` in copy, move and rename.
- Paths: POSIX only. Windows drive letters are not modelled, and neither is pathlib keeping a leading `//`.
- FileSystem.Move: the copy fallback is modelled on one lexical file system. What belongs to real devices and links is not: rename across devices (EXDEV), a symlink source (`os.readlink` and `os.symlink`), and the immutable-file check.
- FileSystem.CopyTree: when a file stands on the destination's path, `os.makedirs` names the first missing component below that file; the model names the destination.
- FileSystem.Bury: `rmtree("/")` is modelled as an EBUSY error, without the partial deletion a real run would do first.
- FileSystem.CopyTree: a copy deeper into a subdirectory of the source that already existed recurses into its own output. It writes partial copies and ends in a `shutil.Error` listing the nested ENAMETOOLONG failures, or in a `RecursionError`. The model replaces all of that with one ENAMETOOLONG error naming the destination and no partial output. Other errors raised midway through a copy are not modelled either.
- File content is an abstract `string`. `copy2` metadata, permissions, sizes and times are not modelled.
- OS error texts follow Linux `strerror` in the `[Errno N] text: 'path'` form, and for os.rename in the `[Errno N] text: 'src' -> 'dst'` form. They show the resolved path, where the source shows `self.cwd / src` as joined. `shutil.SameFileError` and `shutil.Error` use shutil's message templates, with each path shown as a quoted string. manager.copy passes `Path` objects to `shutil.copy2`, so the source's `SameFileError` shows their repr instead: `PosixPath('/w/f') and PosixPath('/w/f') are the same file`, or `PosixPath('/w/f') and '/w/f'` when the destination was a directory.
- Peek.Lower: lower-cases ASCII letters only, not all of Unicode's `str.lower()`.
- Peek rows: `stat`, `datetime.fromtimestamp`, the mode and length columns, the column widths and the `peek error:` line for an entry that fails `stat` are not modelled. `DateTime` carries the fields `fmt_time` prints, and `FmtTime` is their rendering.
- Peek listing: the source lists `Path(fm.spot())`. With the cwd just set to the process's directory, the model lists that same directory through `FileManager.List`.
- Storage: the JSON text is abstracted as the `Record` kinds the reader tells apart. A `last_spot` that is not a string, or that is not there, is `WrongShape`, which raises `TypeError` as `State(**data)` does for a wrong or missing key. A non-string value makes `read()` return a `State` holding a non-string rather than raise, so `Storage.Decode` differs from `read()` there. The difference stays inside the decoder: `FileManager.__init__` then runs `Path(self.state.last_spot)` (src/filebunny/manager.py:16), which raises TypeError for any non-string JSON value, so `Manager.StartCwd` and `Manager.FileManager.Open` fail just as the source does.
- Storage: I/O errors are not modelled, and neither is `spot.json` being a directory. The intermediate contents of `spot.tmp` (`WriteSteps`) are abstracted as truncated, then complete.
- Concurrency: multi-process races on the record are not modelled, beyond the atomic replace.
- The end of a session: `subprocess.run(..., check=True)` turns a shell that exits non-zero into `CalledProcessError`, which `main` reports as one `burrow error:` line and exit 1. The model stops at the shell's start (`Session(launch)`). The message embeds the command list, which holds the temporary rc file's name.
- Cli.EntryPoint: takes the session launcher (`Marking`) as a parameter; the `Burrow` class and `RunHop` model sessions started by the corrected launcher. `SessionEntrySpec` states what each launcher does.
- Peek.SortEntries: stability of `sorted` is not stated. Entries whose keys tie (names equal after lower-casing) come out in an order the model does not promise.
- The `spot error:` branch: `spot()` cannot raise, so that branch is unreachable and not modelled.
- A `$SHELL` program that cannot be started is not modelled (the raised exception and its `burrow error:` message).
- PowerShell sessions: `Set-Location` to a spot that does not exist is a non-fatal error, modelled as the shell staying in the launch directory.
- Cli.Burrow.Leave: the exit status follows bash's `builtin exit`, which returns the last command's status; PowerShell's `exit` is not distinguished.
- Cli.Burrow: the helpers are modelled for every session kind, though a plain shell gets none.
- Cli.Burrow.Hop: only the bash helper is modelled; the PowerShell helper's `-h` forwarding and `Test-Path` check are not.
- Cli.RunHop: every helper argument is passed as `Args(Some(HopCmd(path)))`. A path that argparse reads as an option (`hop -x`) makes it exit 2 with usage text, and the shell stays where it is; that case is not modelled.
- FileSystem.Rename: arguments are resolved lexically before rename(2) sees them, so an argument whose last part is `..` or `.` (`rename .. x`) gets the error for the resolved paths (for example EINVAL) where Linux gives EBUSY.

## Findings

| source | as written | input that shows it | evidently intended | confidence | as-written member | corrected member |
|---|---|---|---|---|---|---|
| src/filebunny/cli.py:338-339 | A `$SHELL` other than bash on a non-Windows host is started with `subprocess.run([shell, "-i"], cwd=dest)` and no `FILEBUNNY_BURROW=1` in its environment, so the nested-session guard at cli.py:164 does not see a session | `SHELL=/bin/zsh`, `FILEBUNNY_BURROW` unset: `filebunny` opens zsh, and typing `filebunny` inside it opens a second, nested session | every session shell is marked, as the PowerShell command (cli.py:249) and the bash rc file (cli.py:268) are, so nesting is refused ("Nested subshells are disallowed", cli.py:12) | not executed | Cli.NestedSessionAsWritten | Cli.NoNestedSession |
