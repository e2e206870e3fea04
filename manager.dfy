/** The file manager: an in-memory working directory (the "spot") taken from
    storage, hop to move it and persist it, and the file operations, each
    resolved against the spot and delegated to the file system. */
module Manager {
  import opened Wrappers
  import opened Paths
  import FS = FileSystem
  import opened Storage

  /** Path(path) if path else Path.home(): no argument and "" both mean home. */
  function HopRequest(path: Option<string>, home: string): PathSpec
  {
    if path == None || path == Some("") then Parse(home) else Parse(path.value)
  }

  /** Where hop(path) lands from cwd: (cwd / new).resolve(), or new.resolve()
      for an anchored request. */
  function HopTarget(cwd: PathSpec, path: Option<string>, home: string, realCwd: Path): (t: Path)
    ensures IsResolved(realCwd) && ValidSpec(cwd) ==> IsResolved(t)
  {
    var request := HopRequest(path, home);
    if request.absolute then Resolve(request, realCwd) else Resolve(Join(cwd, request), realCwd)
  }

  /** The file self.cwd / arg names, once the operating system has resolved it. */
  function Target(cwd: PathSpec, arg: string, realCwd: Path): (t: Path)
    ensures IsResolved(realCwd) && ValidSpec(cwd) ==> IsResolved(t)
  {
    Resolve(Join(cwd, Parse(arg)), realCwd)
  }

  /** The working directory a fresh manager starts from: Path(read().last_spot). */
  function StartCwd(rec: Record, realCwd: Path): Result<PathSpec, ReadError>
  {
    var st :- Decode(rec, realCwd);
    Ok(Parse(st.lastSpot))
  }

  /** A file operation's result applied to the disk: the new map on success,
      the old one and the error otherwise. */
  predicate Applied(before: FS.Fs, res: Result<FS.Fs, FS.Failure>, after: FS.Fs, r: Outcome<FS.Failure>)
  {
    match res
    case Ok(g) => after == g && r == Pass
    case Err(e) => after == before && r == Fail(e)
  }

  class FileManager {
    const storage: Store
    const disk: FS.Disk
    /** The state read at construction; later hops do not refresh it. */
    const state: State
    var cwd: PathSpec

    ghost predicate Valid()
      reads this
    {
      ValidSpec(cwd)
    }

    constructor FromState(storage: Store, disk: FS.Disk, state: State)
      ensures Valid()
      ensures this.storage == storage && this.disk == disk && this.state == state
      ensures cwd == Parse(state.lastSpot)
    {
      this.storage := storage;
      this.disk := disk;
      this.state := state;
      cwd := Parse(state.lastSpot);
    }

    /** FileManager(storage): reads the state; a read that raises aborts construction. */
    static method Open(storage: Store, disk: FS.Disk, realCwd: Path) returns (r: Result<FileManager, ReadError>)
      ensures StartCwd(storage.record, realCwd).Err? ==> r == Err(StartCwd(storage.record, realCwd).error)
      ensures StartCwd(storage.record, realCwd).Ok? ==>
        && r.Ok? && fresh(r.value) && r.value.Valid()
        && r.value.storage == storage && r.value.disk == disk
        && r.value.cwd == StartCwd(storage.record, realCwd).value
    {
      var st := storage.Read(realCwd);
      if st.Err? {
        return Err(st.error);
      }
      var fm := new FileManager.FromState(storage, disk, st.value);
      r := Ok(fm);
    }

    /** spot(): str(self.cwd), which parses back to the working directory. */
    function Spot(): (r: string)
      reads this
      requires Valid()
      ensures Parse(r) == cwd
    {
      ParseShow(cwd);
      Show(cwd)
    }

    /** _persist(): the spot is written to storage. */
    method Persist()
      modifies storage
      ensures storage.record == Encode(State(Show(cwd))) && storage.tmp == Absent
    {
      storage.Write(State(Show(cwd)));
    }

    /** hop(path): moves to an existing directory and persists it; otherwise
        raises, and neither the working directory nor the storage changes. */
    method Hop(path: Option<string>, home: string, realCwd: Path) returns (r: Result<string, FS.Failure>)
      requires Valid() && IsResolved(realCwd)
      modifies this, storage
      ensures Valid()
      ensures var t := HopTarget(old(cwd), path, home, realCwd);
        if FS.IsDirAt(disk.nodes, t) then
          && r == Ok(ShowPath(t))
          && cwd == AsSpec(t) && Spot() == r.value
          && storage.record == Encode(State(ShowPath(t))) && storage.tmp == Absent
        else
          && cwd == old(cwd)
          && unchanged(storage)
          && r.Err?
          && (t !in disk.nodes ==> r.error == FS.Failure(FS.NotFound, "path does not exist: " + ShowPath(t)))
          && (t in disk.nodes ==> r.error == FS.Failure(FS.NotADirectory, "not a directory: " + ShowPath(t)))
    {
      var t := HopTarget(cwd, path, home, realCwd);
      if t !in disk.nodes {
        return Err(FS.Failure(FS.NotFound, "path does not exist: " + ShowPath(t)));
      }
      if !disk.nodes[t].Dir? {
        return Err(FS.Failure(FS.NotADirectory, "not a directory: " + ShowPath(t)));
      }
      cwd := AsSpec(t);
      ResolveShown(t, cwd, realCwd);
      Persist();
      r := Ok(Show(cwd));
    }

    /** list(): the names in the working directory. */
    method List(realCwd: Path) returns (r: Result<seq<string>, FS.Failure>)
      ensures var dir := Resolve(cwd, realCwd);
        && (dir !in disk.nodes ==> r == Err(FS.OsError(FS.MissingKind(disk.nodes, dir), dir)))
        && (FS.IsFileAt(disk.nodes, dir) ==> r == Err(FS.OsError(FS.NotADirectory, dir)))
        && (FS.IsDirAt(disk.nodes, dir) ==>
              r.Ok? && FS.NoDuplicates(r.value)
              && forall n :: n in r.value <==> n in FS.ChildNames(disk.nodes, dir))
    {
      r := FS.IterDir(disk.nodes, Resolve(cwd, realCwd));
    }

    /** copy(src, dst): copytree for a directory source, copy2 otherwise. */
    method Copy(src: string, dst: string, realCwd: Path) returns (r: Outcome<FS.Failure>)
      requires disk.Valid()
      modifies disk
      ensures disk.Valid()
      ensures Applied(old(disk.nodes), FS.Copy(old(disk.nodes), Target(cwd, src, realCwd), Target(cwd, dst, realCwd)), disk.nodes, r)
    {
      var s, d := Target(cwd, src, realCwd), Target(cwd, dst, realCwd);
      match FS.Copy(disk.nodes, s, d) {
        case Ok(g) =>
          FS.CopySpec(disk.nodes, s, d);
          disk.nodes := g;
          r := Pass;
        case Err(e) => r := Fail(e);
      }
    }

    /** move(src, dst): shutil.move. */
    method Move(src: string, dst: string, realCwd: Path) returns (r: Outcome<FS.Failure>)
      requires disk.Valid()
      modifies disk
      ensures disk.Valid()
      ensures Applied(old(disk.nodes), FS.Move(old(disk.nodes), Target(cwd, src, realCwd), Target(cwd, dst, realCwd)), disk.nodes, r)
    {
      var s, d := Target(cwd, src, realCwd), Target(cwd, dst, realCwd);
      match FS.Move(disk.nodes, s, d) {
        case Ok(g) =>
          FS.MoveSpec(disk.nodes, s, d);
          disk.nodes := g;
          r := Pass;
        case Err(e) => r := Fail(e);
      }
    }

    /** delete(path): rmtree for a directory, unlink(missing_ok=False) otherwise. */
    method Delete(path: string, realCwd: Path) returns (r: Outcome<FS.Failure>)
      requires disk.Valid()
      modifies disk
      ensures disk.Valid()
      ensures Applied(old(disk.nodes), FS.Bury(old(disk.nodes), Target(cwd, path, realCwd)), disk.nodes, r)
    {
      var t := Target(cwd, path, realCwd);
      match FS.Bury(disk.nodes, t) {
        case Ok(g) =>
          FS.BurySpec(disk.nodes, t);
          disk.nodes := g;
          r := Pass;
        case Err(e) => r := Fail(e);
      }
    }

    /** rename(src, dst): Path.rename. */
    method Rename(src: string, dst: string, realCwd: Path) returns (r: Outcome<FS.Failure>)
      requires disk.Valid()
      modifies disk
      ensures disk.Valid()
      ensures Applied(old(disk.nodes), FS.Rename(old(disk.nodes), Target(cwd, src, realCwd), Target(cwd, dst, realCwd)), disk.nodes, r)
    {
      var s, d := Target(cwd, src, realCwd), Target(cwd, dst, realCwd);
      match FS.Rename(disk.nodes, s, d) {
        case Ok(g) =>
          if s != d {
            FS.RenameSpec(disk.nodes, s, d);
          }
          disk.nodes := g;
          r := Pass;
        case Err(e) => r := Fail(e);
      }
    }

    /** dig(path): mkdir -p of the resolved target; returns its text. */
    method Dig(path: string, realCwd: Path) returns (r: Result<string, FS.Failure>)
      requires disk.Valid()
      modifies disk
      ensures disk.Valid()
      ensures var t := Target(cwd, path, realCwd);
        match FS.MakeDirs(old(disk.nodes), t)
        case Ok(g) => disk.nodes == g && r == Ok(ShowPath(t)) && FS.AllDirs(g, t)
        case Err(e) => disk.nodes == old(disk.nodes) && r == Err(e)
    {
      var t := Target(cwd, path, realCwd);
      FS.MakeDirsSpec(disk.nodes, t);
      match FS.MakeDirs(disk.nodes, t) {
        case Ok(g) =>
          disk.nodes := g;
          r := Ok(ShowPath(t));
        case Err(e) => r := Err(e);
      }
    }

    /** carrot(path): touch the resolved target, creating its parents; returns its text. */
    method Carrot(path: string, realCwd: Path) returns (r: Result<string, FS.Failure>)
      requires disk.Valid()
      modifies disk
      ensures disk.Valid()
      ensures var t := Target(cwd, path, realCwd);
        match FS.Touch(old(disk.nodes), t)
        case Ok(g) =>
          && disk.nodes == g && r == Ok(ShowPath(t))
          && t in g && (t in old(disk.nodes) ==> g[t] == old(disk.nodes)[t])
        case Err(e) => disk.nodes == old(disk.nodes) && r == Err(e)
    {
      var t := Target(cwd, path, realCwd);
      FS.TouchSpec(disk.nodes, t);
      match FS.Touch(disk.nodes, t) {
        case Ok(g) =>
          disk.nodes := g;
          r := Ok(ShowPath(t));
        case Err(e) => r := Err(e);
      }
    }
  }

  // ------------------------------------------------------------ properties

  /** A fresh manager over a record a hop wrote starts at the hopped-to directory. */
  lemma ReopenAfterHop(t: Path, realCwd: Path)
    requires IsResolved(t)
    ensures StartCwd(Encode(State(ShowPath(t))), realCwd) == Ok(AsSpec(t))
  {
    ResolveShown(t, AsSpec([]), realCwd);
  }

  /** No argument and the empty argument both hop home. */
  lemma HopHome(cwd: PathSpec, home: string, realCwd: Path)
    ensures HopTarget(cwd, None, home, realCwd) == HopTarget(cwd, Some(""), home, realCwd)
    ensures HopTarget(cwd, None, home, realCwd) == Resolve(Join(cwd, Parse(home)), realCwd)
  {
  }

  /** An anchored path lands in the same place from every working directory. */
  lemma HopAbsolute(c1: PathSpec, c2: PathSpec, path: string, home: string, realCwd: Path)
    requires path != "" && path[0] == '/'
    ensures HopTarget(c1, Some(path), home, realCwd) == HopTarget(c2, Some(path), home, realCwd)
    ensures HopTarget(c1, Some(path), home, realCwd) == Normalize([], Parse(path).parts)
  {
  }

  /** A relative path is walked from where the working directory resolves to. */
  lemma HopRelative(cwd: PathSpec, path: string, home: string, realCwd: Path)
    requires path != "" && path[0] != '/'
    ensures HopTarget(cwd, Some(path), home, realCwd) == Normalize(Resolve(cwd, realCwd), Parse(path).parts)
  {
    ResolveRelative(cwd, Parse(path), realCwd);
  }

  /** Hopping to the text a hop printed lands on the same directory again,
      whatever the working directory is by then. */
  lemma HopToPrinted(t: Path, cwd: PathSpec, home: string, realCwd: Path)
    requires IsResolved(t)
    ensures HopTarget(cwd, Some(ShowPath(t)), home, realCwd) == t
  {
    ResolveShown(t, cwd, realCwd);
  }

  /** dig on a directory that exists is a no-op that succeeds. */
  lemma DigIdempotent(fs: FS.Fs, cwd: PathSpec, path: string, realCwd: Path)
    requires FS.WellFormed(fs) && FS.MakeDirs(fs, Target(cwd, path, realCwd)).Ok?
    ensures var t := Target(cwd, path, realCwd);
      FS.MakeDirs(FS.MakeDirs(fs, t).value, t) == FS.MakeDirs(fs, t)
  {
    FS.MakeDirsIdempotent(fs, Target(cwd, path, realCwd));
  }

  /** carrot never truncates: a second carrot leaves everything as the first left it. */
  lemma CarrotIdempotent(fs: FS.Fs, cwd: PathSpec, path: string, realCwd: Path)
    requires FS.WellFormed(fs) && FS.Touch(fs, Target(cwd, path, realCwd)).Ok?
    ensures var t := Target(cwd, path, realCwd);
      FS.Touch(FS.Touch(fs, t).value, t) == FS.Touch(fs, t)
  {
    FS.TouchIdempotent(fs, Target(cwd, path, realCwd));
  }
}
