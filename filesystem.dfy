/** The host file system as the file manager sees it: a map from resolved
    paths to nodes, and the library calls the manager delegates to
    (mkdir with parents, touch, rmtree and unlink, os.rename, shutil.move,
    shutil.copy2 and shutil.copytree, iterdir), each as a function from the
    old map to the new one or to the error it raises. */
module FileSystem {
  import opened Wrappers
  import opened Paths
  import Decimal

  datatype Node = File(content: string) | Dir

  type Fs = map<Path, Node>

  predicate IsDirAt(fs: Fs, p: Path) { p in fs && fs[p].Dir? }

  predicate IsFileAt(fs: Fs, p: Path) { p in fs && fs[p].File? }

  /** p is the root or sits inside a directory. */
  predicate ParentIsDir(fs: Fs, p: Path)
  {
    p == [] || IsDirAt(fs, Parent(p))
  }

  /** A root directory, and the parent of every other entry is a directory.
      (The quantifier fires on ParentIsDir only, so that the parent it
      mentions does not in turn instantiate it.) */
  predicate WellFormed(fs: Fs)
  {
    IsDirAt(fs, []) && forall p {:trigger ParentIsDir(fs, p)} :: p in fs ==> ParentIsDir(fs, p)
  }

  /** fs2 keeps every entry of fs1 as it was. */
  predicate Extends(fs2: Fs, fs1: Fs)
  {
    forall p :: p in fs1 ==> p in fs2 && fs2[p] == fs1[p]
  }

  /** Something lies strictly below d. */
  predicate HasEntries(fs: Fs, d: Path)
  {
    exists q :: q in fs && d < q
  }

  /** Every existing prefix of p, p included, is a directory. */
  predicate ClearPath(fs: Fs, p: Path)
  {
    forall k :: 0 <= k <= |p| && p[..k] in fs ==> fs[p[..k]].Dir?
  }

  /** Every prefix of p, p included, exists as a directory. */
  predicate AllDirs(fs: Fs, p: Path)
  {
    forall k :: 0 <= k <= |p| ==> IsDirAt(fs, p[..k])
  }

  function Basename(p: Path): string
  {
    if p == [] then "" else p[|p| - 1]
  }

  // ---------------------------------------------------------------- errors

  /** The exception classes the delegated calls raise. */
  datatype ErrKind =
    | NotFound          // FileNotFoundError, ENOENT
    | FileExists        // FileExistsError, EEXIST
    | NotADirectory     // NotADirectoryError, ENOTDIR
    | IsADirectory      // IsADirectoryError, EISDIR
    | NotEmpty          // OSError, ENOTEMPTY
    | InvalidArgument   // OSError, EINVAL
    | Busy              // OSError, EBUSY
    | NameTooLong       // OSError, ENAMETOOLONG
    | SameFile          // shutil.SameFileError
    | ShutilError       // shutil.Error

  datatype Failure = Failure(kind: ErrKind, message: string)

  /** Linux errno values of the OS-level kinds. */
  function Errno(k: ErrKind): nat
  {
    match k
    case NotFound => 2
    case FileExists => 17
    case NotADirectory => 20
    case IsADirectory => 21
    case NotEmpty => 39
    case InvalidArgument => 22
    case Busy => 16
    case NameTooLong => 36
    case SameFile => 0
    case ShutilError => 0
  }

  function StrError(k: ErrKind): string
  {
    match k
    case NotFound => "No such file or directory"
    case FileExists => "File exists"
    case NotADirectory => "Not a directory"
    case IsADirectory => "Is a directory"
    case NotEmpty => "Directory not empty"
    case InvalidArgument => "Invalid argument"
    case Busy => "Device or resource busy"
    case NameTooLong => "File name too long"
    case SameFile => "Same file"
    case ShutilError => "Error"
  }

  /** str() of an OSError raised for path p: "[Errno 2] No such file or directory: '/a'". */
  function OsError(k: ErrKind, p: Path): Failure
  {
    OsErrorNamed(k, ShowPath(p))
  }

  /** The same for an error that names the path as the caller wrote it. */
  function OsErrorNamed(k: ErrKind, name: string): Failure
  {
    Failure(k, "[Errno " + Decimal.Digits(Errno(k)) + "] " + StrError(k) + ": '" + name + "'")
  }

  /** str() of an OSError that names no path, such as the one os.getcwd()
      raises once the process's directory has been removed. */
  function OsErrorBare(k: ErrKind): Failure
  {
    Failure(k, "[Errno " + Decimal.Digits(Errno(k)) + "] " + StrError(k))
  }

  /** str() of an OSError from os.rename, which names both paths:
      "[Errno 2] No such file or directory: '/a' -> '/b'". */
  function RenameError(k: ErrKind, s: Path, d: Path): Failure
  {
    Failure(k, "[Errno " + Decimal.Digits(Errno(k)) + "] " + StrError(k) + ": '" + ShowPath(s) + "' -> '" + ShowPath(d) + "'")
  }

  /** The error a lookup of an absent path p raises: ENOTDIR when a file stands
      where a directory on the way to p should be, ENOENT otherwise. */
  function MissingKind(fs: Fs, p: Path): ErrKind
  {
    if ClearPath(fs, Parent(p)) then NotFound else NotADirectory
  }

  // ---------------------------------------------------------- structure

  lemma {:induction false} AncestorsAreDirs(fs: Fs, p: Path, k: nat)
    requires WellFormed(fs) && p in fs && k < |p|
    ensures IsDirAt(fs, p[..k])
    decreases |p| - k
  {
    if k == |p| - 1 {
      assert ParentIsDir(fs, p);
      assert Parent(p) == p[..k];
    } else {
      AncestorsAreDirs(fs, p, k + 1);
      assert ParentIsDir(fs, p[..k + 1]);
      assert Parent(p[..k + 1]) == p[..k];
    }
  }

  /** Whatever has an entry below it is a directory. */
  lemma AncestorIsDir(fs: Fs, d: Path, q: Path)
    requires WellFormed(fs) && q in fs && d < q
    ensures IsDirAt(fs, d)
  {
    AncestorsAreDirs(fs, q, |d|);
    assert q[..|d|] == d;
  }

  /** A path that does not exist has nothing below it. */
  lemma AbsentHasNoEntries(fs: Fs, d: Path)
    requires WellFormed(fs) && d !in fs
    ensures forall q :: q in fs ==> !(d <= q)
  {
    forall q | q in fs && d <= q ensures false {
      if d == q { } else { AncestorIsDir(fs, d, q); }
    }
  }

  // ------------------------------------------------------------ mkdir -p

  /** Path.mkdir(parents=True, exist_ok=True): create p and its missing ancestors. */
  function MakeDirs(fs: Fs, p: Path): Result<Fs, Failure>
    decreases |p|
  {
    if p in fs then
      if fs[p].Dir? then Ok(fs) else Err(OsError(FileExists, p))
    else if p == [] then Ok(fs[p := Dir])
    else
      match MakeDirs(fs, Parent(p))
      case Ok(grown) => Ok(grown[p := Dir])
      case Err(_) => Err(OsError(NotADirectory, p))
  }

  /** mkdir -p succeeds exactly when no existing prefix is a file; it then leaves
      every prefix a directory, keeps every old entry and adds only prefixes of p. */
  lemma {:induction false} MakeDirsSpec(fs: Fs, p: Path)
    requires WellFormed(fs)
    ensures MakeDirs(fs, p).Ok? <==> ClearPath(fs, p)
    ensures MakeDirs(fs, p).Ok? ==>
      var g := MakeDirs(fs, p).value;
      && WellFormed(g) && AllDirs(g, p) && Extends(g, fs)
      && (forall q :: q in g && q !in fs ==> q <= p)
    decreases |p|
  {
    assert p[..|p|] == p;
    if p in fs {
      if fs[p].Dir? {
        forall k | 0 <= k <= |p| ensures IsDirAt(fs, p[..k]) {
          if k < |p| { AncestorsAreDirs(fs, p, k); }
        }
      }
    } else {
      var pp := Parent(p);
      MakeDirsSpec(fs, pp);
      assert forall k :: 0 <= k <= |pp| ==> p[..k] == pp[..k];
      assert ClearPath(fs, p) <==> ClearPath(fs, pp) by {
        if ClearPath(fs, pp) {
          forall k | 0 <= k <= |p| && p[..k] in fs ensures fs[p[..k]].Dir? {
            assert k <= |pp|;
            assert pp[..k] == p[..k];
          }
        }
        if ClearPath(fs, p) {
          forall k | 0 <= k <= |pp| && pp[..k] in fs ensures fs[pp[..k]].Dir? {
            assert pp[..k] == p[..k];
          }
        }
      }
      if ClearPath(fs, pp) {
        var grown := MakeDirs(fs, pp).value;
        var g := grown[p := Dir];
        assert pp[..|pp|] == pp;
        assert IsDirAt(grown, pp);
        forall q | q in g ensures ParentIsDir(g, q) {
          if q != p { assert ParentIsDir(grown, q); }
        }
        forall k | 0 <= k <= |p| ensures IsDirAt(g, p[..k]) {
          if k < |p| {
            assert k <= |pp| && p[..k] == pp[..k];
            assert IsDirAt(grown, pp[..k]);
          }
        }
        forall q | q in g && q !in fs ensures q <= p {
          if q != p { assert q <= pp; }
        }
      }
    }
  }

  /** Creating the same directories twice changes nothing the second time. */
  lemma MakeDirsIdempotent(fs: Fs, p: Path)
    requires WellFormed(fs) && MakeDirs(fs, p).Ok?
    ensures MakeDirs(MakeDirs(fs, p).value, p) == MakeDirs(fs, p)
  {
    MakeDirsSpec(fs, p);
    assert p[..|p|] == p;
  }

  // -------------------------------------------------------------- touch

  /** target.parent.mkdir(parents=True, exist_ok=True), then target.touch(exist_ok=True). */
  function Touch(fs: Fs, p: Path): Result<Fs, Failure>
  {
    match MakeDirs(fs, Parent(p))
    case Err(e) => Err(e)
    case Ok(grown) => if p in grown then Ok(grown) else Ok(grown[p := File("")])
  }

  /** touch creates the missing parents and an empty file if nothing is there;
      what already exists at p keeps its content. */
  lemma TouchSpec(fs: Fs, p: Path)
    requires WellFormed(fs)
    ensures Touch(fs, p).Ok? <==> ClearPath(fs, Parent(p))
    ensures Touch(fs, p).Ok? ==>
      var g := Touch(fs, p).value;
      && WellFormed(g) && p in g && AllDirs(g, Parent(p)) && Extends(g, fs)
      && (p in fs ==> g[p] == fs[p])
      && (p !in fs ==> g[p] == File(""))
      && (forall q :: q in g && q !in fs ==> q <= p)
  {
    MakeDirsSpec(fs, Parent(p));
    if ClearPath(fs, Parent(p)) {
      var grown := MakeDirs(fs, Parent(p)).value;
      var pp := Parent(p);
      assert pp[..|pp|] == pp;
      if p !in grown {
        var g := grown[p := File("")];
        assert p != [];
        forall q | q in g ensures ParentIsDir(g, q) {
          if q != p { assert ParentIsDir(grown, q); }
        }
        forall k | 0 <= k <= |pp| ensures IsDirAt(g, pp[..k]) {
          assert IsDirAt(grown, pp[..k]);
        }
      }
      forall q | q in Touch(fs, p).value && q !in fs ensures q <= p {
        if q != p { assert q <= pp; }
      }
    }
  }

  /** A second touch of the same path changes nothing. */
  lemma TouchIdempotent(fs: Fs, p: Path)
    requires WellFormed(fs) && Touch(fs, p).Ok?
    ensures Touch(Touch(fs, p).value, p) == Touch(fs, p)
  {
    TouchSpec(fs, p);
    var g := Touch(fs, p).value;
    MakeDirsSpec(g, Parent(p));
    var pp := Parent(p);
    assert pp[..|pp|] == pp;
  }

  // ------------------------------------------------------ rmtree / unlink

  /** Everything except the tree at top. */
  function RemoveTree(fs: Fs, top: Path): Fs
  {
    map q | q in fs && !(top <= q) :: fs[q]
  }

  /** delete: shutil.rmtree for a directory, unlink(missing_ok=False) otherwise. */
  function Bury(fs: Fs, p: Path): Result<Fs, Failure>
  {
    if IsDirAt(fs, p) then
      if p == [] then Err(OsError(Busy, p)) else Ok(RemoveTree(fs, p))
    else if p in fs then Ok(fs - {p})
    else Err(OsError(MissingKind(fs, p), p))
  }

  lemma RemoveTreeWellFormed(fs: Fs, top: Path)
    requires WellFormed(fs) && top != []
    ensures WellFormed(RemoveTree(fs, top))
  {
    var g := RemoveTree(fs, top);
    forall q | q in g ensures ParentIsDir(g, q) {
      assert ParentIsDir(fs, q);
    }
  }

  /** Deleting removes exactly the target and what lies below it, and fails only
      for a missing target (or the root). */
  lemma BurySpec(fs: Fs, p: Path)
    requires WellFormed(fs)
    ensures Bury(fs, p).Ok? <==> p in fs && p != []
    ensures Bury(fs, p).Err? && p !in fs ==> Bury(fs, p).error == OsError(MissingKind(fs, p), p)
    ensures Bury(fs, p).Ok? ==>
      var g := Bury(fs, p).value;
      && WellFormed(g)
      && (forall q :: q in g <==> q in fs && !(p <= q))
      && (forall q :: q in g ==> g[q] == fs[q])
  {
    if p in fs && p != [] {
      RemoveTreeWellFormed(fs, p);
      if fs[p].File? {
        forall q | q in fs && p < q ensures false { AncestorIsDir(fs, p, q); }
        forall q ensures q in fs - {p} <==> q in RemoveTree(fs, p) {
          if q in fs && p <= q && q != p { AncestorIsDir(fs, p, q); }
        }
        assert fs - {p} == RemoveTree(fs, p);
      }
    }
  }

  // ----------------------------------------------- moving and copying trees

  /** The tree at s in src, re-rooted at d. */
  function Rebase(src: Fs, s: Path, d: Path): Fs
  {
    var image := set p | p in src && s <= p :: d + p[|s|..];
    map q | q in image && d <= q && s + q[|d|..] in src :: src[s + q[|d|..]]
  }

  /** base with the tree at s in src laid over it at d. */
  function Graft(base: Fs, src: Fs, s: Path, d: Path): Fs
  {
    base + Rebase(src, s, d)
  }

  lemma RebaseSpec(src: Fs, s: Path, d: Path)
    ensures forall q :: q in Rebase(src, s, d) <==> d <= q && s + q[|d|..] in src
    ensures forall q :: q in Rebase(src, s, d) ==> Rebase(src, s, d)[q] == src[s + q[|d|..]]
  {
    var r := Rebase(src, s, d);
    forall q | d <= q && s + q[|d|..] in src ensures q in r {
      var p := s + q[|d|..];
      assert s <= p && p[|s|..] == q[|d|..];
      assert d + p[|s|..] == q;
    }
  }

  /** Every entry of the tree at s reappears at the same place below d. */
  lemma RebaseCovers(src: Fs, s: Path, d: Path)
    ensures forall t :: s + t in src ==> d + t in Rebase(src, s, d) && Rebase(src, s, d)[d + t] == src[s + t]
  {
    RebaseSpec(src, s, d);
    forall t | s + t in src ensures d + t in Rebase(src, s, d) && Rebase(src, s, d)[d + t] == src[s + t] {
      assert (d + t)[|d|..] == t;
    }
  }

  lemma ParentOfAppend(a: Path, t: Path)
    requires t != []
    ensures Parent(a + t) == a + Parent(t)
  {
  }

  /** Inside the grafted tree, the parent of an entry is grafted too, as a directory. */
  lemma RebaseParent(src: Fs, s: Path, d: Path, q: Path)
    requires WellFormed(src) && q in Rebase(src, s, d) && q != d
    ensures Parent(q) in Rebase(src, s, d) && Rebase(src, s, d)[Parent(q)] == Dir
  {
    RebaseSpec(src, s, d);
    var t := q[|d|..];
    assert q == d + t;
    assert t != [];
    assert ParentIsDir(src, s + t);
    ParentOfAppend(s, t);
    ParentOfAppend(d, t);
    assert Parent(q)[|d|..] == Parent(t);
  }

  /** Grafting a tree below an existing directory keeps the file system well formed. */
  lemma GraftWellFormed(base: Fs, src: Fs, s: Path, d: Path)
    requires WellFormed(base) && WellFormed(src) && s in src && d != []
    requires IsDirAt(base, Parent(d)) && !HasEntries(base, d)
    ensures WellFormed(Graft(base, src, s, d))
  {
    var r := Rebase(src, s, d);
    var g := Graft(base, src, s, d);
    RebaseSpec(src, s, d);
    assert [] !in r;
    assert Parent(d) !in r;
    forall q | q in g ensures ParentIsDir(g, q) {
      if q in r {
        if q != d { RebaseParent(src, s, d, q); }
      } else {
        assert ParentIsDir(base, q);
      }
    }
  }

  /** os.rename (Path.rename) as rename(2) on Linux decides it: the two parent
      directories are looked up first, then the root is refused, then the
      source is looked up; a directory may not move below itself nor onto one
      of its ancestors; a file or an empty directory of the same kind at d is
      replaced. Renaming a path onto itself changes nothing. */
  function Rename(fs: Fs, s: Path, d: Path): Result<Fs, Failure>
  {
    if !IsDirAt(fs, Parent(s)) then Err(RenameError(MissingKind(fs, s), s, d))
    else if !IsDirAt(fs, Parent(d)) then Err(RenameError(MissingKind(fs, d), s, d))
    else if s == [] || d == [] then Err(RenameError(Busy, s, d))
    else if s !in fs then Err(RenameError(NotFound, s, d))
    else if s < d then Err(RenameError(InvalidArgument, s, d))
    else if d < s then Err(RenameError(NotEmpty, s, d))
    else if s == d then Ok(fs)
    else if d in fs && fs[s].File? && fs[d].Dir? then Err(RenameError(IsADirectory, s, d))
    else if d in fs && fs[s].Dir? && fs[d].File? then Err(RenameError(NotADirectory, s, d))
    else if HasEntries(fs, d) then Err(RenameError(NotEmpty, s, d))
    else Ok(Graft(RemoveTree(fs - {d}, s), fs, s, d))
  }

  /** Removing an entry with nothing below it keeps the file system well formed. */
  lemma RemoveLeafWellFormed(fs: Fs, d: Path)
    requires WellFormed(fs) && d != [] && !HasEntries(fs, d)
    ensures WellFormed(fs - {d})
  {
    var g := fs - {d};
    forall q | q in g ensures ParentIsDir(g, q) {
      assert ParentIsDir(fs, q);
    }
  }

  /** The last step of a rename that passed every check: clear d, drop the
      tree at s, and graft that tree at d. */
  lemma RenameGraftSpec(fs: Fs, s: Path, d: Path)
    requires WellFormed(fs) && s in fs && s != d && s != [] && d != []
    requires IsDirAt(fs, Parent(d)) && !(s <= d) && !HasEntries(fs, d)
    ensures
      var g := Graft(RemoveTree(fs - {d}, s), fs, s, d);
      && WellFormed(g)
      && s !in g
      && (forall t :: s + t in fs ==> d + t in g && g[d + t] == fs[s + t])
      && (forall q :: q in fs && !(s <= q) && !(d <= q) ==> q in g && g[q] == fs[q])
      && (forall q :: q in g ==> d <= q || (q in fs && !(s <= q)))
  {
    var base := RemoveTree(fs - {d}, s);
    var r := Rebase(fs, s, d);
    RebaseSpec(fs, s, d);
    RemoveLeafWellFormed(fs, d);
    RemoveTreeWellFormed(fs - {d}, s);
    assert Parent(d) <= d;
    assert IsDirAt(base, Parent(d));
    assert !HasEntries(base, d);
    GraftWellFormed(base, fs, s, d);
    RebaseCovers(fs, s, d);
  }

  /** Two prefixes of one path are prefixes of each other. */
  lemma PrefixesComparable(a: Path, b: Path, q: Path)
    requires a <= q && b <= q
    ensures a <= b || b < a
  {
    if |a| <= |b| {
      assert a == q[..|a|] && b[..|a|] == q[..|a|];
    } else {
      assert b == q[..|b|] && a[..|b|] == q[..|b|];
    }
  }

  lemma PrefixOfChild(s: Path, d: Path, n: string)
    requires s <= d + [n]
    ensures s <= d || s == d + [n]
  {
    if |s| <= |d| { assert s == (d + [n])[..|s|] == d[..|s|]; }
  }

  /** After a rename the source tree is gone, the destination holds it, and
      nothing outside the two trees changed. */
  lemma RenameSpec(fs: Fs, s: Path, d: Path)
    requires WellFormed(fs) && Rename(fs, s, d).Ok? && s != d
    ensures
      var g := Rename(fs, s, d).value;
      && WellFormed(g)
      && (forall q :: q in g ==> !(s <= q))
      && (forall t :: s + t in fs ==> d + t in g && g[d + t] == fs[s + t])
      && (forall q :: q in fs && !(s <= q) && !(d <= q) ==> q in g && g[q] == fs[q])
      && (forall q :: q in g ==> d <= q || (q in fs && !(s <= q)))
  {
    RenameGraftSpec(fs, s, d);
    var g := Rename(fs, s, d).value;
    forall q | q in g && s <= q ensures false {
      assert d <= q;
      PrefixesComparable(s, d, q);
    }
  }

  /** A rename of a path onto itself succeeds, and changes nothing, exactly when
      the path exists and is not the root. */
  lemma RenameOntoItself(fs: Fs, p: Path)
    requires WellFormed(fs)
    ensures Rename(fs, p, p).Ok? <==> p in fs && p != []
    ensures Rename(fs, p, p).Ok? ==> Rename(fs, p, p).value == fs
  {
    if p in fs {
      assert ParentIsDir(fs, p);
    }
  }

  /** Where shutil.move puts s: into d when d is an existing directory. */
  function MoveDestination(fs: Fs, s: Path, d: Path): Path
  {
    if IsDirAt(fs, d) && s != d then d + [Basename(s)] else d
  }

  /** shutil.move(s, d): a rename onto MoveDestination, refused when something
      already exists there. When the rename fails for any reason, move falls
      back to copying: a directory is copied with copytree (refused if d lies
      inside it) and then removed with rmtree, anything else is copied with
      copy2 and then unlinked. Moving a directory onto itself is a plain rename. */
  function Move(fs: Fs, s: Path, d: Path): Result<Fs, Failure>
  {
    var dest := MoveDestination(fs, s, d);
    if IsDirAt(fs, d) && s == d then Rename(fs, s, d)
    else if IsDirAt(fs, d) && (s == [] || dest in fs) then
      Err(Failure(ShutilError, "Destination path '" + ShowPath(dest) + "' already exists"))
    else if Rename(fs, s, dest).Ok? then Rename(fs, s, dest)
    else MoveByCopy(fs, s, d, dest)
  }

  /** The copy-and-delete half of shutil.move, once os.rename has failed. */
  function MoveByCopy(fs: Fs, s: Path, d: Path, dest: Path): Result<Fs, Failure>
  {
    if IsDirAt(fs, s) then
      if s <= d then
        Err(Failure(ShutilError, "Cannot move a directory '" + ShowPath(s) + "' into itself '" + ShowPath(d) + "'."))
      else
        match CopyTree(fs, s, dest)
        case Err(e) => Err(e)
        case Ok(g) => Ok(RemoveTree(g, s))
    else
      match CopyFile(fs, s, dest)
      case Err(e) => Err(e)
      case Ok(g) => Ok(g - {s})
  }

  /** The copy fallback for a directory: the copy lands at dest, which lies
      neither inside s nor above it, and then the tree at s is removed. */
  lemma MoveTreeByCopySpec(fs: Fs, s: Path, d: Path, dest: Path)
    requires WellFormed(fs) && IsDirAt(fs, s) && !(s <= d)
    requires dest == d || (IsDirAt(fs, d) && dest == d + [Basename(s)])
    requires MoveByCopy(fs, s, d, dest).Ok?
    ensures
      var g := MoveByCopy(fs, s, d, dest).value;
      && WellFormed(g)
      && (forall q :: q in g ==> !(s <= q))
      && (forall t :: s + t in fs ==> dest + t in g && g[dest + t] == fs[s + t])
      && (forall q :: q in fs && !(s <= q) ==> q in g && g[q] == fs[q])
      && (forall q :: q in g && q !in fs ==> q <= dest || dest <= q)
  {
    assert dest !in fs;
    assert !(s <= dest) by {
      if s <= dest && dest != d { PrefixOfChild(s, d, Basename(s)); }
    }
    var g1 := Graft(MakeDirs(fs, dest).value, fs, s, dest);
    CopyTreeGraftSpec(fs, s, dest);
    assert s != [];
    RemoveTreeWellFormed(g1, s);
    assert !(dest < s) by {
      if dest < s { AncestorIsDir(fs, dest, s); }
    }
    forall t | s + t in fs ensures !(s <= dest + t) {
      if s <= dest + t { PrefixesComparable(s, dest, dest + t); }
    }
  }

  /** The copy fallback for a file: copy2 writes dest, then s is unlinked. */
  lemma MoveFileByCopySpec(fs: Fs, s: Path, d: Path, dest: Path)
    requires WellFormed(fs) && !IsDirAt(fs, s) && !IsDirAt(fs, dest)
    requires MoveByCopy(fs, s, d, dest).Ok?
    ensures
      var g := MoveByCopy(fs, s, d, dest).value;
      && WellFormed(g)
      && (forall q :: q in g ==> !(s <= q))
      && (forall t :: s + t in fs ==> dest + t in g && g[dest + t] == fs[s + t])
      && (forall q :: q in fs && !(s <= q) && q != dest ==> q in g && g[q] == fs[q])
      && (forall q :: q in g && q !in fs ==> q == dest)
  {
    CopyFileSpec(fs, s, dest);
    var g0 := CopyFile(fs, s, dest).value;
    var g := g0 - {s};
    assert CopyDestination(fs, s, dest) == dest && dest != s;
    assert IsDirAt(fs, Parent(dest));
    forall q | q in g ensures ParentIsDir(g, q) {
      assert ParentIsDir(g0, q);
      if q != [] && Parent(q) == s {
        if q != dest { AncestorIsDir(fs, s, q); }
      }
    }
    forall q | q in g && s <= q ensures false {
      assert q != s && (q in fs || q == dest);
      if q == dest {
        PrefixesComparable(s, Parent(dest), dest);
        if s != Parent(dest) { AncestorIsDir(fs, s, Parent(dest)); }
      } else {
        AncestorIsDir(fs, s, q);
      }
    }
    forall t | s + t in fs ensures dest + t in g && g[dest + t] == fs[s + t] {
      if t != [] { AncestorIsDir(fs, s, s + t); }
      assert t == [] && s + t == s && dest + t == dest;
    }
  }

  /** After a move the source tree is gone and sits at the destination, whether
      os.rename moved it or the copy fallback did; nothing outside the two trees
      changed, and only the destination and its missing ancestors are new. A
      move onto itself changes nothing. */
  lemma MoveSpec(fs: Fs, s: Path, d: Path)
    requires WellFormed(fs) && Move(fs, s, d).Ok?
    ensures
      var g := Move(fs, s, d).value;
      var dest := MoveDestination(fs, s, d);
      && WellFormed(g)
      && (s == dest ==> g == fs)
      && (s != dest ==>
        && (forall q :: q in g ==> !(s <= q))
        && (forall t :: s + t in fs ==> dest + t in g && g[dest + t] == fs[s + t])
        && (forall q :: q in fs && !(s <= q) && !(dest <= q) ==> q in g && g[q] == fs[q])
        && (forall q :: q in g && q !in fs ==> q <= dest || dest <= q))
  {
    var dest := MoveDestination(fs, s, d);
    if IsDirAt(fs, d) && s == d {
      RenameOntoItself(fs, s);
    } else if Rename(fs, s, dest).Ok? {
      if s == dest { RenameOntoItself(fs, s); } else { RenameSpec(fs, s, dest); }
    } else if IsDirAt(fs, s) {
      assert s != dest by { RenameOntoItself(fs, s); }
      MoveTreeByCopySpec(fs, s, d, dest);
    } else {
      assert !IsDirAt(fs, dest);
      assert s != dest;
      MoveFileByCopySpec(fs, s, d, dest);
    }
  }

  /** A directory moved to a path whose ancestors are missing still arrives:
      os.rename fails, and copytree creates those ancestors. */
  lemma MoveTreeMakesParents(fs: Fs, s: Path, d: Path)
    requires WellFormed(fs) && IsDirAt(fs, s) && d !in fs && ClearPath(fs, d) && !(s <= d)
    ensures Move(fs, s, d).Ok?
  {
    MakeDirsSpec(fs, d);
    assert MoveDestination(fs, s, d) == d;
  }

  /** A file moved to a path whose parent is not a directory fails with the
      error of copy2's open of the destination, which names that path only. */
  lemma MoveFileNeedsParent(fs: Fs, s: Path, d: Path)
    requires WellFormed(fs) && IsFileAt(fs, s) && !IsDirAt(fs, Parent(d))
    ensures Move(fs, s, d) == Err(OsError(MissingKind(fs, d), d))
  {
    assert ParentIsDir(fs, s);
    assert d != [] && !ParentIsDir(fs, d);
    assert MoveDestination(fs, s, d) == d;
  }

  /** shutil.copy2(s, d) for a source that is not a directory. */
  function CopyFile(fs: Fs, s: Path, d: Path): Result<Fs, Failure>
  {
    if s !in fs then Err(OsError(MissingKind(fs, s), s))
    else
      var dest := if IsDirAt(fs, d) then d + [Basename(s)] else d;
      if dest == s then
        Err(Failure(SameFile, "'" + ShowPath(s) + "' and '" + ShowPath(dest) + "' are the same file"))
      else if !IsDirAt(fs, Parent(dest)) then
        Err(OsError(MissingKind(fs, dest), dest))
      else if IsDirAt(fs, dest) then Err(OsError(IsADirectory, dest))
      else Ok(fs[dest := fs[s]])
  }

  /** shutil.copytree(s, d): d must not exist; os.makedirs creates it and its
      missing ancestors, and its error escapes as it is. The entries of s are
      listed before d is made, so a copy directly into s is a snapshot. A copy
      deeper into a subdirectory of s that already existed keeps recursing into
      its own output, writing partial copies, until copytree gives up with a
      shutil.Error that lists the nested ENAMETOOLONG failures (or a
      RecursionError); the model stands for all of that with one ENAMETOOLONG
      error naming d and no partial output. */
  function CopyTree(fs: Fs, s: Path, d: Path): Result<Fs, Failure>
  {
    if d in fs then Err(OsError(FileExists, d))
    else
      match MakeDirs(fs, d)
      case Err(e) => Err(e)
      case Ok(grown) =>
        if s < d && |d| > |s| + 1 && d[..|s| + 1] in fs then Err(OsError(NameTooLong, d))
        else Ok(Graft(grown, fs, s, d))
  }

  /** A file on the destination's path makes copytree fail in os.makedirs with
      NotADirectoryError, even when the destination lies inside the source. */
  lemma CopyTreeBlockedByFile(fs: Fs, s: Path, d: Path, k: nat)
    requires WellFormed(fs) && d !in fs && k < |d| && IsFileAt(fs, d[..k])
    ensures CopyTree(fs, s, d) == Err(OsError(NotADirectory, d))
  {
    MakeDirsSpec(fs, d);
    assert !ClearPath(fs, d);
    assert Parent(d) != d;
  }

  /** copy: copytree for a directory source, copy2 otherwise. */
  function Copy(fs: Fs, s: Path, d: Path): Result<Fs, Failure>
  {
    if IsDirAt(fs, s) then CopyTree(fs, s, d) else CopyFile(fs, s, d)
  }

  /** Where a copy lands: copy2 into an existing directory keeps the source's name. */
  function CopyDestination(fs: Fs, s: Path, d: Path): Path
  {
    if !IsDirAt(fs, s) && IsDirAt(fs, d) then d + [Basename(s)] else d
  }

  /** The missing ancestors of an absent d are made: its parent is then a
      directory and nothing lies below d yet. */
  lemma GrowForCopy(fs: Fs, d: Path)
    requires WellFormed(fs) && d !in fs && MakeDirs(fs, d).Ok?
    ensures var grown := MakeDirs(fs, d).value;
      && WellFormed(grown) && Extends(grown, fs)
      && IsDirAt(grown, Parent(d)) && !HasEntries(grown, d)
      && (forall q :: q in grown && q !in fs ==> q <= d)
  {
    var grown := MakeDirs(fs, d).value;
    MakeDirsSpec(fs, d);
    AbsentHasNoEntries(fs, d);
    var pd := Parent(d);
    assert pd[..|pd|] == pd;
    assert d[..|pd|] == pd;
    assert IsDirAt(grown, pd);
  }

  /** The last step of copytree: grow d with its missing ancestors and graft
      the tree at s there. */
  lemma CopyTreeGraftSpec(fs: Fs, s: Path, d: Path)
    requires WellFormed(fs) && s in fs && d !in fs && MakeDirs(fs, d).Ok?
    ensures
      var g := Graft(MakeDirs(fs, d).value, fs, s, d);
      && WellFormed(g)
      && (forall t :: s + t in fs ==> d + t in g && g[d + t] == fs[s + t])
      && Extends(g, fs)
      && (forall q :: q in g && q !in fs ==> q <= d || d <= q)
  {
    var grown := MakeDirs(fs, d).value;
    var g := Graft(grown, fs, s, d);
    GrowForCopy(fs, d);
    assert d != [];
    GraftWellFormed(grown, fs, s, d);
    RebaseCovers(fs, s, d);
    CopyTreeKeeps(fs, s, d);
  }

  /** copytree into an absent d keeps every old entry, and adds only d's
      ancestors and the copied tree. */
  lemma CopyTreeKeeps(fs: Fs, s: Path, d: Path)
    requires WellFormed(fs) && d !in fs && MakeDirs(fs, d).Ok?
    ensures
      var g := Graft(MakeDirs(fs, d).value, fs, s, d);
      && Extends(g, fs)
      && (forall q :: q in g && q !in fs ==> q <= d || d <= q)
  {
    var grown := MakeDirs(fs, d).value;
    var g := Graft(grown, fs, s, d);
    var r := Rebase(fs, s, d);
    GrowForCopy(fs, d);
    RebaseSpec(fs, s, d);
    AbsentHasNoEntries(fs, d);
    forall q | q in fs ensures q in g && g[q] == fs[q] {
      assert q !in r;
    }
    forall q | q in g && q !in fs ensures q <= d || d <= q {
      if q !in r { assert q in grown; }
    }
  }

  /** copy2 of a file: the destination gets the source's content. */
  lemma CopyFileSpec(fs: Fs, s: Path, d: Path)
    requires WellFormed(fs) && !IsDirAt(fs, s) && CopyFile(fs, s, d).Ok?
    ensures
      var g := CopyFile(fs, s, d).value;
      var dest := CopyDestination(fs, s, d);
      && WellFormed(g)
      && g == fs[dest := fs[s]]
      && fs[s].File?
  {
    var g := CopyFile(fs, s, d).value;
    var dest := CopyDestination(fs, s, d);
    forall q | q in g ensures ParentIsDir(g, q) {
      if q != dest {
        assert ParentIsDir(fs, q);
      }
    }
  }

  /** After a copy the destination holds the source's tree, and every old entry
      is still there unchanged except a file the copy overwrote. */
  lemma CopySpec(fs: Fs, s: Path, d: Path)
    requires WellFormed(fs) && Copy(fs, s, d).Ok?
    ensures
      var g := Copy(fs, s, d).value;
      var dest := CopyDestination(fs, s, d);
      && WellFormed(g)
      && (forall t :: s + t in fs ==> dest + t in g && g[dest + t] == fs[s + t])
      && (forall q :: q in fs && q != dest ==> q in g && g[q] == fs[q])
      && (forall q :: q in g && q !in fs ==> q <= dest || dest <= q)
  {
    if IsDirAt(fs, s) {
      CopyTreeGraftSpec(fs, s, d);
    } else {
      CopyFileSpec(fs, s, d);
      var dest := CopyDestination(fs, s, d);
      forall t | s + t in fs ensures s + t == s && dest + t == dest {
        if t != [] {
          AncestorIsDir(fs, s, s + t);
        }
      }
    }
  }

  // ------------------------------------------------------------- iterdir

  /** The names directly inside dir. */
  function ChildNames(fs: Fs, dir: Path): set<string>
  {
    set q | q in fs && |q| == |dir| + 1 && dir <= q :: q[|dir|]
  }

  predicate NoDuplicates(s: seq<string>)
  {
    forall i, j :: 0 <= i < j < |s| ==> s[i] != s[j]
  }

  /** Path.iterdir(): each name directly inside dir once, in an order the
      operating system chooses. */
  method IterDir(fs: Fs, dir: Path) returns (r: Result<seq<string>, Failure>)
    ensures dir !in fs ==> r == Err(OsError(MissingKind(fs, dir), dir))
    ensures IsFileAt(fs, dir) ==> r == Err(OsError(NotADirectory, dir))
    ensures IsDirAt(fs, dir) ==>
      && r.Ok?
      && (forall n :: n in r.value <==> n in ChildNames(fs, dir))
      && NoDuplicates(r.value)
  {
    if dir !in fs {
      return Err(OsError(MissingKind(fs, dir), dir));
    }
    if fs[dir].File? {
      return Err(OsError(NotADirectory, dir));
    }
    var all := ChildNames(fs, dir);
    var pending := all;
    var names: seq<string> := [];
    while pending != {}
      invariant pending <= all
      invariant forall n :: n in names <==> n in all && n !in pending
      invariant NoDuplicates(names)
      decreases |pending|
    {
      var n :| n in pending;
      names := names + [n];
      pending := pending - {n};
    }
    return Ok(names);
  }

  // ------------------------------------------------------------- the host

  /** The host file system, which the manager's operations change in place. */
  class Disk {
    var nodes: Fs

    ghost predicate Valid()
      reads this
    {
      WellFormed(nodes)
    }

    constructor (nodes: Fs)
      requires WellFormed(nodes)
      ensures Valid() && this.nodes == nodes
    {
      this.nodes := nodes;
    }
  }
}
