/** POSIX paths as pathlib handles them: parsing a string into a pure path,
    str() of a path, the "/" join operator, and resolve() with the symlink
    step left out (".." and "." are collapsed lexically). */
module Paths {

  /** A resolved absolute path: the components below "/", in order. */
  type Path = seq<string>

  /** A pure path as pathlib holds it: anchored at "/" or relative, and its parts. */
  datatype PathSpec = PathSpec(absolute: bool, parts: seq<string>)

  /** A part that survives parsing: not empty, not ".", and free of "/". */
  predicate IsPart(c: string) { c != "" && c != "." && '/' !in c }

  /** A component of a resolved path: a part that is not "..". */
  predicate IsName(c: string) { IsPart(c) && c != ".." }

  predicate AllParts(ps: seq<string>) { forall i :: 0 <= i < |ps| ==> IsPart(ps[i]) }

  predicate ValidSpec(p: PathSpec) { AllParts(p.parts) }

  predicate IsResolved(p: Path) { forall i :: 0 <= i < |p| ==> IsName(p[i]) }

  function AsSpec(p: Path): PathSpec { PathSpec(true, p) }

  /** pathlib's parent: the parent of "/" is "/" itself. */
  function Parent(p: Path): (r: Path)
    ensures p != [] ==> |r| == |p| - 1 && r <= p
  {
    if p == [] then [] else p[..|p| - 1]
  }

  /** Where the first segment of s ends: the first "/" or the end of s. */
  function SegmentEnd(s: string): (n: nat)
    ensures n <= |s|
    ensures forall i :: 0 <= i < n ==> s[i] != '/'
    ensures n < |s| ==> s[n] == '/'
  {
    if s == [] || s[0] == '/' then 0 else 1 + SegmentEnd(s[1..])
  }

  /** The parts of a path string: runs of "/" separate them, and "." parts are dropped. */
  function Parts(s: string): (r: seq<string>)
    ensures AllParts(r)
    decreases |s|
  {
    if s == [] then []
    else if s[0] == '/' then Parts(s[1..])
    else
      var n := SegmentEnd(s);
      assert n > 0;
      var seg := s[..n];
      assert '/' !in seg by {
        forall i | 0 <= i < |seg| ensures seg[i] != '/' { assert seg[i] == s[i]; }
      }
      (if seg == "." then [] else [seg]) + Parts(s[n..])
  }

  /** Path(s). */
  function Parse(s: string): (p: PathSpec)
    ensures ValidSpec(p)
  {
    PathSpec(|s| > 0 && s[0] == '/', Parts(s))
  }

  function JoinParts(ps: seq<string>): string
  {
    if ps == [] then "" else if |ps| == 1 then ps[0] else ps[0] + "/" + JoinParts(ps[1..])
  }

  /** str(p): "/" before an anchored path, and "." for the empty relative path. */
  function Show(p: PathSpec): string
  {
    if p.absolute then "/" + JoinParts(p.parts)
    else if p.parts == [] then "."
    else JoinParts(p.parts)
  }

  function ShowPath(p: Path): string { Show(AsSpec(p)) }

  lemma {:induction false} SegmentEndOf(c: string, t: string)
    requires '/' !in c
    requires t == [] || t[0] == '/'
    ensures SegmentEnd(c + t) == |c|
  {
    if c != [] {
      assert (c + t)[1..] == c[1..] + t;
      SegmentEndOf(c[1..], t);
    } else {
      assert c + t == t;
    }
  }

  /** A part followed by a separator (or nothing) is split off whole. */
  lemma PartsOfSegment(c: string, t: string)
    requires IsPart(c)
    requires t == [] || t[0] == '/'
    ensures Parts(c + t) == [c] + Parts(t)
  {
    SegmentEndOf(c, t);
    var s := c + t;
    assert s[0] == c[0];
    assert s[..|c|] == c;
    assert s[|c|..] == t;
  }

  /** Splitting the joined parts gives the parts back. */
  lemma {:induction false} PartsOfJoin(ps: seq<string>)
    requires AllParts(ps)
    ensures Parts(JoinParts(ps)) == ps
  {
    if |ps| == 1 {
      PartsOfSegment(ps[0], "");
      assert ps[0] + "" == ps[0];
    } else if |ps| > 1 {
      var t := "/" + JoinParts(ps[1..]);
      assert JoinParts(ps) == ps[0] + t;
      PartsOfSegment(ps[0], t);
      assert t[1..] == JoinParts(ps[1..]);
      PartsOfJoin(ps[1..]);
      assert ps == [ps[0]] + ps[1..];
    }
  }

  lemma JoinStartsWithPart(ps: seq<string>)
    requires AllParts(ps) && ps != []
    ensures JoinParts(ps) != [] && JoinParts(ps)[0] == ps[0][0]
  {
  }

  /** Printing a path and parsing the text back gives the same path. */
  lemma ParseShow(p: PathSpec)
    requires ValidSpec(p)
    ensures Parse(Show(p)) == p
  {
    PartsOfJoin(p.parts);
    var s := Show(p);
    if p.absolute {
      assert s[1..] == JoinParts(p.parts);
    } else if p.parts == [] {
      assert SegmentEnd(".") == 1;
      assert "."[1..] == "";
    } else {
      JoinStartsWithPart(p.parts);
    }
  }

  /** base / p: an anchored right-hand side replaces the left. */
  function Join(base: PathSpec, p: PathSpec): PathSpec
  {
    if p.absolute then p else PathSpec(base.absolute, base.parts + p.parts)
  }

  /** Walks the parts from base: ".." steps up (staying at "/"), "." stays, a name steps down. */
  function Normalize(base: Path, parts: seq<string>): (r: Path)
    ensures IsResolved(base) && AllParts(parts) ==> IsResolved(r)
    decreases |parts|
  {
    if parts == [] then base
    else if parts[0] == "." then Normalize(base, parts[1..])
    else if parts[0] == ".." then Normalize(Parent(base), parts[1..])
    else Normalize(base + [parts[0]], parts[1..])
  }

  /** p.resolve(): a relative path is taken from the process's working directory. */
  function Resolve(p: PathSpec, realCwd: Path): (r: Path)
    ensures IsResolved(realCwd) && ValidSpec(p) ==> IsResolved(r)
  {
    Normalize(if p.absolute then [] else realCwd, p.parts)
  }

  lemma {:induction false} NormalizeAppend(base: Path, a: seq<string>, b: seq<string>)
    ensures Normalize(base, a + b) == Normalize(Normalize(base, a), b)
    decreases |a|
  {
    if a == [] {
      assert a + b == b;
    } else {
      assert (a + b)[0] == a[0] && (a + b)[1..] == a[1..] + b;
      var next := if a[0] == "." then base else if a[0] == ".." then Parent(base) else base + [a[0]];
      NormalizeAppend(next, a[1..], b);
    }
  }

  /** Names without "." or ".." are appended as they are. */
  lemma {:induction false} NormalizeNames(base: Path, p: Path)
    requires IsResolved(p)
    ensures Normalize(base, p) == base + p
    decreases |p|
  {
    if p == [] {
      assert base + p == base;
    } else {
      assert IsName(p[0]);
      NormalizeNames(base + [p[0]], p[1..]);
      assert base + [p[0]] + p[1..] == base + p;
    }
  }

  /** An anchored path resolves the same way whatever it is joined to. */
  lemma ResolveAbsolute(b1: PathSpec, b2: PathSpec, p: PathSpec, c1: Path, c2: Path)
    requires p.absolute
    ensures Resolve(Join(b1, p), c1) == Resolve(Join(b2, p), c2)
  {
  }

  /** A relative path resolves from wherever its base resolves to. */
  lemma ResolveRelative(base: PathSpec, p: PathSpec, c: Path)
    requires !p.absolute
    ensures Resolve(Join(base, p), c) == Normalize(Resolve(base, c), p.parts)
  {
    NormalizeAppend(if base.absolute then [] else c, base.parts, p.parts);
  }

  lemma ResolvedParts(p: Path)
    requires IsResolved(p)
    ensures AllParts(p)
  {
    forall i | 0 <= i < |p| ensures IsPart(p[i]) { assert IsName(p[i]); }
  }

  /** The printed form of a resolved path resolves to that path again, whatever the base. */
  lemma ResolveShown(p: Path, base: PathSpec, c: Path)
    requires IsResolved(p)
    ensures Parse(ShowPath(p)) == AsSpec(p)
    ensures Resolve(Join(base, Parse(ShowPath(p))), c) == p
  {
    ResolvedParts(p);
    ParseShow(AsSpec(p));
    NormalizeNames([], p);
    assert [] + p == p;
  }
}
