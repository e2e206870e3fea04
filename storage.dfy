/** The saved state: one JSON file, spot.json, holding the last spot, read
    with fallbacks and written through spot.tmp and an atomic replace. */
module Storage {
  import opened Wrappers
  import opened Paths

  /** The application state: the last directory hopped to, as text. */
  datatype State = State(lastSpot: string)

  /** What a reader finds in one file, at the level the reader tells apart. */
  datatype Record =
    | Absent                  // no such file
    | NotText                 // bytes that do not decode as UTF-8
    | NotJson                 // UTF-8 text that is not valid JSON
    | WrongShape              // JSON, but not an object whose only key is "last_spot" with a string value
    | Saved(lastSpot: string) // {"last_spot": ...}, as json.dumps(asdict(state)) writes it

  /** The exceptions a read lets escape. */
  datatype ReadError = TypeError | UnicodeDecodeError

  /** json.dumps(asdict(st)). */
  function Encode(st: State): Record
  {
    Saved(st.lastSpot)
  }

  /** Storage.read on a record; a missing or unparsable file falls back to the
      process's working directory. */
  function Decode(rec: Record, realCwd: Path): Result<State, ReadError>
  {
    match rec
    case Absent => Ok(State(ShowPath(realCwd)))
    case NotText => Err(UnicodeDecodeError)
    case NotJson => Ok(State(ShowPath(realCwd)))
    case WrongShape => Err(TypeError)
    case Saved(s) => Ok(State(s))
  }

  /** The records for which read() falls back to Path.cwd(), and so needs the
      process's directory to exist. */
  predicate ReadsCwd(rec: Record)
  {
    rec.Absent? || rec.NotJson?
  }

  /** A written state reads back as itself, wherever the process runs. */
  lemma ReadAfterWrite(st: State, realCwd: Path)
    ensures Decode(Encode(st), realCwd) == Ok(st)
  {
  }

  /** A read fails exactly on undecodable bytes and on JSON of the wrong shape;
      a missing or unparsable file gives the working directory. */
  lemma DecodeCases(rec: Record, realCwd: Path)
    ensures Decode(rec, realCwd).Err? <==> rec == NotText || rec == WrongShape
    ensures rec == NotText ==> Decode(rec, realCwd) == Err(UnicodeDecodeError)
    ensures rec == WrongShape ==> Decode(rec, realCwd) == Err(TypeError)
    ensures rec == Absent || rec == NotJson ==> Decode(rec, realCwd) == Ok(State(ShowPath(realCwd)))
  {
  }

  /** The two files a write touches: spot.json and spot.tmp. */
  datatype Files = Files(record: Record, tmp: Record)

  /** The states the files pass through during Storage.write: spot.tmp is
      truncated and written (a crash in between leaves it unparsable), then
      replaced onto spot.json in one step. */
  function WriteSteps(f: Files, st: State): (steps: seq<Files>)
    ensures |steps| == 4 && steps[0] == f
  {
    [f, Files(f.record, NotJson), Files(f.record, Encode(st)), Files(Encode(st), Absent)]
  }

  /** Every state a concurrent reader can observe during a write reads as the
      old state or the new one, never as a partial file, and the last one
      reads as the new state. */
  lemma WriteIsAtomic(f: Files, st: State)
    ensures forall i, realCwd :: 0 <= i < |WriteSteps(f, st)| ==>
      Decode(WriteSteps(f, st)[i].record, realCwd) == Decode(f.record, realCwd) ||
      Decode(WriteSteps(f, st)[i].record, realCwd) == Ok(st)
    ensures WriteSteps(f, st)[3] == Files(Encode(st), Absent)
    ensures forall realCwd :: Decode(WriteSteps(f, st)[3].record, realCwd) == Ok(st)
  {
    forall realCwd ensures Decode(Encode(st), realCwd) == Ok(st) {
      ReadAfterWrite(st, realCwd);
    }
  }

  /** The configuration files, changed in place by each write. */
  class Store {
    var record: Record
    var tmp: Record
    /** Every state the two files have been in, in order. */
    ghost var history: seq<Files>

    constructor (record: Record, tmp: Record)
      ensures this.record == record && this.tmp == tmp
      ensures history == [Files(record, tmp)]
    {
      this.record := record;
      this.tmp := tmp;
      history := [Files(record, tmp)];
    }

    /** Storage.read. */
    function Read(realCwd: Path): Result<State, ReadError>
      reads this
    {
      Decode(record, realCwd)
    }

    /** Storage.write: the files pass through WriteSteps, and at every step a
        reader sees the old state or the new one. */
    method Write(st: State)
      modifies this
      ensures Files(record, tmp) == Files(Encode(st), Absent)
      ensures history == old(history) + WriteSteps(old(Files(record, tmp)), st)[1..]
      ensures forall i, realCwd :: |old(history)| <= i < |history| ==>
        Decode(history[i].record, realCwd) == old(Read(realCwd)) ||
        Decode(history[i].record, realCwd) == Ok(st)
      ensures forall realCwd :: Read(realCwd) == Ok(st)
    {
      WriteIsAtomic(Files(record, tmp), st);
      tmp := NotJson;       // write_text truncates spot.tmp first
      history := history + [Files(record, tmp)];
      tmp := Encode(st);
      history := history + [Files(record, tmp)];
      record, tmp := tmp, Absent;   // tmp.replace(path)
      history := history + [Files(record, tmp)];
    }
  }

  /** A second write replaces the first completely: the last writer wins. */
  lemma LastWriteWins(f: Files, a: State, b: State, realCwd: Path)
    ensures WriteSteps(WriteSteps(f, a)[3], b)[3] == WriteSteps(f, b)[3]
    ensures Decode(WriteSteps(WriteSteps(f, a)[3], b)[3].record, realCwd) == Ok(b)
  {
  }
}
