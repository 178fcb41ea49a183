/** logging.go: CopyWithTrace, against every reader and every writer that takes what it says it took. */
module Copy {
  import opened Bytes

  datatype ReadError = NoReadError | EndOfFile | ReadFailed
  datatype ReadEvent = ReadEvent(chunk: seq<Byte>, err: ReadError)

  /** An io.Reader that plays out its script and is then at end-of-file. */
  class Source {
    var script: seq<ReadEvent>

    constructor (script: seq<ReadEvent>)
      ensures this.script == script
    {
      this.script := script;
    }

    method Read() returns (chunk: seq<Byte>, err: ReadError)
      modifies this
      ensures old(script) == [] ==> chunk == [] && err == EndOfFile && script == []
      ensures old(script) != [] ==> ReadEvent(chunk, err) == old(script)[0] && script == old(script)[1..]
    {
      if script == [] {
        return [], EndOfFile;
      }
      chunk, err := script[0].chunk, script[0].err;
      script := script[1..];
    }
  }

  /** What one call of Write reports: a count, possibly out of range, and whether there was an error. */
  datatype WriteEvent = WriteEvent(reported: int, failed: bool)

  /** An io.Writer that plays out its script and then takes everything; it stores what it reports. */
  class Sink {
    var contents: seq<Byte>
    var script: seq<WriteEvent>
    var refused: bool   // some write did not take all it was given, or failed

    constructor (script: seq<WriteEvent>)
      ensures contents == [] && this.script == script && !refused
    {
      contents, this.script, refused := [], script, false;
    }

    method Write(p: seq<Byte>) returns (n: int, failed: bool)
      modifies this
      ensures contents == old(contents) + (if 0 <= n <= |p| then p[..n] else [])
      ensures refused == (old(refused) || failed || n != |p|)
    {
      if script == [] {
        n, failed := |p|, false;
      } else {
        n, failed := script[0].reported, script[0].failed;
        script := script[1..];
      }
      if 0 <= n <= |p| {
        contents := contents + p[..n];
      }
      refused := refused || failed || n != |p|;
    }
  }

  /** Everything the reader hands out before, and together with, its first error. */
  function Data(script: seq<ReadEvent>): seq<Byte> {
    if script == [] then []
    else if script[0].err != NoReadError then script[0].chunk
    else script[0].chunk + Data(script[1..])
  }

  function Ends(script: seq<ReadEvent>): ReadError {
    if script == [] then EndOfFile
    else if script[0].err != NoReadError then script[0].err
    else Ends(script[1..])
  }

  function Chunks(events: seq<ReadEvent>): seq<Byte> {
    if events == [] then [] else events[0].chunk + Chunks(events[1..])
  }

  /** A reader hands out its chunks up to and including that of its first error, the end if it has none. */
  lemma {:induction false} DataIs(script: seq<ReadEvent>, n: nat)
    requires n <= |script| && forall i | 0 <= i < n :: script[i].err == NoReadError
    requires n < |script| ==> script[n].err != NoReadError
    ensures Data(script) == Chunks(if n < |script| then script[..n + 1] else script)
    ensures Ends(script) == if n < |script| then script[n].err else EndOfFile
  {
    if n > 0 {
      DataIs(script[1..], n - 1);
      if n < |script| { assert script[..n + 1][1..] == script[1..][..n]; }
    }
  }

  datatype CopyError = Nil | FromReader | FromWriter

  /** CopyWithTrace */
  method CopyWithTrace(dst: Sink, src: Source) returns (written: nat, err: CopyError)
    requires !dst.refused
    modifies dst, src
    ensures written <= |Data(old(src.script))|
    ensures dst.contents == old(dst.contents) + Data(old(src.script))[..written]
    ensures err == FromWriter <==> dst.refused
    ensures err != FromWriter ==> written == |Data(old(src.script))|
    ensures err == Nil ==> Ends(old(src.script)) == EndOfFile
    ensures err == FromReader ==> Ends(old(src.script)) == ReadFailed
  {
    written, err := 0, Nil;
    ghost var all, done := Data(src.script), [];
    while true
      invariant all == done + Data(src.script) && written == |done| && err == Nil && !dst.refused
      invariant dst.contents == old(dst.contents) + done
      invariant Ends(src.script) == Ends(old(src.script))
      decreases |src.script|
    {
      ghost var before := src.script;
      var chunk, er := src.Read();
      ghost var rest := if er == NoReadError then Data(src.script) else [];
      assert Data(before) == chunk + rest;
      Associative(done, chunk, rest);
      var nr := |chunk|;
      if nr > 0 {
        var nw, ew := dst.Write(chunk);
        if nw < 0 || nr < nw {
          nw, ew := 0, true;
        }
        written := written + nw;
        Appended(old(dst.contents), done, chunk, rest, nw);
        if ew || nr != nw {
          err := FromWriter;
          assert dst.contents == old(dst.contents) + all[..written];
          return;
        }
      }
      done := done + chunk;
      if er != NoReadError {
        if er != EndOfFile {
          err := FromReader;
        }
        assert done == all && all[..written] == all;
        return;
      }
    }
  }

  /** The first n bytes of a chunk, seen from the whole. */
  lemma Appended(start: seq<Byte>, done: seq<Byte>, chunk: seq<Byte>, rest: seq<Byte>, n: nat)
    requires n <= |chunk|
    ensures (start + done) + chunk[..n] == start + (done + chunk[..n])
    ensures done + chunk[..n] == (done + (chunk + rest))[..|done| + n]
    ensures n == 0 ==> start + done == start + (done + chunk[..n])
    ensures n == |chunk| ==> chunk[..n] == chunk
  {}
}
