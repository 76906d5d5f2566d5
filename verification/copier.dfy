/**
 * homework03's `Copy`: skip the offset, then read chunk by chunk. Each chunk
 * is case-converted, cut at the byte limit and trimmed before it is written.
 * At the end the writer is flushed and closed. The reader, writer and
 * converter are abstract: the reader and writer are scripts of the results
 * their calls return, and the converter is any pair of state-passing
 * functions.
 */
module Copier {
  import opened Wrappers
  import opened GoStrings
  import opened Options
  import Conv

  /** What one `Read` call returns: some bytes, `io.EOF`, or another error. */
  datatype ReadResult = Data(bytes: string) | EOF | ReadFailed(err: string)

  /** What one `Write` call returns: the count written, or an error. */
  datatype WriteResult = Wrote(n: nat) | WriteFailed(err: string)

  /** What a run of `Copy` did, call by call. */
  datatype Trace = Trace(
    consumed: nat,             // read results used
    cased: seq<string>,        // the outputs of Case, one per non-empty chunk
    toTrim: seq<string>,       // what was handed to Trim
    trimmed: seq<string>,      // what Trim gave back
    written: seq<string>,      // what was handed to a Write that succeeded
    flushed: bool,
    closed: bool)

  const Untouched: Trace := Trace(0, [], [], [], [], false, false)

  function Concat(ss: seq<string>): string {
    Conv.Concat(ss)
  }

  /** The bytes of the non-empty chunks among `rs`. */
  function Chunks(rs: seq<ReadResult>): (cs: seq<string>)
    ensures |cs| <= |rs|
  {
    if |rs| == 0 then []
    else
      var last := rs[|rs| - 1];
      Chunks(rs[..|rs| - 1]) + if last.Data? && |last.bytes| > 0 then [last.bytes] else []
  }

  function Min(a: int, b: int): int {
    if a <= b then a else b
  }

  /** The message of a short write. */
  function LostMessage(lost: int): string {
    "write error: " + Itoa(lost) + " bytes lost"
  }

  // ---------------------------------------------------------------------
  // What holds when Copy returns
  // ---------------------------------------------------------------------

  /**
   * Reading: every read result used before the last was data, and there is
   * one Case call per non-empty chunk among them.
   */
  predicate ReadFacts(t: Trace, readResults: seq<ReadResult>) {
    t.consumed <= |readResults| &&
    (forall i :: 0 <= i < t.consumed - 1 ==> readResults[i].Data?) &&
    |t.cased| == |Chunks(readResults[..t.consumed])|
  }

  /**
   * The limit: every converted chunk reaches Trim whole except the last,
   * which is cut to a prefix. With no limit nothing is cut. With a limit,
   * Trim receives exactly the first `limit` bytes, or all of them when there
   * are fewer, and reading stops at the first chunk that passes the limit.
   */
  predicate LimitFacts(t: Trace, limit: int) {
    var n := |t.cased|;
    |t.toTrim| == n &&
    (forall i :: 0 <= i < n - 1 ==> t.toTrim[i] == t.cased[i]) &&
    (n > 0 ==> HasPrefix(t.cased[n - 1], t.toTrim[n - 1])) &&
    (limit == -1 ==> t.toTrim == t.cased) &&
    (limit >= 0 ==> |Concat(t.toTrim)| == Min(limit, |Concat(t.cased)|)) &&
    (limit >= 0 && n > 0 ==> |Concat(t.cased[..n - 1])| <= limit)
  }

  /** Writing: every trimmed chunk was handed to Write in order, and only a failing last one is missing. */
  predicate WriteFacts(t: Trace) {
    |t.trimmed| == |t.toTrim| &&
    |t.written| <= |t.trimmed| <= |t.written| + 1 &&
    t.written == t.trimmed[..|t.written|]
  }

  /** Before the limit is reached, nothing is cut. */
  lemma Uncut(t: Trace, limit: int)
    requires t.toTrim == t.cased && limit >= -1
    requires limit >= 0 ==> |Concat(t.cased)| <= limit
    ensures LimitFacts(t, limit)
  {
    var n := |t.cased|;
    if limit >= 0 && n > 0 {
      assert Concat(t.cased) == Concat(t.cased[..n - 1]) + t.cased[n - 1];
    }
  }

  /** The chunk that passes the limit is cut to what is left of it, and the limit is met exactly. */
  lemma Cut(t: Trace, limit: int)
    requires limit >= 0 && |t.cased| > 0 && |t.toTrim| == |t.cased|
    requires var n := |t.cased|;
      t.toTrim[..n - 1] == t.cased[..n - 1] &&
      |Concat(t.cased[..n - 1])| <= limit < |Concat(t.cased)| &&
      t.toTrim[n - 1] == t.cased[n - 1][..limit - |Concat(t.cased[..n - 1])|]
    ensures LimitFacts(t, limit)
  {
    var n := |t.cased|;
    assert Concat(t.cased) == Concat(t.cased[..n - 1]) + t.cased[n - 1];
    assert Concat(t.toTrim) == Concat(t.toTrim[..n - 1]) + t.toTrim[n - 1];
    assert forall i :: 0 <= i < n - 1 ==> t.toTrim[i] == t.toTrim[..n - 1][i];
  }

  /**
   * What reaches Trim is a prefix of what Case produced: all of it with no
   * limit, and exactly the first `limit` bytes (or everything, when shorter)
   * with one.
   */
  lemma TrimmedInputIsPrefix(t: Trace, limit: int)
    requires LimitFacts(t, limit) && limit >= -1
    ensures HasPrefix(Concat(t.cased), Concat(t.toTrim))
    ensures limit == -1 ==> Concat(t.toTrim) == Concat(t.cased)
    ensures limit >= 0 ==> Concat(t.toTrim) == Concat(t.cased)[..Min(limit, |Concat(t.cased)|)]
  {
    var n := |t.cased|;
    if n > 0 {
      assert t.toTrim[..n - 1] == t.cased[..n - 1];
      assert Concat(t.cased) == Concat(t.cased[..n - 1]) + t.cased[n - 1];
      assert Concat(t.toTrim) == Concat(t.cased[..n - 1]) + t.toTrim[n - 1];
      assert HasPrefix(Concat(t.cased), Concat(t.toTrim));
    }
  }

  /** A read result appended to those used. */
  lemma ReadOne(readResults: seq<ReadResult>, i: nat)
    requires i < |readResults|
    ensures var r := readResults[i];
      Chunks(readResults[..i + 1]) ==
        Chunks(readResults[..i]) + if r.Data? && |r.bytes| > 0 then [r.bytes] else []
  {
    assert readResults[..i + 1][..i] == readResults[..i];
  }

  // ---------------------------------------------------------------------
  // Copy
  // ---------------------------------------------------------------------

  /** One chunk through Case, the limit and Trim. */
  datatype Chunk<S> = Chunk(s: S, cased: string, buf: string, trimmed: string, reached: bool)

  /** `copier.go` lines 47-56: convert the case, count, cut at the limit, trim. */
  function Convert<S>(s: S, readBytes: int, bytes: string, limit: int,
                      caseStep: (S, string) -> (S, string), trimStep: (S, string) -> (S, string)): (c: Chunk<S>)
    requires limit >= -1 && (limit >= 0 ==> readBytes <= limit)
    ensures c.cased == caseStep(s, bytes).1
    ensures (c.s, c.trimmed) == trimStep(caseStep(s, bytes).0, c.buf)
    ensures c.reached <==> limit != -1 && readBytes + |c.cased| > limit
    ensures !c.reached ==> c.buf == c.cased
    ensures c.reached ==> c.buf == c.cased[..limit - readBytes]
  {
    var (s1, cased) := caseStep(s, bytes);
    var total := readBytes + |cased|;
    var reached := limit != -1 && total > limit;
    var buf := if reached then cased[..|cased| - (total - limit)] else cased;
    var (s2, trimmed) := trimStep(s1, buf);
    Chunk(s2, cased, buf, trimmed, reached)
  }

  /** Where the converter stands after a sequence of chunks. */
  datatype Progress<S> = Progress(s: S, cased: seq<string>, toTrim: seq<string>, trimmed: seq<string>, reached: bool)

  /**
   * The reference for what the loop does to the chunks it reads: each goes
   * through Case, is cut to the room the limit leaves, and goes through
   * Trim, with the converter state passed along; nothing after the chunk
   * that passes the limit is looked at.
   */
  function Pipeline<S>(cnv: S, chunks: seq<string>, limit: int,
                       caseStep: (S, string) -> (S, string), trimStep: (S, string) -> (S, string)): (p: Progress<S>)
    requires limit >= -1
    ensures |p.cased| == |p.toTrim| == |p.trimmed| <= |chunks|
    ensures p.reached ==> limit >= 0 && |Concat(p.cased)| > limit
    ensures !p.reached && limit >= 0 ==> |Concat(p.cased)| <= limit
    decreases |chunks|
  {
    if |chunks| == 0 then Progress(cnv, [], [], [], false)
    else
      var p := Pipeline(cnv, chunks[..|chunks| - 1], limit, caseStep, trimStep);
      if p.reached then p
      else
        var (s1, cased) := caseStep(p.s, chunks[|chunks| - 1]);
        var room := limit - |Concat(p.cased)|;
        var reached := limit != -1 && |cased| > room;
        var buf := if reached then cased[..room] else cased;
        var (s2, trimmed) := trimStep(s1, buf);
        ConcatSnoc(p.cased, cased);
        Progress(s2, p.cased + [cased], p.toTrim + [buf], p.trimmed + [trimmed], reached)
  }

  lemma ConcatSnoc(ss: seq<string>, x: string)
    ensures Concat(ss + [x]) == Concat(ss) + x
  {
    assert (ss + [x])[..|ss|] == ss;
  }

  /** One more chunk, before the limit is reached, is one more `Convert`. */
  lemma PipelineSnoc<S>(cnv: S, chunks: seq<string>, b: string, limit: int,
                        caseStep: (S, string) -> (S, string), trimStep: (S, string) -> (S, string))
    requires limit >= -1 && !Pipeline(cnv, chunks, limit, caseStep, trimStep).reached
    ensures var p := Pipeline(cnv, chunks, limit, caseStep, trimStep);
      var c := Convert(p.s, |Concat(p.cased)|, b, limit, caseStep, trimStep);
      Pipeline(cnv, chunks + [b], limit, caseStep, trimStep) ==
        Progress(c.s, p.cased + [c.cased], p.toTrim + [c.buf], p.trimmed + [c.trimmed], c.reached)
  {
    assert (chunks + [b])[..|chunks|] == chunks;
  }

  /** The last chunk, before the limit is reached, is one more `Convert`. */
  lemma PipelineLast<S>(cnv: S, chunks: seq<string>, limit: int,
                        caseStep: (S, string) -> (S, string), trimStep: (S, string) -> (S, string))
    requires limit >= -1 && |chunks| > 0
    requires !Pipeline(cnv, chunks[..|chunks| - 1], limit, caseStep, trimStep).reached
    ensures var p := Pipeline(cnv, chunks[..|chunks| - 1], limit, caseStep, trimStep);
      var c := Convert(p.s, |Concat(p.cased)|, chunks[|chunks| - 1], limit, caseStep, trimStep);
      Pipeline(cnv, chunks, limit, caseStep, trimStep) ==
        Progress(c.s, p.cased + [c.cased], p.toTrim + [c.buf], p.trimmed + [c.trimmed], c.reached)
  {
  }

  /** No chunks, no progress. */
  lemma PipelineEmpty<S>(cnv: S, chunks: seq<string>, limit: int,
                         caseStep: (S, string) -> (S, string), trimStep: (S, string) -> (S, string))
    requires limit >= -1 && |chunks| == 0
    ensures Pipeline(cnv, chunks, limit, caseStep, trimStep) == Progress(cnv, [], [], [], false)
    ensures Concat([]) == []
  {
  }

  /** Once the limit is passed, later chunks change nothing. */
  lemma PipelineStops<S>(cnv: S, chunks: seq<string>, limit: int,
                         caseStep: (S, string) -> (S, string), trimStep: (S, string) -> (S, string))
    requires limit >= -1 && |chunks| > 0
    requires Pipeline(cnv, chunks[..|chunks| - 1], limit, caseStep, trimStep).reached
    ensures Pipeline(cnv, chunks, limit, caseStep, trimStep) == Pipeline(cnv, chunks[..|chunks| - 1], limit, caseStep, trimStep)
  {
  }

  /** The trace's Case, cut and Trim records are the reference's for the chunks read so far. */
  ghost predicate Converted<S>(t: Trace, readResults: seq<ReadResult>, cnv: S,
                         caseStep: (S, string) -> (S, string), trimStep: (S, string) -> (S, string), limit: int) {
    t.consumed <= |readResults| && limit >= -1 &&
    var p := Pipeline(cnv, Chunks(readResults[..t.consumed]), limit, caseStep, trimStep);
    t.cased == p.cased && t.toTrim == p.toTrim && t.trimmed == p.trimmed
  }

  /**
   * How the loop ends: with EOF, the end of the script or the limit and no
   * error, or with an error and `ended` false; a failed read is returned as
   * it is. Nothing is flushed or closed yet.
   */
  predicate EndFacts(err: Option<string>, t: Trace, ended: bool, readResults: seq<ReadResult>, limit: int)
    requires t.consumed <= |readResults|
  {
    !t.flushed && !t.closed &&
    (ended ==>
       err.None? && t.written == t.trimmed &&
       (t.consumed == |readResults| || (0 < t.consumed && readResults[t.consumed - 1].EOF?) ||
        (limit >= 0 && |Concat(t.cased)| > limit))) &&
    (!ended ==> err.Some?) &&
    (t.consumed > 0 && readResults[t.consumed - 1].ReadFailed? ==>
       !ended && err == Some(readResults[t.consumed - 1].err))
  }

  /** The loop's variables: converter state, bytes counted, writes used, and how it stopped. */
  datatype Loop<S> = Loop(s: S, readBytes: int, w: nat, t: Trace, err: Option<string>, done: bool, ended: bool)

  /** The loop invariant: every read so far was data and nothing has been cut yet. */
  predicate Running<S>(st: Loop<S>, readResults: seq<ReadResult>, limit: int) {
    var t := st.t;
    !st.done && st.err.None? && st.ended && limit >= -1 &&
    t.consumed <= |readResults| &&
    (forall j :: 0 <= j < t.consumed ==> readResults[j].Data?) &&
    |t.cased| == |Chunks(readResults[..t.consumed])| &&
    st.readBytes == |Concat(t.cased)| && t.toTrim == t.cased &&
    (limit >= 0 ==> st.readBytes <= limit) &&
    t.written == t.trimmed && |t.trimmed| == |t.toTrim| &&
    !t.flushed && !t.closed
  }

  /** What holds once the loop has stopped. */
  predicate Finished<S>(st: Loop<S>, readResults: seq<ReadResult>, limit: int) {
    st.done && ReadFacts(st.t, readResults) && LimitFacts(st.t, limit) && WriteFacts(st.t) &&
    EndFacts(st.err, st.t, st.ended, readResults, limit)
  }

  /** One pass of the loop body of `copier.go` (lines 33-66), on the next read result. */
  function Step<S>(st: Loop<S>, readResults: seq<ReadResult>, writeResults: seq<WriteResult>,
                   caseStep: (S, string) -> (S, string), trimStep: (S, string) -> (S, string), limit: int): Loop<S>
    requires Running(st, readResults, limit) && st.t.consumed < |readResults|
  {
    var r := readResults[st.t.consumed];
    var t := st.t.(consumed := st.t.consumed + 1);
    if !r.Data? then
      st.(t := t, err := if r.EOF? then None else Some(r.err), done := true, ended := r.EOF?)
    else if |r.bytes| == 0 then
      st.(t := t)
    else
      var c := Convert(st.s, st.readBytes, r.bytes, limit, caseStep, trimStep);
      var t := t.(cased := t.cased + [c.cased], toTrim := t.toTrim + [c.buf], trimmed := t.trimmed + [c.trimmed]);
      var wr := if st.w < |writeResults| then writeResults[st.w] else Wrote(|c.trimmed|);
      var st := st.(s := c.s, readBytes := st.readBytes + |c.cased|, w := st.w + 1);
      if wr.WriteFailed? then
        st.(t := t, err := Some(wr.err), done := true, ended := false)
      else if wr.n < |c.trimmed| then
        st.(t := t, err := Some(LostMessage(|c.trimmed| - wr.n)), done := true, ended := false)
      else
        st.(t := t.(written := t.written + [c.trimmed]), done := c.reached)
  }

  /** A read that is not data ends the loop. */
  lemma {:induction false} StepStops<S>(st: Loop<S>, readResults: seq<ReadResult>, writeResults: seq<WriteResult>,
                     caseStep: (S, string) -> (S, string), trimStep: (S, string) -> (S, string), limit: int)
    requires Running(st, readResults, limit) && st.t.consumed < |readResults|
    requires !readResults[st.t.consumed].Data?
    ensures Finished(Step(st, readResults, writeResults, caseStep, trimStep, limit), readResults, limit)
  {
    var st' := Step(st, readResults, writeResults, caseStep, trimStep, limit);
    ReadOne(readResults, st.t.consumed);
    Uncut(st'.t, limit);
  }

  /** An empty read changes nothing but the count of reads. */
  lemma {:induction false} StepSkips<S>(st: Loop<S>, readResults: seq<ReadResult>, writeResults: seq<WriteResult>,
                     caseStep: (S, string) -> (S, string), trimStep: (S, string) -> (S, string), limit: int)
    requires Running(st, readResults, limit) && st.t.consumed < |readResults|
    requires readResults[st.t.consumed] == Data([])
    ensures Running(Step(st, readResults, writeResults, caseStep, trimStep, limit), readResults, limit)
  {
    ReadOne(readResults, st.t.consumed);
  }

  /** The read and cut part of a chunk step, before its write. */
  lemma {:induction false} ChunkRead<S>(st: Loop<S>, readResults: seq<ReadResult>, limit: int, c: Chunk<S>, t: Trace)
    requires Running(st, readResults, limit) && st.t.consumed < |readResults|
    requires readResults[st.t.consumed].Data? && |readResults[st.t.consumed].bytes| > 0
    requires c.reached <==> limit != -1 && st.readBytes + |c.cased| > limit
    requires !c.reached ==> c.buf == c.cased
    requires c.reached ==> c.buf == c.cased[..limit - st.readBytes]
    requires t == st.t.(consumed := st.t.consumed + 1, cased := st.t.cased + [c.cased],
                        toTrim := st.t.toTrim + [c.buf], trimmed := st.t.trimmed + [c.trimmed])
    ensures t.consumed <= |readResults| && (forall j :: 0 <= j < t.consumed ==> readResults[j].Data?)
    ensures ReadFacts(t, readResults) && LimitFacts(t, limit)
    ensures |Concat(t.cased)| == st.readBytes + |c.cased|
    ensures !c.reached ==> t.toTrim == t.cased
  {
    var prev := st.t.cased;
    ReadOne(readResults, st.t.consumed);
    assert t.cased[..|prev|] == prev && t.toTrim[..|prev|] == prev;
    assert Concat(t.cased) == Concat(prev) + c.cased;
    if c.reached {
      Cut(t, limit);
    } else {
      Uncut(t, limit);
    }
  }

  /** A write that fails or falls short ends the loop with an error. */
  lemma {:induction false} StepWriteFails<S>(st: Loop<S>, readResults: seq<ReadResult>, writeResults: seq<WriteResult>,
                          caseStep: (S, string) -> (S, string), trimStep: (S, string) -> (S, string), limit: int)
    requires Running(st, readResults, limit) && st.t.consumed < |readResults|
    requires readResults[st.t.consumed].Data? && |readResults[st.t.consumed].bytes| > 0
    requires var c := Convert(st.s, st.readBytes, readResults[st.t.consumed].bytes, limit, caseStep, trimStep);
      st.w < |writeResults| && (writeResults[st.w].WriteFailed? || writeResults[st.w].n < |c.trimmed|)
    ensures Finished(Step(st, readResults, writeResults, caseStep, trimStep, limit), readResults, limit)
  {
    var c := Convert(st.s, st.readBytes, readResults[st.t.consumed].bytes, limit, caseStep, trimStep);
    var st' := Step(st, readResults, writeResults, caseStep, trimStep, limit);
    var t := st'.t;
    assert st'.done && !st'.ended && st'.err.Some?;
    assert t.written == st.t.trimmed && t.trimmed == st.t.trimmed + [c.trimmed];
    ChunkRead(st, readResults, limit, c, t);
    assert readResults[t.consumed - 1].Data?;
  }

  /** A chunk written whole that reaches the limit ends the loop without error. */
  lemma {:induction false} StepWritesLast<S>(st: Loop<S>, readResults: seq<ReadResult>, writeResults: seq<WriteResult>,
                          caseStep: (S, string) -> (S, string), trimStep: (S, string) -> (S, string), limit: int)
    requires Running(st, readResults, limit) && st.t.consumed < |readResults|
    requires readResults[st.t.consumed].Data? && |readResults[st.t.consumed].bytes| > 0
    requires var c := Convert(st.s, st.readBytes, readResults[st.t.consumed].bytes, limit, caseStep, trimStep);
      c.reached &&
      !(st.w < |writeResults| && (writeResults[st.w].WriteFailed? || writeResults[st.w].n < |c.trimmed|))
    ensures Finished(Step(st, readResults, writeResults, caseStep, trimStep, limit), readResults, limit)
  {
    var c := Convert(st.s, st.readBytes, readResults[st.t.consumed].bytes, limit, caseStep, trimStep);
    var st' := Step(st, readResults, writeResults, caseStep, trimStep, limit);
    var t := st'.t;
    ChunkRead(st, readResults, limit, c, t.(written := st.t.written));
    assert t.written == t.trimmed;
    assert EndFacts(st'.err, t, st'.ended, readResults, limit);
  }

  /** A chunk written whole below the limit: the loop goes on. */
  lemma {:induction false} StepWrites<S>(st: Loop<S>, readResults: seq<ReadResult>, writeResults: seq<WriteResult>,
                      caseStep: (S, string) -> (S, string), trimStep: (S, string) -> (S, string), limit: int)
    requires Running(st, readResults, limit) && st.t.consumed < |readResults|
    requires readResults[st.t.consumed].Data? && |readResults[st.t.consumed].bytes| > 0
    requires var c := Convert(st.s, st.readBytes, readResults[st.t.consumed].bytes, limit, caseStep, trimStep);
      !c.reached &&
      !(st.w < |writeResults| && (writeResults[st.w].WriteFailed? || writeResults[st.w].n < |c.trimmed|))
    ensures Running(Step(st, readResults, writeResults, caseStep, trimStep, limit), readResults, limit)
  {
    var c := Convert(st.s, st.readBytes, readResults[st.t.consumed].bytes, limit, caseStep, trimStep);
    var st' := Step(st, readResults, writeResults, caseStep, trimStep, limit);
    var t := st'.t;
    ChunkRead(st, readResults, limit, c, t.(written := st.t.written));
    assert t.written == t.trimmed;
    assert st'.readBytes == |Concat(t.cased)|;
  }

  /** Running out of read results is `io.EOF`. */
  lemma ScriptEnds<S>(st: Loop<S>, readResults: seq<ReadResult>, limit: int)
    requires Running(st, readResults, limit) && st.t.consumed == |readResults|
    ensures Finished(st.(done := true, err := None, ended := true), readResults, limit)
  {
    Uncut(st.t, limit);
  }

  // ---------------------------------------------------------------------
  // With the converter of `conv.go`
  // ---------------------------------------------------------------------

  /** `b` has the trimming state of `a`: Case may change the letters and its own bookkeeping, not that. */
  predicate KeepsTrim(a: Conv.Conv, b: Conv.Conv) {
    b.trimmedLeft == a.trimmedLeft && b.trimmedRight == a.trimmedRight && b.rightSpaces == a.rightSpaces
  }

  /** With trimming on, the trimmer's invariant holds over the chunks handed to Trim. */
  lemma {:induction false} PipelineTrims(opts: Options, chunks: seq<string>, limit: int,
                                         caseStep: (Conv.Conv, string) -> (Conv.Conv, string))
    requires opts.trimSpaces && limit >= -1
    requires forall c: Conv.Conv, b: string :: KeepsTrim(c, caseStep(c, b).0)
    ensures var p := Pipeline(Conv.NewConv(opts), chunks, limit, caseStep, Conv.Trim);
      Conv.TrimInv(p.s, Concat(p.trimmed), Concat(p.toTrim))
    decreases |chunks|
  {
    var cnv := Conv.NewConv(opts);
    var q := Pipeline(cnv, chunks, limit, caseStep, Conv.Trim);
    if |chunks| == 0 {
      PipelineEmpty(cnv, chunks, limit, caseStep, Conv.Trim);
      Conv.NewConvInv(opts);
    } else {
      var init := chunks[..|chunks| - 1];
      var b := chunks[|chunks| - 1];
      PipelineTrims(opts, init, limit, caseStep);
      var p := Pipeline(cnv, init, limit, caseStep, Conv.Trim);
      if p.reached {
        PipelineStops(cnv, chunks, limit, caseStep, Conv.Trim);
        assert q == p;
      } else {
        PipelineLast(cnv, chunks, limit, caseStep, Conv.Trim);
        var c := Convert(p.s, |Concat(p.cased)|, b, limit, caseStep, Conv.Trim);
        TrimInvSnoc(p.s, p.trimmed, p.toTrim, caseStep(p.s, b).0, c.buf, c.s, c.trimmed);
        assert q == Progress(c.s, p.cased + [c.cased], p.toTrim + [c.buf], p.trimmed + [c.trimmed], c.reached);
      }
    }
  }

  /** One chunk more, through a Case that keeps the trimming state and then Trim, keeps the invariant. */
  lemma TrimInvSnoc(s0: Conv.Conv, trimmed: seq<string>, toTrim: seq<string>,
                    s1: Conv.Conv, buf: string, s2: Conv.Conv, out: string)
    requires Conv.TrimInv(s0, Concat(trimmed), Concat(toTrim)) && KeepsTrim(s0, s1)
    requires (s2, out) == Conv.Trim(s1, buf)
    ensures Conv.TrimInv(s2, Concat(trimmed + [out]), Concat(toTrim + [buf]))
  {
    assert Conv.TrimInv(s1, Concat(trimmed), Concat(toTrim));
    Conv.TrimStep(s1, Concat(trimmed), Concat(toTrim), buf);
    ConcatSnoc(trimmed, out);
    ConcatSnoc(toTrim, buf);
  }

  /** With trimming off, Trim hands every chunk on unchanged. */
  lemma {:induction false} PipelineUntrimmed(opts: Options, chunks: seq<string>, limit: int,
                                             caseStep: (Conv.Conv, string) -> (Conv.Conv, string))
    requires !opts.trimSpaces && limit >= -1
    requires forall c: Conv.Conv, b: string :: KeepsTrim(c, caseStep(c, b).0)
    ensures var p := Pipeline(Conv.NewConv(opts), chunks, limit, caseStep, Conv.Trim);
      p.s.trimmedLeft && p.s.trimmedRight && p.trimmed == p.toTrim
    decreases |chunks|
  {
    var cnv := Conv.NewConv(opts);
    if |chunks| > 0 {
      var init := chunks[..|chunks| - 1];
      var b := chunks[|chunks| - 1];
      PipelineUntrimmed(opts, init, limit, caseStep);
      var p := Pipeline(cnv, init, limit, caseStep, Conv.Trim);
      if p.reached {
        PipelineStops(cnv, chunks, limit, caseStep, Conv.Trim);
      } else {
        PipelineLast(cnv, chunks, limit, caseStep, Conv.Trim);
        assert KeepsTrim(p.s, caseStep(p.s, b).0);
      }
    }
  }

  /**
   * A copy that trims writes exactly the bytes that reached Trim with their
   * leading and trailing whitespace removed; one that does not writes them
   * as they are.
   */
  lemma WrittenIsTrimmed(t: Trace, readResults: seq<ReadResult>, opts: Options,
                         caseStep: (Conv.Conv, string) -> (Conv.Conv, string))
    requires Converted(t, readResults, Conv.NewConv(opts), caseStep, Conv.Trim, opts.limit)
    requires t.written == t.trimmed
    requires forall c: Conv.Conv, b: string :: KeepsTrim(c, caseStep(c, b).0)
    ensures opts.trimSpaces ==> Concat(t.written) == Conv.TrimSpace(Concat(t.toTrim))
    ensures !opts.trimSpaces ==> t.written == t.toTrim
  {
    var chunks := Chunks(readResults[..t.consumed]);
    var p := Pipeline(Conv.NewConv(opts), chunks, opts.limit, caseStep, Conv.Trim);
    if opts.trimSpaces {
      PipelineTrims(opts, chunks, opts.limit, caseStep);
      Conv.InvIsTrimSpace(p.s, Concat(p.trimmed), Concat(p.toTrim));
    } else {
      PipelineUntrimmed(opts, chunks, opts.limit, caseStep);
    }
  }

  /** The loop's records and converter state agree with the reference. */
  ghost predicate Follows<S>(st: Loop<S>, readResults: seq<ReadResult>, cnv: S,
                       caseStep: (S, string) -> (S, string), trimStep: (S, string) -> (S, string), limit: int) {
    Converted(st.t, readResults, cnv, caseStep, trimStep, limit) &&
    st.s == Pipeline(cnv, Chunks(readResults[..st.t.consumed]), limit, caseStep, trimStep).s
  }

  /** What a pass of the loop body records: nothing for a read that is not a chunk, one `Convert` for a chunk. */
  lemma {:induction false} StepRecords<S>(st: Loop<S>, readResults: seq<ReadResult>, writeResults: seq<WriteResult>,
                       caseStep: (S, string) -> (S, string), trimStep: (S, string) -> (S, string), limit: int)
    requires Running(st, readResults, limit) && st.t.consumed < |readResults|
    ensures var r := readResults[st.t.consumed];
      var st' := Step(st, readResults, writeResults, caseStep, trimStep, limit);
      st'.t.consumed == st.t.consumed + 1 &&
      (!(r.Data? && |r.bytes| > 0) ==>
         st'.s == st.s && st'.t.cased == st.t.cased && st'.t.toTrim == st.t.toTrim && st'.t.trimmed == st.t.trimmed) &&
      (r.Data? && |r.bytes| > 0 ==>
         var c := Convert(st.s, st.readBytes, r.bytes, limit, caseStep, trimStep);
         st'.s == c.s && st'.t.cased == st.t.cased + [c.cased] &&
         st'.t.toTrim == st.t.toTrim + [c.buf] && st'.t.trimmed == st.t.trimmed + [c.trimmed])
  {
  }

  /** Every pass of the loop body keeps to the reference. */
  lemma {:induction false} StepFollows<S>(st: Loop<S>, readResults: seq<ReadResult>, writeResults: seq<WriteResult>, cnv: S,
                       caseStep: (S, string) -> (S, string), trimStep: (S, string) -> (S, string), limit: int)
    requires Running(st, readResults, limit) && st.t.consumed < |readResults|
    requires Follows(st, readResults, cnv, caseStep, trimStep, limit)
    ensures Follows(Step(st, readResults, writeResults, caseStep, trimStep, limit), readResults, cnv, caseStep, trimStep, limit)
  {
    var r := readResults[st.t.consumed];
    var st' := Step(st, readResults, writeResults, caseStep, trimStep, limit);
    StepRecords(st, readResults, writeResults, caseStep, trimStep, limit);
    if r.Data? && |r.bytes| > 0 {
      ChunkFollows(st, st', readResults, cnv, caseStep, trimStep, limit);
    } else {
      SkipFollows(st, st', readResults, cnv, caseStep, trimStep, limit);
    }
  }

  /** A read that is not a chunk leaves the reference where it was. */
  lemma SkipFollows<S>(st: Loop<S>, st': Loop<S>, readResults: seq<ReadResult>, cnv: S,
                       caseStep: (S, string) -> (S, string), trimStep: (S, string) -> (S, string), limit: int)
    requires st.t.consumed < |readResults| && Follows(st, readResults, cnv, caseStep, trimStep, limit)
    requires var r := readResults[st.t.consumed]; !(r.Data? && |r.bytes| > 0)
    requires st'.t.consumed == st.t.consumed + 1 && st'.s == st.s &&
             st'.t.cased == st.t.cased && st'.t.toTrim == st.t.toTrim && st'.t.trimmed == st.t.trimmed
    ensures Follows(st', readResults, cnv, caseStep, trimStep, limit)
  {
    var i := st.t.consumed;
    ReadOne(readResults, i);
    var chunks := Chunks(readResults[..i]);
    assert Chunks(readResults[..i + 1]) == chunks;
    FollowsOf(st', readResults, cnv, caseStep, trimStep, limit, chunks, Pipeline(cnv, chunks, limit, caseStep, trimStep));
  }

  /** A chunk read below the limit moves the reference on by one `Convert`. */
  lemma ChunkFollows<S>(st: Loop<S>, st': Loop<S>, readResults: seq<ReadResult>, cnv: S,
                        caseStep: (S, string) -> (S, string), trimStep: (S, string) -> (S, string), limit: int)
    requires st.t.consumed < |readResults| && Follows(st, readResults, cnv, caseStep, trimStep, limit)
    requires st.readBytes == |Concat(st.t.cased)| && (limit >= 0 ==> st.readBytes <= limit)
    requires var r := readResults[st.t.consumed]; r.Data? && |r.bytes| > 0
    requires var c := Convert(st.s, st.readBytes, readResults[st.t.consumed].bytes, limit, caseStep, trimStep);
      st'.t.consumed == st.t.consumed + 1 && st'.s == c.s && st'.t.cased == st.t.cased + [c.cased] &&
      st'.t.toTrim == st.t.toTrim + [c.buf] && st'.t.trimmed == st.t.trimmed + [c.trimmed]
    ensures Follows(st', readResults, cnv, caseStep, trimStep, limit)
  {
    var i := st.t.consumed;
    var b := readResults[i].bytes;
    ReadOne(readResults, i);
    var chunks := Chunks(readResults[..i]);
    var p := Pipeline(cnv, chunks, limit, caseStep, trimStep);
    var chunks' := chunks + [b];
    assert Chunks(readResults[..i + 1]) == chunks';
    assert !p.reached;
    PipelineSnoc(cnv, chunks, b, limit, caseStep, trimStep);
    FollowsOf(st', readResults, cnv, caseStep, trimStep, limit, chunks', Pipeline(cnv, chunks', limit, caseStep, trimStep));
  }

  /** `Follows`, from the chunks read and the reference's progress on them. */
  lemma FollowsOf<S>(st: Loop<S>, readResults: seq<ReadResult>, cnv: S,
                     caseStep: (S, string) -> (S, string), trimStep: (S, string) -> (S, string), limit: int,
                     chunks: seq<string>, p: Progress<S>)
    requires st.t.consumed <= |readResults| && limit >= -1
    requires chunks == Chunks(readResults[..st.t.consumed]) && p == Pipeline(cnv, chunks, limit, caseStep, trimStep)
    requires st.s == p.s && st.t.cased == p.cased && st.t.toTrim == p.toTrim && st.t.trimmed == p.trimmed
    ensures Follows(st, readResults, cnv, caseStep, trimStep, limit)
  {
  }

  /** Before any read, nothing has been converted. */
  lemma NothingConverted<S>(readResults: seq<ReadResult>, cnv: S,
                            caseStep: (S, string) -> (S, string), trimStep: (S, string) -> (S, string), limit: int)
    requires limit >= -1
    ensures Converted(Untouched, readResults, cnv, caseStep, trimStep, limit)
    ensures Pipeline(cnv, Chunks(readResults[..0]), limit, caseStep, trimStep).s == cnv
  {
    assert readResults[..0] == [];
  }

  /** Flushing and closing leave the records alone. */
  lemma ConvertedKept<S>(t: Trace, t': Trace, readResults: seq<ReadResult>, cnv: S,
                         caseStep: (S, string) -> (S, string), trimStep: (S, string) -> (S, string), limit: int)
    requires Converted(t, readResults, cnv, caseStep, trimStep, limit)
    requires t'.consumed == t.consumed && t'.cased == t.cased && t'.toTrim == t.toTrim && t'.trimmed == t.trimmed
    ensures Converted(t', readResults, cnv, caseStep, trimStep, limit)
  {
  }

  /** Flushing and closing keep the read, limit and write facts. */
  lemma FactsKept(t: Trace, t': Trace, readResults: seq<ReadResult>, limit: int)
    requires ReadFacts(t, readResults) && LimitFacts(t, limit) && WriteFacts(t)
    requires t'.consumed == t.consumed && t'.cased == t.cased && t'.toTrim == t.toTrim
    requires t'.trimmed == t.trimmed && t'.written == t.written
    ensures ReadFacts(t', readResults) && LimitFacts(t', limit) && WriteFacts(t')
  {
  }

  /**
   * The loop of `Copy`. Reads past the end of `readResults` return `io.EOF`;
   * writes past the end of `writeResults` write everything. `ended` tells
   * an exit through EOF or the limit from an error return.
   */
  method CopyLoop<S>(
    readResults: seq<ReadResult>,
    writeResults: seq<WriteResult>,
    cnv: S,
    caseStep: (S, string) -> (S, string),
    trimStep: (S, string) -> (S, string),
    limit: int)
    returns (err: Option<string>, t: Trace, ended: bool)
    requires limit >= -1
    ensures ReadFacts(t, readResults) && LimitFacts(t, limit) && WriteFacts(t)
    ensures EndFacts(err, t, ended, readResults, limit)
    ensures Converted(t, readResults, cnv, caseStep, trimStep, limit)
  {
    var st := Loop(cnv, 0, 0, Untouched, None, false, true);
    NothingConverted(readResults, cnv, caseStep, trimStep, limit);
    while !st.done && st.t.consumed < |readResults|
      invariant Running(st, readResults, limit) || Finished(st, readResults, limit)
      invariant Follows(st, readResults, cnv, caseStep, trimStep, limit)
      decreases |readResults| - st.t.consumed, if st.done then 0 else 1
    {
      var r := readResults[st.t.consumed];
      if !r.Data? {
        StepStops(st, readResults, writeResults, caseStep, trimStep, limit);
      } else if |r.bytes| == 0 {
        StepSkips(st, readResults, writeResults, caseStep, trimStep, limit);
      } else {
        var c := Convert(st.s, st.readBytes, r.bytes, limit, caseStep, trimStep);
        if st.w < |writeResults| && (writeResults[st.w].WriteFailed? || writeResults[st.w].n < |c.trimmed|) {
          StepWriteFails(st, readResults, writeResults, caseStep, trimStep, limit);
        } else if c.reached {
          StepWritesLast(st, readResults, writeResults, caseStep, trimStep, limit);
        } else {
          StepWrites(st, readResults, writeResults, caseStep, trimStep, limit);
        }
      }
      StepFollows(st, readResults, writeResults, cnv, caseStep, trimStep, limit);
      st := Step(st, readResults, writeResults, caseStep, trimStep, limit);
    }
    if !st.done {
      ScriptEnds(st, readResults, limit);
      st := st.(done := true, err := None, ended := true);
    }
    return st.err, st.t, st.ended;
  }

  /**
   * `Copy`: discard the offset, run the loop, then flush and close. Every
   * early return is an error and skips both; otherwise the result is the
   * flush error, or when there is none, the close result.
   */
  method Copy<S>(
    discard: Option<string>,
    readResults: seq<ReadResult>,
    writeResults: seq<WriteResult>,
    flush: Option<string>,
    close: Option<string>,
    cnv: S,
    caseStep: (S, string) -> (S, string),
    trimStep: (S, string) -> (S, string),
    opts: Options)
    returns (err: Option<string>, t: Trace)
    requires opts.limit >= -1
    ensures discard.Some? ==> err == discard && t == Untouched
    ensures ReadFacts(t, readResults) && LimitFacts(t, opts.limit) && WriteFacts(t)
    ensures Converted(t, readResults, cnv, caseStep, trimStep, opts.limit)
    ensures t.consumed > 0 && readResults[t.consumed - 1].ReadFailed? ==>
              err == Some(readResults[t.consumed - 1].err) && !t.flushed
    ensures !t.flushed ==> !t.closed && err.Some?
    ensures t.flushed ==>
              t.written == t.trimmed &&
              (t.consumed == |readResults| || (0 < t.consumed && readResults[t.consumed - 1].EOF?) ||
               (opts.limit >= 0 && |Concat(t.cased)| > opts.limit))
    ensures t.flushed && flush.Some? ==> err == flush && !t.closed
    ensures t.flushed && flush.None? ==> err == close && t.closed
  {
    if discard.Some? {
      Uncut(Untouched, opts.limit);
      NothingConverted(readResults, cnv, caseStep, trimStep, opts.limit);
      return discard, Untouched;
    }
    var ended;
    err, t, ended := CopyLoop(readResults, writeResults, cnv, caseStep, trimStep, opts.limit);
    if !ended {
      return;
    }
    ConvertedKept(t, t.(flushed := true), readResults, cnv, caseStep, trimStep, opts.limit);
    ConvertedKept(t, t.(flushed := true, closed := true), readResults, cnv, caseStep, trimStep, opts.limit);
    FactsKept(t, t.(flushed := true), readResults, opts.limit);
    FactsKept(t, t.(flushed := true, closed := true), readResults, opts.limit);
    t := t.(flushed := true);
    if flush.Some? {
      return flush, t;
    }
    t := t.(closed := true);
    return close, t;
  }
}
