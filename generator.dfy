/**
  The powers-of-tau stream generator: `Generator::generate_g1` and
  `Generator::generate_g2`, which differ only in the curve group and the
  width of the encoding, written once over a `Curve`.
 */
module PowersOfTau {
  import opened PathPattern
  import opened ChunkStream

  datatype Error =
    | CountTooLarge(count: nat, max: nat)  // "invalid number of entries requested"
    | ChunkTooShort                        // "each chunk must have at least 2 elements"
    | IoFailure                            // File::create or the serialisation failed

  datatype Outcome = Ok | Err(error: Error)

  datatype Option<T> = None | Some(value: T)

  /**
    The two checks made before any work: the count first, then the chunk
    length. None means the stream may run.
   */
  function Validate(count: nat, chunkLength: nat): (e: Option<Error>)
    ensures e == None <==> count <= MAX_COUNT && chunkLength >= 2
    ensures count > MAX_COUNT ==> e == Some(CountTooLarge(count, MAX_COUNT))
    ensures count <= MAX_COUNT && chunkLength < 2 ==> e == Some(ChunkTooShort)
  {
    if count > MAX_COUNT then Some(CountTooLarge(count, MAX_COUNT))
    else if chunkLength < 2 then Some(ChunkTooShort)
    else None
  }

  /**
    What a run of the loop leaves behind, from a counter at `s.start` and a
    write log `before`, with the loop ending once it claims `limit`:
    - on success the counter has claimed every index up to and including the
      first one at or past `limit`, and exactly the chunks completed before
      `limit` were written, in index order;
    - on a write failure the index that failed is the last one claimed, it
      fills the last slot of a chunk below `limit`, and the log holds exactly
      the chunks completed before it.
   */
  ghost predicate StreamResult<P, S, E>(s: StreamSpec<P, S, E>, limit: nat, counter: nat,
                                        before: seq<Flush<E>>, after: seq<Flush<E>>, r: Outcome)
    requires s.chunkLength > 0
  {
    match r
    case Ok =>
      counter == (if s.start < limit then limit else s.start) + 1 &&
      after == before + Flushes(s, limit)
    case Err(e) =>
      e == IoFailure &&
      s.start < counter <= limit &&
      (counter - 1) % s.chunkLength == s.chunkLength - 1 &&
      after == before + Flushes(s, counter - 1)
  }

  /**
    A stream started on a fresh counter that ran to completion has claimed
    every index up to `limit` and written chunks 0, 1, ..., limit / L - 1,
    in that order, each once, after what the log already held.
   */
  lemma FreshRunComplete<P, S, E>(s: StreamSpec<P, S, E>, limit: nat, counter: nat,
                                  before: seq<Flush<E>>, after: seq<Flush<E>>)
    requires s.start == 0 && s.chunkLength >= 2
    requires StreamResult(s, limit, counter, before, after, Ok)
    ensures counter == limit + 1
    ensures |after| == |before| + limit / s.chunkLength && after[..|before|] == before
    ensures forall k :: 0 <= k < limit / s.chunkLength ==> after[|before| + k] == ChunkFlush(s, k)
  {
    FreshFlushes(s, limit);
  }

  /**
    A stream started on a fresh counter whose write of chunk `failed` failed
    stopped right after claiming that chunk's last index; chunks 0 ..
    failed - 1 were all written, in order, and nothing after them.
   */
  lemma FreshRunFailed<P, S, E>(s: StreamSpec<P, S, E>, limit: nat, counter: nat,
                                before: seq<Flush<E>>, after: seq<Flush<E>>)
    requires s.start == 0 && s.chunkLength >= 2
    requires StreamResult(s, limit, counter, before, after, Err(IoFailure))
    ensures var failed := (counter - 1) / s.chunkLength;
      counter == (failed + 1) * s.chunkLength <= limit &&
      |after| == |before| + failed && after[..|before|] == before &&
      forall k :: 0 <= k < failed ==> after[|before| + k] == ChunkFlush(s, k)
  {
    var L, i := s.chunkLength, counter - 1;
    var failed := i / L;
    assert counter == (failed + 1) * L;
    FreshFlushes(s, i);
  }

  /**
    As written, the loop ends at MAX_COUNT whatever count was accepted: a
    successful run on a fresh counter appends Flushes(s, MAX_COUNT) to the
    log (see Generate), which is MAX_COUNT / L chunk files. With count 4 and
    chunk length 2 that is 2^31 files instead of the 2 requested.
   */
  lemma AsWrittenIgnoresCount<P, S, E>(s: StreamSpec<P, S, E>, count: nat)
    requires s.start == 0 && Validate(count, s.chunkLength) == None
    ensures |Flushes(s, MAX_COUNT)| == MAX_COUNT / s.chunkLength
    ensures count == 4 && s.chunkLength == 2 ==>
      |Flushes(s, MAX_COUNT)| == 0x8000_0000 && |Flushes(s, MAX_COUNT)| != count / s.chunkLength
  {
    FreshFlushes(s, MAX_COUNT);
    if count == 4 && s.chunkLength == 2 {
      assert MAX_COUNT / 2 == 0x8000_0000 && count / 2 == 2;
    }
  }

  /**
    The end-to-end example with the loop bounded by count: count 4, chunk
    length 2 writes chunk 0 = [g·τ, g·τ²] and chunk 1 = [g·τ³, g·τ⁴] and no
    chunk 2.
   */
  lemma RequestedExactChunks<P, S, E>(s: StreamSpec<P, S, E>, counter: nat,
                                      before: seq<Flush<E>>, after: seq<Flush<E>>)
    requires s.start == 0 && s.chunkLength == 2
    requires StreamResult(s, 4, counter, before, after, Ok)
    ensures var mul, g, t, enc := s.curve.mul, s.curve.generator, s.tau, s.curve.encode;
      counter == 5 &&
      after == before + [
        Flush(ChunkPath(s.pattern, 0), [enc(mul(g, t)), enc(mul(mul(g, t), t))]),
        Flush(ChunkPath(s.pattern, 1), [enc(mul(mul(mul(g, t), t), t)), enc(mul(mul(mul(mul(g, t), t), t), t))])]
  {
    var mul, g, t, enc := s.curve.mul, s.curve.generator, s.tau, s.curve.encode;
    FreshRunComplete(s, 4, counter, before, after);
    FreshWindow(s, 0);
    FreshWindow(s, 1);
    assert Power(mul, g, t, 1) == mul(g, t);
    assert Power(mul, g, t, 2) == mul(mul(g, t), t);
    assert Power(mul, g, t, 3) == mul(mul(mul(g, t), t), t);
    assert Power(mul, g, t, 4) == mul(mul(mul(mul(g, t), t), t), t);
    assert Window(s, 0) == [enc(mul(g, t)), enc(mul(mul(g, t), t))];
    assert Window(s, 1) == [enc(mul(mul(mul(g, t), t), t)), enc(mul(mul(mul(mul(g, t), t), t), t))];
    assert after == before + [after[|before|], after[|before| + 1]];
  }

  /**
    With count 3 and chunk length 2 only chunk 0 = [g·τ, g·τ²] is written;
    the third point is computed but is in no file.
   */
  lemma RequestedPartialChunk<P, S, E>(s: StreamSpec<P, S, E>, counter: nat,
                                       before: seq<Flush<E>>, after: seq<Flush<E>>)
    requires s.start == 0 && s.chunkLength == 2
    requires StreamResult(s, 3, counter, before, after, Ok)
    ensures var mul, g, t, enc := s.curve.mul, s.curve.generator, s.tau, s.curve.encode;
      counter == 4 &&
      after == before + [Flush(ChunkPath(s.pattern, 0), [enc(mul(g, t)), enc(mul(mul(g, t), t))])]
  {
    var mul, g, t, enc := s.curve.mul, s.curve.generator, s.tau, s.curve.encode;
    FreshRunComplete(s, 3, counter, before, after);
    FreshWindow(s, 0);
    assert Power(mul, g, t, 1) == mul(g, t);
    assert Power(mul, g, t, 2) == mul(mul(g, t), t);
    assert Window(s, 0) == [enc(mul(g, t)), enc(mul(mul(g, t), t))];
    assert after == before + [after[|before|]];
  }

  /**
    The counter a stream claims its indices from (the source's AtomicUsize).
    Each stream has exactly one writer, so a plain field is enough.
   */
  class Counter {
    var value: nat

    constructor ()
      ensures value == 0
    {
      value := 0;
    }

    /** Claim the next index: return the current value and advance by one. */
    method FetchAdd() returns (previous: nat)
      modifies this
      ensures previous == old(value) && value == old(value) + 1
    {
      previous := value;
      value := value + 1;
    }
  }

  /**
    The file system as the stream sees it: `log` records every completed
    chunk file, in the order written. A write may fail, which the caller
    cannot predict.
   */
  class ChunkWriter<E> {
    ghost var log: seq<Flush<E>>

    constructor ()
      ensures log == []
    {
      log := [];
    }

    method WriteChunk(path: string, contents: seq<E>) returns (ok: bool)
      modifies this
      ensures log == if ok then old(log) + [Flush(path, contents)] else old(log)
    {
      ok := *;
      if ok {
        log := log + [Flush(path, contents)];
      }
    }
  }

  /** The shared generator state: the secret scalar and one counter per stream. */
  class Generator<S> {
    const tau: S
    const g1Count: Counter
    const g2Count: Counter

    /** The G1 and G2 streams each claim indices from a counter of their own. */
    ghost predicate Valid()
      reads this
    {
      g1Count != g2Count
    }

    /** Both counters start at zero (sampling τ is left to the caller). */
    constructor (tau: S)
      ensures this.tau == tau && Valid()
      ensures fresh(g1Count) && fresh(g2Count) && g1Count.value == 0 && g2Count.value == 0
    {
      this.tau := tau;
      g1Count := new Counter();
      g2Count := new Counter();
    }

    /**
      The stream loop: claim an index, stop once it reaches `limit`, and
      otherwise produce that index's element.
     */
    method Run<P, E>(counter: Counter, curve: Curve<P, S, E>, pattern: string,
                     chunkLength: nat, limit: nat, writer: ChunkWriter<E>) returns (r: Outcome)
      requires chunkLength >= 2
      modifies counter, writer
      ensures StreamResult(StreamSpec(curve, tau, pattern, chunkLength, old(counter.value)),
                           limit, counter.value, old(writer.log), writer.log, r)
    {
      var s := StreamSpec(curve, tau, pattern, chunkLength, counter.value);
      ghost var log0 := writer.log;
      var chunk := new E[chunkLength](_ => curve.zero);
      var g := curve.generator;
      BufferInitial(s);
      var index := counter.FetchAdd();
      while index < limit
        invariant counter.value == index + 1
        invariant index == s.start || s.start < index <= limit
        invariant g == Power(curve.mul, curve.generator, tau, index - s.start)
        invariant chunk[..] == Buffer(s, index)
        invariant writer.log == log0 + Flushes(s, index)
        decreases limit - index
      {
        var ok;
        g, ok := Produce(s, chunk, g, index, writer, log0);
        if !ok {
          return Err(IoFailure);
        }
        index := counter.FetchAdd();
      }
      assert Flushes(s, index) == Flushes(s, limit);
      return Ok;
    }

    /**
      Produce the element of stream index `index`: multiply the running
      point by τ, store its encoding at slot index % L, and when that slot is
      the last one write the whole buffer to the chunk's path. `ok` is false
      only when that write failed.
     */
    method Produce<P, E>(s: StreamSpec<P, S, E>, chunk: array<E>, g: P, index: nat,
                         writer: ChunkWriter<E>, ghost log0: seq<Flush<E>>) returns (next: P, ok: bool)
      requires s.tau == tau && s.chunkLength >= 2 && chunk.Length == s.chunkLength && index >= s.start
      requires g == Power(s.curve.mul, s.curve.generator, tau, index - s.start)
      requires chunk[..] == Buffer(s, index)
      requires writer.log == log0 + Flushes(s, index)
      modifies chunk, writer
      ensures next == Power(s.curve.mul, s.curve.generator, tau, index + 1 - s.start)
      ensures chunk[..] == Buffer(s, index + 1)
      ensures ok ==> writer.log == log0 + Flushes(s, index + 1)
      ensures !ok ==> index % s.chunkLength == s.chunkLength - 1 && writer.log == old(writer.log)
    {
      var L := chunk.Length;
      var slot: nat, chunkIndex: nat := index % L, index / L;
      next := s.curve.mul(g, tau);
      assert s.curve.encode(next) == Slot(s, index);
      BufferStep(s, index);
      FlushesStep(s, index);
      chunk[slot] := s.curve.encode(next);
      ok := true;
      if slot == L - 1 {
        var path := ChunkPath(s.pattern, chunkIndex);
        ok := writer.WriteChunk(path, chunk[..]);
      }
    }

    /**
      `generate_g1` / `generate_g2` as written: validate, then run the loop
      until the claimed index reaches MAX_COUNT, whatever `count` was. The
      source always passes its own stream's counter; `GenerateG1` and
      `GenerateG2` below do the same.
     */
    method Generate<P, E>(counter: Counter, curve: Curve<P, S, E>, count: nat, pattern: string,
                          chunkLength: nat, writer: ChunkWriter<E>) returns (r: Outcome)
      modifies counter, writer
      ensures Validate(count, chunkLength).Some? ==>
        r == Err(Validate(count, chunkLength).value) &&
        counter.value == old(counter.value) && writer.log == old(writer.log)
      ensures Validate(count, chunkLength).None? ==>
        StreamResult(StreamSpec(curve, tau, pattern, chunkLength, old(counter.value)),
                     MAX_COUNT, counter.value, old(writer.log), writer.log, r)
    {
      var e := Validate(count, chunkLength);
      if e.Some? {
        return Err(e.value);
      }
      r := Run(counter, curve, pattern, chunkLength, MAX_COUNT, writer);
    }

    /** `generate_g1`: the as-written stream on the G1 counter; the G2 counter is not touched. */
    method GenerateG1<P, E>(curve: Curve<P, S, E>, count: nat, pattern: string,
                            chunkLength: nat, writer: ChunkWriter<E>) returns (r: Outcome)
      requires Valid()
      modifies g1Count, writer
      ensures Validate(count, chunkLength).Some? ==>
        r == Err(Validate(count, chunkLength).value) &&
        g1Count.value == old(g1Count.value) && writer.log == old(writer.log)
      ensures Validate(count, chunkLength).None? ==>
        StreamResult(StreamSpec(curve, tau, pattern, chunkLength, old(g1Count.value)),
                     MAX_COUNT, g1Count.value, old(writer.log), writer.log, r)
      ensures g2Count.value == old(g2Count.value)
    {
      r := Generate(g1Count, curve, count, pattern, chunkLength, writer);
    }

    /** `generate_g2`: the as-written stream on the G2 counter; the G1 counter is not touched. */
    method GenerateG2<P, E>(curve: Curve<P, S, E>, count: nat, pattern: string,
                            chunkLength: nat, writer: ChunkWriter<E>) returns (r: Outcome)
      requires Valid()
      modifies g2Count, writer
      ensures Validate(count, chunkLength).Some? ==>
        r == Err(Validate(count, chunkLength).value) &&
        g2Count.value == old(g2Count.value) && writer.log == old(writer.log)
      ensures Validate(count, chunkLength).None? ==>
        StreamResult(StreamSpec(curve, tau, pattern, chunkLength, old(g2Count.value)),
                     MAX_COUNT, g2Count.value, old(writer.log), writer.log, r)
      ensures g1Count.value == old(g1Count.value)
    {
      r := Generate(g2Count, curve, count, pattern, chunkLength, writer);
    }

    /**
      The generator as its help text and its "Generating {count} points"
      message describe it: the same, except that the loop stops once the
      claimed index reaches `count`.
     */
    method GenerateRequested<P, E>(counter: Counter, curve: Curve<P, S, E>, count: nat, pattern: string,
                                   chunkLength: nat, writer: ChunkWriter<E>) returns (r: Outcome)
      modifies counter, writer
      ensures Validate(count, chunkLength).Some? ==>
        r == Err(Validate(count, chunkLength).value) &&
        counter.value == old(counter.value) && writer.log == old(writer.log)
      ensures Validate(count, chunkLength).None? ==>
        StreamResult(StreamSpec(curve, tau, pattern, chunkLength, old(counter.value)),
                     count, counter.value, old(writer.log), writer.log, r)
    {
      var e := Validate(count, chunkLength);
      if e.Some? {
        return Err(e.value);
      }
      r := Run(counter, curve, pattern, chunkLength, count, writer);
    }
  }
}
