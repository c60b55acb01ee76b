/**
  What one powers-of-tau stream is supposed to produce: the running point,
  the encoding stored in each buffer slot, and the sequence of chunk files a
  run writes. The generator method in module PowersOfTau is proved against
  these definitions; the lemmas here state what they mean.
 */
module ChunkStream {
  import opened PathPattern

  /** The largest number of points one run may produce: u32::MAX + 1. */
  const MAX_COUNT: nat := 0x1_0000_0000

  /**
    A curve group as the generator sees it: its fixed base point, the group
    operation `point *= scalar`, the fixed-width encoding of a point, and the
    all-zero encoding the chunk buffer starts with.
   */
  datatype Curve<!P, !S, E> = Curve(generator: P, mul: (P, S) -> P, encode: P -> E, zero: E)

  /**
    One stream: the curve, the secret scalar, the file pattern, the chunk
    length and the value the stream's counter held when the stream started.
   */
  datatype StreamSpec<!P, !S, E> = StreamSpec(
    curve: Curve<P, S, E>, tau: S, pattern: string, chunkLength: nat, start: nat)

  /** One completed chunk file: where it was written and the encodings it holds. */
  datatype Flush<E> = Flush(path: string, contents: seq<E>)

  /** `base` multiplied by `tau`, `n` times over: base·τⁿ. */
  function Power<P, S>(mul: (P, S) -> P, base: P, tau: S, n: nat): P
    decreases n
  {
    if n == 0 then base else mul(Power(mul, base, tau, n - 1), tau)
  }

  /** The point computed for index `i`: generator·τ^(i - start + 1). */
  function Point<P, S, E>(s: StreamSpec<P, S, E>, i: nat): P
    requires i >= s.start
  {
    Power(s.curve.mul, s.curve.generator, s.tau, i - s.start + 1)
  }

  /**
    What the buffer slot for stream index `x` holds once index `x` has been
    processed: the encoding of its point, or the initial zero encoding when
    `x` lies before the first index this run claimed.
   */
  function Slot<P, S, E>(s: StreamSpec<P, S, E>, x: int): E {
    if x >= s.start then s.curve.encode(Point(s, x)) else s.curve.zero
  }

  /** The contents of chunk `k`: the slots of indices k·L .. k·L + L - 1. */
  function Window<P, S, E>(s: StreamSpec<P, S, E>, k: nat): seq<E> {
    seq(s.chunkLength, j requires 0 <= j < s.chunkLength => Slot(s, k * s.chunkLength + j))
  }

  /** The file written for chunk `k`. */
  function ChunkFlush<P, S, E>(s: StreamSpec<P, S, E>, k: nat): Flush<E> {
    Flush(ChunkPath(s.pattern, k), Window(s, k))
  }

  /**
    The files written while the indices start .. n - 1 are processed: one for
    every index that fills the last slot of a chunk, in index order.
   */
  function Flushes<P, S, E>(s: StreamSpec<P, S, E>, n: nat): seq<Flush<E>>
    requires s.chunkLength > 0
    decreases n
  {
    if n <= s.start then []
    else
      var i := n - 1;
      Flushes(s, i) + if i % s.chunkLength == s.chunkLength - 1 then [ChunkFlush(s, i / s.chunkLength)] else []
  }

  /**
    What the chunk buffer holds once the indices before `n` have been
    processed: slot j holds the most recent index below n that maps to it,
    that is, from the current chunk when j < n % L and from the previous
    chunk otherwise.
   */
  function Buffer<P, S, E>(s: StreamSpec<P, S, E>, n: nat): seq<E>
    requires s.chunkLength > 0
  {
    var L, q, r := s.chunkLength, n / s.chunkLength, n % s.chunkLength;
    seq(L, j requires 0 <= j < L => Slot(s, if j < r then q * L + j else q * L - L + j))
  }

  /** Before the first claimed index every slot still holds the zero encoding. */
  lemma BufferInitial<P, S, E>(s: StreamSpec<P, S, E>)
    requires s.chunkLength > 0
    ensures Buffer(s, s.start) == seq(s.chunkLength, _ => s.curve.zero)
  {
    var L, q, r := s.chunkLength, s.start / s.chunkLength, s.start % s.chunkLength;
    assert s.start == q * L + r;
    forall j | 0 <= j < L
      ensures Buffer(s, s.start)[j] == s.curve.zero
    {
      var x := if j < r then q * L + j else q * L - L + j;
      assert x < s.start;
      assert Buffer(s, s.start)[j] == Slot(s, x);
    }
  }

  /**
    Processing index n stores its slot, n % L, and changes nothing else; when
    that slot is the last one, the buffer is exactly chunk n / L.
   */
  lemma BufferStep<P, S, E>(s: StreamSpec<P, S, E>, n: nat)
    requires s.chunkLength > 0 && n >= s.start
    ensures Buffer(s, n)[n % s.chunkLength := Slot(s, n)] == Buffer(s, n + 1)
    ensures n % s.chunkLength == s.chunkLength - 1 ==>
      Buffer(s, n)[n % s.chunkLength := Slot(s, n)] == Window(s, n / s.chunkLength)
  {
    var L, q, r := s.chunkLength, n / s.chunkLength, n % s.chunkLength;
    assert n == q * L + r;
    var updated := Buffer(s, n)[r := Slot(s, n)];
    if r < L - 1 {
      DivModUnique(n + 1, L, q, r + 1);
    } else {
      assert (q + 1) * L == q * L + L;
      DivModUnique(n + 1, L, q + 1, 0);
      assert updated == Window(s, q);
    }
  }

  /** Processing index n appends chunk n / L to the files written exactly when n fills its chunk's last slot. */
  lemma FlushesStep<P, S, E>(s: StreamSpec<P, S, E>, n: nat)
    requires s.chunkLength > 0 && n >= s.start
    ensures Flushes(s, n + 1) ==
      Flushes(s, n) + if n % s.chunkLength == s.chunkLength - 1 then [ChunkFlush(s, n / s.chunkLength)] else []
  {
  }

  /** How the quotient and remainder by L move from n to n + 1. */
  lemma DivModNext(n: nat, L: nat)
    requires L > 0
    ensures n % L == L - 1 ==> (n + 1) / L == n / L + 1 && (n + 1) % L == 0
    ensures n % L < L - 1 ==> (n + 1) / L == n / L && (n + 1) % L == n % L + 1
  {
    var q, r := n / L, n % L;
    assert n == q * L + r;
    if r == L - 1 {
      assert (q + 1) * L == q * L + L;
      DivModUnique(n + 1, L, q + 1, 0);
    } else {
      DivModUnique(n + 1, L, q, r + 1);
    }
  }

  /** The quotient and remainder of m by L are the unique q, r with m == q·L + r and 0 <= r < L. */
  lemma DivModUnique(m: int, L: int, q: int, r: int)
    requires L > 0 && 0 <= r < L && m == q * L + r
    ensures m / L == q && m % L == r
  {
    var q', r' := m / L, m % L;
    assert m == q' * L + r';
    if q > q' {
      assert (q' + 1) * L == q' * L + L;
      MulMonotone(q' + 1, q, L);
    } else if q < q' {
      assert (q + 1) * L == q * L + L;
      MulMonotone(q + 1, q', L);
    }
  }

  /** k is below the quotient n / L exactly when (k + 1)·L <= n. */
  lemma QuotientBounds(n: nat, L: nat, k: nat)
    requires L > 0
    ensures k < n / L <==> (k + 1) * L <= n
    ensures (n / L) * L <= n < (n / L + 1) * L
  {
    var q, r := n / L, n % L;
    assert n == q * L + r && r < L;
    assert (q + 1) * L == q * L + L;
    if k < q {
      MulMonotone(k + 1, q, L);
    } else {
      MulMonotone(q + 1, k + 1, L);
    }
  }

  lemma {:induction false} MulMonotone(a: int, b: int, L: int)
    requires a <= b && L >= 0
    ensures a * L <= b * L
    decreases b - a
  {
    if a < b {
      MulMonotone(a + 1, b, L);
      assert (a + 1) * L == a * L + L;
    }
  }

  /**
    For a stream started on a fresh counter, the files written while indices
    0 .. n - 1 are processed are chunks 0, 1, ..., n / L - 1, in that order,
    each once.
   */
  lemma {:induction false} FreshFlushes<P, S, E>(s: StreamSpec<P, S, E>, n: nat)
    requires s.start == 0 && s.chunkLength > 0
    ensures |Flushes(s, n)| == n / s.chunkLength
    ensures forall k :: 0 <= k < |Flushes(s, n)| ==> Flushes(s, n)[k] == ChunkFlush(s, k)
    decreases n
  {
    if n > 0 {
      var i := n - 1;
      FreshFlushes(s, i);
      DivModNext(i, s.chunkLength);
    }
  }

  /**
    In a stream started on a fresh counter, chunk k holds exactly L encodings,
    and its slot j holds that of generator·τ^(k·L + j + 1), the point of
    stream index k·L + j: a contiguous, gap-free window of the stream.
   */
  lemma FreshWindow<P, S, E>(s: StreamSpec<P, S, E>, k: nat)
    requires s.start == 0
    ensures |Window(s, k)| == s.chunkLength
    ensures forall j :: 0 <= j < s.chunkLength ==>
      Window(s, k)[j] == s.curve.encode(Power(s.curve.mul, s.curve.generator, s.tau, k * s.chunkLength + j + 1))
  {
    var L := s.chunkLength;
    MulMonotone(0, k, L);
    forall j | 0 <= j < L
      ensures Window(s, k)[j] == s.curve.encode(Power(s.curve.mul, s.curve.generator, s.tau, k * L + j + 1))
    {
      var x: nat := k * L + j;
      assert Window(s, k)[j] == Slot(s, x);
      assert Point(s, x) == Power(s.curve.mul, s.curve.generator, s.tau, x + 1);
    }
  }

  /**
    A fresh stream that has processed n indices has written chunk k exactly
    when all (k + 1)·L of its elements were produced; the elements after the
    last complete chunk, fewer than L of them, are in no file.
   */
  lemma ChunkCompleteness<P, S, E>(s: StreamSpec<P, S, E>, n: nat, k: nat)
    requires s.start == 0 && s.chunkLength > 0
    ensures k < |Flushes(s, n)| <==> (k + 1) * s.chunkLength <= n
    ensures |Flushes(s, n)| * s.chunkLength <= n < (|Flushes(s, n)| + 1) * s.chunkLength
  {
    FreshFlushes(s, n);
    QuotientBounds(n, s.chunkLength, k);
  }
}
