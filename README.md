# Powers-of-tau stream generator, in Dafny

This project models the core of `generate_params`, a generator of
trusted-setup parameters over BLS12-381. One secret scalar τ is sampled per
run. Each curve group (G1, G2) then gets a stream of the points g·τ, g·τ²,
g·τ³, …. The points are buffered in chunks of `chunk_length` fixed-width
encodings, and each complete chunk is written to a file. The file's name is
the user's pattern with `{}` replaced by the chunk number.

In the source, `Generator::generate_g1` and `Generator::generate_g2` are
line-for-line copies that differ only in the group and the encoding width.
Here they are one generic method, `PowersOfTau.Generator.Generate`, over a
`Curve` record that holds:
- the group's generator;
- the operation `point *= τ`, kept uninterpreted;
- the point encoding, kept uninterpreted;
- the all-zero encoding the buffer starts with.

Files:
- `path_pattern.dfy` (module `PathPattern`): the decimal rendering of a chunk
  index, `pattern.replace("{}", …)`, and their properties.
- `chunk_stream.dfy` (module `ChunkStream`): what a stream should produce. It
  defines the running point (`Power`), what each buffer slot holds
  (`Slot`, `Buffer`), the chunk windows (`Window`) and the list of chunk files
  a run writes (`Flushes`). The lemmas state what these mean for a stream on
  a fresh counter.
- `generator.dfy` (module `PowersOfTau`): the imperative generator.
  - The per-stream counter (`Counter`).
  - The file system, modelled as a log of `(path, contents)` writes (`ChunkWriter`).
  - The input checks (`Validate`).
  - The loop (`Generator.Run`) and one loop step (`Generator.Produce`), over
    an `array` buffer that is overwritten in place.
  - `StreamResult`, which states everything a run leaves behind, and the
    lemmas that draw the source's promises from it.

The contract of `Run` holds for any starting counter value. A slot whose
index comes before the first claimed index still holds the zero encoding.
In `main` every counter starts at 0, and the lemmas named `Fresh…` cover
that case.

## Model

| member | source | states |
|---|---|---|
| `PowersOfTau.Validate` | src/main.rs:108-117 | A count above MAX_COUNT (2^32) gives `CountTooLarge`, and MAX_COUNT itself passes. This check comes first, so it wins when both inputs are bad. Otherwise a chunk length of 0 or 1 gives `ChunkTooShort`. The stream runs exactly when count <= 2^32 and chunk length >= 2. |
| `PowersOfTau.Generator.Generate` | src/main.rs:102-144 | `generate_g1` (and the identical `generate_g2`, src/main.rs:154-196) as written. On a validation error nothing is computed, the counter is unchanged and nothing is written. Otherwise the run satisfies `StreamResult` with the loop bound fixed to MAX_COUNT, whatever `count` was. |
| `PowersOfTau.Generator.Run` | src/main.rs:121-143 | The loop. On success the counter ends at max(start, limit) + 1, and the log gains exactly `Flushes(limit)`: one file per chunk completed before the limit, in index order. If a write fails, the failing index is the last one claimed and fills a chunk's last slot, and the log holds exactly the chunks completed before it. |
| `PowersOfTau.Generator.Produce` | src/main.rs:128-141 | One iteration for claimed index i. The running point goes from g·τ^(i-start) to g·τ^(i-start+1). The buffer becomes `Buffer(i + 1)`: only slot i % L changes. When i % L == L - 1, chunk i / L is written to its path, and only a failed write leaves the log unchanged. |
| `PowersOfTau.Counter.FetchAdd` | src/main.rs:124 | Claim-then-produce: returns the current value and advances the counter by exactly one, so the counter never decreases. |
| `PowersOfTau.Counter.constructor` | src/main.rs:86-87 | A new counter starts at 0. |
| `PowersOfTau.ChunkWriter.WriteChunk` | src/main.rs:133-140 | A successful write appends `(path, contents)` to the log. A failed one appends nothing. |
| `PowersOfTau.Generator.constructor` | src/main.rs:83-95 | Stores τ and creates two fresh counters (G1, G2), both at 0. They are distinct objects (`Valid`), so advancing one stream never moves the other's counter. |
| `PowersOfTau.Generator.GenerateG1` | src/main.rs:102-144 | `generate_g1` on its own counter `g1Count`, with `Generate`'s contract. The G2 counter is left unchanged, so a G2 run afterwards still starts at 0. |
| `PowersOfTau.Generator.GenerateG2` | src/main.rs:154-196 | `generate_g2` on its own counter `g2Count`, with `Generate`'s contract. The G1 counter is left unchanged. |
| `PowersOfTau.FreshRunComplete` | src/main.rs:122-143 | Fresh counter, successful run to `limit`: the counter ends at limit + 1, and chunks 0, 1, …, limit / L - 1 were written after the earlier log, in order, each once. |
| `PowersOfTau.FreshRunFailed` | src/main.rs:134-139 | Fresh counter, a write failed on chunk q: the counter stopped at (q + 1)·L <= limit. Chunks 0 … q - 1 were all written, in order, and nothing after them, so no chunk number is skipped. |
| `PowersOfTau.AsWrittenIgnoresCount` | src/main.rs:125 | Any accepted count, fresh counter: what a successful `Generate` appends to the log, `Flushes(MAX_COUNT)`, is MAX_COUNT / L chunk files. For count 4 and L = 2 that is 2^31 files, not 4 / 2. |
| `PowersOfTau.Generator.GenerateRequested` | src/main.rs:119-126 | The corrected generator: the same validation, then the same run with the loop bound set to `count`. |
| `PowersOfTau.RequestedExactChunks` | src/main.rs:119-131 | Corrected generator, count 4, L = 2: exactly two files, chunk 0 = [enc(g·τ), enc(g·τ²)] and chunk 1 = [enc(g·τ³), enc(g·τ⁴)], no chunk 2, and the counter ends at 5. |
| `PowersOfTau.RequestedPartialChunk` | src/main.rs:129-131 | Corrected generator, count 3, L = 2: only chunk 0 = [enc(g·τ), enc(g·τ²)] is written. The third point is computed but is in no file. |
| `ChunkStream.FreshFlushes` | src/main.rs:129-131 | Fresh counter, indices 0 … n - 1 processed: exactly n / L files were written, and file k is chunk k. Chunk numbers are therefore 0, 1, 2, …, strictly increasing, each once. |
| `ChunkStream.FreshWindow` | src/main.rs:122-129 | Fresh counter: chunk k holds exactly L encodings, and slot j holds enc(g·τ^(k·L + j + 1)), the point of stream index k·L + j. Each chunk is a contiguous, gap-free window of the stream. |
| `ChunkStream.ChunkCompleteness` | src/main.rs:129-131 | Fresh counter, n indices processed: chunk k was written exactly when (k + 1)·L <= n. The written chunks cover indices 0 … (n/L)·L - 1. The trailing n % L (< L) elements are in no file. |
| `ChunkStream.BufferInitial` | src/main.rs:121 | Before the first claimed index, every slot of the buffer holds the zero encoding. |
| `ChunkStream.BufferStep` | src/main.rs:129-130 | Processing index n stores `Slot(n)` at slot n % L and leaves the other slots as they were. When n % L == L - 1, the buffer is then exactly `Window(n / L)`. |
| `PathPattern.NatToDecimal` | src/main.rs:132 | `to_string` of the chunk index: a non-empty string of decimal digits with no leading zero. It starts with '0' exactly when the number is 0. |
| `PathPattern.DecimalRoundTrip` | src/main.rs:132 | Reading the rendering back as a decimal number gives the original number. |
| `PathPattern.CanonicalRoundTrip` | src/main.rs:132 | Every digit string without a leading zero is the rendering of the number it denotes. The rendering is therefore a bijection onto such strings. |
| `PathPattern.NatToDecimalInjective` | src/main.rs:132 | Two chunk indices render to the same string exactly when they are equal. |
| `PathPattern.MatchesIffContains` | src/main.rs:132 | The left-to-right scan of `replace` makes at least one replacement exactly when the pattern occurs somewhere in the string. |
| `PathPattern.ReplaceAllLength` | src/main.rs:132 | The result's length is \|s\| + (number of replacements)·(\|to\| - \|from\|). |
| `PathPattern.ReplaceAllWithoutMatch` | src/main.rs:132 | A string that does not contain `from` comes back unchanged. |
| `PathPattern.ReplaceAllInjective` | src/main.rs:132 | When `from` occurs in the string, two replacements give the same result exactly when they are equal. |
| `PathPattern.NoPlaceholderLeft` | src/main.rs:132 | Replacing "{}" by a non-empty text without braces leaves no "{}" in the result. |
| `PathPattern.ChunkPathFilled` | src/main.rs:132 | No chunk path contains "{}": every occurrence in the pattern was replaced. |
| `PathPattern.ChunkPathsCollide` | src/main.rs:132 | Two chunks get the same path exactly when they are the same chunk or the pattern has no "{}". A pattern without "{}" is itself the path of every chunk, so each chunk overwrites the previous file. |

## Left out

- Threads and their plumbing are not modelled: `Arc`/`Pin` self-references, the atomic orderings of `fetch_add`, the `Mutex`-guarded join handles, `join_all` and `Drop` (src/main.rs:10, 54-100, 146-152, 198-224). Each counter has exactly one writer, so it is a plain field (`Counter`). The two streams share only τ.
- The progress reporter thread (src/main.rs:65-81) is not modelled. It sleeps, loads the counters and prints forever.
- The console output is not modelled: `println`, `print_mutex` and the messages at src/main.rs:119 and 141.
- `get_random_scalar` (src/main.rs:44-51) is not modelled. It reads OS entropy and reduces it into the scalar field through foreign libraries. τ is a parameter of `Generator.constructor`.
- BLS12-381 arithmetic and point encoding are foreign library calls (`G1Projective`, `G2Projective`, `to_bytes`, `H384`/`H768::from_slice`, `H384::zero`). They are the fields of `Curve`: `mul` and `encode` are uninterpreted functions, and `zero` is an arbitrary value.
- `File::create` and the bincode serialisation (src/main.rs:134-139) are I/O in a foreign byte format. A write is one entry `(path, contents)` in the ghost log of `ChunkWriter`, and whether it fails is a nondeterministic choice.
- `ChunkWriter.WriteChunk`: a failed write leaves the log unchanged. The truncated or partly written file that a failed serialisation can leave behind is not recorded.
- `PathPattern.ReplaceAll` requires a non-empty `from`. The only call passes "{}", so Rust's behaviour for an empty pattern (inserting the text between all characters) is not modelled.
- `PowersOfTau.Counter.FetchAdd`: the counter is an unbounded `nat`, so the wrap-around of `usize` at 2^64 is not modelled. From a fresh counter the value never exceeds MAX_COUNT + 1.
- CLI parsing with `clap` and the wiring in `main` (src/main.rs:16-42, 226-250) are not modelled.
- `Generator.Run` claims an index before testing the loop guard, just as the source's `loop` does. The body after the test is factored into `Generator.Produce`.
- The program's own text says a stream produces the requested count: the help text of `--g1-count`/`--g2-count` (src/main.rs:19, 23) and the message "Generating {} G1 points..." (src/main.rs:119). The loop compares against MAX_COUNT instead (src/main.rs:125), and `Generate` follows the code. See Findings.

## Findings

| source | as written | input that shows it | evidently intended | confidence | as-written member | corrected member |
|---|---|---|---|---|---|---|
| src/main.rs:125 | The loop ends when the claimed index reaches `MAX_COUNT`. `count` is only validated and printed. | `count = 4`, `chunk_length = 2`, fresh counter: a successful run writes 2^31 chunk files (points g·τ … g·τ^(2^32)) instead of 2 | Stop once the claimed index reaches `count`. The help text reads "Number of BLS12-381 G1 points to generate, defaulting to `u32::MAX+1`." (src/main.rs:19, likewise G2 at 23), and the program prints "Generating {} G1 points..." with `count` (src/main.rs:119). The default count, 4294967296 (src/main.rs:20), equals MAX_COUNT, so the discrepancy shows only when a smaller `--g1-count` or `--g2-count` is given | high; not executed | `PowersOfTau.AsWrittenIgnoresCount` (about `PowersOfTau.Generator.Generate`) | `PowersOfTau.Generator.GenerateRequested`, with `PowersOfTau.RequestedExactChunks` and `PowersOfTau.FreshRunComplete` |
