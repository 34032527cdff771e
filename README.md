# Shredder: a Dafny model

The Shredder is a small C# console program. It overwrites a file with random
bytes a given number of times ("passes"), then offers to delete it. The
program:

1. validates its invocation through a chain of early returns;
2. opens a write stream on the file and writes a five-line ASCII banner at
   offset 0;
3. splits the pass indices `[0, iterations)` among one worker per logical
   processor, where each worker writes one random buffer per pass at the
   stream's shared cursor;
4. seeks back to offset 0 and writes the banner again;
5. deletes the file when the answer to the prompt is `Y` or `y`.

The model follows that structure, one module per component:

- `Wrappers`: the `Option` and `Result` datatypes.
- `Text`: ASCII case mapping, `ToLower` and an ordinal case-insensitive
  comparison.
- `Validation`: the invocation facts as the `Invocation` record, the
  `Rejection` kinds, and `Validate`, the check chain as a pure function.
  `Validate` is proved equal to an independent reference: each check stated
  on its own (`Fails`), with the checks ordered by `Rank`.
- `Partition`: the per-worker pass ranges (`StartIndex`, `EndIndex`,
  `Schedule`) and lemmas that they partition `[0, n)`.
- `Streams`: `FileStream` as a class holding the file's bytes and a
  cursor. `Write` overwrites at the cursor, extends the file past the end
  and advances the cursor. `Seek` moves the cursor. `Overwrite` is the
  byte-level specification of one write.
- `Shredder`: the banner, and `Shred`, `RunWorkers` and `RunWorker`. These
  are imperative methods with the source's nested loops and its shared
  `headerLength` variable. They are proved against the pass-by-pass
  specification `AfterPasses` / `ShredState`, and lemmas state what that
  specification implies.
- `Program`: the deletion test and `Run`, the whole of `Main`.

Workers run one after another, in worker order. By `SchedulePassesInOrder`,
that runs passes `0, 1, ..., n - 1` in order, each exactly once. So the
shredded file does not depend on the worker count: `Shred`'s `ensures`
does not mention it.

Three behaviours of the code are worth stating plainly.

- One might expect the file to keep its length. It does not. `headerLength`
  is one variable shared by every pass, and it is set to 0 after the first
  pass. Every later pass therefore allocates `stream.Length` bytes and
  writes them at the cursor, which stands at the end of the file. Each later
  pass thus doubles the file (`PassesLength`, `ShredLength`). Only the very
  first pass leaves the banner's 193 bytes out.
- The argument count is checked before the iteration count. With no
  arguments at all the program shows its usage text, which is modelled as
  the rejection `ShowUsage`.
- The path test at Program.cs:70 looks for invalid file-name characters in
  the whole path, not just in the file name. `'/'` is such a character on
  every platform, so any path that names a directory is turned down
  (`SeparatorPathsRejected`). Only a bare file name in the current directory
  can pass.

## Model

| member | source | states |
|---|---|---|
| `Validation.Validate` | Program.cs:15-73 | Rejects with error `e` exactly when check `e` fails and every earlier check passes. Accepts exactly when no check fails, and then yields the parsed iteration count, which lies in 1..25. Check order: usage, argument count, iterations, existence, extension, size, read-only, invalid path character. |
| `Validation.ExtensionCheckIgnoresCase` | Program.cs:47-51 | Lower-casing the extension and looking it up in the 20-entry whitelist accepts exactly the extensions that equal some entry when case is ignored. |
| `Validation.AcceptedExamples` | Program.cs:24-73 | A well-formed invocation is accepted with 3 iterations and with 25. It names the bare file `a.txt`, with Unix's invalid file-name characters `'\0'` and `'/'`. |
| `Validation.BoundaryAccepted` | Program.cs:47-61 | The upper-case extension `.TXT` (on the file `a.TXT`) and the largest size, 100000000, are accepted. |
| `Validation.ArgumentRejections` | Program.cs:15-38 | No arguments shows the usage text. Three arguments is `InvalidArguments`. Iterations 0, 26 and an unparsable count are each `InvalidIterations`. |
| `Validation.FileRejections` | Program.cs:40-54 | A missing file is `FileNotFound` and `.zip` (on the file `a.zip`) is `InvalidExtension`. |
| `Validation.SizeAndAccessRejections` | Program.cs:56-73 | Sizes 0 and 100000001 are `InvalidFileSize`, a read-only file is `PermissionDenied`, and the path `docs/a.txt`, whose `'/'` is an invalid file-name character, is `InvalidPath`. |
| `Validation.SeparatorPathsRejected` | Program.cs:15-73 | When `'/'` is an invalid file-name character and the path contains it, the invocation is rejected, at the path test or at an earlier one. |
| `Partition.Schedule` | Program.cs:88-93 | One work unit per worker, in worker order. |
| `Partition.ScheduleShape` | Program.cs:88-93 | The first range starts at 0 and the last ends at `n`. Every range lies within `[0, n]` and is not reversed. Each range ends where the next one starts. |
| `Partition.WorkerRange` | Program.cs:92-93 | Worker `i`'s range is not reversed and starts where worker `i - 1`'s ends (at 0 for worker 0). |
| `Partition.ScheduleCovers` | Program.cs:88-93 | A pass index belongs to some worker's range if and only if it lies in `[0, n)`. |
| `Partition.WorkerOf` | Program.cs:88-93 | Finds, for each pass index in `[0, n)`, a worker whose range holds it. |
| `Partition.ScheduleDisjoint` | Program.cs:88-93 | No pass index is in two workers' ranges. |
| `Partition.SchedulePassesInOrder` | Program.cs:91-97 | Joining the ranges in worker order gives exactly `0, 1, ..., n - 1`. |
| `Partition.ScheduleTotal` | Program.cs:88-93 | The range lengths add up to `n`. |
| `Partition.MoreWorkersThanPasses` | Program.cs:88-93 | With more workers than passes, every worker but the last has an empty range, and the last has `[0, n)`. |
| `Partition.ScheduleExample` | Program.cs:88-93 | 25 passes over 4 workers give `[0,6) [6,12) [12,18) [18,25)`. |
| `Streams.Overwrite` | Program.cs:100 | Writing `data` at `position` leaves the file as long as the larger of its old length and `position + |data|`. |
| `Streams.OverwriteBytes` | Program.cs:100 | Byte by byte, after that write: the written span holds `data`, bytes past the old end that `data` does not reach are 0, and every other byte is unchanged. |
| `Streams.FileStream.Open` | Program.cs:82 | Opening the file keeps its bytes and puts the cursor at 0. |
| `Streams.FileStream.Write` | Program.cs:84 | The stream's new bytes and cursor are `WriteAt` of the old ones: the data overwrites from the old cursor, the file grows when the data runs past its end, and the cursor advances by `|data|`. |
| `Streams.FileStream.Seek` | Program.cs:114 | The cursor moves to the offset and the bytes are unchanged. |
| `Shredder.HeaderBytes` | Program.cs:76-83 | The banner's UTF-8 bytes are its character codes, 193 of them. |
| `Shredder.HeaderIsAscii` | Program.cs:76-79 | Every character of the banner is ASCII. |
| `Shredder.Shred` | Program.cs:82-116 | The dispatched work units are `Schedule(iterations, numThreads)`. The stream ends in `ShredState(old bytes, iterations, noise)`, whatever the worker count. |
| `Shredder.RunWorkers` | Program.cs:86-112 | Running every worker's range, in worker order, from the state after the banner gives the state after passes `0 .. iterations - 1`. |
| `Shredder.RunWorker` | Program.cs:95-104 | One worker's passes `startIndex .. endIndex - 1` carry the state after `startIndex` passes to the state after `endIndex` passes. The shared `headerLength` is the banner length until the first pass and 0 after it. |
| `Shredder.RunPass` | Program.cs:98-102 | One pass writes `Length - headerLength` random bytes at the cursor. It carries the state after `j` passes to the state after `j + 1` passes and leaves `headerLength` at 0. |
| `Shredder.HeaderWrite` | Program.cs:83-84 | Writing the banner at offset 0 leaves the file at the larger of its length and 193 bytes. The file then starts with the banner, the cursor is at 193, and the bytes behind the banner are unchanged. |
| `Shredder.FirstPass` | Program.cs:97-102 | The first pass writes `Length - headerLength` random bytes right after the banner. This replaces every byte behind the banner, keeps the length and leaves the cursor at the end. |
| `Shredder.LaterPassAppends` | Program.cs:97-102 | Every later pass starts with the cursor at the end. It appends a block of fresh random bytes as long as the file, so the length doubles. |
| `Shredder.PassesLength` | Program.cs:97-102 | Starting right after the banner, the length after `k >= 1` passes is the starting length times `2^(k-1)`. |
| `Shredder.ShredLength` | Program.cs:82-116 | A file of `L` bytes shredded with `n >= 1` passes ends with `max(L, 193) * 2^(n-1)` bytes. |
| `Shredder.HeaderRestored` | Program.cs:114-115 | For every number of passes, the shredded file starts with the 193 banner bytes and the cursor is at 193. |
| `Shredder.ShredForgetsOriginal` | Program.cs:97-115 | After at least one pass, the result depends only on the original file's length. Two files of equal length shred to the same bytes under the same random bytes. |
| `Program.ConfirmsDeletion` | Program.cs:124 | The ordinal case-insensitive comparison with `"Y"` holds exactly for `"Y"` and `"y"`. |
| `Program.Run` | Program.cs:13-129 | A rejected invocation returns its error and leaves the file's bytes and presence untouched. An accepted one replaces the bytes with the shredded bytes. The file is then absent exactly when the response confirms deletion. |

## Left out

- Threads: thread creation, start and join (Program.cs:90-112) are not modelled. Neither are the unsynchronised sharing of the stream's cursor and of `headerLength`, or the console interleaving. Workers run sequentially in worker order.
- Random bytes: `new Random().NextBytes` is the parameter `noise`, an arbitrary function from (pass index, offset) to a byte.
- Filesystem and environment calls: `File.Exists`, `FileInfo.Length`, `File.GetAttributes`, `Path.GetExtension`, `Path.GetInvalidFileNameChars` and `Environment.ProcessorCount` are inputs. `File.Delete` is the `present` flag of `TargetFile` becoming false. The stream's flush and dispose at the end of the `using` block are not modelled.
- Integer parsing: the exact rules of `int.TryParse` are not modelled. Its result is the `Option<int>` field `iterations`.
- Console I/O: the usage text, `ReadKey`, progress lines, success messages and the prompt are not modelled. A `null` answer from `ReadLine` throws in the source; here the response is always a string.
- Case mapping: `ToLower` is culture-sensitive and `OrdinalIgnoreCase` uses full Unicode simple case mapping. The model maps only the ASCII letters.
- Failures during the overwrite phase are not modelled. These include I/O exceptions, and the allocation failure the doubling length eventually causes (`new byte[...]` beyond the largest array, or out of memory). Lengths and offsets are unbounded integers rather than `long`.
- `FileMode.OpenOrCreate` creating a missing file is not modelled: the stream is only opened after `File.Exists` succeeded.
- Streams.FileStream.Seek: only `SeekOrigin.Begin` with a non-negative offset is modelled, the one form the program uses.
