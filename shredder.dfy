/** The overwrite phase of `Main`: write the banner at the start of the file,
    run every worker's passes, each pass writing a buffer of random bytes at
    the stream's cursor, then seek to the start and write the banner again.
    Workers run one after another in worker order; the random bytes of pass
    `j` at offset `k` are `noise(j, k)`, an arbitrary source. */
module Shredder {
  import opened Streams
  import opened Partition

  /** The banner written at the start of a shredded file. */
  const HeaderText: string := BorderLine + TitleLine + AuthorLine + BorderLine + "\n"

  const BorderLine: string := "+---------------------------------------------+\n"
  const TitleLine: string := "|            Shredded by The Shredder         |\n"
  const AuthorLine: string := "|                made by zorky                |\n"

  predicate IsAscii(s: string) {
    forall i :: 0 <= i < |s| ==> s[i] as int < 128
  }

  /** UTF-8 encoding of an ASCII string: one byte per character, its code. */
  function AsciiToUtf8(s: string): seq<byte>
    requires IsAscii(s)
  {
    seq(|s|, i requires 0 <= i < |s| => s[i] as int)
  }

  /** `Encoding.UTF8.GetBytes(header)`: since the banner is ASCII, its byte
      count is its character count, 193. */
  function HeaderBytes(): (r: seq<byte>)
    ensures |r| == |HeaderText| == 193
    ensures forall i :: 0 <= i < |r| ==> r[i] == HeaderText[i] as int
  {
    HeaderIsAscii();
    AsciiToUtf8(HeaderText)
  }

  lemma AsciiConcat(a: string, b: string)
    requires IsAscii(a) && IsAscii(b)
    ensures IsAscii(a + b)
  {
    assert forall i :: |a| <= i < |a + b| ==> (a + b)[i] == b[i - |a|];
  }

  lemma BorderIsAscii()
    ensures IsAscii(BorderLine)
  {
    assert BorderLine == "+-----------------------" + "----------------------+\n";
    AsciiConcat("+-----------------------", "----------------------+\n");
  }

  lemma TitleIsAscii()
    ensures IsAscii(TitleLine)
  {
    assert TitleLine == "|            Shredded by" + " The Shredder         |\n";
    AsciiConcat("|            Shredded by", " The Shredder         |\n");
  }

  lemma AuthorIsAscii()
    ensures IsAscii(AuthorLine)
  {
    assert AuthorLine == "|                made by" + " zorky                |\n";
    AsciiConcat("|                made by", " zorky                |\n");
  }

  lemma HeaderIsAscii()
    ensures IsAscii(HeaderText)
  {
    BorderIsAscii();
    TitleIsAscii();
    AuthorIsAscii();
    AsciiConcat(BorderLine, TitleLine);
    AsciiConcat(BorderLine + TitleLine, AuthorLine);
    AsciiConcat(BorderLine + TitleLine + AuthorLine, BorderLine);
    AsciiConcat(BorderLine + TitleLine + AuthorLine + BorderLine, "\n");
  }


  /** `new Random().NextBytes(data)` for pass `j` on a buffer of `len` bytes. */
  function PassData(j: nat, len: nat, noise: (nat, nat) -> byte): (r: seq<byte>)
    ensures |r| == len
  {
    seq(len, k requires 0 <= k < len => noise(j, k))
  }

  /** The stream after passes `0 .. count - 1`, started in state `s` with
      `headerLength == h`. Each pass writes `Length - headerLength` bytes at the
      cursor and then sets `headerLength` to 0, so only the first pass leaves
      the header's length out. */
  function AfterPasses(s: StreamState, h: nat, count: nat, noise: (nat, nat) -> byte): StreamState
    requires h <= |s.content|
  {
    if count == 0 then s
    else
      var prev := AfterPasses(s, h, count - 1, noise);
      var exclude := if count == 1 then h else 0;
      if exclude <= |prev.content| then
        WriteAt(prev, PassData(count - 1, |prev.content| - exclude, noise))
      else prev
  }

  /** The whole overwrite phase on a freshly opened stream over `initial`. */
  function ShredState(initial: seq<byte>, iterations: nat, noise: (nat, nat) -> byte): StreamState {
    var headed := WriteAt(StreamState(initial, 0), HeaderBytes());
    var passed := AfterPasses(headed, |HeaderBytes()|, iterations, noise);
    WriteAt(StreamState(passed.content, 0), HeaderBytes())
  }

  /** The overwrite phase on `stream`, workers one after another. Returns the
      list of dispatched work units (the `threads` list). */
  method Shred(stream: FileStream, iterations: nat, numThreads: nat, noise: (nat, nat) -> byte)
    returns (threads: seq<WorkUnit>)
    requires numThreads >= 1
    requires stream.position == 0
    modifies stream
    ensures threads == Schedule(iterations, numThreads)
    ensures StreamState(stream.content, stream.position) == ShredState(old(stream.content), iterations, noise)
  {
    var headerBytes := HeaderBytes();
    stream.Write(headerBytes);
    ghost var headed := StreamState(stream.content, stream.position);
    var headerLength: nat := |headerBytes|;
    threads := RunWorkers(stream, iterations, numThreads, headerLength, noise, headed);
    stream.Seek(0);
    stream.Write(headerBytes);
  }

  /** The stream after `done` passes from `headed`, with the shared
      `headerLength` still the banner's length while no pass has run. */
  ghost predicate Progress(s: StreamState, headed: StreamState, h: nat, done: nat, shared: nat,
                           noise: (nat, nat) -> byte)
  {
    h <= |headed.content| && s == AfterPasses(headed, h, done, noise) &&
    shared == if done == 0 then h else 0
  }

  /** Dispatches the workers in order, each running its range of passes on the
      shared stream, from the state `headed` right after the banner. */
  method RunWorkers(stream: FileStream, iterations: nat, numThreads: nat, headerLength: nat,
                    noise: (nat, nat) -> byte, ghost headed: StreamState)
    returns (threads: seq<WorkUnit>)
    requires numThreads >= 1
    requires headerLength <= |headed.content|
    requires StreamState(stream.content, stream.position) == headed
    modifies stream
    ensures threads == Schedule(iterations, numThreads)
    ensures StreamState(stream.content, stream.position) == AfterPasses(headed, headerLength, iterations, noise)
  {
    ghost var h := headerLength;
    var shared := headerLength;
    var iterationsPerThread := iterations / numThreads;
    assert Progress(headed, headed, h, 0, shared, noise);
    threads := [];
    ghost var done: nat := 0;
    var i := 0;
    while i < numThreads
      invariant 0 <= i <= numThreads
      invariant |threads| == i && forall k :: 0 <= k < i ==> threads[k] == Unit(k, iterations, numThreads)
      invariant done == if i == 0 then 0 else EndIndex(i - 1, iterations, numThreads)
      invariant Progress(StreamState(stream.content, stream.position), headed, h, done, shared, noise)
    {
      var startIndex := i * iterationsPerThread;
      var endIndex := if i == numThreads - 1 then iterations else (i + 1) * iterationsPerThread;
      WorkerRange(iterations, numThreads, i);
      assert startIndex == StartIndex(i, iterations, numThreads) == done;
      shared := RunWorker(stream, startIndex, endIndex, shared, noise, headed, h);
      done := endIndex;
      threads := threads + [WorkUnit(i, startIndex, endIndex)];
      i := i + 1;
    }
    assert threads == Schedule(iterations, numThreads);
  }

  /** One worker's body: passes `startIndex .. endIndex - 1` on the shared
      stream, continuing from the passes before them, with the shared
      `headerLength` passed in and handed back. */
  method RunWorker(stream: FileStream, startIndex: nat, endIndex: nat, headerLength: nat,
                   noise: (nat, nat) -> byte, ghost headed: StreamState, ghost h: nat)
    returns (headerLengthAfter: nat)
    requires startIndex <= endIndex
    requires Progress(StreamState(stream.content, stream.position), headed, h, startIndex, headerLength, noise)
    modifies stream
    ensures Progress(StreamState(stream.content, stream.position), headed, h, endIndex, headerLengthAfter, noise)
  {
    headerLengthAfter := headerLength;
    var j := startIndex;
    while j < endIndex
      invariant startIndex <= j <= endIndex
      invariant Progress(StreamState(stream.content, stream.position), headed, h, j, headerLengthAfter, noise)
    {
      headerLengthAfter := RunPass(stream, j, headerLengthAfter, noise, headed, h);
      j := j + 1;
    }
  }

  /** One pass: a buffer of `Length - headerLength` random bytes written at
      the cursor, after which `headerLength` is 0. */
  method RunPass(stream: FileStream, j: nat, headerLength: nat,
                 noise: (nat, nat) -> byte, ghost headed: StreamState, ghost h: nat)
    returns (headerLengthAfter: nat)
    requires Progress(StreamState(stream.content, stream.position), headed, h, j, headerLength, noise)
    modifies stream
    ensures Progress(StreamState(stream.content, stream.position), headed, h, j + 1, headerLengthAfter, noise)
    ensures headerLengthAfter == 0
  {
    PassStep(StreamState(stream.content, stream.position), headed, h, j, headerLength, noise);
    var data := PassData(j, stream.Length() - headerLength, noise);
    ghost var next := WriteAt(StreamState(stream.content, stream.position), data);
    stream.Write(data);
    assert stream.content == next.content && stream.position == next.position;
    headerLengthAfter := 0;
  }

  /** One more pass from a state in progress: the buffer fits, and writing
      it gives the state after one more pass, with `headerLength` now 0. */
  lemma PassStep(s: StreamState, headed: StreamState, h: nat, j: nat, shared: nat,
                 noise: (nat, nat) -> byte)
    requires Progress(s, headed, h, j, shared, noise)
    ensures shared <= |s.content|
    ensures Progress(WriteAt(s, PassData(j, |s.content| - shared, noise)), headed, h, j + 1, 0, noise)
  {
    AfterPassesGrows(headed, h, j, noise);
  }

  /** Passes never shorten the file. */
  lemma {:induction false} AfterPassesGrows(s: StreamState, h: nat, count: nat, noise: (nat, nat) -> byte)
    requires h <= |s.content|
    ensures |AfterPasses(s, h, count, noise).content| >= |s.content|
  {
    if count > 0 {
      AfterPassesGrows(s, h, count - 1, noise);
    }
  }

  function Pow2(k: nat): (r: nat)
    ensures r >= 1
  {
    if k == 0 then 1 else 2 * Pow2(k - 1)
  }

  /** Writing the banner at the start of the file overwrites its first bytes,
      extending the file only when it is shorter than the banner. */
  lemma HeaderWrite(initial: seq<byte>)
    ensures var headed := WriteAt(StreamState(initial, 0), HeaderBytes());
      |headed.content| == Max(|initial|, 193) && headed.position == 193 &&
      headed.content[..193] == HeaderBytes() &&
      headed.content[193..] == if |initial| <= 193 then [] else initial[193..]
  {
    var headed := WriteAt(StreamState(initial, 0), HeaderBytes());
    assert forall k :: 193 <= k < |headed.content| ==> headed.content[k] == initial[k];
  }

  /** The first pass writes `Length - headerLength` bytes right after the
      banner, so it covers every byte of the file behind the banner and leaves
      the length as it was. */
  lemma {:induction false} FirstPass(s: StreamState, h: nat, noise: (nat, nat) -> byte)
    requires s.position == h <= |s.content|
    ensures AfterPasses(s, h, 1, noise) ==
      StreamState(s.content[..h] + PassData(0, |s.content| - h, noise), |s.content|)
  {
    assert AfterPasses(s, h, 0, noise) == s;
    var r := AfterPasses(s, h, 1, noise);
    var want := s.content[..h] + PassData(0, |s.content| - h, noise);
    assert |r.content| == |want|;
    assert forall k :: 0 <= k < |want| ==> r.content[k] == want[k];
  }

  /** Every pass after the first writes the file's whole length at the cursor,
      which stands at the end: the pass appends a copy-length block of fresh
      random bytes and the cursor stays at the end. */
  lemma {:induction false} LaterPassAppends(s: StreamState, h: nat, count: nat, noise: (nat, nat) -> byte)
    requires s.position == h <= |s.content|
    requires count >= 1
    ensures var prev := AfterPasses(s, h, count, noise);
      prev.position == |prev.content| &&
      AfterPasses(s, h, count + 1, noise) ==
        StreamState(prev.content + PassData(count, |prev.content|, noise), 2 * |prev.content|)
  {
    if count == 1 {
      FirstPass(s, h, noise);
    } else {
      LaterPassAppends(s, h, count - 1, noise);
    }
    var prev := AfterPasses(s, h, count, noise);
    OverwriteAtEnd(prev.content, PassData(count, |prev.content|, noise));
  }

  /** From a cursor placed right after a banner of length `h`, the file keeps
      its length through the first pass and doubles on each pass after it. */
  lemma {:induction false} PassesLength(s: StreamState, h: nat, count: nat, noise: (nat, nat) -> byte)
    requires s.position == h <= |s.content|
    requires count >= 1
    ensures |AfterPasses(s, h, count, noise).content| == |s.content| * Pow2(count - 1)
  {
    if count == 1 {
      FirstPass(s, h, noise);
    } else {
      PassesLength(s, h, count - 1, noise);
      LaterPassDoubles(s, h, count - 1, noise);
      DoubleProduct(|s.content|, Pow2(count - 2));
    }
  }

  lemma LaterPassDoubles(s: StreamState, h: nat, count: nat, noise: (nat, nat) -> byte)
    requires s.position == h <= |s.content|
    requires count >= 1
    ensures |AfterPasses(s, h, count + 1, noise).content| == 2 * |AfterPasses(s, h, count, noise).content|
  {
    LaterPassAppends(s, h, count, noise);
  }

  lemma DoubleProduct(a: nat, b: nat)
    ensures a * (2 * b) == 2 * (a * b)
  {
  }

  /** Length of the shredded file: as written, only the first pass keeps the
      length; every further pass doubles it. */
  lemma ShredLength(initial: seq<byte>, iterations: nat, noise: (nat, nat) -> byte)
    ensures iterations == 0 ==> |ShredState(initial, iterations, noise).content| == Max(|initial|, 193)
    ensures iterations >= 1 ==>
      |ShredState(initial, iterations, noise).content| == Max(|initial|, 193) * Pow2(iterations - 1)
  {
    HeaderWrite(initial);
    var headed := WriteAt(StreamState(initial, 0), HeaderBytes());
    if iterations >= 1 {
      PassesLength(headed, 193, iterations, noise);
    }
    PassesKeepLength(headed, 193, iterations, noise);
  }

  lemma PassesKeepLength(s: StreamState, h: nat, count: nat, noise: (nat, nat) -> byte)
    requires 193 <= h <= |s.content|
    ensures var passed := AfterPasses(s, h, count, noise);
      |WriteAt(StreamState(passed.content, 0), HeaderBytes()).content| == |passed.content|
  {
    AfterPassesGrows(s, h, count, noise);
  }

  /** Whatever the number of passes, the shredded file starts with the banner. */
  lemma HeaderRestored(initial: seq<byte>, iterations: nat, noise: (nat, nat) -> byte)
    ensures var r := ShredState(initial, iterations, noise);
      |r.content| >= 193 && r.content[..193] == HeaderBytes() && r.position == 193
  {
    HeaderWrite(initial);
    var headed := WriteAt(StreamState(initial, 0), HeaderBytes());
    AfterPassesGrows(headed, 193, iterations, noise);
    var passed := AfterPasses(headed, 193, iterations, noise);
    var r := ShredState(initial, iterations, noise);
    assert forall k :: 0 <= k < 193 ==> r.content[k] == HeaderBytes()[k];
  }

  /** Passes from equal states give equal states. */
  lemma {:induction false} PassesFromFirst(s: StreamState, t: StreamState, h: nat, count: nat, noise: (nat, nat) -> byte)
    requires s.position == h <= |s.content| && t.position == h <= |t.content|
    requires count >= 1
    requires AfterPasses(s, h, 1, noise) == AfterPasses(t, h, 1, noise)
    ensures AfterPasses(s, h, count, noise) == AfterPasses(t, h, count, noise)
  {
    if count > 1 {
      PassesFromFirst(s, t, h, count - 1, noise);
      LaterPassAppends(s, h, count - 1, noise);
      LaterPassAppends(t, h, count - 1, noise);
    }
  }

  /** Nothing of the original bytes survives at least one pass: two files of
      the same length shred to the same result under the same random bytes. */
  lemma ShredForgetsOriginal(a: seq<byte>, b: seq<byte>, iterations: nat, noise: (nat, nat) -> byte)
    requires |a| == |b|
    requires iterations >= 1
    ensures ShredState(a, iterations, noise) == ShredState(b, iterations, noise)
  {
    HeaderWrite(a);
    HeaderWrite(b);
    var ha := WriteAt(StreamState(a, 0), HeaderBytes());
    var hb := WriteAt(StreamState(b, 0), HeaderBytes());
    FirstPass(ha, 193, noise);
    FirstPass(hb, 193, noise);
    PassesFromFirst(ha, hb, 193, iterations, noise);
  }
}
