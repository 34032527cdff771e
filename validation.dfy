/** The chain of early returns at the start of `Main`: it accepts an
    invocation, yielding the iteration count, or names the first check that
    fails. The facts the code asks of the environment (the parsed iteration
    count, `File.Exists`, `Path.GetExtension`, `FileInfo.Length`, the read-only
    attribute, `Path.GetInvalidFileNameChars`) are fields of the input. */
module Validation {
  import opened Wrappers
  import opened Text

  /** What the validation chain consults. `iterations` is the outcome of
      `int.TryParse` on the fourth argument; `extension` is what
      `Path.GetExtension` returns for the path. */
  datatype Invocation = Invocation(
    argCount: nat,
    iterations: Option<int>,
    fileExists: bool,
    extension: string,
    fileSize: int,
    readOnly: bool,
    path: string,
    invalidFileNameChars: set<char>)

  /** Why an invocation is turned down; each comes with its own console line. */
  datatype Rejection =
    | ShowUsage          // no arguments: usage text
    | InvalidArguments   // not exactly four arguments
    | InvalidIterations  // not an integer, or outside 1..25
    | FileNotFound
    | InvalidExtension
    | InvalidFileSize    // outside 1..100000000 bytes
    | PermissionDenied   // read-only file
    | InvalidPath        // path holds an invalid file-name character

  const MinIterations: int := 1
  const MaxIterations: int := 25
  const MinFileSize: int := 1
  const MaxFileSize: int := 100000000

  const AllowedExtensions: seq<string> :=
    [".txt", ".docx", ".pdf", ".xlsx", ".doc", ".pptx", ".ppt", ".xls", ".csv", ".jpg",
     ".jpeg", ".png", ".gif", ".bmp", ".mp3", ".wav", ".mp4", ".avi", ".mov", ".exe"]

  /** The position of each check in the chain. */
  function Rank(e: Rejection): nat {
    match e
    case ShowUsage => 0
    case InvalidArguments => 1
    case InvalidIterations => 2
    case FileNotFound => 3
    case InvalidExtension => 4
    case InvalidFileSize => 5
    case PermissionDenied => 6
    case InvalidPath => 7
  }

  /** Reference statement of each check on its own: the condition under which
      the check that reports `e` turns the invocation down. */
  predicate Fails(inv: Invocation, e: Rejection) {
    match e
    case ShowUsage => inv.argCount == 0
    case InvalidArguments => inv.argCount != 4
    case InvalidIterations =>
      !(inv.iterations.Some? && 1 <= inv.iterations.value <= 25)
    case FileNotFound => !inv.fileExists
    case InvalidExtension =>
      !(exists a :: a in AllowedExtensions && SameIgnoringCase(inv.extension, a))
    case InvalidFileSize => !(1 <= inv.fileSize <= 100000000)
    case PermissionDenied => inv.readOnly
    case InvalidPath => exists i :: 0 <= i < |inv.path| && inv.path[i] in inv.invalidFileNameChars
  }

  predicate IterationsValid(iterations: Option<int>) {
    match iterations
    case None => false
    case Some(n) => !(n < MinIterations || n > MaxIterations)
  }

  predicate ExtensionAllowed(extension: string) {
    Lower(extension) in AllowedExtensions
  }

  predicate SizeValid(fileSize: int) {
    !(fileSize < MinFileSize || fileSize > MaxFileSize)
  }

  /** `Path.GetInvalidFileNameChars().Any(c => filePath.Contains(c))` */
  predicate HasInvalidChar(path: string, invalid: set<char>) {
    exists c :: c in invalid && c in path
  }

  /** The validation chain, checks in source order, stopping at the first
      failure. On success it yields the iteration count. */
  function Validate(inv: Invocation): (r: Result<nat, Rejection>)
    ensures r.Failure? ==>
      Fails(inv, r.error) && forall e :: Rank(e) < Rank(r.error) ==> !Fails(inv, e)
    ensures r.Success? <==> forall e :: !Fails(inv, e)
    ensures r.Success? ==> inv.iterations == Some(r.value as int) && 1 <= r.value <= 25
  {
    ExtensionCheckIgnoresCase(inv.extension);
    var r: Result<nat, Rejection> :=
      if inv.argCount == 0 then Failure(ShowUsage)
      else if inv.argCount != 4 then Failure(InvalidArguments)
      else if !IterationsValid(inv.iterations) then Failure(InvalidIterations)
      else if !inv.fileExists then Failure(FileNotFound)
      else if !ExtensionAllowed(inv.extension) then Failure(InvalidExtension)
      else if !SizeValid(inv.fileSize) then Failure(InvalidFileSize)
      else if inv.readOnly then Failure(PermissionDenied)
      else if HasInvalidChar(inv.path, inv.invalidFileNameChars) then Failure(InvalidPath)
      else Success(inv.iterations.value as nat);
    assert r.Failure? ==> Fails(inv, r.error);
    r
  }

  /** Every whitelisted extension is already in lower case. */
  lemma AllowedAreLowerCase()
    ensures forall a :: a in AllowedExtensions ==> Lower(a) == a
  {
    forall a | a in AllowedExtensions ensures Lower(a) == a {
      assert forall i :: 0 <= i < |a| ==> !('A' <= a[i] <= 'Z');
    }
  }

  /** The extension test lower-cases the extension and looks it up; that is the
      same as the extension matching some whitelisted entry in any case. */
  lemma ExtensionCheckIgnoresCase(extension: string)
    ensures ExtensionAllowed(extension) <==>
      exists a :: a in AllowedExtensions && SameIgnoringCase(extension, a)
  {
    AllowedAreLowerCase();
    if ExtensionAllowed(extension) {
      var a := Lower(extension);
      LowerEqualIffSameIgnoringCase(extension, a);
    }
    forall a | a in AllowedExtensions && SameIgnoringCase(extension, a)
      ensures ExtensionAllowed(extension)
    {
      LowerEqualIffSameIgnoringCase(extension, a);
    }
  }

  /** `Path.GetInvalidFileNameChars()` on Unix. */
  const UnixInvalidFileNameChars: set<char> := {'\0', '/'}

  /** An invocation that passes every check, varied one field at a time: a bare
      file name in the current directory, on Unix. */
  function GoodInvocation(): Invocation {
    Invocation(4, Some(3), true, ".txt", 1000, false, "a.txt", UnixInvalidFileNameChars)
  }

  /** Invocations that pass, including the bounds of the ranges and an
      upper-case extension. */
  lemma AcceptedExamples()
    ensures Validate(GoodInvocation()) == Success(3)
    ensures Validate(GoodInvocation().(iterations := Some(25))) == Success(25)
  {
    FileChecksPass(".txt", 1000, "a.txt");
  }

  /** An upper-case extension and the largest size are accepted too. */
  lemma BoundaryAccepted()
    ensures Validate(GoodInvocation().(extension := ".TXT", path := "a.TXT")) == Success(3)
    ensures Validate(GoodInvocation().(fileSize := 100000000)) == Success(3)
  {
    FileChecksPass(".TXT", 1000, "a.TXT");
    FileChecksPass(".txt", 100000000, "a.txt");
  }

  lemma FileChecksPass(extension: string, fileSize: int, path: string)
    requires extension in {".txt", ".TXT"} && fileSize in {1000, 100000000}
    requires path in {"a.txt", "a.TXT", "a.zip"}
    ensures ExtensionAllowed(extension) && SizeValid(fileSize)
    ensures !HasInvalidChar(path, UnixInvalidFileNameChars)
  {
    assert Lower(extension) == ".txt" == AllowedExtensions[0];
  }

  /** Invocations turned down by the argument and iteration checks. */
  lemma ArgumentRejections()
    ensures Validate(GoodInvocation().(argCount := 0)) == Failure(ShowUsage)
    ensures Validate(GoodInvocation().(argCount := 3)) == Failure(InvalidArguments)
    ensures Validate(GoodInvocation().(iterations := Some(0))) == Failure(InvalidIterations)
    ensures Validate(GoodInvocation().(iterations := Some(26))) == Failure(InvalidIterations)
    ensures Validate(GoodInvocation().(iterations := None)) == Failure(InvalidIterations)
  {
  }

  /** Invocations turned down by the existence and extension checks. */
  lemma FileRejections()
    ensures Validate(GoodInvocation().(fileExists := false)) == Failure(FileNotFound)
    ensures Validate(GoodInvocation().(extension := ".zip", path := "a.zip")) == Failure(InvalidExtension)
  {
    assert Lower(".zip") == ".zip";
    assert !ExtensionAllowed(".zip");
  }

  /** Invocations turned down by the size, read-only and path checks, each
      with its own error. */
  lemma SizeAndAccessRejections()
    ensures Validate(GoodInvocation().(fileSize := 0)) == Failure(InvalidFileSize)
    ensures Validate(GoodInvocation().(fileSize := 100000001)) == Failure(InvalidFileSize)
    ensures Validate(GoodInvocation().(readOnly := true)) == Failure(PermissionDenied)
    ensures Validate(GoodInvocation().(path := "docs/a.txt")) == Failure(InvalidPath)
  {
    FileChecksPass(".txt", 1000, "a.txt");
    assert '/' in "docs/a.txt";
  }

  /** The path test looks for file-name characters in the whole path, and '/'
      is one of them on every platform, so a path that names a directory is
      never accepted: it fails at the path test or at an earlier check. */
  lemma SeparatorPathsRejected(inv: Invocation)
    requires '/' in inv.invalidFileNameChars && '/' in inv.path
    ensures Validate(inv).Failure?
    ensures Rank(Validate(inv).error) <= Rank(InvalidPath)
  {
    assert HasInvalidChar(inv.path, inv.invalidFileNameChars);
  }
}
