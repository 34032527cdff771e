/** `Main` as a whole: validate, overwrite the file through a stream opened
    only after every check passed, then delete it when the answer to the
    confirmation prompt is yes. */
module Program {
  import opened Text
  import opened Validation
  import opened Streams
  import opened Shredder

  /** The target file as the filesystem holds it. */
  class TargetFile {
    var present: bool
    var bytes: seq<byte>

    constructor (present: bool, bytes: seq<byte>)
      ensures this.present == present && this.bytes == bytes
    {
      this.present := present;
      this.bytes := bytes;
    }
  }

  /** How an invocation ends. */
  datatype Outcome = Rejected(reason: Rejection) | Shredded(deleted: bool)

  /** `response.Equals("Y", StringComparison.OrdinalIgnoreCase)` */
  function ConfirmsDeletion(response: string): (r: bool)
    ensures r <==> response == "Y" || response == "y"
  {
    assert EqualsOrdinalIgnoreCase(response, "Y") ==> response[0] == 'Y' || response[0] == 'y';
    EqualsOrdinalIgnoreCase(response, "Y")
  }

  /** One run of the program. `inv` holds what the checks learn about `file`;
      `numThreads` is `Environment.ProcessorCount`; `noise` supplies the random
      bytes; `response` is the line read at the deletion prompt. */
  method Run(inv: Invocation, file: TargetFile, numThreads: nat,
             noise: (nat, nat) -> byte, response: string)
    returns (outcome: Outcome)
    requires numThreads >= 1
    requires inv.fileExists == file.present
    requires file.present ==> inv.fileSize == |file.bytes|
    modifies file
    ensures Validate(inv).Failure? ==>
      outcome == Rejected(Validate(inv).error) &&
      file.present == old(file.present) && file.bytes == old(file.bytes)
    ensures Validate(inv).Success? ==>
      outcome == Shredded(ConfirmsDeletion(response)) &&
      file.bytes == ShredState(old(file.bytes), Validate(inv).value, noise).content &&
      file.present == !ConfirmsDeletion(response)
  {
    var verdict := Validate(inv);
    if verdict.Failure? {
      return Rejected(verdict.error);
    }
    var iterations := verdict.value;

    var stream := new FileStream.Open(file.bytes);
    var threads := Shred(stream, iterations, numThreads, noise);
    file.bytes := stream.content;

    var deleted := ConfirmsDeletion(response);
    if deleted {
      file.present := false;
    }
    outcome := Shredded(deleted);
  }
}
