/** The part of `System.IO.FileStream` the shredder relies on: a file's bytes
    and a cursor. `Write` overwrites at the cursor, extends the file when it
    runs past the end and advances the cursor; `Seek` moves the cursor. */
module Streams {

  type byte = b: int | 0 <= b < 256

  function Max(a: int, b: int): int {
    if a < b then b else a
  }

  /** The file's bytes, padded with zeros up to `position` (a seek past the end
      leaves a gap that reads as zeros once something is written beyond it). */
  function Padded(content: seq<byte>, position: nat): (r: seq<byte>)
    ensures |r| == Max(|content|, position)
    ensures r[..|content|] == content
  {
    if position <= |content| then content else content + seq(position - |content|, _ => 0)
  }

  /** The bytes of a file after writing `data` at `position`. */
  function Overwrite(content: seq<byte>, position: nat, data: seq<byte>): (r: seq<byte>)
    ensures |r| == Max(|content|, position + |data|)
  {
    var padded := Padded(content, position);
    var end := position + |data|;
    padded[..position] + data + if end < |padded| then padded[end..] else []
  }

  /** Byte by byte: the written span holds `data`, bytes before and after it
      keep their old values, and a gap past the old end reads as zeros. */
  lemma OverwriteBytes(content: seq<byte>, position: nat, data: seq<byte>)
    ensures var r := Overwrite(content, position, data);
      forall k :: 0 <= k < |r| ==>
        r[k] == if position <= k < position + |data| then data[k - position]
                else if k < |content| then content[k]
                else 0
  {
  }

  /** Writing over a whole file from its end appends. */
  lemma OverwriteAtEnd(content: seq<byte>, data: seq<byte>)
    ensures Overwrite(content, |content|, data) == content + data
  {
    OverwriteBytes(content, |content|, data);
  }

  /** A stream's bytes and cursor, as a value. */
  datatype StreamState = StreamState(content: seq<byte>, position: nat)

  /** What `Write` does to a stream, on values. */
  function WriteAt(s: StreamState, data: seq<byte>): StreamState {
    StreamState(Overwrite(s.content, s.position, data), s.position + |data|)
  }

  class FileStream {
    var content: seq<byte>
    var position: nat

    /** `new FileStream(path, FileMode.OpenOrCreate, FileAccess.Write)` on a file
        holding `existing`: the cursor starts at the beginning. */
    constructor Open(existing: seq<byte>)
      ensures content == existing && position == 0
    {
      content := existing;
      position := 0;
    }

    /** `stream.Length` */
    function Length(): (n: nat)
      reads this
      ensures n == |content|
    {
      |content|
    }

    /** `stream.Write(data, 0, data.Length)` */
    method Write(data: seq<byte>)
      modifies this
      ensures StreamState(content, position) == WriteAt(StreamState(old(content), old(position)), data)
    {
      content := Overwrite(content, position, data);
      position := position + |data|;
    }

    /** `stream.Seek(offset, SeekOrigin.Begin)` */
    method Seek(offset: nat)
      modifies this
      ensures position == offset && content == old(content)
    {
      position := offset;
    }
  }
}
