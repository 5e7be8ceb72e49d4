/** The buffered copy of the file's bytes onto the channel: a loop that
    reads at most one buffer's worth at a time and writes what it read. */
module Payload {
  import opened Text

  /** Size of the copy buffer. */
  const BufferSize: nat := 1024

  /** What `read(buf, 0, BufferSize)` returns on a file of `size` bytes
      positioned at `pos`: -1 at end of file, else the number of bytes
      read, which is as many as the buffer and the file allow. */
  function ReadCount(size: nat, pos: nat): (len: int)
    requires pos <= size
    ensures len == -1 <==> pos == size
    ensures len != -1 ==> 0 < len <= BufferSize && pos + len <= size
    ensures len != -1 && len < BufferSize ==> pos + len == size
  {
    if pos == size then -1
    else if size - pos < BufferSize then size - pos
    else BufferSize
  }

  /** The successive chunks the copy loop writes, one per read that did
      not hit end of file. */
  function Chunks(data: seq<Byte>): (chunks: seq<seq<Byte>>)
    ensures forall i :: 0 <= i < |chunks| ==> 0 < |chunks[i]| <= BufferSize
    decreases |data|
  {
    if |data| == 0 then []
    else
      var len := ReadCount(|data|, 0);
      [data[..len]] + Chunks(data[len..])
  }

  /** The bytes a sequence of chunk writes puts on the stream. */
  function Flatten(chunks: seq<seq<Byte>>): seq<Byte> {
    if |chunks| == 0 then [] else chunks[0] + Flatten(chunks[1..])
  }

  /** The running total the loop keeps: the sum of the chunk lengths. */
  function TotalLength(chunks: seq<seq<Byte>>): nat {
    if |chunks| == 0 then 0 else |chunks[0]| + TotalLength(chunks[1..])
  }

  lemma {:induction false} TotalLengthIsFlattenedLength(chunks: seq<seq<Byte>>)
    ensures TotalLength(chunks) == |Flatten(chunks)|
  {
    if |chunks| > 0 {
      TotalLengthIsFlattenedLength(chunks[1..]);
    }
  }

  /** Chunking neither truncates nor pads: the chunks written one after the
      other are exactly the file, and the reported total is its length. */
  lemma {:induction false} ChunksReassemble(data: seq<Byte>)
    ensures Flatten(Chunks(data)) == data
    ensures TotalLength(Chunks(data)) == |data|
    decreases |data|
  {
    if |data| > 0 {
      var len := ReadCount(|data|, 0);
      var chunks := Chunks(data);
      assert chunks[0] == data[..len];
      assert chunks[1..] == Chunks(data[len..]);
      ChunksReassemble(data[len..]);
      assert data == data[..len] + data[len..];
    }
    TotalLengthIsFlattenedLength(Chunks(data));
  }

  /** How many reads return data: the file's length divided by the buffer
      size, rounded up. */
  function ChunkCount(size: nat): nat {
    (size + BufferSize - 1) / BufferSize
  }

  /** The copy loop writes one chunk per buffer's worth of the file,
      counting a final partial buffer. */
  lemma {:induction false} ChunksCounted(data: seq<Byte>)
    ensures |Chunks(data)| == ChunkCount(|data|)
    decreases |data|
  {
    if |data| > 0 {
      var len := ReadCount(|data|, 0);
      assert Chunks(data) == [data[..len]] + Chunks(data[len..]);
      ChunksCounted(data[len..]);
      if |data| >= BufferSize {
        assert (|data| + BufferSize - 1) / BufferSize == (|data| - BufferSize + BufferSize - 1) / BufferSize + 1;
      }
    }
  }

  /** A chunk the loop still writes starts inside the file, so the bytes
      before it are whole buffers. */
  lemma ChunkStartsInside(size: nat, j: nat)
    requires j < ChunkCount(size)
    ensures j * BufferSize < size
  {
  }

  /** The number of the file's bytes written once `j` chunks are written. */
  function CopiedAfter(j: nat, size: nat): nat {
    if j * BufferSize < size then j * BufferSize else size
  }

  /** The first `j` chunks hold exactly the first `j` buffers' worth of the
      file (all of it once the last chunk is among them), and that is the
      total the loop has counted after writing them. */
  lemma {:induction false} ChunksPrefix(data: seq<Byte>, j: nat)
    requires j <= |Chunks(data)|
    ensures Flatten(Chunks(data)[..j]) == data[..CopiedAfter(j, |data|)]
    ensures TotalLength(Chunks(data)[..j]) == CopiedAfter(j, |data|)
    decreases |data|
  {
    var chunks := Chunks(data);
    if j == 0 {
      assert chunks[..0] == [];
    } else {
      var len := ReadCount(|data|, 0);
      var rest := Chunks(data[len..]);
      assert chunks == [data[..len]] + rest;
      assert chunks[..j] == [data[..len]] + rest[..j - 1];
      assert chunks[..j][1..] == rest[..j - 1];
      ChunksPrefix(data[len..], j - 1);
      var k := CopiedAfter(j - 1, |data| - len);
      assert Flatten(chunks[..j]) == data[..len] + data[len..][..k];
      assert len + k == CopiedAfter(j, |data|);
      assert data[..len] + data[len..][..k] == data[..len + k];
    }
    TotalLengthIsFlattenedLength(chunks[..j]);
  }

  /** One `read(buf, 0, buf.length)` on the file stream. */
  method ReadInto(data: seq<Byte>, pos: nat, buf: array<Byte>) returns (len: int)
    requires buf.Length == BufferSize
    requires pos <= |data|
    modifies buf
    ensures len == ReadCount(|data|, pos)
    ensures len > 0 ==> pos + len <= |data| && buf[..len] == data[pos..pos + len]
  {
    len := ReadCount(|data|, pos);
    if len > 0 {
      forall i | 0 <= i < len {
        buf[i] := data[pos + i];
      }
    }
  }

  /** The copy loop: read into the buffer until end of file, writing each
      chunk and adding its length to the total. Every byte of the file is
      written once, in order, and the total is the file's length. */
  method CopyPayload(data: seq<Byte>, out: seq<Byte>) returns (sent: seq<Byte>, totalLength: nat)
    ensures sent == out + data
    ensures totalLength == |data|
  {
    var buf := new Byte[BufferSize];
    var pos: nat := 0;
    sent, totalLength := out, 0;
    while true
      invariant pos <= |data|
      invariant sent == out + data[..pos]
      invariant totalLength == pos
      decreases |data| - pos
    {
      var len := ReadInto(data, pos, buf);
      if len <= 0 {
        break;
      }
      assert data[..pos + len] == data[..pos] + data[pos..pos + len];
      sent := sent + buf[..len];
      totalLength := totalLength + len;
      pos := pos + len;
    }
    assert data[..pos] == data;
  }
}
