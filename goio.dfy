/**
 * The file reads the pipeline's readers rely on, over a file whose contents
 * are a byte sequence: (*os.File).Read, io.ReadFull and Seek from the start.
 * A read into a reused buffer overwrites only the bytes it actually read;
 * the rest of the buffer keeps whatever an earlier read left there.
 */
module GoIo {
  import opened Bytes

  datatype ReadErr = NoErr | Eof | UnexpectedEof

  /** The result of os.Open on a path: an error, or the file's contents. */
  datatype Opened = OpenFailed | Opened(contents: seq<byte>)

  /** A directory entry as os.ReadDir lists it. */
  datatype DirEntry = DirEntry(name: string, isDir: bool)

  /** The text of a read error, as %v prints it. */
  function ReadErrText(e: ReadErr): string
  {
    match e
    case NoErr => "<nil>"
    case Eof => "EOF"
    case UnexpectedEof => "unexpected EOF"
  }

  /** What a read leaves behind: the buffer, the new file offset, the
      number of bytes read and the error returned. */
  datatype ReadOutcome = ReadOutcome(buf: seq<byte>, pos: nat, n: nat, err: ReadErr)

  /** Bytes left between the offset and the end of the file (an offset
      past the end, reachable by Seek, leaves none). */
  function Avail(file: seq<byte>, pos: nat): nat
  {
    if pos >= |file| then 0 else |file| - pos
  }

  /** (*os.File).Read on a regular file: one read of as many bytes as fit
      and are left; io.EOF, with nothing read, only at the end of the file. */
  function FileRead(file: seq<byte>, pos: nat, buf: seq<byte>): (r: ReadOutcome)
    ensures |r.buf| == |buf| && r.n <= |buf|
    ensures r.err == Eof <==> (|buf| > 0 && Avail(file, pos) == 0)
    ensures r.err != UnexpectedEof
    ensures r.buf[r.n..] == buf[r.n..]
    ensures 0 < |buf| <= Avail(file, pos) ==> r.buf == file[pos..pos + |buf|]
  {
    var a := Avail(file, pos);
    if |buf| == 0 then ReadOutcome(buf, pos, 0, NoErr)
    else if a == 0 then ReadOutcome(buf, pos, 0, Eof)
    else
      var n := Min(|buf|, a);
      ReadOutcome(file[pos..pos + n] + buf[n..], pos + n, n, NoErr)
  }

  /** io.ReadFull: reads until the buffer is full; io.EOF if nothing was
      left, io.ErrUnexpectedEOF if the file ended part-way, in which case
      only the bytes read were overwritten. */
  function FullRead(file: seq<byte>, pos: nat, buf: seq<byte>): (r: ReadOutcome)
    ensures |r.buf| == |buf| && r.n <= |buf|
    ensures r.err == NoErr <==> Avail(file, pos) >= |buf|
    ensures |buf| > 0 && r.err == NoErr ==>
      r.buf == file[pos..pos + |buf|] && r.pos == pos + |buf|
    ensures r.buf[r.n..] == buf[r.n..]
  {
    var a := Avail(file, pos);
    if |buf| == 0 then ReadOutcome(buf, pos, 0, NoErr)
    else if a >= |buf| then ReadOutcome(file[pos..pos + |buf|], pos + |buf|, |buf|, NoErr)
    else if a == 0 then ReadOutcome(buf, pos, 0, Eof)
    else ReadOutcome(file[pos..] + buf[a..], |file|, a, UnexpectedEof)
  }

  /** With enough bytes left, a full read and a plain read fill the buffer
      alike. */
  lemma FullReadIsFileRead(file: seq<byte>, pos: nat, buf: seq<byte>)
    requires 0 < |buf| <= Avail(file, pos)
    ensures FullRead(file, pos, buf) == FileRead(file, pos, buf)
  {
    assert file[pos..pos + |buf|] + buf[|buf|..] == file[pos..pos + |buf|];
  }

  /** An open file: its contents and the current offset. */
  class File {
    const data: seq<byte>
    var pos: nat

    constructor (contents: seq<byte>)
      ensures data == contents && pos == 0
    {
      data := contents;
      pos := 0;
    }

    method Read(buf: array<byte>) returns (n: nat, err: ReadErr)
      modifies this, buf
      ensures FileRead(data, old(pos), old(buf[..])) == ReadOutcome(buf[..], pos, n, err)
    {
      var r := FileRead(data, pos, buf[..]);
      forall i | 0 <= i < buf.Length {
        buf[i] := r.buf[i];
      }
      pos, n, err := r.pos, r.n, r.err;
    }

    method ReadFull(buf: array<byte>) returns (err: ReadErr)
      modifies this, buf
      ensures var r := FullRead(data, old(pos), old(buf[..]));
        buf[..] == r.buf && pos == r.pos && err == r.err
    {
      var r := FullRead(data, pos, buf[..]);
      forall i | 0 <= i < buf.Length {
        buf[i] := r.buf[i];
      }
      pos, err := r.pos, r.err;
    }

    /** Seek(off, io.SeekStart): a negative offset is an error and leaves
      the offset alone; any other offset, even past the end, is accepted. */
    method Seek(off: int) returns (ok: bool)
      modifies this
      ensures ok == (off >= 0)
      ensures pos == if ok then off else old(pos)
    {
      ok := off >= 0;
      if ok {
        pos := off;
      }
    }
  }
}
