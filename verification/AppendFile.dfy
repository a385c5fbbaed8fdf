/** The content of one regular file on one storage node: the inode's size and the backing file it appends to. */
module AppendFile {

  type byte = x: int | 0 <= x < 256

  /** `size` is the inode's, `bytes` what the backing file holds. */
  datatype FileData = FileData(size: nat, bytes: seq<byte>)
  {
    predicate Consistent() {
      size == |bytes|
    }
  }

  const EMPTY := FileData(0, [])
  const CHUNK: nat := 4096

  /** What the C library makes of one write: the backing file cannot be opened; or so many zeros of the gap reach the
      file, the data's `fwrite` returns `counted`, and so many bytes of the data are in the file after `fclose`. The
      program looks at `counted` only. Numbers beyond what was asked for mean all of it. */
  datatype Io = Unopened | Io(zeros: nat, counted: nat, kept: nat)

  datatype WriteResult = Written(count: nat) | NotPermitted | IoError | ShortWrite

  function Min(a: nat, b: nat): nat {
    if a < b then a else b
  }

  function Zeros(n: nat): (z: seq<byte>)
    ensures |z| == n && forall i :: 0 <= i < n ==> z[i] == 0
  {
    seq(n, i => 0)
  }

  /** What one write appends to the backing file. */
  function Appended(f: FileData, offset: nat, data: seq<byte>, io: Io): seq<byte>
    requires offset >= f.size && io.Io?
  {
    Zeros(Min(io.zeros, offset - f.size)) + data[..Min(io.kept, |data|)]
  }

  function Write(f: FileData, offset: nat, data: seq<byte>, io: Io): (FileData, WriteResult) {
    if offset < f.size then (f, NotPermitted)
    else if io.Unopened? then (f, IoError)
    else
      var bytes := f.bytes + Appended(f, offset, data, io);
      if io.counted < |data| then (FileData(f.size, bytes), ShortWrite)
      else (FileData(offset + |data|, bytes), Written(|data|))
  }

  /** Everything that was to be stored is stored, and counted. */
  predicate Complete(io: Io, gap: nat, length: nat) {
    io.Io? && io.zeros >= gap && io.counted >= length && io.kept >= length
  }

  /** `fread` stops at the end of the backing file. */
  function Read(f: FileData, offset: nat, count: nat): seq<byte> {
    if offset >= f.size then []
    else
      var toRead := if offset + count > f.size then f.size - offset else count;
      if offset >= |f.bytes| then []
      else if offset + toRead > |f.bytes| then f.bytes[offset..]
      else f.bytes[offset..offset + toRead]
  }

  // ---------------------------------------------------------------- size and content

  /** A write that changes the file: it is permitted and the backing file opens. */
  predicate Reaches(f: FileData, offset: nat, io: Io) {
    offset >= f.size && io.Io?
  }

  /** Exactly when the size stays the content's length, over everything the C library may do: the write does not reach
      the file, or it reports success and all of the gap and the data is stored, or it reports an error and nothing is
      stored. Which writes are refused, and that these change nothing. */
  lemma WriteKeepsConsistency(f: FileData, offset: nat, data: seq<byte>, io: Io)
    requires f.Consistent()
    ensures Write(f, offset, data, io).0.Consistent() <==>
              || !Reaches(f, offset, io)
              || Complete(io, offset - f.size, |data|)
              || (io.counted < |data| && Min(io.zeros, offset - f.size) == 0 && Min(io.kept, |data|) == 0)
    ensures offset < f.size <==> Write(f, offset, data, io).1 == NotPermitted
    ensures !Reaches(f, offset, io) ==> Write(f, offset, data, io).0 == f
  {
  }

  /** The content before the write and the zeros stored end at the offset, and all of the data is stored. */
  predicate Lands(f: FileData, offset: nat, length: nat, io: Io) {
    Reaches(f, offset, io) && |f.bytes| + Min(io.zeros, offset - f.size) == offset && io.kept >= length
  }

  predicate HasAt(f: FileData, offset: nat, data: seq<byte>) {
    offset + |data| <= f.size && offset + |data| <= |f.bytes| && f.bytes[offset..offset + |data|] == data
  }

  lemma {:induction false} LandsHas(f: FileData, offset: nat, data: seq<byte>, io: Io)
    requires Write(f, offset, data, io).1.Written? && Lands(f, offset, |data|, io)
    ensures HasAt(Write(f, offset, data, io).0, offset, data)
  {
    var g := Write(f, offset, data, io).0;
    assert g.bytes[offset..offset + |data|] == data;
  }

  /** Data that the write does not leave at its offset, if the write does not land. */
  lemma {:induction false} MissingData(f: FileData, offset: nat, length: nat, io: Io) returns (data: seq<byte>)
    requires length > 0 && Reaches(f, offset, io) && io.counted >= length && !Lands(f, offset, length, io)
    ensures |data| == length && !HasAt(Write(f, offset, data, io).0, offset, data)
  {
    var before := |f.bytes| + Min(io.zeros, offset - f.size);
    var stored := f.bytes + Zeros(Min(io.zeros, offset - f.size));
    var first: byte := if before > offset && stored[offset] == 0 then 1 else 0;
    data := seq(length, i => first);
    var g := Write(f, offset, data, io).0;
    assert g.bytes == stored + data[..Min(io.kept, length)];
    if before > offset {
      assert g.bytes[offset] == stored[offset];
      if offset + length <= |g.bytes| {
        assert g.bytes[offset..offset + length][0] == g.bytes[offset];
      }
    }
  }

  /** Exactly when a write that reports success has put its data, whatever it is, at its offset. A consistent file and a
      complete write is one such case; an earlier short store breaks it. */
  lemma {:induction false} AcknowledgedIsStoredIff(f: FileData, offset: nat, length: nat, io: Io)
    requires length > 0 && Reaches(f, offset, io) && io.counted >= length
    ensures Lands(f, offset, length, io) <==>
              forall data: seq<byte> :: |data| == length ==> HasAt(Write(f, offset, data, io).0, offset, data)
  {
    if Lands(f, offset, length, io) {
      forall data: seq<byte> | |data| == length ensures HasAt(Write(f, offset, data, io).0, offset, data) {
        LandsHas(f, offset, data, io);
      }
    } else {
      var data := MissingData(f, offset, length, io);
    }
  }

  // ---------------------------------------------------------------- reads

  /** A complete write can be read back, the gap reads as zeros, and everything before it reads as it did. */
  lemma ReadBack(f: FileData, offset: nat, data: seq<byte>, io: Io)
    requires f.Consistent() && offset >= f.size && Complete(io, offset - f.size, |data|)
    ensures var g := Write(f, offset, data, io).0;
            && Read(g, offset, |data|) == data
            && Read(g, f.size, offset - f.size)
               == (if data == [] && offset == f.size then [] else Zeros(offset - f.size))
            && (forall o: nat, n: nat :: o + n <= f.size ==> Read(g, o, n) == Read(f, o, n))
            && Read(g, offset + |data|, 1) == []
  {
    var g := Write(f, offset, data, io).0;
    assert g.bytes[offset..offset + |data|] == data;
    assert g.bytes[f.size..offset] == Zeros(offset - f.size);
    forall o: nat, n: nat | o + n <= f.size ensures Read(g, o, n) == Read(f, o, n) {
      assert o < f.size ==> g.bytes[o..o + n] == f.bytes[o..o + n];
    }
  }

  /** A read returns the slice clamped to the size. */
  lemma ReadIsClampedSlice(f: FileData, offset: nat, count: nat)
    requires f.Consistent()
    ensures var end := if offset + count > f.size then f.size else offset + count;
            Read(f, offset, count) == if offset < f.size then f.bytes[offset..end] else []
  {
  }

  /** Size and content have only grown. */
  predicate Grows(f: FileData, g: FileData) {
    f.size <= g.size && f.bytes <= g.bytes
  }

  lemma {:induction false} WriteGrows(f: FileData, offset: nat, data: seq<byte>, io: Io)
    ensures Grows(f, Write(f, offset, data, io).0)
  {
  }

  /** What a read returned stays the front of what it returns, and a read within the stored content is unchanged. */
  lemma {:induction false} GrowthKeepsReads(f: FileData, g: FileData, offset: nat, count: nat)
    requires Grows(f, g)
    ensures Read(f, offset, count) <= Read(g, offset, count)
    ensures offset + count <= f.size && offset + count <= |f.bytes| ==> Read(g, offset, count) == Read(f, offset, count)
  {
    var r := Read(f, offset, count);
    if r != [] {
      assert r == f.bytes[offset..offset + |r|] == g.bytes[offset..offset + |r|];
      var s := Read(g, offset, count);
      assert s == g.bytes[offset..offset + |s|];
      assert s[..|r|] == g.bytes[offset..offset + |r|];
    }
  }

  datatype WriteCall = WriteCall(offset: nat, data: seq<byte>, io: Io)

  function WriteAll(f: FileData, writes: seq<WriteCall>): FileData
    decreases |writes|
  {
    if writes == [] then f
    else WriteAll(Write(f, writes[0].offset, writes[0].data, writes[0].io).0, writes[1..])
  }

  /** Whatever is written later, and however much of it is stored, a byte that could be read keeps its value. */
  lemma {:induction false} ReadableBytesStay(f: FileData, writes: seq<WriteCall>, offset: nat, count: nat)
    ensures Grows(f, WriteAll(f, writes)) && Read(f, offset, count) <= Read(WriteAll(f, writes), offset, count)
    decreases |writes|
  {
    if writes != [] {
      var g := Write(f, writes[0].offset, writes[0].data, writes[0].io).0;
      WriteGrows(f, writes[0].offset, writes[0].data, writes[0].io);
      ReadableBytesStay(g, writes[1..], offset, count);
    }
    GrowthKeepsReads(f, WriteAll(f, writes), offset, count);
  }

  // ---------------------------------------------------------------- the program

  /** How many zeros the gap loop stores, given what each of its `fwrite`s stores (all, where nothing is given). */
  function GapStored(gap: nat, stores: seq<nat>): (z: nat)
    ensures z <= gap
    decreases gap
  {
    if gap == 0 then 0
    else
      var chunk := if gap > CHUNK then CHUNK else gap;
      Min(chunk, if stores == [] then chunk else stores[0])
      + GapStored(gap - chunk, if stores == [] then [] else stores[1..])
  }

  /** The inode and its backing file as `fused_write` and `fused_read` use them. */
  class BackedFile {
    var size: nat
    var bytes: seq<byte>

    ghost function View(): FileData
      reads this
    {
      FileData(size, bytes)
    }

    constructor ()
      ensures View() == EMPTY
    {
      size, bytes := 0, [];
    }

    method WriteAt(offset: nat, data: seq<byte>, opens: bool, stores: seq<nat>, counted: nat, kept: nat)
        returns (r: WriteResult)
      modifies this
      ensures var was := old(View());
              var gap := if offset >= was.size then GapStored(offset - was.size, stores) else 0;
              var io := if opens then Io(gap, counted, kept)
                        else Unopened;
              (View(), r) == Write(was, offset, data, io)
    {
      if offset < size {
        return NotPermitted;
      }
      if !opens {
        return IoError;
      }
      FillGap(offset - size, stores);
      bytes := bytes + data[..Min(kept, |data|)];
      assert bytes == old(bytes) + (Zeros(GapStored(offset - size, stores)) + data[..Min(kept, |data|)]);
      if counted < |data| {
        return ShortWrite;
      }
      size := offset + |data|;
      return Written(|data|);
    }

    /** Writes the gap in chunks and looks at none of the results. */
    method FillGap(length: nat, stores: seq<nat>)
      modifies this
      ensures size == old(size) && bytes == old(bytes) + Zeros(GapStored(length, stores))
    {
      var gap: nat, rest: seq<nat>, stored: nat := length, stores, 0;
      while gap > 0
        invariant size == old(size)
        invariant bytes == old(bytes) + Zeros(stored)
        invariant stored + GapStored(gap, rest) == GapStored(length, stores)
      {
        var chunk := if gap > CHUNK then CHUNK else gap;
        var put := Min(chunk, if rest == [] then chunk else rest[0]);
        bytes := bytes + Zeros(put);
        gap, stored := gap - chunk, stored + put;
        rest := if rest == [] then [] else rest[1..];
      }
    }

    method ReadAt(offset: nat, count: nat) returns (data: seq<byte>)
      ensures data == Read(View(), offset, count)
    {
      if offset >= size {
        return [];
      }
      var toRead := count;
      if offset + toRead > size {
        toRead := size - offset;
      }
      data := [];
      if offset < |bytes| {
        data := bytes[offset..if offset + toRead > |bytes| then |bytes| else offset + toRead];
      }
    }
  }
}
