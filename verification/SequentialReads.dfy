/** Reads of one descriptor, one after the other: what the code copies, and when that is the file in order. */
module SequentialReads {
  import opened Bytes
  import opened Limits
  import opened Descriptors
  import opened FileSystem

  function Sum(sizes: seq<nat>): nat {
    if sizes == [] then 0 else sizes[0] + Sum(sizes[1..])
  }

  /** Reads of these sizes, one after the other, each yielding what is in the file where it starts. The
      position moves by the size asked for, and `read_data` sees it modulo 2^32. */
  function ReadMany(file: seq<Byte>, pos: nat, sizes: seq<nat>): seq<Byte>
    decreases sizes
  {
    if sizes == [] then []
    else ReadAt(file, pos % TWO_32, sizes[0]) + ReadMany(file, pos + sizes[0], sizes[1..])
  }

  /** One of the reads starts after the position has wrapped back into the file. */
  predicate Rereads(file: seq<Byte>, pos: nat, sizes: seq<nat>)
    decreases sizes
  {
    sizes != [] && (StartsOver(file, pos, sizes[0]) || Rereads(file, pos + sizes[0], sizes[1..]))
  }

  predicate StartsOver(file: seq<Byte>, pos: nat, n: nat) {
    TWO_32 <= pos && pos % TWO_32 < |file| && 0 < n
  }

  /** Unless it starts over, a read at a wrapped position yields what one at the position itself would. */
  lemma NotStartedOver(file: seq<Byte>, pos: nat, n: nat)
    requires |file| <= TWO_32 && !StartsOver(file, pos, n)
    ensures ReadAt(file, pos % TWO_32, n) == ReadAt(file, pos, n)
  {
    if pos < TWO_32 {
      assert pos % TWO_32 == pos;
    }
  }

  lemma {:induction false} WithoutRereads(file: seq<Byte>, pos: nat, sizes: seq<nat>)
    requires |file| <= TWO_32 && !Rereads(file, pos, sizes)
    ensures ReadMany(file, pos, sizes) == ReadAt(file, pos, Sum(sizes))
    decreases sizes
  {
    if sizes != [] {
      var n, rest := sizes[0], sizes[1..];
      assert !Rereads(file, pos + n, rest);
      WithoutRereads(file, pos + n, rest);
      NotStartedOver(file, pos, n);
      ReadAtSplits(file, pos, n, Sum(rest));
      assert ReadMany(file, pos, sizes) == ReadAt(file, pos % TWO_32, n) + ReadMany(file, pos + n, rest);
      assert Sum(sizes) == n + Sum(rest);
    }
  }

  /** How many bytes a read yields, and how many such a list of reads does. */
  function Yield(length: nat, pos: nat, n: nat): nat {
    if length <= pos then 0 else Min(n, length - pos)
  }

  function YieldMany(length: nat, pos: nat, sizes: seq<nat>): nat
    decreases sizes
  {
    if sizes == [] then 0 else Yield(length, pos % TWO_32, sizes[0]) + YieldMany(length, pos + sizes[0], sizes[1..])
  }

  lemma {:induction false} ReadManyYields(file: seq<Byte>, pos: nat, sizes: seq<nat>)
    ensures |ReadMany(file, pos, sizes)| == YieldMany(|file|, pos, sizes)
    decreases sizes
  {
    if sizes != [] {
      ReadManyYields(file, pos + sizes[0], sizes[1..]);
    }
  }

  lemma FirstYield(length: nat, pos: nat, n: nat, more: nat)
    requires length <= TWO_32
    ensures Yield(length, pos, n + more) == Yield(length, pos, n) + Yield(length, pos + n, more)
    ensures Yield(length, pos, n) <= Yield(length, pos % TWO_32, n)
    ensures TWO_32 <= pos && pos % TWO_32 < length && 0 < n ==> Yield(length, pos, n) < Yield(length, pos % TWO_32, n)
  {
    if pos < TWO_32 {
      assert pos % TWO_32 == pos;
    }
  }

  lemma {:induction false} RereadsAddBytes(file: seq<Byte>, pos: nat, sizes: seq<nat>)
    requires |file| <= TWO_32
    ensures Yield(|file|, pos, Sum(sizes)) <= YieldMany(|file|, pos, sizes)
    ensures Rereads(file, pos, sizes) ==> Yield(|file|, pos, Sum(sizes)) < YieldMany(|file|, pos, sizes)
    decreases sizes
  {
    if sizes != [] {
      RereadsAddBytes(file, pos + sizes[0], sizes[1..]);
      FirstYield(|file|, pos, sizes[0], Sum(sizes[1..]));
    }
  }

  /** Such reads yield what one read of the total size yields, if and only if none of them rereads. */
  lemma ComposeUnlessRereads(file: seq<Byte>, pos: nat, sizes: seq<nat>)
    requires |file| <= TWO_32
    ensures ReadMany(file, pos, sizes) == ReadAt(file, pos, Sum(sizes)) <==> !Rereads(file, pos, sizes)
  {
    if Rereads(file, pos, sizes) {
      RereadsAddBytes(file, pos, sizes);
      ReadManyYields(file, pos, sizes);
    } else {
      WithoutRereads(file, pos, sizes);
    }
  }

  // ----- What the code does -----

  /** What `read_data` copies: its clip compares a sum that wraps at 2^32. None if it runs on past the file. */
  function CodeRead(file: seq<Byte>, offset: nat, n: nat): Option<seq<Byte>> {
    if |file| <= offset then Some([])
    else
      var left := ClippedLength(offset, n, |file|);
      if 0 <= left && offset + left <= |file| then Some(file[offset..offset + left]) else None
  }

  function Joined(first: Option<seq<Byte>>, more: Option<seq<Byte>>): Option<seq<Byte>> {
    if first.None? || more.None? then None else Some(first.value + more.value)
  }

  /** The results of reads of these sizes, one after the other. */
  function CodeMany(file: seq<Byte>, pos: nat, sizes: seq<nat>): Option<seq<Byte>>
    decreases sizes
  {
    if sizes == [] then Some([])
    else Joined(CodeRead(file, pos % TWO_32, sizes[0]), CodeMany(file, pos + sizes[0], sizes[1..]))
  }

  /** One read as `read_data` sees it, with an unsigned offset and size. */
  datatype Call = Call(offset: nat, size: nat)

  function CallsFrom(pos: nat, sizes: seq<nat>): seq<Call>
    decreases sizes
  {
    if sizes == [] then [] else [Call(pos % TWO_32, sizes[0])] + CallsFrom(pos + sizes[0], sizes[1..])
  }

  /** What these calls yield, one after the other. */
  function Results(file: seq<Byte>, calls: seq<Call>): Option<seq<Byte>> {
    if calls == [] then Some([]) else Joined(CodeRead(file, calls[0].offset, calls[0].size), Results(file, calls[1..]))
  }

  lemma {:induction false} ResultsFrom(file: seq<Byte>, pos: nat, sizes: seq<nat>)
    ensures Results(file, CallsFrom(pos, sizes)) == CodeMany(file, pos, sizes)
    decreases sizes
  {
    if sizes != [] {
      ResultsFrom(file, pos + sizes[0], sizes[1..]);
      assert CallsFrom(pos, sizes)[1..] == CallsFrom(pos + sizes[0], sizes[1..]);
    }
  }

  /** A read that starts inside the file and whose end wraps. */
  predicate Wraps(file: seq<Byte>, pos: nat, n: nat) {
    pos % TWO_32 < |file| && TWO_32 <= pos % TWO_32 + n
  }

  predicate AnyWraps(file: seq<Byte>, pos: nat, sizes: seq<nat>)
    decreases sizes
  {
    sizes != [] && (Wraps(file, pos, sizes[0]) || AnyWraps(file, pos + sizes[0], sizes[1..]))
  }

  predicate Sizes32(sizes: seq<nat>) {
    forall i :: 0 <= i < |sizes| ==> sizes[i] < TWO_32
  }

  lemma CodeReadIs(file: seq<Byte>, pos: nat, n: nat)
    requires |file| < TWO_32 && n < TWO_32
    ensures CodeRead(file, pos % TWO_32, n) ==
            if Wraps(file, pos, n) then None else Some(ReadAt(file, pos % TWO_32, n))
  {
    var offset := pos % TWO_32;
    if offset < |file| && TWO_32 <= offset + n {
      assert (offset + n) % TWO_32 == offset + n - TWO_32;
    }
  }

  lemma {:induction false} CodeManyIs(file: seq<Byte>, pos: nat, sizes: seq<nat>)
    requires |file| < TWO_32 && Sizes32(sizes)
    ensures CodeMany(file, pos, sizes) ==
            if AnyWraps(file, pos, sizes) then None else Some(ReadMany(file, pos, sizes))
    decreases sizes
  {
    if sizes != [] {
      CodeReadIs(file, pos, sizes[0]);
      CodeManyIs(file, pos + sizes[0], sizes[1..]);
    }
  }

  /** A list of reads yields what one read of the total size would, if and only if none of them starts over
      after the position has wrapped, and none of them has an end that wraps. */
  lemma ReadsComposeIff(file: seq<Byte>, pos: nat, sizes: seq<nat>)
    requires |file| < TWO_32 && Sizes32(sizes)
    ensures CodeMany(file, pos, sizes) == Some(ReadAt(file, pos, Sum(sizes))) <==>
            !Rereads(file, pos, sizes) && !AnyWraps(file, pos, sizes)
  {
    CodeManyIs(file, pos, sizes);
    ComposeUnlessRereads(file, pos, sizes);
  }

  lemma {:induction false} NothingWraps(file: seq<Byte>, pos: nat, sizes: seq<nat>)
    requires pos + Sum(sizes) < TWO_32
    ensures !Rereads(file, pos, sizes) && !AnyWraps(file, pos, sizes) && Sizes32(sizes)
    decreases sizes
  {
    if sizes != [] {
      NothingWraps(file, pos + sizes[0], sizes[1..]);
      assert forall i :: 0 < i < |sizes| ==> sizes[i] == sizes[1..][i - 1];
    }
  }

  /** So any list of reads of less than 2^32 bytes in all composes. */
  lemma ReadsCompose(file: seq<Byte>, pos: nat, sizes: seq<nat>)
    requires |file| < TWO_32 && pos + Sum(sizes) < TWO_32
    ensures CodeMany(file, pos, sizes) == Some(ReadAt(file, pos, Sum(sizes)))
  {
    NothingWraps(file, pos, sizes);
    ReadsComposeIff(file, pos, sizes);
  }

  // ----- One call of read_file after the other -----

  function UnsignedSizes(sizes: seq<int>): seq<nat> {
    seq(|sizes|, i requires 0 <= i < |sizes| => Unsigned32(sizes[i]))
  }

  lemma ReadThatFits(fs: Files, d: Descriptor, n: int, pos: nat)
    requires WellFormed(fs.image) && fs.HasFile(d) && Unsigned32(d.filePos) == pos % TWO_32
    requires CodeRead(fs.FileOf(d), pos % TWO_32, Unsigned32(n)).Some?
    ensures fs.ReadFits(d, Unsigned32(n), n)
    ensures CodeRead(fs.FileOf(d), pos % TWO_32, Unsigned32(n)) ==
            Some(ReadAt(fs.FileOf(d), Unsigned32(d.filePos), Unsigned32(n)))
  {
    assert InodeOk(fs.image, fs.image.inodes[d.inode]);
    CodeReadIs(fs.FileOf(d), pos, Unsigned32(n));
  }

  lemma JoinedAgain(a: seq<Byte>, first: Option<seq<Byte>>, more: Option<seq<Byte>>)
    requires Joined(first, more).Some?
    ensures first.Some? && more.Some?
    ensures Joined(Some(a), Joined(first, more)) == Joined(Some(a + first.value), more)
  {
    assert a + (first.value + more.value) == (a + first.value) + more.value;
  }

  /** After i reads: what has been read, and where the next one starts. */
  ghost predicate SoFar(file: seq<Byte>, start: nat, all: seq<nat>, i: nat, pos: nat, bytes: seq<Byte>) {
    && i <= |all|
    && CodeMany(file, start, all) == Joined(Some(bytes), CodeMany(file, pos, all[i..]))
    && pos + Sum(all[i..]) == start + Sum(all)
  }

  lemma SoFarStarts(file: seq<Byte>, start: nat, all: seq<nat>)
    ensures SoFar(file, start, all, 0, start, [])
  {
    var more := CodeMany(file, start, all);
    assert all[0..] == all;
    assert more.Some? ==> [] + more.value == more.value;
  }

  lemma SoFarGoesOn(file: seq<Byte>, start: nat, all: seq<nat>, i: nat, pos: nat, bytes: seq<Byte>)
    requires SoFar(file, start, all, i, pos, bytes) && i < |all| && CodeMany(file, start, all).Some?
    ensures CodeRead(file, pos % TWO_32, all[i]).Some?
    ensures SoFar(file, start, all, i + 1, pos + all[i], bytes + CodeRead(file, pos % TWO_32, all[i]).value)
  {
    var rest := all[i..];
    assert rest[0] == all[i] && rest[1..] == all[i + 1..];
    JoinedAgain(bytes, CodeRead(file, pos % TWO_32, all[i]), CodeMany(file, pos + all[i], all[i + 1..]));
  }

  lemma SoFarEnds(file: seq<Byte>, start: nat, all: seq<nat>, pos: nat, bytes: seq<Byte>)
    requires SoFar(file, start, all, |all|, pos, bytes)
    ensures CodeMany(file, start, all) == Some(bytes) && pos == start + Sum(all)
  {
    assert all[|all|..] == [];
    assert bytes + [] == bytes;
  }

  /** One call, into a buffer of the size asked for. */
  method ReadOnce(fs: Files, fd: int, nbytes: int, ghost file: seq<Byte>, ghost pos: nat) returns (bytes: seq<Byte>)
    requires fs.Valid() && 0 <= fd < FILE_DESCRIPTOR_MAX && fs.HasFile(fs.fds[fd]) && IsInt32(nbytes)
    requires file == fs.FileOf(fs.fds[fd]) && Unsigned32(fs.fds[fd].filePos) == pos % TWO_32
    requires CodeRead(file, pos % TWO_32, Unsigned32(nbytes)).Some?
    modifies fs.fds
    ensures fs.Valid()
    ensures bytes == CodeRead(file, pos % TWO_32, Unsigned32(nbytes)).value
    ensures fs.fds[..] == old(fs.fds[..])[fd := AfterRead(old(fs.fds[fd]), nbytes)]
    ensures Unsigned32(fs.fds[fd].filePos) == (pos + Unsigned32(nbytes)) % TWO_32
  {
    ghost var d := fs.fds[fd];
    ReadThatFits(fs, d, nbytes, pos);
    PositionsAdd(d, nbytes, pos);
    var buf := new Byte[Unsigned32(nbytes)];
    var cnt := fs.ReadFile(fd, buf, 0, nbytes);
    bytes := buf[..cnt];
    assert bytes == ReadAt(file, Unsigned32(d.filePos), Unsigned32(nbytes));
  }

  /** The next call of a series. */
  method ReadNext(fs: Files, fd: int, nbytes: int, read: seq<Byte>,
                  ghost file: seq<Byte>, ghost start: nat, ghost all: seq<nat>, ghost i: nat, ghost pos: nat)
    returns (bytes: seq<Byte>)
    requires fs.Valid() && 0 <= fd < FILE_DESCRIPTOR_MAX && fs.HasFile(fs.fds[fd]) && IsInt32(nbytes)
    requires file == fs.FileOf(fs.fds[fd]) && Unsigned32(fs.fds[fd].filePos) == pos % TWO_32
    requires SoFar(file, start, all, i, pos, read) && CodeMany(file, start, all).Some?
    requires i < |all| && all[i] == Unsigned32(nbytes)
    modifies fs.fds
    ensures fs.Valid()
    ensures SoFar(file, start, all, i + 1, pos + all[i], bytes)
    ensures fs.fds[..] == old(fs.fds[..])[fd := AfterRead(old(fs.fds[fd]), nbytes)]
    ensures Unsigned32(fs.fds[fd].filePos) == (pos + all[i]) % TWO_32
  {
    SoFarGoesOn(file, start, all, i, pos, read);
    var more := ReadOnce(fs, fd, nbytes, file, pos);
    bytes := read + more;
  }

  /** A client that calls `read_file` once for each of these sizes, of either sign: from position `start` of
      `file`, the calls yield together what CodeMany says, and the position moves by the sizes. */
  method ReadInTurn(fs: Files, fd: int, sizes: seq<int>, ghost file: seq<Byte>, ghost start: nat)
    returns (bytes: seq<Byte>)
    requires fs.Valid() && 0 <= fd < FILE_DESCRIPTOR_MAX && fs.HasFile(fs.fds[fd])
    requires file == fs.FileOf(fs.fds[fd]) && start == Unsigned32(fs.fds[fd].filePos)
    requires forall i :: 0 <= i < |sizes| ==> IsInt32(sizes[i])
    requires CodeMany(file, start, UnsignedSizes(sizes)).Some?
    modifies fs.fds
    ensures fs.Valid()
    ensures CodeMany(file, start, UnsignedSizes(sizes)) == Some(bytes)
    ensures fs.fds[..] == old(fs.fds[..])[fd := old(fs.fds[fd]).(filePos := fs.fds[fd].filePos)]
    ensures Unsigned32(fs.fds[fd].filePos) == (start + Sum(UnsignedSizes(sizes))) % TWO_32
  {
    ghost var d, all := fs.fds[fd], UnsignedSizes(sizes);
    ghost var pos: nat := start;
    bytes := [];
    SoFarStarts(file, start, all);
    for i := 0 to |sizes|
      invariant fs.Valid()
      invariant fs.fds[..] == old(fs.fds[..])[fd := d.(filePos := fs.fds[fd].filePos)]
      invariant Unsigned32(fs.fds[fd].filePos) == pos % TWO_32
      invariant SoFar(file, start, all, i, pos, bytes)
    {
      bytes := ReadNext(fs, fd, sizes[i], bytes, file, start, all, i, pos);
      pos := pos + all[i];
    }
    SoFarEnds(file, start, all, pos, bytes);
  }
}
