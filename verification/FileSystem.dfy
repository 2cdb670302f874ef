/** The read-only file system: an inode's blocks, scattered over the data region, read as one flat
    sequence of bytes. */
module FileSystem {
  import opened Bytes
  import opened Limits
  import opened Descriptors

  const BYTES_PER_BLOCK := 4096
  const BLOCKS_PER_INODE := 1023
  const DIR_ENTRIES := 63
  const MAX_INODES := 0x10_0000

  datatype Inode = Inode(length: nat, blocks: seq<nat>)

  datatype Dentry = Dentry(filename: seq<Byte>, fileType: nat, inodeNum: nat)

  /** The boot block, the inodes, and the data region. */
  datatype Image = Image(dirCount: nat, direntries: seq<Dentry>, inodes: seq<Inode>, data: seq<Byte>)

  function BlockCount(length: nat): nat {
    (length + BYTES_PER_BLOCK - 1) / BYTES_PER_BLOCK
  }

  ghost predicate InodeOk(img: Image, ino: Inode) {
    && |ino.blocks| == BLOCKS_PER_INODE
    && BlockCount(ino.length) <= BLOCKS_PER_INODE
    && forall i :: 0 <= i < BlockCount(ino.length) ==> (ino.blocks[i] + 1) * BYTES_PER_BLOCK <= |img.data|
  }

  /** An inode takes a 4 KB block, so no more than 2^20 of them fit into a 32-bit address space. */
  ghost predicate WellFormed(img: Image) {
    && |img.direntries| == DIR_ENTRIES
    && img.dirCount <= DIR_ENTRIES
    && |img.inodes| <= MAX_INODES
    && (forall i :: 0 <= i < DIR_ENTRIES ==> |img.direntries[i].filename| == FILENAME_LEN)
    && (forall n :: 0 <= n < |img.inodes| ==> InodeOk(img, img.inodes[n]))
  }

  // ----- The flat file -----

  ghost predicate BlocksExist(data: seq<Byte>, blocks: seq<nat>) {
    forall i :: 0 <= i < |blocks| ==> (blocks[i] + 1) * BYTES_PER_BLOCK <= |data|
  }

  /** The concatenation of these blocks of the data region. */
  ghost function Concat(data: seq<Byte>, blocks: seq<nat>): (r: seq<Byte>)
    requires BlocksExist(data, blocks)
    ensures |r| == |blocks| * BYTES_PER_BLOCK
  {
    if blocks == [] then []
    else
      var start := blocks[0] * BYTES_PER_BLOCK;
      assert (blocks[0] + 1) * BYTES_PER_BLOCK <= |data|;
      data[start..start + BYTES_PER_BLOCK] + Concat(data, blocks[1..])
  }

  ghost function FileBytes(img: Image, ino: Inode): (r: seq<Byte>)
    requires InodeOk(img, ino)
    ensures |r| == ino.length
  {
    Concat(img.data, ino.blocks[..BlockCount(ino.length)])[..ino.length]
  }

  /** What a read of n bytes at an offset yields: the bytes up to the end of the file. */
  function ReadAt(file: seq<Byte>, offset: nat, n: nat): seq<Byte> {
    if |file| <= offset then [] else file[offset..Min(offset + n, |file|)]
  }

  lemma {:induction false} ConcatAt(data: seq<Byte>, blocks: seq<nat>, k: nat)
    requires BlocksExist(data, blocks) && k < |blocks| * BYTES_PER_BLOCK
    ensures (blocks[k / BYTES_PER_BLOCK] + 1) * BYTES_PER_BLOCK <= |data|
    ensures Concat(data, blocks)[k] == data[blocks[k / BYTES_PER_BLOCK] * BYTES_PER_BLOCK + k % BYTES_PER_BLOCK]
  {
    assert (blocks[0] + 1) * BYTES_PER_BLOCK <= |data|;
    if BYTES_PER_BLOCK <= k {
      ConcatAt(data, blocks[1..], k - BYTES_PER_BLOCK);
      assert (k - BYTES_PER_BLOCK) / BYTES_PER_BLOCK == k / BYTES_PER_BLOCK - 1;
    }
  }

  /** Byte k of a file is byte k % 4096 of its k / 4096-th block. */
  lemma FileByteAt(img: Image, ino: Inode, k: nat)
    requires InodeOk(img, ino) && k < ino.length
    ensures k / BYTES_PER_BLOCK < BLOCKS_PER_INODE
    ensures (ino.blocks[k / BYTES_PER_BLOCK] + 1) * BYTES_PER_BLOCK <= |img.data|
    ensures FileBytes(img, ino)[k] ==
            img.data[ino.blocks[k / BYTES_PER_BLOCK] * BYTES_PER_BLOCK + k % BYTES_PER_BLOCK]
  {
    ConcatAt(img.data, ino.blocks[..BlockCount(ino.length)], k);
  }

  /** The same, in terms of a running block index and an index inside the block. */
  lemma FileByteIn(img: Image, ino: Inode, k: nat, block: nat, within: nat)
    requires InodeOk(img, ino) && k < ino.length
    requires BYTES_PER_BLOCK * block + within == k && within < BYTES_PER_BLOCK
    ensures block < BLOCKS_PER_INODE
    ensures ino.blocks[block] * BYTES_PER_BLOCK + within < |img.data|
    ensures FileBytes(img, ino)[k] == img.data[ino.blocks[block] * BYTES_PER_BLOCK + within]
  {
    assert k / BYTES_PER_BLOCK == block && k % BYTES_PER_BLOCK == within;
    FileByteAt(img, ino, k);
  }

  // ----- Lengths in 32 bits -----

  /** The length `read_data` settles on: the comparison is made on a sum that wraps at 2^32. */
  function ClippedLength(offset: nat, length: nat, fileLength: nat): int {
    if (offset + length) % TWO_32 > fileLength then fileLength - offset else length
  }

  /** Inside a file, the clipped length is the right one exactly when the sum does not wrap. */
  lemma ClipIsRightIff(offset: nat, length: nat, fileLength: nat)
    requires offset < fileLength < TWO_32 && length < TWO_32
    ensures ClippedLength(offset, length, fileLength) == Min(length, fileLength - offset) <==> offset + length < TWO_32
  {
    if TWO_32 <= offset + length {
      assert (offset + length) % TWO_32 == offset + length - TWO_32;
    }
  }

  // ----- Reads follow one another -----

  lemma ReadAtSplits(file: seq<Byte>, pos: nat, a: nat, b: nat)
    ensures ReadAt(file, pos, a) + ReadAt(file, pos + a, b) == ReadAt(file, pos, a + b)
  {
    if pos + a < |file| {
      assert file[pos..pos + a] + file[pos + a..Min(pos + a + b, |file|)] == file[pos..Min(pos + a + b, |file|)];
    }
  }

  /** What has been read so far, and the next bytes. */
  lemma PrefixGrows(file: seq<Byte>, pos: nat, n: nat)
    ensures file[..Min(pos, |file|)] + ReadAt(file, pos, n) == file[..Min(pos + n, |file|)]
  {
  }

  class Files {
    const image: Image
    /** The descriptor array of the current process. */
    const fds: array<Descriptor>

    ghost predicate Valid()
      reads this, fds
    {
      && WellFormed(image)
      && fds.Length == FILE_DESCRIPTOR_MAX
      && forall i :: 0 <= i < fds.Length ==> IsInt32(fds[i].filePos) && IsInt32(fds[i].inode)
    }

    constructor (image: Image, fds: array<Descriptor>)
      requires WellFormed(image) && fds.Length == FILE_DESCRIPTOR_MAX
      requires forall i :: 0 <= i < fds.Length ==> IsInt32(fds[i].filePos) && IsInt32(fds[i].inode)
      ensures Valid() && this.image == image && this.fds == fds
    {
      this.image := image;
      this.fds := fds;
    }

    ghost function Contents(inodeNum: int): seq<Byte>
      requires WellFormed(image) && 0 <= inodeNum < |image.inodes|
    {
      FileBytes(image, image.inodes[inodeNum])
    }

    /** `read_data` into `buf` from index `at` on. */
    method ReadData(inodeNum: nat, offset: nat, buf: array<Byte>, at: nat, length: nat) returns (numRead: int)
      requires WellFormed(image)
      requires inodeNum < |image.inodes| && offset < image.inodes[inodeNum].length ==>
        && offset + length < TWO_32
        && at + Min(length, image.inodes[inodeNum].length - offset) <= buf.Length
      modifies buf
      ensures inodeNum >= |image.inodes| ==> numRead == -1 && buf[..] == old(buf[..])
      ensures inodeNum < |image.inodes| ==>
        var bytes := ReadAt(Contents(inodeNum), offset, length);
        && numRead == |bytes|
        && (bytes != [] ==> at + |bytes| <= buf.Length)
        && forall i :: 0 <= i < buf.Length ==>
             buf[i] == if at <= i < at + |bytes| then bytes[i - at] else old(buf[i])
    {
      if inodeNum >= |image.inodes| {
        return -1;
      }
      var blockIndex := offset / BYTES_PER_BLOCK;
      var dataIndex := offset % BYTES_PER_BLOCK;
      var inode := image.inodes[inodeNum];
      if offset >= inode.length {
        return 0;
      }
      var left := length;
      if (offset + length) % TWO_32 > inode.length {
        left := inode.length - offset;
      }
      CopyBytes(inodeNum, offset, blockIndex, dataIndex, buf, at, left);
      return left;
    }

    /** The copy loop of `read_data`, one byte at a time, from block to block. */
    method CopyBytes(inodeNum: nat, ghost offset: nat, block: nat, within: nat, buf: array<Byte>, at: nat, left: nat)
      requires WellFormed(image) && inodeNum < |image.inodes|
      requires offset + left <= image.inodes[inodeNum].length && at + left <= buf.Length
      requires BYTES_PER_BLOCK * block + within == offset && within < BYTES_PER_BLOCK
      modifies buf
      ensures forall j :: 0 <= j < buf.Length ==>
        buf[j] == if at <= j < at + left then Contents(inodeNum)[offset + j - at] else old(buf[j])
    {
      var inode := image.inodes[inodeNum];
      ghost var file := Contents(inodeNum);
      var blockIndex, dataIndex := block, within;
      var numCopied := 0;
      for i := 0 to left
        invariant numCopied == i
        invariant BYTES_PER_BLOCK * blockIndex + dataIndex == offset + i && 0 <= dataIndex < BYTES_PER_BLOCK
        invariant forall j :: 0 <= j < buf.Length ==>
          buf[j] == if at <= j < at + i then file[offset + j - at] else old(buf[j])
      {
        FileByteIn(image, inode, offset + i, blockIndex, dataIndex);
        buf[at + numCopied] := image.data[inode.blocks[blockIndex] * BYTES_PER_BLOCK + dataIndex];
        numCopied := numCopied + 1;
        dataIndex := dataIndex + 1;
        if dataIndex >= BYTES_PER_BLOCK {
          dataIndex := 0;
          blockIndex := blockIndex + 1;
        }
      }
    }

    /** The descriptor's inode number, which `read_data` takes as unsigned, is one of the image's. */
    predicate HasFile(d: Descriptor) {
      0 <= d.inode < |image.inodes|
    }

    ghost function FileOf(d: Descriptor): seq<Byte>
      requires WellFormed(image)
    {
      if HasFile(d) then Contents(d.inode) else []
    }

    /** `read_file`. The position moves by the size asked for, not by the size read; both are signed
        numbers that `read_data` takes as unsigned. */
    method ReadFile(fd: int, buf: array<Byte>, at: nat, nbytes: int) returns (bytesRead: int)
      requires Valid() && IsInt32(nbytes)
      requires 0 <= fd < FILE_DESCRIPTOR_MAX ==> ReadFits(fds[fd], buf.Length - at, nbytes)
      modifies fds, buf
      ensures Valid()
      ensures !(0 <= fd < FILE_DESCRIPTOR_MAX) ==> bytesRead == -1 && fds[..] == old(fds[..]) && buf[..] == old(buf[..])
      ensures 0 <= fd < FILE_DESCRIPTOR_MAX ==>
        var was := old(fds[fd]);
        && fds[..] == old(fds[..])[fd := AfterRead(was, nbytes)]
        && (!HasFile(was) ==> bytesRead == -1 && buf[..] == old(buf[..]))
        && (HasFile(was) ==>
              var bytes := ReadAt(FileOf(was), Unsigned32(was.filePos), Unsigned32(nbytes));
              && bytesRead == |bytes|
              && forall i :: 0 <= i < buf.Length ==>
                   buf[i] == if at <= i < at + |bytes| then bytes[i - at] else old(buf[i]))
    {
      if fd >= FILE_DESCRIPTOR_MAX || fd < 0 {
        return -1;
      }
      var offset := fds[fd].filePos;
      fds[fd] := fds[fd].(filePos := Signed32(offset + nbytes));
      bytesRead := ReadData(Unsigned32(fds[fd].inode), Unsigned32(offset), buf, at, Unsigned32(nbytes));
    }

    /** A read that yields bytes does not wrap at 2^32, and the caller's buffer holds them. */
    ghost predicate ReadFits(d: Descriptor, room: int, nbytes: int)
      requires WellFormed(image)
    {
      HasFile(d) && Unsigned32(d.filePos) < |FileOf(d)| ==>
        && Unsigned32(d.filePos) + Unsigned32(nbytes) < TWO_32
        && Min(Unsigned32(nbytes), |FileOf(d)| - Unsigned32(d.filePos)) <= room
    }

    lemma SmallReadFits(d: Descriptor, room: int, nbytes: int)
      requires WellFormed(image)
      requires 0 <= d.filePos && 0 <= nbytes <= room && d.filePos + nbytes <= INT_MAX
      ensures ReadFits(d, room, nbytes)
      ensures Unsigned32(d.filePos) == d.filePos && Unsigned32(nbytes) == nbytes
      ensures AfterRead(d, nbytes).filePos == d.filePos + nbytes
    {
    }
  }
}
