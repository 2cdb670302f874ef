/** The `cat` program: a read/write loop over a reused buffer. */
module Cat {
  import opened Bytes
  import opened Limits
  import opened Descriptors
  import opened FileSystem

  const BUFSIZE := 1024

  /** Copies an open file to standard output; `written` is all that was passed to write. */
  method CopyToStdout(fs: Files, fd: int) returns (written: seq<Byte>, status: int)
    requires fs.Valid() && 2 <= fd < FILE_DESCRIPTOR_MAX && fs.fds[fd].filePos == 0
    modifies fs.fds
    ensures fs.Valid()
    ensures !fs.HasFile(old(fs.fds[fd])) ==> status == 3 && written == []
    ensures fs.HasFile(old(fs.fds[fd])) ==>
      status == 0 && written == fs.FileOf(old(fs.fds[fd]))
  {
    var buf := new Byte[BUFSIZE](_ => NUL);
    var d := fs.fds[fd];
    written := [];
    ghost var file := fs.FileOf(d);
    assert |file| <= BLOCKS_PER_INODE * BYTES_PER_BLOCK by {
      assert fs.HasFile(d) ==> InodeOk(fs.image, fs.image.inodes[d.inode]);
    }
    while true
      invariant fs.Valid() && fs.fds[fd].inode == d.inode
      invariant !fs.HasFile(d) ==> written == [] && fs.fds[fd].filePos == 0
      invariant written == file[..Min(fs.fds[fd].filePos, |file|)]
      invariant 0 <= fs.fds[fd].filePos < |file| + BUFSIZE
      decreases |file| - fs.fds[fd].filePos
    {
      ghost var pos := fs.fds[fd].filePos;
      fs.SmallReadFits(fs.fds[fd], BUFSIZE, BUFSIZE);
      var cnt := fs.ReadFile(fd, buf, 0, BUFSIZE);
      if cnt == 0 {
        break;
      }
      if cnt == -1 {
        return written, 3;
      }
      assert buf[..cnt] == ReadAt(file, pos, BUFSIZE);
      PrefixGrows(file, pos, BUFSIZE);
      written := written + buf[..cnt];
    }
    status := 0;
  }
}
