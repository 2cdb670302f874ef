/** From a command line to a program: `system_execute` up to the search for a free pid. The parser, the
    directory and the file system come together here. */
module Loader {
  import opened Bytes
  import opened Limits
  import opened Descriptors
  import opened FileSystem
  import CommandLine
  import Directory
  import Processes
  import ProcessKernel

  const ELF_LENGTH := 4
  const ELF_MAGIC: seq<Byte> := [0x7F, 0x45, 0x4C, 0x46]
  const ENTRY_OFFSET := 24

  /** What a four-byte read leaves in a local buffer that held `stale`. */
  function Word(file: seq<Byte>, offset: nat, stale: seq<Byte>): (r: seq<Byte>)
    requires |stale| == ELF_LENGTH
    ensures |r| == ELF_LENGTH
  {
    var bytes := ReadAt(file, offset, ELF_LENGTH);
    bytes + stale[|bytes|..]
  }

  function LittleEndian(b: seq<Byte>): nat
    requires |b| == ELF_LENGTH
  {
    b[0] as int + 0x100 * b[1] as int + 0x1_0000 * b[2] as int + 0x100_0000 * b[3] as int
  }

  /** The bytes of the file behind a directory entry; an inode number out of range reads as no bytes. */
  ghost function FileOf(img: Image, d: Dentry): seq<Byte>
    requires WellFormed(img)
  {
    if d.inodeNum < |img.inodes| then FileBytes(img, img.inodes[d.inodeNum]) else []
  }

  /** The entry point that a file's header leads to, given what the two local buffers held before. */
  function EntryPoint(file: seq<Byte>, header: seq<Byte>, entry: seq<Byte>): Option<nat>
    requires |header| == |entry| == ELF_LENGTH
  {
    if Word(file, 0, header) == ELF_MAGIC then Some(LittleEndian(Word(file, ENTRY_OFFSET, entry))) else None
  }

  ghost function Program(img: Image, command: seq<Byte>, header: seq<Byte>, entry: seq<Byte>): Option<nat>
    requires WellFormed(img) && |header| == |entry| == ELF_LENGTH
  {
    match Directory.Lookup(img, CommandLine.FileName(command))
    case None => None
    case Some(d) => EntryPoint(FileOf(img, d), header, entry)
  }

  // ----- What it means -----

  lemma LookupFindsFirst(img: Image, word: seq<Byte>, i: nat)
    requires WellFormed(img) && i < DIR_ENTRIES && 1 <= |word| <= FILENAME_LEN
    requires Directory.Name(img.direntries[i]) == word
    requires forall j :: 0 <= j < i ==> Directory.Name(img.direntries[j]) != word
    ensures Directory.Lookup(img, word) == Some(img.direntries[i])
  {
  }

  /** A command - a word, arguments, any padding - enters the first file of that name at the address in
      its bytes 24 to 27 if it starts with the magic number, and fails otherwise. */
  lemma CommandRunsItsFile(img: Image, before: nat, word: seq<Byte>, between: nat, args: seq<Byte>, after: nat,
                           i: nat, header: seq<Byte>, entry: seq<Byte>)
    requires WellFormed(img) && |header| == |entry| == ELF_LENGTH
    requires word != [] && SPACE !in word && before + |word| < FILENAME_LEN
    requires args != [] ==> 0 < between && args[0] != SPACE && args[|args| - 1] != SPACE
    requires i < DIR_ENTRIES && Directory.Name(img.direntries[i]) == word
    requires forall j :: 0 <= j < i ==> Directory.Name(img.direntries[j]) != word
    requires ENTRY_OFFSET + ELF_LENGTH <= |FileOf(img, img.direntries[i])|
    ensures var command := CommandLine.Spaces(before) + word +
                           (CommandLine.Spaces(between) + args + CommandLine.Spaces(after));
      var file := FileOf(img, img.direntries[i]);
      Program(img, command, header, entry) ==
        if file[..ELF_LENGTH] == ELF_MAGIC then Some(LittleEndian(file[ENTRY_OFFSET..ENTRY_OFFSET + ELF_LENGTH]))
        else None
  {
    CommandLine.ParsesBack(before, word, between, args, after);
    LookupFindsFirst(img, word, i);
    LongFileIsRead(FileOf(img, img.direntries[i]), header, entry);
  }

  /** A command whose file name no entry has, or that has none, runs nothing: execute fails and leaves the
      tables as they are. */
  lemma UnknownCommandFails(img: Image, command: seq<Byte>, header: seq<Byte>, entry: seq<Byte>,
                            k: Processes.Kernel, f: Processes.Frame)
    requires WellFormed(img) && |header| == |entry| == ELF_LENGTH && Processes.Shape(k)
    requires CommandLine.FileName(command) == [] || !Directory.IsListed(img, CommandLine.FileName(command))
    ensures Program(img, command, header, entry) == None
    ensures Processes.Execute(k, f, Program(img, command, header, entry)) == (k, Processes.Failed)
  {
    Directory.LookupFindsIff(img, CommandLine.FileName(command));
  }

  /** The four bytes are the number's, lowest first. */
  lemma LittleEndianIs(b: seq<Byte>)
    requires |b| == ELF_LENGTH
    ensures LittleEndian(b) < TWO_32
    ensures var x := LittleEndian(b);
      && b[0] as int == x % 0x100
      && b[1] as int == x / 0x100 % 0x100
      && b[2] as int == x / 0x1_0000 % 0x100
      && b[3] as int == x / 0x100_0000
  {
    var x := LittleEndian(b);
    assert x / 0x100 == b[1] as int + 0x100 * b[2] as int + 0x1_0000 * b[3] as int;
    assert x / 0x1_0000 == b[2] as int + 0x100 * b[3] as int;
    assert x / 0x100_0000 == b[3] as int;
  }

  lemma LongFileIsRead(file: seq<Byte>, header: seq<Byte>, entry: seq<Byte>)
    requires |header| == |entry| == ELF_LENGTH && ENTRY_OFFSET + ELF_LENGTH <= |file|
    ensures Word(file, 0, header) == file[..ELF_LENGTH]
    ensures Word(file, ENTRY_OFFSET, entry) == file[ENTRY_OFFSET..ENTRY_OFFSET + ELF_LENGTH]
  {
  }

  /** What the uninitialised buffers can make of this file. */
  ghost predicate Determined(file: seq<Byte>) {
    forall h1: seq<Byte>, h2: seq<Byte>, e1: seq<Byte>, e2: seq<Byte>
      | |h1| == |h2| == |e1| == |e2| == ELF_LENGTH
      :: EntryPoint(file, h1, e1) == EntryPoint(file, h2, e2)
  }

  /** The code reads the header without looking at how many bytes it got. Its verdict is the file's own
      exactly when the file reaches past byte 27 or cannot be mistaken for a program. */
  lemma DeterminedIff(file: seq<Byte>)
    ensures Determined(file) <==>
      ENTRY_OFFSET + ELF_LENGTH <= |file| || !(file[..Min(ELF_LENGTH, |file|)] <= ELF_MAGIC)
  {
    var n := Min(ELF_LENGTH, |file|);
    assert ReadAt(file, 0, ELF_LENGTH) == file[..n];
    if ENTRY_OFFSET + ELF_LENGTH <= |file| {
      forall h1: seq<Byte>, h2: seq<Byte>, e1: seq<Byte>, e2: seq<Byte>
        | |h1| == |h2| == |e1| == |e2| == ELF_LENGTH
        ensures EntryPoint(file, h1, e1) == EntryPoint(file, h2, e2)
      {
        LongFileIsRead(file, h1, e1);
        LongFileIsRead(file, h2, e2);
      }
    } else if file[..n] <= ELF_MAGIC {
      ShortFileIsOpen(file);
    } else {
      forall h: seq<Byte> | |h| == ELF_LENGTH
        ensures Word(file, 0, h) != ELF_MAGIC
      {
        assert Word(file, 0, h)[..n] == file[..n];
      }
    }
  }

  lemma ShortFileIsOpen(file: seq<Byte>)
    requires |file| < ENTRY_OFFSET + ELF_LENGTH && file[..Min(ELF_LENGTH, |file|)] <= ELF_MAGIC
    ensures !Determined(file)
  {
    var zeros: seq<Byte>, ones: seq<Byte> := [0, 0, 0, 0], [0, 0, 0, 1];
    assert Word(file, 0, ELF_MAGIC) == ELF_MAGIC by {
      var n := Min(ELF_LENGTH, |file|);
      assert ReadAt(file, 0, ELF_LENGTH) == file[..n] == ELF_MAGIC[..n];
    }
    var a, b := Word(file, ENTRY_OFFSET, zeros), Word(file, ENTRY_OFFSET, ones);
    assert a[0] == b[0] && a[1] == b[1] && a[2] == b[2] && a[3] + 1 == b[3];
    assert EntryPoint(file, ELF_MAGIC, zeros) != EntryPoint(file, ELF_MAGIC, ones);
  }

  // ----- The code -----

  /** The head of `system_execute`. `header` and `entry` are what its two local buffers hold at first. */
  method FindProgram(fs: Files, command: seq<Byte>)
    returns (program: Option<nat>, args: seq<Byte>, ghost header: seq<Byte>, ghost entry: seq<Byte>)
    requires WellFormed(fs.image) && CommandLine.IsCString(command)
    ensures |header| == |entry| == ELF_LENGTH
    ensures program == Program(fs.image, command, header, entry)
    ensures args == CommandLine.Arguments(command)
  {
    var buf, eip := new Byte[ELF_LENGTH], new Byte[ELF_LENGTH];
    header, entry := buf[..], eip[..];
    var filename;
    filename, args := CommandLine.Parse(command);
    assert NUL !in filename;
    var found := Directory.ReadDentryByName(fs.image, filename);
    if found.None? {
      return None, args, header, entry;
    }
    program := ReadHeader(fs, found.value.inodeNum, buf, eip, FileOf(fs.image, found.value));
  }

  /** The checks on the file itself. */
  method ReadHeader(fs: Files, inodeNum: nat, buf: array<Byte>, eip: array<Byte>, ghost file: seq<Byte>)
    returns (program: Option<nat>)
    requires WellFormed(fs.image) && buf != eip && buf.Length == eip.Length == ELF_LENGTH
    requires file == if inodeNum < |fs.image.inodes| then fs.Contents(inodeNum) else []
    modifies buf, eip
    ensures program == EntryPoint(file, old(buf[..]), old(eip[..]))
  {
    ReadWord(fs, inodeNum, 0, buf, file);
    var differs := Directory.Strncmp(ELF_MAGIC, buf[..], ELF_LENGTH);
    IsMagic(buf[..]);
    if differs != 0 {
      return None;
    }
    ReadWord(fs, inodeNum, ENTRY_OFFSET, eip, file);
    program := Some(LittleEndian(eip[..]));
  }

  lemma {:induction false} WholeLength(s: seq<Byte>)
    requires NUL !in s
    ensures Directory.StrLen(s) == |s|
  {
    if s != [] {
      WholeLength(s[1..]);
    }
  }

  lemma IsMagic(b: seq<Byte>)
    requires |b| == ELF_LENGTH
    ensures b == ELF_MAGIC <==>
      forall i :: 0 <= i < ELF_LENGTH && i <= Directory.StrLen(ELF_MAGIC) ==>
        Directory.CharAt(ELF_MAGIC, i) == Directory.CharAt(b, i)
  {
    WholeLength(ELF_MAGIC);
    if forall i :: 0 <= i < ELF_LENGTH ==> Directory.CharAt(ELF_MAGIC, i) == Directory.CharAt(b, i) {
      forall i | 0 <= i < ELF_LENGTH
        ensures b[i] == ELF_MAGIC[i]
      {
        assert Directory.CharAt(ELF_MAGIC, i) == Directory.CharAt(b, i);
      }
    }
  }

  /** A four-byte read into a local buffer. */
  method ReadWord(fs: Files, inodeNum: nat, offset: nat, buf: array<Byte>, ghost file: seq<Byte>)
    requires WellFormed(fs.image) && buf.Length == ELF_LENGTH && offset + ELF_LENGTH < TWO_32
    requires file == if inodeNum < |fs.image.inodes| then fs.Contents(inodeNum) else []
    modifies buf
    ensures buf[..] == Word(file, offset, old(buf[..]))
  {
    var numRead := fs.ReadData(inodeNum, offset, buf, 0, ELF_LENGTH);
  }

  /** All of `system_execute`. */
  method ExecuteCommand(kernel: ProcessKernel.Tables, fs: Files, command: seq<Byte>, f: Processes.Frame)
    returns (outcome: Processes.Outcome, ghost header: seq<Byte>, ghost entry: seq<Byte>)
    requires kernel.Valid() && WellFormed(fs.image) && CommandLine.IsCString(command)
    modifies kernel`baseShell, kernel`userPage, kernel`tssEsp0, kernel.curProcesses, kernel.pcbs, kernel.terminalArray
    ensures kernel.Valid() && |header| == |entry| == ELF_LENGTH
    ensures (kernel.View(), outcome) ==
            Processes.Execute(old(kernel.View()), f, Program(fs.image, command, header, entry))
  {
    var program, args;
    program, args, header, entry := FindProgram(fs, command);
    outcome := kernel.SystemExecute(f, program);
  }
}
