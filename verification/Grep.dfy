/** The `grep` program's `do_one_file`: lines are reassembled from 1024-byte reads in one buffer. */
module Grep {
  import opened Bytes
  import opened Limits
  import opened Descriptors
  import opened FileSystem
  import Directory

  const BUFSIZE := 1024

  // ----- What grep prints -----

  function FirstNewline(x: seq<Byte>): (e: nat)
    ensures e <= |x|
    ensures NEWLINE !in x[..e]
    ensures e < |x| ==> x[e] == NEWLINE
  {
    if x == [] || x[0] == NEWLINE then 0
    else
      var e := 1 + FirstNewline(x[1..]);
      assert x[..e] == [x[0]] + x[1..][..e - 1];
      e
  }

  predicate OccursAt(line: seq<Byte>, s: seq<Byte>, i: nat) {
    i + |s| <= |line| && line[i..i + |s|] == s
  }

  ghost predicate Contains(line: seq<Byte>, s: seq<Byte>) {
    exists i: nat :: OccursAt(line, s, i)
  }

  /** The strings passed to `fdputs` for one line. The empty pattern matches nothing. */
  ghost function Hit(line: seq<Byte>, s: seq<Byte>, fname: seq<Byte>): seq<seq<Byte>> {
    if s != [] && Contains(line, s) then [fname, [0x3A], line, [NEWLINE]] else []
  }

  function Lines(x: seq<Byte>): seq<seq<Byte>>
    decreases |x|
  {
    var e := FirstNewline(x);
    if e == |x| then [x] else [x[..e]] + Lines(x[e + 1..])
  }

  function Joined(lines: seq<seq<Byte>>): seq<Byte> {
    if lines == [] then [] else if |lines| == 1 then lines[0] else lines[0] + [NEWLINE] + Joined(lines[1..])
  }

  /** The lines are what stands between the line ends. */
  lemma {:induction false} LinesJoin(x: seq<Byte>)
    ensures Lines(x) != [] && Joined(Lines(x)) == x
    ensures forall i :: 0 <= i < |Lines(x)| ==> NEWLINE !in Lines(x)[i]
    decreases |x|
  {
    var e := FirstNewline(x);
    if e < |x| {
      var rest := Lines(x[e + 1..]);
      LinesJoin(x[e + 1..]);
      assert Lines(x) == [x[..e]] + rest && Lines(x)[1..] == rest;
      assert x == x[..e] + [NEWLINE] + x[e + 1..];
    }
  }

  ghost function LineHits(lines: seq<seq<Byte>>, s: seq<Byte>, fname: seq<Byte>): seq<seq<Byte>> {
    if lines == [] then [] else Hit(lines[0], s, fname) + LineHits(lines[1..], s, fname)
  }

  /** How much of x is searched as one line: up to a newline, but never more than the buffer holds. */
  function PieceLength(x: seq<Byte>): nat {
    Min(FirstNewline(x), BUFSIZE)
  }

  function AfterPiece(x: seq<Byte>): seq<Byte> {
    var n := PieceLength(x);
    if n < BUFSIZE && n < |x| then x[n + 1..] else x[n..]
  }

  ghost function PieceHits(x: seq<Byte>, s: seq<Byte>, fname: seq<Byte>): seq<seq<Byte>>
    decreases |x|
  {
    if x == [] then [] else Hit(x[..PieceLength(x)], s, fname) + PieceHits(AfterPiece(x), s, fname)
  }

  // ----- Pieces are lines exactly when every line fits the buffer -----

  predicate LinesFit(x: seq<Byte>) {
    forall i :: 0 <= i < |Lines(x)| ==> |Lines(x)[i]| <= BUFSIZE
  }

  lemma {:induction false} EmptyNeverHits(s: seq<Byte>, fname: seq<Byte>)
    ensures Hit([], s, fname) == []
    ensures PieceHits([], s, fname) == []
    ensures LineHits([[]], s, fname) == []
  {
    var one: seq<seq<Byte>> := [[]];
    assert one[1..] == [];
  }

  lemma {:induction false} FittingPiecesAreLines(x: seq<Byte>, s: seq<Byte>, fname: seq<Byte>)
    requires LinesFit(x)
    ensures PieceHits(x, s, fname) == LineHits(Lines(x), s, fname)
    decreases |x|
  {
    EmptyNeverHits(s, fname);
    var e := FirstNewline(x);
    assert |Lines(x)[0]| <= BUFSIZE;
    if x == [] {
    } else if e == |x| {
      assert x[..e] == x && x[e..] == [];
      assert [x][1..] == [];
    } else {
      var rest := x[e + 1..];
      assert Lines(x) == [x[..e]] + Lines(rest);
      assert LinesFit(rest) by {
        assert forall i :: 0 <= i < |Lines(rest)| ==> Lines(rest)[i] == Lines(x)[i + 1];
      }
      assert Lines(x)[1..] == Lines(rest);
      FittingPiecesAreLines(rest, s, fname);
      if e == BUFSIZE {
        NewlineIsSkipped(x[e..], s, fname);
        assert x[e..][1..] == rest;
      }
    }
  }

  lemma NewlineIsSkipped(x: seq<Byte>, s: seq<Byte>, fname: seq<Byte>)
    requires x != [] && x[0] == NEWLINE
    ensures PieceHits(x, s, fname) == PieceHits(x[1..], s, fname)
  {
    assert FirstNewline(x) == 0 && PieceLength(x) == 0 && AfterPiece(x) == x[1..];
    assert x[..0] == [];
    EmptyNeverHits(s, fname);
  }

  lemma {:induction false} PiecesAreShort(x: seq<Byte>, s: seq<Byte>, fname: seq<Byte>)
    requires |fname| <= FILENAME_LEN
    ensures forall i :: 0 <= i < |PieceHits(x, s, fname)| ==> |PieceHits(x, s, fname)[i]| <= BUFSIZE
    decreases |x|
  {
    if x != [] {
      PiecesAreShort(AfterPiece(x), s, fname);
    }
  }

  lemma {:induction false} HitIsPrinted(lines: seq<seq<Byte>>, k: nat, s: seq<Byte>, fname: seq<Byte>)
    requires k < |lines| && s != [] && Contains(lines[k], s)
    ensures lines[k] in LineHits(lines, s, fname)
  {
    if k == 0 {
      assert Hit(lines[0], s, fname)[2] == lines[0];
    } else {
      HitIsPrinted(lines[1..], k - 1, s, fname);
    }
  }

  lemma LongLineIsCut(x: seq<Byte>, fname: seq<Byte>, k: nat)
    requires |fname| <= FILENAME_LEN
    requires k < |Lines(x)| && |Lines(x)[k]| > BUFSIZE
    ensures var s := Lines(x)[k][..1];
      Lines(x)[k] in LineHits(Lines(x), s, fname) && Lines(x)[k] !in PieceHits(x, s, fname)
  {
    var line := Lines(x)[k];
    assert OccursAt(line, line[..1], 0);
    HitIsPrinted(Lines(x), k, line[..1], fname);
    PiecesAreShort(x, line[..1], fname);
  }

  /** Whatever is searched for, grep prints exactly the lines that contain it, once each and in order,
      if and only if no line of the file is longer than the 1024-byte buffer. */
  lemma PiecesAreLinesIff(x: seq<Byte>, fname: seq<Byte>)
    requires |fname| <= FILENAME_LEN
    ensures (forall s :: PieceHits(x, s, fname) == LineHits(Lines(x), s, fname)) <==> LinesFit(x)
  {
    if LinesFit(x) {
      forall s
        ensures PieceHits(x, s, fname) == LineHits(Lines(x), s, fname)
      {
        FittingPiecesAreLines(x, s, fname);
      }
    } else {
      var k :| 0 <= k < |Lines(x)| && |Lines(x)[k]| > BUFSIZE;
      LongLineIsCut(x, fname, k);
      assert PieceHits(x, Lines(x)[k][..1], fname) != LineHits(Lines(x), Lines(x)[k][..1], fname);
    }
  }

  // ----- C strings -----

  /** The string at `at` ends at `end`. */
  ghost predicate EndsAt(data: seq<Byte>, at: int, end: int) {
    0 <= at <= end < |data| && data[end] == NUL && forall i :: at <= i < end ==> data[i] != NUL
  }

  /** `ece391_strcpy` inside one memory. A copy that would overwrite the string's end before reaching it
      does not end. */
  method Strcpy(data: array<Byte>, dst: nat, src: nat, ghost end: nat)
    requires EndsAt(data[..], src, end)
    requires dst <= src || end < dst
    requires dst + (end - src) < data.Length
    modifies data
    ensures forall i :: dst <= i <= dst + (end - src) ==> data[i] == old(data[i + src - dst])
    ensures forall i :: 0 <= i < data.Length && !(dst <= i <= dst + (end - src)) ==> data[i] == old(data[i])
  {
    var d, s := dst, src;
    ghost var was := data[..];
    while true
      invariant src <= s <= end && d - dst == s - src
      invariant forall i :: dst <= i < d ==> data[i] == was[i + src - dst]
      invariant forall i :: 0 <= i < data.Length && !(dst <= i < d) ==> data[i] == was[i]
      decreases end - s
    {
      assert d + src - dst == s && data[s] == was[s];
      data[d] := data[s];
      if data[d] == NUL {
        assert s == end;
        break;
      }
      d, s := d + 1, s + 1;
    }
  }

  /** `ece391_fdputs` of the string at `at`: what reaches write. */
  method Puts(data: array<Byte>, at: nat, ghost end: nat) returns (s: seq<Byte>)
    requires EndsAt(data[..], at, end)
    ensures s == data[at..end]
  {
    var len := 0;
    while data[at + len] != NUL
      invariant at + len <= end
      decreases end - len
    {
      len := len + 1;
    }
    s := data[at..at + len];
  }

  /** What `ece391_strncmp` returns: 0 if the strings agree up to n characters or their end, and else the
      difference of the unsigned characters at which they part. */
  function Compared(a: seq<Byte>, b: seq<Byte>, n: nat): int {
    var k := Directory.Stop(a, b, n, 0);
    if k == n then 0 else Difference(a, b, k)
  }

  /** The strings agree, and have not ended, before index k, where they differ. */
  ghost predicate PartAt(a: seq<Byte>, b: seq<Byte>, k: nat) {
    && Directory.CharAt(a, k) != Directory.CharAt(b, k)
    && forall j :: 0 <= j < k ==> Directory.CharAt(a, j) == Directory.CharAt(b, j) != NUL
  }

  function Difference(a: seq<Byte>, b: seq<Byte>, k: nat): (r: int)
    ensures k < |a| && k < |b| ==> r == a[k] as int - b[k] as int
    ensures r > 0 <==> Directory.CharAt(a, k) > Directory.CharAt(b, k)
  {
    Directory.CharAt(a, k) as int - Directory.CharAt(b, k) as int
  }

  /** `ece391_strncmp` of the string at `at`, which ends at `end`, with `s`. */
  method Strncmp(data: array<Byte>, at: nat, s: seq<Byte>, n: nat, ghost end: nat) returns (r: int)
    requires EndsAt(data[..], at, end)
    ensures r == Compared(data[at..end], s, n)
    ensures r == 0 || exists k :: 0 <= k < n && PartAt(data[at..end], s, k) && r == Difference(data[at..end], s, k)
  {
    ghost var line := data[at..end];
    if n == 0 {
      return 0;
    }
    var left, i := n, 0;
    assert data[at] == Directory.CharAt(line, 0);
    while data[at + i] == Directory.CharAt(s, i)
      invariant 0 <= i < n && left == n - i && at + i <= end
      invariant data[at + i] == Directory.CharAt(line, i)
      invariant Directory.Stop(line, s, n, 0) == Directory.Stop(line, s, n, i)
      decreases left
    {
      left := left - 1;
      if data[at + i] == NUL || left == 0 {
        return 0;
      }
      i := i + 1;
    }
    return data[at + i] as int - Directory.CharAt(s, i) as int;
  }

  lemma DiffersAt(line: seq<Byte>, s: seq<Byte>, k: nat)
    requires k < |s| <= |line| && line[k] != s[k]
    ensures line[..|s|] != s
  {
    assert line[..|s|][k] == line[k];
  }

  /** With n the length of the pattern, the result is 0 exactly if the line starts with the pattern. */
  lemma ComparedIsPrefix(line: seq<Byte>, s: seq<Byte>)
    requires forall i :: 0 <= i < |s| ==> s[i] != NUL
    ensures Compared(line, s, |s|) == 0 <==> |s| <= |line| && line[..|s|] == s
  {
    var k := Directory.Stop(line, s, |s|, 0);
    var j := Min(|line|, |s|);
    var atEnd := Directory.CharAt(line, j);
    assert j == |s| || atEnd == NUL;
    if k == |s| {
      assert j == |s|;
      forall i | 0 <= i < |s|
        ensures i < |line| && line[i] == s[i]
      {
        assert Directory.CharAt(line, i) == Directory.CharAt(s, i);
      }
      assert line[..|s|] == s;
    } else if |s| <= |line| {
      DiffersAt(line, s, k);
    }
  }

  /** The search loop over one line. */
  method SearchLine(data: array<Byte>, s: seq<Byte>, lineStart: nat, lineEnd: nat) returns (found: bool)
    requires EndsAt(data[..], lineStart, lineEnd)
    requires forall i :: 0 <= i < |s| ==> s[i] != NUL
    ensures found <==> s != [] && Contains(data[lineStart..lineEnd], s)
  {
    ghost var line := data[lineStart..lineEnd];
    var first := if s == [] then NUL else s[0];
    for check := lineStart to lineEnd
      invariant s != [] ==> forall i: nat :: i < check - lineStart ==> !OccursAt(line, s, i)
    {
      ghost var k := check - lineStart;
      assert s != [] && OccursAt(line, s, k) ==> line[k..k + |s|][0] == s[0];
      if first == data[check] {
        var r := Strncmp(data, check, s, |s|, lineEnd);
        assert r == 0 <==> OccursAt(line, s, k) by {
          ComparedIsPrefix(data[check..lineEnd], s);
          assert data[check..lineEnd] == line[k..];
          if check + |s| <= lineEnd {
            assert line[k..][..|s|] == line[k..k + |s|];
          }
        }
        if r == 0 {
          return true;
        }
      }
    }
    return false;
  }

  // ----- do_one_file -----

  lemma {:induction false} FirstNewlineIs(x: seq<Byte>, e: nat)
    requires e <= |x| && NEWLINE !in x[..e] && (e < |x| ==> x[e] == NEWLINE)
    ensures FirstNewline(x) == e
  {
    if 0 < e {
      assert x[0] in x[..e];
      assert x[1..][..e - 1] == x[..e][1..];
      FirstNewlineIs(x[1..], e - 1);
    }
  }

  /** A newline ends the first piece if it comes before the buffer is full. */
  lemma PieceAtNewline(x: seq<Byte>, e: nat, s: seq<Byte>, fname: seq<Byte>)
    requires e < |x| && e < BUFSIZE && NEWLINE !in x[..e] && x[e] == NEWLINE
    ensures PieceHits(x, s, fname) == Hit(x[..e], s, fname) + PieceHits(x[e + 1..], s, fname)
  {
    FirstNewlineIs(x, e);
  }

  /** Without one, the first piece is a full buffer or all that is left. */
  lemma PieceWithoutNewline(x: seq<Byte>, n: nat, s: seq<Byte>, fname: seq<Byte>)
    requires n <= |x| && NEWLINE !in x[..n] && (n == BUFSIZE || (n < BUFSIZE && n == |x|))
    ensures PieceHits(x, s, fname) == Hit(x[..n], s, fname) + PieceHits(x[n..], s, fname)
  {
    if x == [] {
      EmptyNeverHits(s, fname);
    } else {
      assert FirstNewline(x) < n ==> x[FirstNewline(x)] in x[..n];
      assert PieceLength(x) == n;
    }
  }

  /** rest[from..to) is what the scan takes for a line, in a buffer that holds rest[..last). */
  ghost predicate IsPiece(rest: seq<Byte>, from: nat, to: nat, last: nat) {
    && from <= to <= last <= |rest| && last <= BUFSIZE
    && (forall i :: from <= i < to ==> rest[i] != NEWLINE)
    && (to < last ==> rest[to] == NEWLINE)
    && (to == last ==> last == |rest| || (from == 0 && last == BUFSIZE))
  }

  lemma NextPiece(rest: seq<Byte>, from: nat, to: nat, last: nat, s: seq<Byte>, fname: seq<Byte>)
    requires IsPiece(rest, from, to, last)
    ensures PieceHits(rest[from..], s, fname) ==
            Hit(rest[from..to], s, fname) + PieceHits(rest[Min(to + 1, last)..], s, fname)
  {
    var x, n := rest[from..], to - from;
    assert x[..n] == rest[from..to];
    if to < last {
      assert x[n + 1..] == rest[to + 1..];
      PieceAtNewline(x, n, s, fname);
    } else {
      assert x[n..] == rest[last..];
      PieceWithoutNewline(x, n, s, fname);
    }
  }

  /** `hits` gives what is printed for the file from some point on. */
  ghost predicate PiecewiseHits(hits: seq<Byte> -> seq<seq<Byte>>, s: seq<Byte>, fname: seq<Byte>) {
    forall rest: seq<Byte>, from: nat, to: nat, last: nat :: IsPiece(rest, from, to, last) ==>
      hits(rest[from..]) == Hit(rest[from..to], s, fname) + hits(rest[Min(to + 1, last)..])
  }

  lemma Regroup<T>(whole: seq<T>, a: seq<T>, b: seq<T>, c: seq<T>, d: seq<T>)
    requires whole == a + b && b == c + d
    ensures whole == (a + c) + d
  {
  }

  method FindLineEnd(data: array<Byte>, lineStart: nat, last: nat) returns (lineEnd: nat)
    requires lineStart <= last < data.Length
    ensures lineStart <= lineEnd <= last
    ensures forall i :: lineStart <= i < lineEnd ==> data[i] != NEWLINE
    ensures lineEnd < last ==> data[lineEnd] == NEWLINE
  {
    lineEnd := lineStart;
    while lineEnd < last && data[lineEnd] != NEWLINE
      invariant lineStart <= lineEnd <= last
      invariant forall i :: lineStart <= i < lineEnd ==> data[i] != NEWLINE
    {
      lineEnd := lineEnd + 1;
    }
  }

  /** Search one line, and print it if it matches. */
  method PrintIfMatch(data: array<Byte>, s: seq<Byte>, fname: seq<Byte>, lineStart: nat, lineEnd: nat)
    returns (out: seq<seq<Byte>>)
    requires lineStart <= lineEnd < data.Length
    requires forall i :: lineStart <= i < lineEnd ==> data[i] != NUL
    requires forall i :: 0 <= i < |s| ==> s[i] != NUL
    modifies data
    ensures forall i :: 0 <= i < data.Length ==> data[i] == if i == lineEnd then NUL else old(data[i])
    ensures out == Hit(old(data[lineStart..lineEnd]), s, fname)
    ensures out == [] || out == [fname, [0x3A], old(data[lineStart..lineEnd]), [0x0A]]
    ensures out != [] <==> s != [] && exists i: nat :: OccursAt(old(data[lineStart..lineEnd]), s, i)
  {
    ghost var line := data[lineStart..lineEnd];
    data[lineEnd] := NUL;
    assert data[lineStart..lineEnd] == line;
    var found := SearchLine(data, s, lineStart, lineEnd);
    out := [];
    if found {
      var text := Puts(data, lineStart, lineEnd);
      out := [fname, [0x3A], text, [NEWLINE]];
    }
  }

  /** Move the unfinished line at the end of the buffer down to its start. */
  method CarryDown(data: array<Byte>, lineStart: nat, last: nat)
    requires 0 < lineStart <= last < data.Length
    requires forall i :: lineStart <= i < last ==> data[i] != NUL
    modifies data
    ensures data[..last - lineStart] == old(data[lineStart..last])
    ensures forall i :: last < i < data.Length ==> data[i] == old(data[i])
    ensures data[last] == NUL
  {
    data[last] := NUL;
    Strcpy(data, 0, lineStart, last);
  }

  /** The inner loop of `do_one_file`: print the hits among the lines in data[0..last), and move what may
      be the start of a longer line down to 0. `rest` is the file from data[0] on. */
  method ScanBuffer(data: array<Byte>, s: seq<Byte>, fname: seq<Byte>, last: nat, cnt: nat,
                    ghost rest: seq<Byte>, ghost hits: seq<Byte> -> seq<seq<Byte>>)
    returns (out: seq<seq<Byte>>, left: nat, ghost at: nat)
    requires data.Length == BUFSIZE + 1 && last <= BUFSIZE && last <= |rest|
    requires data[..last] == rest[..last]
    requires data[BUFSIZE] != NEWLINE || last == |rest|
    requires last < BUFSIZE || cnt == 0 ==> last == |rest|
    requires forall i :: 0 <= i < |rest| ==> rest[i] != NUL
    requires forall i :: 0 <= i < |s| ==> s[i] != NUL
    requires PiecewiseHits(hits, s, fname)
    modifies data
    ensures data[BUFSIZE] == NEWLINE ==> old(data[BUFSIZE]) == NEWLINE
    ensures left <= last && left < BUFSIZE && (cnt == 0 ==> left == 0)
    ensures at + left == last && data[..left] == rest[at..last]
    ensures hits(rest) == out + hits(rest[at..])
  {
    out := [];
    var lineStart := 0;
    assert rest[0..] == rest;
    while true
      invariant lineStart <= last && (lineStart == 0 || lineStart < last)
      invariant forall i :: lineStart <= i < last ==> data[i] == rest[i]
      invariant data[BUFSIZE] == NEWLINE ==> old(data[BUFSIZE]) == NEWLINE
      invariant hits(rest) == out + hits(rest[lineStart..])
      decreases last - lineStart
    {
      var lineEnd := FindLineEnd(data, lineStart, last);
      if data[lineEnd] != NEWLINE && cnt != 0 && lineStart != 0 {
        assert data[lineStart..last] == rest[lineStart..last];
        CarryDown(data, lineStart, last);
        left, at := last - lineStart, lineStart;
        assert data[..left] == rest[at..last];
        return;
      }
      assert IsPiece(rest, lineStart, lineEnd, last);
      assert data[lineStart..lineEnd] == rest[lineStart..lineEnd];
      var hit := PrintIfMatch(data, s, fname, lineStart, lineEnd);
      ghost var next := Min(lineEnd + 1, last);
      Regroup(hits(rest), out, hits(rest[lineStart..]), hit, hits(rest[next..]));
      out := out + hit;
      lineStart := lineEnd + 1;
      if lineStart >= last {
        left, at := 0, next;
        assert data[..0] == [] == rest[at..last];
        return;
      }
      assert next == lineStart;
    }
  }

  /** A read appends to the carried bytes `was` what follows them in the file. */
  lemma ReadExtends(file: seq<Byte>, start: nat, data: seq<Byte>, was: seq<Byte>, cnt: nat, pos: nat, asked: nat)
    requires start + |was| == Min(pos, |file|) && was == file[start..start + |was|]
    requires cnt == |ReadAt(file, pos, asked)| && |was| + cnt <= |data|
    requires forall i :: 0 <= i < |was| ==> data[i] == was[i]
    requires forall i :: |was| <= i < |was| + cnt ==> data[i] == ReadAt(file, pos, asked)[i - |was|]
    ensures start + |was| + cnt == Min(pos + asked, |file|)
    ensures data[..|was| + cnt] == file[start..][..|was| + cnt]
  {
  }

  /** One read of the outer loop: fill the buffer behind the carried bytes. */
  method FillBuffer(fs: Files, fd: int, data: array<Byte>, last: nat, ghost file: seq<Byte>, ghost start: nat)
    returns (cnt: int)
    requires fs.Valid() && 2 <= fd < FILE_DESCRIPTOR_MAX
    requires 0 <= fs.fds[fd].filePos && fs.fds[fd].filePos + BUFSIZE <= INT_MAX
    requires data.Length == BUFSIZE + 1 && last < BUFSIZE
    requires fs.HasFile(fs.fds[fd]) ==> file == fs.FileOf(fs.fds[fd])
    requires start + last == Min(fs.fds[fd].filePos, |file|) && data[..last] == file[start..start + last]
    modifies fs.fds, data
    ensures fs.Valid() && data[BUFSIZE] == old(data[BUFSIZE])
    ensures fs.fds[fd].inode == old(fs.fds[fd]).inode
    ensures fs.fds[fd].filePos == old(fs.fds[fd]).filePos + BUFSIZE - last
    ensures !fs.HasFile(fs.fds[fd]) ==> cnt == -1
    ensures fs.HasFile(fs.fds[fd]) ==>
      && 0 <= cnt && last + cnt <= BUFSIZE
      && start + last + cnt == Min(fs.fds[fd].filePos, |file|)
      && (last + cnt < BUFSIZE || cnt == 0 ==> start + last + cnt == |file|)
      && data[..last + cnt] == file[start..][..last + cnt]
  {
    ghost var pos, was := fs.fds[fd].filePos, data[..last];
    fs.SmallReadFits(fs.fds[fd], data.Length - last, BUFSIZE - last);
    cnt := fs.ReadFile(fd, data, last, BUFSIZE - last);
    if cnt != -1 {
      ReadExtends(file, start, data[..], was, cnt, pos, BUFSIZE - last);
    }
  }

  lemma SliceOfRest<T>(x: seq<T>, start: nat, from: nat, to: nat)
    requires start <= |x| && from <= to <= |x| - start
    ensures x[start..][from..to] == x[start + from..start + to]
  {
  }

  /** The outer loop of `do_one_file`. */
  method GrepFile(fs: Files, fd: int, s: seq<Byte>, fname: seq<Byte>, data: array<Byte>,
                  ghost file: seq<Byte>, ghost hits: seq<Byte> -> seq<seq<Byte>>)
    returns (out: seq<seq<Byte>>, status: int)
    requires fs.Valid() && data.Length == BUFSIZE + 1
    requires data[BUFSIZE] != NEWLINE || |file| <= BUFSIZE
    requires 2 <= fd < FILE_DESCRIPTOR_MAX && fs.fds[fd].filePos == 0
    requires fs.HasFile(fs.fds[fd]) ==> file == fs.FileOf(fs.fds[fd])
    requires |file| <= BLOCKS_PER_INODE * BYTES_PER_BLOCK
    requires forall i :: 0 <= i < |file| ==> file[i] != NUL
    requires forall i :: 0 <= i < |s| ==> s[i] != NUL
    requires PiecewiseHits(hits, s, fname) && hits([]) == []
    modifies fs.fds, data
    ensures fs.Valid()
    ensures !fs.HasFile(old(fs.fds[fd])) ==> status == -1 && out == [READ_FAILED]
    ensures fs.HasFile(old(fs.fds[fd])) ==> status == 0 && out == hits(file)
  {
    var last := 0;
    out := [];
    ghost var start := 0;
    assert file[0..] == file;
    while true
      invariant fs.Valid() && fs.fds[fd].inode == old(fs.fds[fd]).inode
      invariant data[BUFSIZE] != NEWLINE || |file| <= BUFSIZE
      invariant 0 <= last < BUFSIZE && 0 <= start
      invariant start + last == Min(fs.fds[fd].filePos, |file|)
      invariant data[..last] == file[start..start + last]
      invariant 0 <= fs.fds[fd].filePos < |file| + BUFSIZE
      invariant hits(file) == out + hits(file[start..])
      decreases |file| + BUFSIZE - fs.fds[fd].filePos
    {
      var cnt := FillBuffer(fs, fd, data, last, file, start);
      if cnt == -1 {
        return [READ_FAILED], -1;
      }
      last := last + cnt;
      var more, left, at := ScanBuffer(data, s, fname, last, cnt, file[start..], hits);
      assert file[start..][at..] == file[start + at..];
      SliceOfRest(file, start, at, last);
      Regroup(hits(file), out, hits(file[start..]), more, hits(file[start + at..]));
      out := out + more;
      start := start + at;
      last := left;
      if cnt == 0 {
        break;
      }
    }
    assert file[start..] == [];
    status := 0;
  }

  /** `do_one_file` on an opened file (`fd` is -1 if it could not be opened): `out` is the sequence of
      strings passed to `fdputs`. If the last byte of the uninitialised buffer is a newline, a file that
      does not fit the buffer may have a line cut in two. */
  method DoOneFile(fs: Files, fd: int, s: seq<Byte>, fname: seq<Byte>, data: array<Byte>)
    returns (out: seq<seq<Byte>>, status: int)
    requires fs.Valid() && data.Length == BUFSIZE + 1
    requires fd == -1 || (2 <= fd < FILE_DESCRIPTOR_MAX && fs.fds[fd].filePos == 0)
    requires fd != -1 && fs.HasFile(fs.fds[fd]) ==>
      && NUL !in fs.FileOf(fs.fds[fd])
      && (data[BUFSIZE] != NEWLINE || |fs.FileOf(fs.fds[fd])| <= BUFSIZE)
    requires NUL !in s
    modifies fs.fds, data
    ensures fs.Valid()
    ensures fd == -1 ==> status == -1 && out == [OPEN_FAILED]
    ensures fd != -1 && !fs.HasFile(old(fs.fds[fd])) ==> status == -1 && out == [READ_FAILED]
    ensures fd != -1 && fs.HasFile(old(fs.fds[fd])) ==>
      status == 0 && out == PieceHits(fs.FileOf(old(fs.fds[fd])), s, fname)
  {
    if fd == -1 {
      return [OPEN_FAILED], -1;
    }
    ghost var d := fs.fds[fd];
    ghost var file := fs.FileOf(d);
    assert fs.HasFile(d) ==> InodeOk(fs.image, fs.image.inodes[d.inode]);
    assert forall i :: 0 <= i < |file| ==> file[i] in file;
    assert forall i :: 0 <= i < |s| ==> s[i] in s;
    ghost var hits := (x: seq<Byte>) => PieceHits(x, s, fname);
    forall rest: seq<Byte>, from: nat, to: nat, last: nat | IsPiece(rest, from, to, last)
      ensures hits(rest[from..]) == Hit(rest[from..to], s, fname) + hits(rest[Min(to + 1, last)..])
    {
      NextPiece(rest, from, to, last, s, fname);
    }
    out, status := GrepFile(fs, fd, s, fname, data, file, hits);
  }

  const OPEN_FAILED: seq<Byte> := [0x66, 0x69, 0x6C, 0x65, 0x20, 0x6F, 0x70, 0x65, 0x6E, 0x20,
                                   0x66, 0x61, 0x69, 0x6C, 0x65, 0x64, 0x0A]
  const READ_FAILED: seq<Byte> := [0x66, 0x69, 0x6C, 0x65, 0x20, 0x72, 0x65, 0x61, 0x64, 0x20,
                                   0x66, 0x61, 0x69, 0x6C, 0x65, 0x64, 0x0A]
}
