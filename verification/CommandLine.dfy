/** The parser at the head of `system_execute`: a file name and one argument string. */
module CommandLine {
  import opened Bytes
  import opened Limits

  /** The first index from i on that is not a space, and the first that is (or the end). */
  function SkipSpaces(c: seq<Byte>, i: nat): (j: nat)
    requires i <= |c|
    ensures i <= j <= |c|
    ensures forall k :: i <= k < j ==> c[k] == SPACE
    ensures j < |c| ==> c[j] != SPACE
    decreases |c| - i
  {
    if i < |c| && c[i] == SPACE then SkipSpaces(c, i + 1) else i
  }

  function SkipWord(c: seq<Byte>, i: nat): (j: nat)
    requires i <= |c|
    ensures i <= j <= |c|
    ensures forall k :: i <= k < j ==> c[k] != SPACE
    ensures j < |c| ==> c[j] == SPACE
    decreases |c| - i
  {
    if i < |c| && c[i] != SPACE then SkipWord(c, i + 1) else i
  }

  function TrimRight(s: seq<Byte>): (r: seq<Byte>)
    ensures r <= s
    ensures forall k :: |r| <= k < |s| ==> s[k] == SPACE
    ensures r != [] ==> r[|r| - 1] != SPACE
  {
    if s != [] && s[|s| - 1] == SPACE then TrimRight(s[..|s| - 1]) else s
  }

  /** The first word of a command, and the rest of it without the spaces around. */
  function WordStart(c: seq<Byte>): nat {
    SkipSpaces(c, 0)
  }

  function WordEnd(c: seq<Byte>): nat {
    SkipWord(c, WordStart(c))
  }

  function FirstWord(c: seq<Byte>): seq<Byte> {
    c[WordStart(c)..WordEnd(c)]
  }

  function Remainder(c: seq<Byte>): seq<Byte> {
    TrimRight(c[SkipSpaces(c, WordEnd(c))..])
  }

  /** What the kernel takes them to be: it looks at 32 characters only. */
  function FileName(c: seq<Byte>): seq<Byte> {
    if WordStart(c) < FILENAME_LEN then c[WordStart(c)..Min(WordEnd(c), FILENAME_LEN)] else []
  }

  function Arguments(c: seq<Byte>): seq<Byte> {
    if WordEnd(c) < FILENAME_LEN then Remainder(c) else []
  }

  /** The file name is as much of the first word as lies within the first 32 characters; the arguments are the
      whole remainder or nothing. */
  lemma FileNameIsPrefix(c: seq<Byte>)
    ensures FileName(c) <= FirstWord(c) && SPACE !in FileName(c)
    ensures |FileName(c)| == if WordStart(c) < 32 then Min(WordEnd(c), 32) - WordStart(c) else 0
    ensures Arguments(c) == Remainder(c) || Arguments(c) == []
  {
    assert FileName(c) == FirstWord(c)[..|FileName(c)|];
  }

  /** The file name is the first word exactly when that word ends within the first 32 characters. */
  lemma FileNameIsWordIff(c: seq<Byte>)
    ensures FileName(c) == FirstWord(c) <==> WordEnd(c) <= FILENAME_LEN || WordStart(c) == |c|
  {
    if WordEnd(c) > FILENAME_LEN && WordStart(c) < |c| {
      assert |FileName(c)| < |FirstWord(c)|;
    }
  }

  /** The argument string is the remainder exactly when the first word ends before the 32nd character or
      only spaces follow it. */
  lemma ArgumentsAreRemainderIff(c: seq<Byte>)
    ensures Arguments(c) == Remainder(c) <==> WordEnd(c) < FILENAME_LEN || SkipSpaces(c, WordEnd(c)) == |c|
  {
    var rest := c[SkipSpaces(c, WordEnd(c))..];
    if rest != [] {
      assert rest[0] != SPACE;
      assert Remainder(c) != [];
    }
  }

  function Spaces(n: nat): seq<Byte> {
    seq(n, _ => SPACE)
  }

  lemma {:induction false} SkipSpacesIs(c: seq<Byte>, i: nat, j: nat)
    requires i <= j <= |c|
    requires forall k :: i <= k < j ==> c[k] == SPACE
    requires j < |c| ==> c[j] != SPACE
    ensures SkipSpaces(c, i) == j
    decreases j - i
  {
    if i < j {
      SkipSpacesIs(c, i + 1, j);
    }
  }

  lemma {:induction false} SkipWordIs(c: seq<Byte>, i: nat, j: nat)
    requires i <= j <= |c|
    requires forall k :: i <= k < j ==> c[k] != SPACE
    requires j < |c| ==> c[j] == SPACE
    ensures SkipWord(c, i) == j
    decreases j - i
  {
    if i < j {
      SkipWordIs(c, i + 1, j);
    }
  }

  lemma {:induction false} TrimRightIs(s: seq<Byte>, n: nat)
    requires s == [] || s[|s| - 1] != SPACE
    ensures TrimRight(s + Spaces(n)) == s
  {
    if n == 0 {
      assert s + Spaces(0) == s;
    } else {
      assert (s + Spaces(n))[..|s| + n - 1] == s + Spaces(n - 1);
      TrimRightIs(s, n - 1);
    }
  }

  lemma WordIsFound(before: nat, word: seq<Byte>, tail: seq<Byte>)
    requires word != [] && SPACE !in word && (tail != [] ==> tail[0] == SPACE)
    ensures var c := Spaces(before) + word + tail;
      WordStart(c) == before && WordEnd(c) == before + |word| && FirstWord(c) == word && c[WordEnd(c)..] == tail
  {
    var c := Spaces(before) + word + tail;
    var end := before + |word|;
    forall k | before <= k < end
      ensures c[k] != SPACE
    {
      assert c[k] == word[k - before] && word[k - before] in word;
    }
    SkipSpacesIs(c, 0, before);
    SkipWordIs(c, before, end);
  }

  lemma RemainderIsFound(c: seq<Byte>, between: nat, args: seq<Byte>, after: nat)
    requires c[WordEnd(c)..] == Spaces(between) + args + Spaces(after)
    requires args != [] ==> args[0] != SPACE && args[|args| - 1] != SPACE
    ensures Remainder(c) == args
  {
    var end, tail := WordEnd(c), c[WordEnd(c)..];
    var n := if args == [] then |tail| else between;
    forall k | end <= k < end + n
      ensures c[k] == SPACE
    {
      assert c[k] == tail[k - end];
    }
    if args == [] {
      SkipSpacesIs(c, end, |c|);
    } else {
      assert c[end + between] == tail[between] == args[0];
      SkipSpacesIs(c, end, end + between);
      assert tail[between..] == args + Spaces(after);
      assert c[end + between..] == tail[between..];
      TrimRightIs(args, after);
    }
  }

  /** A command written as a word and arguments, with any padding, is parsed back into them; spaces
      inside the arguments are kept. */
  lemma ParsesBack(before: nat, word: seq<Byte>, between: nat, args: seq<Byte>, after: nat)
    requires word != [] && SPACE !in word && before + |word| < FILENAME_LEN
    requires args != [] ==> 0 < between && args[0] != SPACE && args[|args| - 1] != SPACE
    ensures var c := Spaces(before) + word + (Spaces(between) + args + Spaces(after));
      FileName(c) == word && Arguments(c) == args
  {
    var tail := Spaces(between) + args + Spaces(after);
    WordIsFound(before, word, tail);
    RemainderIsFound(Spaces(before) + word + tail, between, args, after);
  }

  predicate IsCString(s: seq<Byte>) {
    forall i :: 0 <= i < |s| ==> s[i] != NUL
  }

  /** The parsing loops. `command` is the C string without its NUL, `Cmd(i)` its i-th byte. */
  function Cmd(command: seq<Byte>, i: nat): Byte {
    if i < |command| then command[i] else NUL
  }

  /** The inner scan: do only spaces follow from here to the end? */
  method OnlySpacesFollow(command: seq<Byte>, argIdx: nat) returns (yes: bool)
    requires IsCString(command) && argIdx < |command|
    ensures yes <==> SkipSpaces(command, argIdx) == |command|
  {
    var tempIdx := argIdx;
    while Cmd(command, tempIdx) != NUL
      invariant argIdx <= tempIdx <= |command|
      invariant SkipSpaces(command, argIdx) == SkipSpaces(command, tempIdx)
      decreases |command| - tempIdx
    {
      if Cmd(command, tempIdx) != SPACE {
        return false;
      }
      tempIdx := tempIdx + 1;
    }
    return true;
  }

  lemma TrimAtTrailingSpaces(s: seq<Byte>, n: nat)
    requires n <= |s| && (forall k :: n <= k < |s| ==> s[k] == SPACE) && (n == 0 || s[n - 1] != SPACE)
    ensures TrimRight(s) == s[..n]
  {
    assert s == s[..n] + Spaces(|s| - n);
    TrimRightIs(s[..n], |s| - n);
  }

  /** The argument loop. */
  method ParseArguments(command: seq<Byte>, start: nat) returns (args: seq<Byte>)
    requires IsCString(command) && start <= |command| && (start < |command| ==> command[start] != SPACE)
    ensures args == TrimRight(command[start..])
  {
    var argIdx := start;
    args := [];
    while argIdx < |command| && Cmd(command, argIdx) != NUL
      invariant start <= argIdx <= |command|
      invariant args == command[start..argIdx]
      invariant argIdx < |command| || start == argIdx || command[argIdx - 1] != SPACE
      invariant start < argIdx < |command| && command[argIdx - 1] == SPACE ==>
        SkipSpaces(command, argIdx) < |command|
    {
      if Cmd(command, argIdx) == SPACE {
        var trailing := OnlySpacesFollow(command, argIdx);
        if trailing {
          TrimAtTrailingSpaces(command[start..], argIdx - start);
          return;
        }
      }
      args := args + [Cmd(command, argIdx)];
      argIdx := argIdx + 1;
    }
    TrimAtTrailingSpaces(command[start..], |command| - start);
  }

  /** The loops that step over spaces. */
  method StepOverSpaces(command: seq<Byte>, from: nat) returns (i: nat)
    requires from <= |command|
    ensures i == SkipSpaces(command, from)
  {
    i := from;
    while Cmd(command, i) == SPACE
      invariant from <= i <= |command| && SkipSpaces(command, from) == SkipSpaces(command, i)
      decreases |command| - i
    {
      i := i + 1;
    }
  }

  /** The file name loop: it also finds where the first argument may start, or 0. */
  method TakeName(command: seq<Byte>, start: nat) returns (filename: seq<Byte>, argIdx: nat)
    requires IsCString(command) && start == WordStart(command)
    ensures filename == FileName(command)
    ensures argIdx ==
      if WordEnd(command) < Min(FILENAME_LEN, |command|) then SkipSpaces(command, WordEnd(command)) else 0
  {
    var i := start;
    filename := [];
    while Cmd(command, i) != NUL && i < FILENAME_LEN
      invariant start <= i <= |command| && (start < FILENAME_LEN ==> i <= FILENAME_LEN)
      invariant start >= FILENAME_LEN ==> i == start
      invariant filename == command[start..i]
      invariant WordEnd(command) == SkipWord(command, i)
      decreases |command| - i
    {
      if Cmd(command, i) == SPACE {
        argIdx := StepOverSpaces(command, i + 1);
        return;
      }
      filename := filename + [Cmd(command, i)];
      i := i + 1;
    }
    argIdx := 0;
  }

  lemma NoArguments(c: seq<Byte>)
    requires Min(FILENAME_LEN, |c|) <= WordEnd(c)
    ensures Arguments(c) == []
  {
  }

  method Parse(command: seq<Byte>) returns (filename: seq<Byte>, args: seq<Byte>)
    requires IsCString(command)
    ensures filename == FileName(command) && args == Arguments(command)
  {
    var i := StepOverSpaces(command, 0);
    var argIdx;
    filename, argIdx := TakeName(command, i);
    args := [];
    if argIdx != 0 {
      args := ParseArguments(command, argIdx);
    } else {
      NoArguments(command);
    }
  }
}
