/** Looking a file up by name, and listing the directory. */
module Directory {
  import opened Bytes
  import opened Limits
  import opened FileSystem

  /** Length of the C string in `s`, whose end also ends it. */
  function StrLen(s: seq<Byte>): (n: nat)
    ensures n <= |s|
    ensures forall i :: 0 <= i < n ==> s[i] != NUL
    ensures n < |s| ==> s[n] == NUL
  {
    if s == [] || s[0] == NUL then 0 else 1 + StrLen(s[1..])
  }

  /** A directory entry's name: its 32 bytes up to the first NUL. */
  function Name(d: Dentry): seq<Byte> {
    d.filename[..StrLen(d.filename)]
  }

  /** The first entry, from i on, with this name. */
  function FirstNamed(img: Image, fname: seq<Byte>, i: nat): (r: Option<nat>)
    requires |img.direntries| == DIR_ENTRIES && i <= DIR_ENTRIES
    ensures r.None? ==> forall j :: i <= j < DIR_ENTRIES ==> Name(img.direntries[j]) != fname
    ensures r.Some? ==>
      && i <= r.value < DIR_ENTRIES
      && Name(img.direntries[r.value]) == fname
      && forall j :: i <= j < r.value ==> Name(img.direntries[j]) != fname
    decreases DIR_ENTRIES - i
  {
    if i == DIR_ENTRIES then None
    else if Name(img.direntries[i]) == fname then Some(i)
    else FirstNamed(img, fname, i + 1)
  }

  /** `read_dentry_by_name`: the first of the 63 entries with this name, for a name of 1 to 32 characters. */
  function Lookup(img: Image, fname: seq<Byte>): Option<Dentry>
    requires |img.direntries| == DIR_ENTRIES
  {
    if !(1 <= |fname| <= FILENAME_LEN) then None
    else
      match FirstNamed(img, fname, 0)
      case None => None
      case Some(i) => Some(img.direntries[i])
  }

  /** Byte i of a C string. */
  function CharAt(s: seq<Byte>, i: nat): Byte {
    if i < |s| then s[i] else NUL
  }

  /** The first index from i on, below n, at which two strings differ or the first one ends; n if none. */
  function Stop(s1: seq<Byte>, s2: seq<Byte>, n: nat, i: nat): (k: nat)
    requires i <= n
    ensures i <= k <= n
    ensures forall j :: i <= j < k ==> CharAt(s1, j) == CharAt(s2, j) != NUL
    ensures k < n ==> CharAt(s1, k) != CharAt(s2, k) || CharAt(s1, k) == NUL
    decreases n - i
  {
    if i == n || CharAt(s1, i) != CharAt(s2, i) || CharAt(s1, i) == NUL then i else Stop(s1, s2, n, i + 1)
  }

  /** A byte as the kernel's signed `int8_t`. */
  function Signed8(b: Byte): (r: int)
    ensures -0x80 <= r < 0x80 && (r - b as int) % 0x100 == 0
  {
    if b < 0x80 then b else b - 0x100
  }

  /** `strncmp`: 0 if the strings agree up to n characters or their end; otherwise its sign tells which has
      the greater character, as signed bytes, where they first differ. */
  method Strncmp(s1: seq<Byte>, s2: seq<Byte>, n: nat) returns (r: int)
    requires n <= |s1| || (exists k :: 0 <= k < |s1| && s1[k] == NUL)
    ensures r == 0 <==> forall i :: 0 <= i < n && i <= StrLen(s1) ==> CharAt(s1, i) == CharAt(s2, i)
    ensures var k := Stop(s1, s2, n, 0);
      r == if k == n then 0 else Signed8(CharAt(s1, k)) - Signed8(CharAt(s2, k))
  {
    for i := 0 to n
      invariant i <= StrLen(s1)
      invariant forall j :: 0 <= j < i ==> CharAt(s1, j) == CharAt(s2, j)
      invariant Stop(s1, s2, n, 0) == Stop(s1, s2, n, i)
    {
      if CharAt(s1, i) != CharAt(s2, i) || CharAt(s1, i) == NUL {
        return Signed8(CharAt(s1, i)) - Signed8(CharAt(s2, i));
      }
    }
    return 0;
  }

  ghost predicate NoNulIn(s: seq<Byte>) {
    forall i :: 0 <= i < |s| ==> CharAt(s, i) != NUL
  }

  /** Comparing as many characters as the longer name has decides equality. */
  lemma LongerDecides(filename: seq<Byte>, fname: seq<Byte>, n: nat)
    requires |filename| == FILENAME_LEN && NUL !in fname && |fname| <= FILENAME_LEN
    requires n == if StrLen(filename) > |fname| then StrLen(filename) else |fname|
    ensures (forall i :: 0 <= i < n && i <= StrLen(filename) ==> CharAt(filename, i) == CharAt(fname, i)) <==>
            filename[..StrLen(filename)] == fname
  {
    var m := StrLen(filename);
    if forall i :: 0 <= i < n && i <= m ==> CharAt(filename, i) == CharAt(fname, i) {
      var j := Min(m, |fname|);
      var a, b := CharAt(filename, j), CharAt(fname, j);
      assert NoNulIn(fname) by {
        assert forall i :: 0 <= i < |fname| ==> fname[i] in fname;
      }
      assert j < n ==> a == b;
      assert m == |fname|;
      forall i | 0 <= i < m
        ensures filename[i] == fname[i]
      {
        assert CharAt(filename, i) == CharAt(fname, i);
      }
      assert filename[..m] == fname;
    }
    if filename[..m] == fname {
      forall i | 0 <= i < n
        ensures CharAt(filename, i) == CharAt(fname, i)
      {
        assert filename[..m][i] == fname[i];
      }
    }
  }

  predicate IsListed(img: Image, fname: seq<Byte>)
    requires |img.direntries| == DIR_ENTRIES
  {
    exists i :: 0 <= i < DIR_ENTRIES && Name(img.direntries[i]) == fname
  }

  /** A lookup succeeds exactly for a name of 1 to 32 characters that some entry has, and then it yields the
      first such entry. */
  lemma LookupFindsIff(img: Image, fname: seq<Byte>)
    requires |img.direntries| == DIR_ENTRIES
    ensures Lookup(img, fname).Some? <==> 1 <= |fname| <= FILENAME_LEN && IsListed(img, fname)
    ensures Lookup(img, fname).Some? ==> FirstHas(img, fname, Lookup(img, fname).value)
  {
    assert FirstNamed(img, fname, 0).None? <==> !IsListed(img, fname);
  }

  ghost predicate FirstHas(img: Image, fname: seq<Byte>, d: Dentry)
    requires |img.direntries| == DIR_ENTRIES
  {
    exists i :: 0 <= i < DIR_ENTRIES && img.direntries[i] == d && Name(d) == fname
                && forall j :: 0 <= j < i ==> Name(img.direntries[j]) != fname
  }

  /** Lookup as the kernel does it; `strlen` of an entry's name may run past its 32 bytes, but the code
      caps it at 32. */
  method ReadDentryByName(img: Image, fname: seq<Byte>) returns (found: Option<Dentry>)
    requires WellFormed(img) && NUL !in fname
    ensures found == Lookup(img, fname)
    ensures found.Some? <==> 1 <= |fname| <= FILENAME_LEN && IsListed(img, fname)
    ensures found.Some? ==> FirstHas(img, fname, found.value)
  {
    LookupFindsIff(img, fname);
    if |fname| == 0 {
      return None;
    }
    for i := 0 to DIR_ENTRIES
      invariant i > 0 ==> |fname| <= FILENAME_LEN
      invariant |fname| <= FILENAME_LEN ==> FirstNamed(img, fname, 0) == FirstNamed(img, fname, i)
    {
      var len := |fname|;
      if len > FILENAME_LEN {
        return None;
      }
      var filename := img.direntries[i].filename;
      if StrLen(filename) > len {
        len := StrLen(filename);
      }
      LongerDecides(filename, fname, len);
      var r := Strncmp(filename, fname, len);
      if r == 0 {
        return Some(img.direntries[i]);
      }
    }
    return None;
  }

  /** Every listed, non-empty name can be opened, and leads to an entry of that name. */
  lemma ListedNamesLookUp(img: Image, i: nat)
    requires WellFormed(img) && i < img.dirCount
    ensures var fname := Name(img.direntries[i]);
      if fname == [] then Lookup(img, fname) == None
      else Lookup(img, fname).Some? && Name(Lookup(img, fname).value) == fname
  {
    LookupFindsIff(img, Name(img.direntries[i]));
  }

  // ----- Listing -----

  /** One `read_directory` call at counter c: the 32 bytes it yields (none at the end) and the next c. */
  function DirectoryStep(img: Image, c: nat): (seq<Byte>, nat)
    requires WellFormed(img)
  {
    if c >= img.dirCount then ([], 0) else (img.direntries[c].filename, c + 1)
  }

  /** The counter after k calls from counter 0, and what call number k yields. */
  function CounterAt(img: Image, k: nat): nat
    requires WellFormed(img)
  {
    if k == 0 then 0 else DirectoryStep(img, CounterAt(img, k - 1)).1
  }

  function CallYields(img: Image, k: nat): seq<Byte>
    requires WellFormed(img)
  {
    DirectoryStep(img, CounterAt(img, k)).0
  }

  lemma {:induction false} FirstRound(img: Image, k: nat)
    requires WellFormed(img) && k <= img.dirCount
    ensures CounterAt(img, k) == k
  {
    if k > 0 {
      FirstRound(img, k - 1);
    }
  }

  lemma {:induction false} RoundsRepeat(img: Image, k: nat)
    requires WellFormed(img)
    ensures CounterAt(img, k + img.dirCount + 1) == CounterAt(img, k)
  {
    if k == 0 {
      FirstRound(img, img.dirCount);
    } else {
      RoundsRepeat(img, k - 1);
    }
  }

  /** From counter 0, successive calls yield the names of the `dirCount` entries in order, then end of
      directory, then the same again, for ever. */
  lemma ListingIsEntries(img: Image, k: nat)
    requires WellFormed(img)
    ensures k < img.dirCount ==> CallYields(img, k) == img.direntries[k].filename
    ensures k == img.dirCount ==> CallYields(img, k) == []
    ensures CallYields(img, k + img.dirCount + 1) == CallYields(img, k)
  {
    if k <= img.dirCount {
      FirstRound(img, k);
    }
    RoundsRepeat(img, k);
  }

  lemma BigMultiple(d: int, n: int)
    requires 0 < n && d != 0
    ensures n <= d * n || d * n <= -n
  {
    if 0 < d {
      assert 0 <= (d - 1) * n;
    } else {
      assert 0 <= (-d - 1) * n;
    }
  }

  lemma RemainderIs(k: nat, q: int, r: nat, n: nat)
    requires 0 < n && r < n && k == q * n + r
    ensures k % n == r
  {
    var d := q - k / n;
    assert d * n == k % n - r;
    if d != 0 {
      BigMultiple(d, n);
    }
  }

  lemma NextModulo(k: nat, n: nat)
    requires 0 < n && 0 < k
    ensures k % n == if (k - 1) % n == n - 1 then 0 else (k - 1) % n + 1
  {
    var q, r := (k - 1) / n, (k - 1) % n;
    if r == n - 1 {
      assert k == (q + 1) * n + 0;
      RemainderIs(k, q + 1, 0, n);
    } else {
      RemainderIs(k, q, r + 1, n);
    }
  }

  lemma StepIsNext(img: Image, c: nat)
    requires WellFormed(img) && c <= img.dirCount
    ensures DirectoryStep(img, c).1 == if c == img.dirCount then 0 else c + 1
  {
  }

  /** After k calls the directory has been gone round q times, and the counter is what is left. */
  lemma {:induction false} CounterSplits(img: Image, k: nat) returns (q: nat)
    requires WellFormed(img)
    ensures CounterAt(img, k) <= img.dirCount && k == q * (img.dirCount + 1) + CounterAt(img, k)
  {
    if k == 0 {
      q := 0;
    } else {
      q := CounterSplits(img, k - 1);
      StepIsNext(img, CounterAt(img, k - 1));
      if CounterAt(img, k - 1) == img.dirCount {
        assert (q + 1) * (img.dirCount + 1) == q * (img.dirCount + 1) + (img.dirCount + 1);
        q := q + 1;
      }
    }
  }

  /** The counter counts modulo the entries and the end mark. */
  lemma CounterIs(img: Image, k: nat)
    requires WellFormed(img)
    ensures CounterAt(img, k) == k % (img.dirCount + 1)
  {
    var q := CounterSplits(img, k);
    RemainderIs(k, q, CounterAt(img, k), img.dirCount + 1);
  }

  /** No two of the listed entries have the same 32 bytes, and none is taken for the end mark. */
  ghost predicate NamesDiffer(img: Image)
    requires WellFormed(img)
  {
    forall i, j :: 0 <= i < j < img.dirCount ==> img.direntries[i].filename != img.direntries[j].filename
  }

  /** What a reader wants of its i-th call: entry i, and after the last entry the end. */
  function Wanted(img: Image, i: nat): seq<Byte>
    requires WellFormed(img) && i <= img.dirCount
  {
    if i < img.dirCount then img.direntries[i].filename else []
  }

  lemma YieldsWantedIff(img: Image, k: nat, i: nat)
    requires WellFormed(img) && NamesDiffer(img) && i <= img.dirCount
    ensures CallYields(img, k) == Wanted(img, i) <==> k % (img.dirCount + 1) == i
  {
    var c := k % (img.dirCount + 1);
    CounterIs(img, k);
    assert c < img.dirCount ==> |img.direntries[c].filename| == FILENAME_LEN;
    assert i < img.dirCount ==> |img.direntries[i].filename| == FILENAME_LEN;
  }

  /** The number, counted over all readers, of a reader's i-th call: `calls` calls have been made before its
      listing, and `others[j]` calls of other readers come just before its j-th. */
  function CallNumber(calls: nat, others: seq<nat>, i: nat): nat
    requires i < |others|
  {
    if i == 0 then calls + others[0] else CallNumber(calls, others, i - 1) + 1 + others[i]
  }

  /** The counter is shared by all readers. A reader gets the whole directory in order, and then the end, if and
      only if the counter stands at 0 when it makes its first call and, between its calls, the others go round
      the directory a whole number of times. */
  lemma ListingIsInOrderIff(img: Image, calls: nat, others: seq<nat>)
    requires WellFormed(img) && NamesDiffer(img) && |others| == img.dirCount + 1
    ensures (forall i :: 0 <= i <= img.dirCount ==>
               CallYields(img, CallNumber(calls, others, i)) == Wanted(img, i)) <==>
      && (calls + others[0]) % (img.dirCount + 1) == 0
      && forall i :: 1 <= i <= img.dirCount ==> others[i] % (img.dirCount + 1) == 0
  {
    var n := img.dirCount + 1;
    forall i | 0 <= i <= img.dirCount
      ensures CallYields(img, CallNumber(calls, others, i)) == Wanted(img, i) <==>
              CallNumber(calls, others, i) % n == i
    {
      YieldsWantedIff(img, CallNumber(calls, others, i), i);
    }
    InOrderIff(n, calls, others, n);
  }

  predicate InOrder(n: nat, calls: nat, others: seq<nat>, m: nat)
    requires 0 < m <= n == |others|
  {
    forall i :: 0 <= i < m ==> CallNumber(calls, others, i) % n == i
  }

  predicate WholeRounds(n: nat, calls: nat, others: seq<nat>, m: nat)
    requires 0 < m <= n == |others|
  {
    (calls + others[0]) % n == 0 && forall i :: 1 <= i < m ==> others[i] % n == 0
  }

  lemma {:induction false} InOrderIff(n: nat, calls: nat, others: seq<nat>, m: nat)
    requires 0 < m <= n == |others|
    ensures InOrder(n, calls, others, m) <==> WholeRounds(n, calls, others, m)
  {
    if m == 1 {
      assert CallNumber(calls, others, 0) == calls + others[0];
    } else {
      var before, now := CallNumber(calls, others, m - 2), CallNumber(calls, others, m - 1);
      InOrderIff(n, calls, others, m - 1);
      assert InOrder(n, calls, others, m - 1) ==> before % n == m - 2;
      assert before % n == m - 2 ==> (now % n == m - 1 <==> others[m - 1] % n == 0) by {
        if before % n == m - 2 {
          NextCallIff(before, others[m - 1], n, m - 1);
        }
      }
      assert InOrder(n, calls, others, m) <==> InOrder(n, calls, others, m - 1) && now % n == m - 1;
      assert WholeRounds(n, calls, others, m) <==> WholeRounds(n, calls, others, m - 1) && others[m - 1] % n == 0;
    }
  }

  lemma NextCallIff(k: nat, others: nat, n: nat, i: nat)
    requires 1 <= i < n && k % n == i - 1
    ensures (k + 1 + others) % n == i <==> others % n == 0
  {
    NextModulo(k + 1, n);
    var q, r := (k + 1) / n, others / n;
    assert k + 1 == q * n + i && others == r * n + others % n;
    assert k + 1 + others == (q + r) * n + (i + others % n);
    if i + others % n < n {
      RemainderIs(k + 1 + others, q + r, i + others % n, n);
    } else {
      assert k + 1 + others == (q + r + 1) * n + (i + others % n - n);
      RemainderIs(k + 1 + others, q + r + 1, i + others % n - n, n);
    }
  }

  class Listing {
    const image: Image
    /** Global to the kernel: all processes that read the directory share it. */
    var dentryCounter: nat

    constructor (image: Image)
      requires WellFormed(image)
      ensures this.image == image && dentryCounter == 0
    {
      this.image := image;
      dentryCounter := 0;
    }

    /** `read_directory`: the size asked for is ignored. */
    method ReadDirectory(buf: array<Byte>) returns (numRead: int)
      requires WellFormed(image) && FILENAME_LEN <= buf.Length
      modifies this, buf
      ensures var r := DirectoryStep(image, old(dentryCounter));
        && dentryCounter == r.1
        && numRead == |r.0|
        && buf[..] == r.0 + old(buf[numRead..])
    {
      if dentryCounter >= image.dirCount {
        dentryCounter := 0;
        return 0;
      }
      var dentry := image.direntries[dentryCounter];
      numRead := 0;
      for j := 0 to FILENAME_LEN
        invariant numRead == j && dentryCounter == old(dentryCounter)
        invariant buf[..j] == dentry.filename[..j] && buf[j..] == old(buf[j..])
      {
        buf[numRead] := dentry.filename[j];
        numRead := numRead + 1;
      }
      dentryCounter := dentryCounter + 1;
    }
  }
}
