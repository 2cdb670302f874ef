/** A process's file descriptors, and the 32-bit numbers in them. */
module Descriptors {
  import opened Bytes

  const INT_MAX := 0x7FFF_FFFF
  const IN_USE := 1
  const NOT_IN_USE := -1

  /** Which `fops_t` a descriptor points to; `Unset` for a pointer nobody has stored yet. */
  datatype Ops = Unset | TermRead | TermWrite | Rtc | Dir | File

  datatype Descriptor = Descriptor(ops: Ops, inode: int, filePos: int, flags: int)

  predicate IsInt32(x: int) {
    -INT_MAX - 1 <= x <= INT_MAX
  }

  /** 32 bits read as an unsigned and as a signed number. */
  function Unsigned32(x: int): (r: nat)
    ensures r < TWO_32 && (0 <= x < TWO_32 ==> r == x)
  {
    x % TWO_32
  }

  function Signed32(x: int): (r: int)
    ensures IsInt32(r) && Unsigned32(r) == Unsigned32(x)
    ensures IsInt32(x) ==> r == x
  {
    var u := Unsigned32(x);
    if u <= INT_MAX then u else u - TWO_32
  }

  /** What `read_file` does to its descriptor: the position moves by the size asked for. */
  function AfterRead(d: Descriptor, nbytes: int): (r: Descriptor)
    ensures IsInt32(r.filePos) && r == d.(filePos := r.filePos)
  {
    d.(filePos := Signed32(d.filePos + nbytes))
  }

  /** Positions, read as unsigned, add up modulo 2^32. */
  lemma PositionsAdd(d: Descriptor, nbytes: int, pos: nat)
    requires Unsigned32(d.filePos) == pos % TWO_32
    ensures Unsigned32(AfterRead(d, nbytes).filePos) == (pos + Unsigned32(nbytes)) % TWO_32
  {
    assert Unsigned32(AfterRead(d, nbytes).filePos) == Unsigned32(d.filePos + nbytes);
    SumsAgree(d.filePos, nbytes, pos);
  }

  lemma SumsAgree(x: int, n: int, p: nat)
    requires x % TWO_32 == p % TWO_32
    ensures (x + n) % TWO_32 == (p + n % TWO_32) % TWO_32
  {
  }
}
