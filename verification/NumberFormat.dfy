/** `itoa`, its in-place `strrev`, and the eight-digit `%#x` of `printf`. */
module NumberFormat {
  import opened Bytes

  const ZERO: Byte := 0x30
  const MAX_RADIX := 36

  /** Entry i of the lookup string "0123456789ABC...Z", and the digit a character stands for. */
  function Digit(i: nat): Byte
    requires i < MAX_RADIX
  {
    if i < 10 then ZERO + i else 0x41 + (i - 10)
  }

  function DigitValue(ch: Byte): int {
    if ch < 0x41 then ch - ZERO else ch - 0x41 + 10
  }

  predicate IsRadix(radix: int) {
    2 <= radix <= MAX_RADIX
  }

  /** The number a digit string denotes, most significant digit first. */
  function Eval(digits: seq<Byte>, radix: int): int {
    if digits == [] then 0
    else Eval(digits[..|digits| - 1], radix) * radix + DigitValue(digits[|digits| - 1])
  }

  lemma DivisionShrinks(n: nat, radix: int)
    requires IsRadix(radix)
    ensures 0 <= n / radix <= n && 0 <= n % radix < radix && n == (n / radix) * radix + n % radix
    ensures 0 < n ==> n / radix < n
  {
    AtLeastDouble(n / radix, radix);
  }

  lemma AtLeastDouble(q: int, radix: int)
    requires 0 <= q && 2 <= radix
    ensures radix * q >= 2 * q
  {
    assert (radix - 2) * q >= 0;
  }

  /** The digits of n, without leading zeros; none for 0. */
  function Significant(n: nat, radix: int): (r: seq<Byte>)
    requires IsRadix(radix)
    decreases n
  {
    DivisionShrinks(n, radix);
    if n == 0 then [] else Significant(n / radix, radix) + [Digit(n % radix)]
  }

  function Digits(n: nat, radix: int): seq<Byte>
    requires IsRadix(radix)
  {
    if n == 0 then [ZERO] else Significant(n, radix)
  }

  function Reverse(s: seq<Byte>): (r: seq<Byte>)
    ensures |r| == |s|
  {
    if s == [] then [] else Reverse(s[1..]) + [s[0]]
  }

  /** One of the first `radix` characters of the lookup string. */
  predicate IsDigit(ch: Byte, radix: int)
    requires IsRadix(radix)
  {
    exists d: nat :: d < radix && ch == Digit(d)
  }

  predicate IsNumeral(digits: seq<Byte>, radix: int)
    requires IsRadix(radix)
  {
    forall i :: 0 <= i < |digits| ==> IsDigit(digits[i], radix)
  }

  lemma EvalAppend(digits: seq<Byte>, ch: Byte, radix: int)
    ensures Eval(digits + [ch], radix) == Eval(digits, radix) * radix + DigitValue(ch)
  {
    assert (digits + [ch])[..|digits|] == digits;
  }

  lemma DigitStandsFor(i: nat)
    requires i < MAX_RADIX
    ensures DigitValue(Digit(i)) == i && Digit(i) != NUL && (Digit(i) == ZERO <==> i == 0)
  {
  }

  /** The digits of a radix are '0' to '9' and then 'A' on, and nothing else. */
  lemma DigitsAre(ch: Byte, radix: int)
    requires IsRadix(radix)
    ensures IsDigit(ch, radix) <==> ZERO <= ch < ZERO + Min(radix, 10) || 0x41 <= ch < 0x41 + radix - 10
    ensures IsDigit(ch, radix) ==> ch != NUL && 0 <= DigitValue(ch) < radix
  {
    if ZERO <= ch < ZERO + Min(radix, 10) {
      assert ch == Digit(ch as int - ZERO as int);
    } else if 0x41 <= ch < 0x41 + radix - 10 {
      assert ch == Digit(ch as int - 0x41 + 10);
    }
  }

  lemma {:induction false} SignificantEvaluates(n: nat, radix: int)
    requires IsRadix(radix)
    ensures Eval(Significant(n, radix), radix) == n
    decreases n
  {
    if n != 0 {
      DivisionShrinks(n, radix);
      SignificantEvaluates(n / radix, radix);
      EvalAppend(Significant(n / radix, radix), Digit(n % radix), radix);
      DigitStandsFor(n % radix);
    }
  }

  lemma {:induction false} SignificantIsNumeral(n: nat, radix: int)
    requires IsRadix(radix)
    ensures IsNumeral(Significant(n, radix), radix)
    ensures n != 0 ==> Significant(n, radix) != [] && Significant(n, radix)[0] != ZERO
    decreases n
  {
    if n != 0 {
      DivisionShrinks(n, radix);
      SignificantIsNumeral(n / radix, radix);
      DigitStandsFor(n % radix);
      if n / radix == 0 {
        SmallQuotient(n, radix);
      }
    }
  }

  lemma SmallQuotient(n: nat, radix: int)
    requires IsRadix(radix) && 0 < n && n / radix == 0
    ensures n % radix != 0
  {
    DivisionShrinks(n, radix);
  }

  /** Round trip: the digits of a number evaluate back to it, they are digits of the radix, and only 0
      starts with a zero. */
  lemma DigitsRoundTrip(n: nat, radix: int)
    requires IsRadix(radix)
    ensures Eval(Digits(n, radix), radix) == n
    ensures IsNumeral(Digits(n, radix), radix)
    ensures Digits(n, radix)[0] == ZERO <==> n == 0
  {
    SignificantEvaluates(n, radix);
    SignificantIsNumeral(n, radix);
    assert [ZERO] == [] + [ZERO] && ZERO == Digit(0);
    EvalAppend([], ZERO, radix);
  }

  lemma {:induction false} ReverseAppend(s: seq<Byte>, ch: Byte)
    ensures Reverse(s + [ch]) == [ch] + Reverse(s)
  {
    if s == [] {
      assert s + [ch] == [ch];
      assert [ch][1..] == [];
    } else {
      assert (s + [ch])[1..] == s[1..] + [ch];
      ReverseAppend(s[1..], ch);
    }
  }

  lemma {:induction false} ReverseAt(s: seq<Byte>, k: nat)
    requires k < |s|
    ensures Reverse(s)[k] == s[|s| - 1 - k]
  {
    if k < |s| - 1 {
      ReverseAt(s[1..], k);
    }
  }

  /** Sixteen to the k bounds what k hexadecimal digits can hold. */
  function Power16(k: nat): nat {
    if k == 0 then 1 else 16 * Power16(k - 1)
  }

  lemma {:induction false} HexLength(n: nat, k: nat)
    requires n < Power16(k)
    ensures |Significant(n, 16)| <= k
  {
    if n != 0 {
      HexLength(n / 16, k - 1);
    }
  }

  lemma {:induction false} LeadingZeros(k: nat, digits: seq<Byte>, radix: int)
    ensures Eval(seq(k, _ => ZERO) + digits, radix) == Eval(digits, radix)
    decreases k + |digits|
  {
    var padded := seq(k, _ => ZERO) + digits;
    if digits != [] {
      assert padded[..|padded| - 1] == seq(k, _ => ZERO) + digits[..|digits| - 1];
      LeadingZeros(k, digits[..|digits| - 1], radix);
    } else if k != 0 {
      assert padded[..|padded| - 1] == seq(k - 1, _ => ZERO) + digits;
      LeadingZeros(k - 1, digits, radix);
    }
  }

  // ----- In place -----

  method Strlen(s: array<Byte>, at: nat, ghost end: nat) returns (len: nat)
    requires at <= end < s.Length && s[end] == NUL && forall i :: at <= i < end ==> s[i] != NUL
    ensures len == end - at
  {
    len := 0;
    while s[at + len] != NUL
      invariant at + len <= end
      decreases end - len
    {
      len := len + 1;
    }
  }

  /** `strrev` of the string at `at`, which ends at `end`. */
  method Strrev(s: array<Byte>, at: nat, ghost end: nat)
    requires at <= end < s.Length && s[end] == NUL && forall i :: at <= i < end ==> s[i] != NUL
    modifies s
    ensures s[at..end] == Reverse(old(s[at..end]))
    ensures forall i :: 0 <= i < s.Length && !(at <= i < end) ==> s[i] == old(s[i])
  {
    ghost var was := s[..];
    var len := Strlen(s, at, end);
    var beg: int := 0;
    var last: int := len;
    last := last - 1;
    while beg < last
      invariant 0 <= beg <= len && beg + last + 1 == len
      invariant forall i :: at <= i < at + beg ==> s[i] == was[at + end - 1 - i]
      invariant forall i :: at + last < i < end ==> s[i] == was[at + end - 1 - i]
      invariant forall i :: 0 <= i < s.Length && !(at <= i < at + beg) && !(at + last < i < end) ==> s[i] == was[i]
    {
      var tmp := s[at + last];
      s[at + last] := s[at + beg];
      s[at + beg] := tmp;
      beg := beg + 1;
      last := last - 1;
    }
    Mirrored(s[..], was, at, end);
  }

  /** Swapping the ends inwards reverses. */
  lemma Mirrored(now: seq<Byte>, was: seq<Byte>, at: nat, end: nat)
    requires at <= end < |now| == |was|
    requires forall i :: at <= i < end ==> now[i] == was[at + end - 1 - i]
    ensures now[at..end] == Reverse(was[at..end])
  {
    var text := was[at..end];
    forall k | 0 <= k < end - at
      ensures now[at..end][k] == Reverse(text)[k]
    {
      ReverseAt(text, k);
    }
  }

  /** `itoa` into `buf` from index `at` on; the string it leaves there ends at `end`. */
  method Itoa(value: nat, buf: array<Byte>, at: nat, radix: int) returns (ghost end: nat)
    requires value < TWO_32 && IsRadix(radix)
    requires at + |Digits(value, radix)| < buf.Length
    modifies buf
    ensures end == at + |Digits(value, radix)|
    ensures buf[at..end] == Digits(value, radix)
    ensures buf[end] == NUL
    ensures forall i :: 0 <= i < buf.Length && !(at <= i <= end) ==> buf[i] == old(buf[i])
  {
    if value == 0 {
      buf[at] := ZERO;
      buf[at + 1] := NUL;
      end := at + 1;
    } else {
      var newbuf := WriteLowestFirst(value, buf, at, radix);
      end := newbuf;
      SignificantIsNumeral(value, radix);
      TerminateAndReverse(buf, at, newbuf, Significant(value, radix));
    }
  }

  /** The end of `itoa`. */
  method TerminateAndReverse(buf: array<Byte>, at: nat, newbuf: nat, ghost digits: seq<Byte>)
    requires at <= newbuf < buf.Length && Reverse(buf[at..newbuf]) == digits
    requires forall i :: 0 <= i < |digits| ==> digits[i] != NUL
    modifies buf
    ensures buf[at..newbuf] == digits && buf[newbuf] == NUL
    ensures forall i :: 0 <= i < buf.Length && !(at <= i <= newbuf) ==> buf[i] == old(buf[i])
  {
    ghost var written := buf[at..newbuf];
    NoNulReversed(written, digits);
    buf[newbuf] := NUL;
    assert buf[at..newbuf] == written;
    assert forall i :: at <= i < newbuf ==> buf[i] == written[i - at];
    Strrev(buf, at, newbuf);
  }

  /** The division loop of `itoa`: lowest digit first. */
  method WriteLowestFirst(value: nat, buf: array<Byte>, at: nat, radix: int) returns (newbuf: nat)
    requires IsRadix(radix) && at + |Significant(value, radix)| < buf.Length
    modifies buf
    ensures newbuf == at + |Significant(value, radix)|
    ensures Reverse(buf[at..newbuf]) == Significant(value, radix)
    ensures forall i :: 0 <= i < buf.Length && !(at <= i < newbuf) ==> buf[i] == old(buf[i])
  {
    newbuf := at;
    var newval: nat := value;
    ghost var written: seq<Byte> := [];
    while newval > 0
      invariant newbuf == at + |written|
      invariant |written| + |Significant(newval, radix)| == |Significant(value, radix)|
      invariant buf[at..newbuf] == written
      invariant Significant(value, radix) == Significant(newval, radix) + Reverse(written)
      invariant forall i :: 0 <= i < buf.Length && !(at <= i < newbuf) ==> buf[i] == old(buf[i])
    {
      DivisionShrinks(newval, radix);
      var digit := Digit(newval % radix);
      PeelDigit(Significant(value, radix), Significant(newval / radix, radix), digit, written);
      buf[newbuf] := digit;
      written := written + [digit];
      newbuf := newbuf + 1;
      newval := newval / radix;
    }
  }

  lemma PeelDigit(whole: seq<Byte>, front: seq<Byte>, digit: Byte, written: seq<Byte>)
    requires whole == (front + [digit]) + Reverse(written)
    ensures whole == front + Reverse(written + [digit])
  {
    ReverseAppend(written, digit);
  }

  lemma NoNulReversed(s: seq<Byte>, r: seq<Byte>)
    requires r == Reverse(s) && forall i :: 0 <= i < |r| ==> r[i] != NUL
    ensures forall i :: 0 <= i < |s| ==> s[i] != NUL
  {
    forall i | 0 <= i < |s|
      ensures s[i] != NUL
    {
      ReverseAt(s, |s| - 1 - i);
    }
  }

  lemma HexDigitsFit(value: nat)
    requires value < TWO_32
    ensures 1 <= |Digits(value, 16)| <= 8
    ensures IsNumeral(Digits(value, 16), 16) && Eval(Digits(value, 16), 16) == value
  {
    DigitsRoundTrip(value, 16);
    assert Power16(8) == TWO_32;
    HexLength(value, 8);
  }

  /** Pad with zeros in front of the digits at index 8, from as many cells as there are digits. */
  method PadFront(convBuf: array<Byte>, start: nat)
    requires start <= 8 <= convBuf.Length
    modifies convBuf
    ensures forall j :: 0 <= j < convBuf.Length ==> convBuf[j] == if start <= j < 8 then ZERO else old(convBuf[j])
  {
    var i := start;
    while i < 8
      invariant start <= i <= 8
      invariant forall j :: 0 <= j < convBuf.Length ==> convBuf[j] == if start <= j < i then ZERO else old(convBuf[j])
    {
      convBuf[i] := ZERO;
      i := i + 1;
    }
  }

  /** The `%#x` conversion: the characters passed to `puts`. */
  method AlternateHex(value: nat) returns (out: seq<Byte>)
    requires value < TWO_32
    ensures |out| == 8
    ensures IsNumeral(out, 16) && Eval(out, 16) == value
  {
    var convBuf := new Byte[64](_ => NUL);
    HexDigitsFit(value);
    ghost var end := Itoa(value, convBuf, 8, 16);
    out := PadAndRead(convBuf, Digits(value, 16));
  }

  /** With the digits at index 8, the zeros go in front of them; the string starts where the zeros do. */
  method PadAndRead(convBuf: array<Byte>, ghost digits: seq<Byte>) returns (out: seq<Byte>)
    requires |digits| <= 8 && 8 + |digits| < convBuf.Length
    requires convBuf[8..8 + |digits|] == digits && convBuf[8 + |digits|] == NUL
    requires IsNumeral(digits, 16)
    modifies convBuf
    ensures |out| == 8
    ensures IsNumeral(out, 16) && Eval(out, 16) == Eval(digits, 16)
  {
    ghost var end := 8 + |digits|;
    assert forall i :: 8 <= i < end ==> convBuf[i] == convBuf[8..end][i - 8];
    var start := Strlen(convBuf, 8, end);
    PadFront(convBuf, start);
    out := ReadPadded(convBuf, start, digits);
    PaddedDigits(out, digits);
  }

  method ReadPadded(convBuf: array<Byte>, start: nat, ghost digits: seq<Byte>) returns (out: seq<Byte>)
    requires start == |digits| <= 8 && 8 + |digits| < convBuf.Length
    requires forall i :: start <= i < 8 ==> convBuf[i] == ZERO
    requires forall i :: 8 <= i < 8 + start ==> convBuf[i] == digits[i - 8] && digits[i - 8] != NUL
    requires convBuf[8 + start] == NUL
    ensures |out| == 8
    ensures forall i :: 0 <= i < 8 - |digits| ==> out[i] == ZERO
    ensures forall i :: 8 - |digits| <= i < 8 ==> out[i] == digits[i - (8 - |digits|)]
  {
    var len := Strlen(convBuf, start, 8 + start);
    out := convBuf[start..start + len];
  }

  lemma PaddedDigits(out: seq<Byte>, digits: seq<Byte>)
    requires |digits| <= 8 && |out| == 8
    requires forall i :: 0 <= i < 8 - |digits| ==> out[i] == ZERO
    requires forall i :: 8 - |digits| <= i < 8 ==> out[i] == digits[i - (8 - |digits|)]
    requires IsNumeral(digits, 16)
    ensures IsNumeral(out, 16) && Eval(out, 16) == Eval(digits, 16)
  {
    assert out == seq(8 - |digits|, _ => ZERO) + digits && ZERO == Digit(0);
    LeadingZeros(8 - |digits|, digits, 16);
  }
}
