/** The blinkers of the fish program: a singly linked list threaded through an array whose allocator
    takes `location == 0` to mean "free". */
module BlinkList {
  import opened Bytes

  const SLOTS := 80 * 25
  const NULL := -1
  const WORD := 0x1_0000

  /** `mp1_blink_struct`; `next` is the index of the next slot, or NULL. The other numbers are 16 bits. */
  datatype Blink = Blink(
    location: nat,
    onChar: Byte,
    offChar: Byte,
    onLength: nat,
    offLength: nat,
    countdown: nat,
    status: nat,
    next: int)

  const ZEROED := Blink(0, 0, 0, 0, 0, 0, 0, NULL)

  /** The array and the list head. */
  datatype Heap = Heap(slots: seq<Blink>, head: int)

  // ----- Lists in the array -----

  function LinkAfter(list: seq<int>, k: nat): int {
    if k < |list| then list[k] else NULL
  }

  /** The links from the head visit exactly the slots of `list`, in order, and end. */
  ghost predicate Chain(h: Heap, list: seq<int>) {
    && h.head == LinkAfter(list, 0)
    && forall k :: 0 <= k < |list| ==> 0 <= list[k] < |h.slots| && h.slots[list[k]].next == LinkAfter(list, k + 1)
  }

  ghost predicate Distinct(list: seq<int>) {
    forall i, j :: 0 <= i < j < |list| ==> list[i] != list[j]
  }

  /** The listed slots are the used ones. */
  ghost predicate ListsUsed(slots: seq<Blink>, list: seq<int>) {
    && (forall k :: 0 <= k < |list| ==> 0 <= list[k] < |slots| && 0 < slots[list[k]].location < SLOTS)
    && (forall p :: 0 <= p < |slots| && slots[p].location != 0 ==> p in list)
  }

  ghost predicate FreeAreZero(slots: seq<Blink>) {
    forall p :: 0 <= p < |slots| && slots[p].location == 0 ==> slots[p] == ZEROED
  }

  /** The list visits each used slot exactly once and no free one; free slots are all zero. */
  ghost predicate Sound(h: Heap, list: seq<int>) {
    && |h.slots| == SLOTS
    && Chain(h, list)
    && Distinct(list)
    && ListsUsed(h.slots, list)
    && FreeAreZero(h.slots)
  }

  // ----- Adding -----

  /** `mp1_malloc`: the first slot with location 0. */
  function FirstFree(slots: seq<Blink>, p: nat): (r: int)
    requires p <= |slots|
    ensures r == NULL || p <= r < |slots|
    ensures r == NULL <==> forall q :: p <= q < |slots| ==> slots[q].location != 0
    ensures r != NULL ==> slots[r].location == 0 && forall q :: p <= q < r ==> slots[q].location != 0
    decreases |slots| - p
  {
    if p == |slots| then NULL
    else if slots[p].location == 0 then p
    else FirstFree(slots, p + 1)
  }

  /** The structure as it is stored: shown, with its countdown started, ahead of the list. */
  function Started(b: Blink, head: int): Blink {
    b.(status := 1, countdown := b.onLength, next := head)
  }

  /** `mp1_ioctl_add`. */
  function Add(h: Heap, b: Blink): (r: (Heap, bool))
    ensures r.1 <==> b.location < SLOTS && FirstFree(h.slots, 0) != NULL
    ensures !r.1 ==> r.0 == h
  {
    var p := FirstFree(h.slots, 0);
    if b.location >= SLOTS || p == NULL then (h, false)
    else (Heap(h.slots[p := Started(b, h.head)], p), true)
  }

  lemma ConsChain(h: Heap, list: seq<int>, p: int, b: Blink)
    requires Chain(h, list) && 0 <= p < |h.slots| && p !in list && b.next == h.head
    ensures Chain(Heap(h.slots[p := b], p), [p] + list)
  {
    var r, longer := Heap(h.slots[p := b], p), [p] + list;
    forall k | 0 <= k < |longer|
      ensures 0 <= longer[k] < |r.slots| && r.slots[longer[k]].next == LinkAfter(longer, k + 1)
    {
      if 0 < k {
        assert longer[k] == list[k - 1] && list[k - 1] in list;
      }
    }
  }

  lemma ConsListsUsed(slots: seq<Blink>, list: seq<int>, p: int, b: Blink)
    requires ListsUsed(slots, list) && 0 <= p < |slots| && p !in list && 0 < b.location < SLOTS
    ensures ListsUsed(slots[p := b], [p] + list)
  {
    var r, longer := slots[p := b], [p] + list;
    forall k | 0 <= k < |longer|
      ensures 0 <= longer[k] < |r| && 0 < r[longer[k]].location < SLOTS
    {
      if 0 < k {
        assert longer[k] == list[k - 1] && list[k - 1] in list;
      }
    }
    forall q | 0 <= q < |r| && r[q].location != 0
      ensures q in longer
    {
      assert q == p || q in list;
    }
  }

  lemma AddKeepsSound(h: Heap, list: seq<int>, b: Blink)
    requires Sound(h, list) && b.location != 0 && Add(h, b).1
    ensures Add(h, b).0.head !in list
    ensures Sound(Add(h, b).0, [Add(h, b).0.head] + list)
  {
    var p := FirstFree(h.slots, 0);
    assert p !in list;
    ConsChain(h, list, p, Started(b, h.head));
    ConsListsUsed(h.slots, list, p, Started(b, h.head));
  }

  /** A successful add keeps list and allocator in agreement exactly when the location is not 0. */
  lemma AddKeepsSoundIff(h: Heap, list: seq<int>, b: Blink)
    requires Sound(h, list) && Add(h, b).1
    ensures (exists l :: Sound(Add(h, b).0, l)) <==> b.location != 0
  {
    var r := Add(h, b).0;
    if b.location != 0 {
      AddKeepsSound(h, list, b);
    } else {
      assert r.slots[r.head].location == 0 && r.slots[r.head].status == 1;
    }
  }

  lemma {:induction false} LoopHasNoEnd(h: Heap, list: seq<int>, k: nat)
    requires Chain(h, list) && 0 <= h.head < |h.slots| && h.slots[h.head].next == h.head
    ensures k < |list| && list[k] == h.head
  {
    if k > 0 {
      LoopHasNoEnd(h, list, k - 1);
    }
  }

  /** Adding twice at location 0, which the range check lets through, ties the list into a loop: the
      second allocation hands out the slot that is already the head. */
  lemma AddingAtZeroTwiceLoops(h: Heap, list: seq<int>, b: Blink)
    requires Sound(h, list) && b.location == 0 && Add(h, b).1
    ensures var r := Add(Add(h, b).0, b).0;
      && 0 <= r.head < SLOTS && r.slots[r.head].next == r.head
      && forall l :: !Chain(r, l)
  {
    var once := Add(h, b).0;
    var r := Add(once, b).0;
    var p := FirstFree(h.slots, 0);
    assert once.slots[p].location == 0 && forall q :: 0 <= q < p ==> once.slots[q].location != 0;
    assert FirstFree(once.slots, 0) == p;
    forall l
      ensures !Chain(r, l)
    {
      if Chain(r, l) {
        LoopHasNoEnd(r, l, |l|);
      }
    }
  }

  // ----- Removing -----

  /** `mp1_find_helper`: the position in the list of the first blinker at this location. */
  function FirstAt(slots: seq<Blink>, list: seq<int>, location: nat, k: nat): (r: nat)
    requires forall i :: 0 <= i < |list| ==> 0 <= list[i] < |slots|
    requires k <= |list|
    ensures k <= r <= |list|
    ensures r < |list| ==> slots[list[r]].location == location
    ensures forall i :: k <= i < r ==> slots[list[i]].location != location
    decreases |list| - k
  {
    if k == |list| || slots[list[k]].location == location then k else FirstAt(slots, list, location, k + 1)
  }

  /** Unlink position k of the list and free its slot. */
  function Unlink(h: Heap, list: seq<int>, k: nat): Heap
    requires k < |list| && forall i :: 0 <= i < |list| ==> 0 <= list[i] < |h.slots|
  {
    var after := h.slots[list[k]].next;
    if k == 0 then Heap(h.slots[list[k] := ZEROED], after)
    else Heap(h.slots[list[k - 1] := h.slots[list[k - 1]].(next := after)][list[k] := ZEROED], h.head)
  }

  /** `mp1_ioctl_remove`; only the low 16 bits of the argument matter. */
  ghost function Remove(h: Heap, list: seq<int>, arg: nat): (Heap, bool)
    requires Sound(h, list)
  {
    var k := FirstAt(h.slots, list, arg % WORD, 0);
    if k == |list| then (h, false) else (Unlink(h, list, k), true)
  }

  function Without(list: seq<int>, k: nat): seq<int>
    requires k < |list|
  {
    list[..k] + list[k + 1..]
  }

  lemma WithoutAt(list: seq<int>, k: nat)
    requires k < |list| && Distinct(list)
    ensures var l := Without(list, k);
      && (forall i :: 0 <= i < |l| ==> l[i] == if i < k then list[i] else list[i + 1])
      && Distinct(l) && list[k] !in l
  {
  }

  lemma UnlinkChain(h: Heap, list: seq<int>, k: nat)
    requires Chain(h, list) && Distinct(list) && k < |list|
    ensures Chain(Unlink(h, list, k), Without(list, k))
  {
    var r, l := Unlink(h, list, k), Without(list, k);
    WithoutAt(list, k);
    forall i | 0 <= i < |l|
      ensures 0 <= l[i] < |r.slots| && r.slots[l[i]].next == LinkAfter(l, i + 1)
    {
      var j := if i < k then i else i + 1;
      assert l[i] == list[j] && h.slots[list[j]].next == LinkAfter(list, j + 1);
      assert h.slots[list[k]].next == LinkAfter(list, k + 1);
    }
  }

  lemma UnlinkListsUsed(h: Heap, list: seq<int>, k: nat)
    requires ListsUsed(h.slots, list) && Distinct(list) && k < |list|
    ensures ListsUsed(Unlink(h, list, k).slots, Without(list, k))
  {
    var r, l := Unlink(h, list, k).slots, Without(list, k);
    WithoutAt(list, k);
    assert forall p :: 0 <= p < |r| && p != list[k] ==> r[p].location == h.slots[p].location;
    forall i | 0 <= i < |l|
      ensures 0 <= l[i] < |r| && 0 < r[l[i]].location < SLOTS
    {
      assert l[i] == list[if i < k then i else i + 1];
    }
    forall p | 0 <= p < |r| && r[p].location != 0
      ensures p in l
    {
      assert p in list && p != list[k];
      InWithout(list, k, p);
    }
  }

  lemma InWithout(list: seq<int>, k: nat, p: int)
    requires k < |list| && p in list && p != list[k]
    ensures p in Without(list, k)
  {
    var i :| 0 <= i < |list| && list[i] == p;
    assert Without(list, k)[if i < k then i else i - 1] == p;
  }

  lemma UnlinkZeroes(h: Heap, list: seq<int>, k: nat)
    requires ListsUsed(h.slots, list) && FreeAreZero(h.slots) && k < |list|
    ensures |Unlink(h, list, k).slots| == |h.slots| && FreeAreZero(Unlink(h, list, k).slots)
  {
    assert k > 0 ==> h.slots[list[k - 1]].location != 0;
  }

  lemma UnlinkKeepsSound(h: Heap, list: seq<int>, k: nat)
    requires Sound(h, list) && k < |list|
    ensures Sound(Unlink(h, list, k), Without(list, k))
  {
    var r, l := Unlink(h, list, k), Without(list, k);
    assert Distinct(l) by {
      WithoutAt(list, k);
    }
    assert Chain(r, l) by {
      UnlinkChain(h, list, k);
    }
    assert ListsUsed(r.slots, l) by {
      UnlinkListsUsed(h, list, k);
    }
    UnlinkZeroes(h, list, k);
  }

  /** Remove takes the first blinker at the location off the list and frees exactly its slot; with no
      blinker there it fails and changes nothing. */
  lemma RemoveKeepsSound(h: Heap, list: seq<int>, arg: nat)
    requires Sound(h, list)
    ensures var k := FirstAt(h.slots, list, arg % WORD, 0);
      if k < |list| then Sound(Remove(h, list, arg).0, Without(list, k)) else Remove(h, list, arg) == (h, false)
    ensures Remove(h, list, arg).1 <==> exists p :: p in list && h.slots[p].location == arg % WORD
  {
    var k := FirstAt(h.slots, list, arg % WORD, 0);
    if k < |list| {
      UnlinkKeepsSound(h, list, k);
      assert list[k] in list;
    }
  }

  /** Removing what was just added restores the array and the list exactly. */
  lemma AddThenRemove(h: Heap, list: seq<int>, b: Blink)
    requires Sound(h, list) && b.location != 0 && Add(h, b).1
    ensures Sound(Add(h, b).0, [Add(h, b).0.head] + list)
    ensures Remove(Add(h, b).0, [Add(h, b).0.head] + list, b.location) == (h, true)
  {
    AddKeepsSound(h, list, b);
    var r := Add(h, b).0;
    SmallWord(b.location);
    HeadIsFirst(r, [r.head] + list, b.location);
    assert r.slots[r.head := ZEROED] == h.slots;
  }

  lemma SmallWord(x: nat)
    requires x < WORD
    ensures x % WORD == x
  {
  }

  lemma HeadIsFirst(h: Heap, list: seq<int>, location: nat)
    requires list != [] && forall i :: 0 <= i < |list| ==> 0 <= list[i] < |h.slots|
    requires h.slots[list[0]].location == location
    ensures FirstAt(h.slots, list, location, 0) == 0
    ensures Unlink(h, list, 0) == Heap(h.slots[list[0] := ZEROED], h.slots[list[0]].next)
  {
  }

  // ----- Whole runs -----

  datatype Op = AddOp(b: Blink) | RemoveOp(arg: nat)

  predicate NoneAtZero(ops: seq<Op>) {
    forall i :: 0 <= i < |ops| && ops[i].AddOp? ==> ops[i].b.location != 0
  }

  /** The heap and its list after these calls. */
  ghost function Run(h: Heap, list: seq<int>, ops: seq<Op>): (r: (Heap, seq<int>))
    requires Sound(h, list) && NoneAtZero(ops)
    ensures Sound(r.0, r.1)
    decreases |ops|
  {
    if ops == [] then (h, list)
    else
      var front := Run(h, list, ops[..|ops| - 1]);
      match ops[|ops| - 1]
      case AddOp(b) =>
        var r := Add(front.0, b);
        if r.1 then
          AddKeepsSound(front.0, front.1, b);
          (r.0, [r.0.head] + front.1)
        else front
      case RemoveOp(arg) =>
        RemoveKeepsSound(front.0, front.1, arg);
        var k := FirstAt(front.0.slots, front.1, arg % WORD, 0);
        if k < |front.1| then (Unlink(front.0, front.1, k), Without(front.1, k)) else front
  }

  /** From an empty array, after any adds (none at location 0) and removes: list and allocator agree, an
      add fails exactly for a location off the screen or with all 2000 slots used, and a remove
      succeeds exactly if a blinker is at that location. */
  lemma AgreeOverRuns(ops: seq<Op>, b: Blink, arg: nat)
    requires NoneAtZero(ops)
    ensures var empty := Heap(seq(SLOTS, _ => ZEROED), NULL);
      Sound(empty, []) &&
      var (h, list) := Run(empty, [], ops);
      && Sound(h, list)
      && (!Add(h, b).1 <==> b.location >= SLOTS || forall p :: 0 <= p < SLOTS ==> p in list)
      && (Remove(h, list, arg).1 <==> exists p :: p in list && h.slots[p].location == arg % WORD)
  {
    var empty := Heap(seq(SLOTS, _ => ZEROED), NULL);
    var (h, list) := Run(empty, [], ops);
    RemoveKeepsSound(h, list, arg);
    assert forall p :: 0 <= p < SLOTS ==> (p in list <==> h.slots[p].location != 0);
  }

  // ----- Blinking -----

  function Signed(w: nat): int {
    if w < 0x8000 then w else w - WORD
  }

  function Toggled(status: nat): nat {
    if status % 2 == 1 then status - 1 else status + 1
  }

  /** One clock tick of one blinker. */
  function Tick(b: Blink): Blink {
    var c := (b.countdown + WORD - 1) % WORD;
    if Signed(c) > 0 then b.(countdown := c)
    else b.(countdown := if b.status % 2 == 1 then b.offLength else b.onLength, status := Toggled(b.status))
  }

  /** The character the tick draws, if it changes phase. */
  function Drawn(b: Blink): Option<Byte> {
    if Signed((b.countdown + WORD - 1) % WORD) > 0 then None
    else Some(if b.status % 2 == 1 then b.offChar else b.onChar)
  }

  function Poke(vmem: seq<Byte>, location: nat, ch: Option<Byte>): (r: seq<Byte>)
    requires 2 * location < |vmem|
    ensures |r| == |vmem|
  {
    if ch.Some? then vmem[2 * location := ch.value] else vmem
  }

  ghost predicate Drawable(slots: seq<Blink>, list: seq<int>, vmem: seq<Byte>) {
    && 2 * SLOTS <= |vmem|
    && forall k :: 0 <= k < |list| ==> 0 <= list[k] < |slots| && slots[list[k]].location < SLOTS
  }

  /** What the first n blinkers of the list draw; later ones draw over earlier ones. */
  ghost function Draw(vmem: seq<Byte>, slots: seq<Blink>, list: seq<int>, n: nat): (r: seq<Byte>)
    requires n <= |list| && Drawable(slots, list, vmem)
    ensures |r| == |vmem|
  {
    if n == 0 then vmem
    else
      var b := slots[list[n - 1]];
      Poke(Draw(vmem, slots, list, n - 1), b.location, Drawn(b))
  }

  /** The tick of this blinker writes to byte i of the video memory. */
  predicate DrawsAt(b: Blink, i: nat) {
    Drawn(b).Some? && i == 2 * b.location
  }

  /** Each byte shows what the last blinker that draws there, number k, draws, or else what it showed before. */
  lemma {:induction false} LastDrawnShows(vmem: seq<Byte>, slots: seq<Blink>, list: seq<int>, n: nat, i: nat, k: int)
    requires -1 <= k < n <= |list| && Drawable(slots, list, vmem) && i < |vmem|
    requires k == -1 || DrawsAt(slots[list[k]], i)
    requires forall j :: k < j < n ==> !DrawsAt(slots[list[j]], i)
    ensures Draw(vmem, slots, list, n)[i] == if k == -1 then vmem[i] else Drawn(slots[list[k]]).value
  {
    if n > 0 {
      PokeAt(Draw(vmem, slots, list, n - 1), slots[list[n - 1]], i);
      if k < n - 1 {
        LastDrawnShows(vmem, slots, list, n - 1, i, k);
      }
    }
  }

  lemma PokeAt(vmem: seq<Byte>, b: Blink, i: nat)
    requires 2 * b.location < |vmem| && i < |vmem|
    ensures Poke(vmem, b.location, Drawn(b))[i] == if DrawsAt(b, i) then Drawn(b).value else vmem[i]
  {
  }

  lemma DrawNext(vmem: seq<Byte>, slots: seq<Blink>, list: seq<int>, n: nat, b: Blink)
    requires n < |list| && Drawable(slots, list, vmem) && slots[list[n]] == b
    ensures Draw(vmem, slots, list, n + 1) == Poke(Draw(vmem, slots, list, n), b.location, Drawn(b))
  {
  }

  function Ticks(b: Blink, n: nat): Blink {
    if n == 0 then b else Tick(Ticks(b, n - 1))
  }

  /** From its start, a phase ends at tick number `countdown` and not before. */
  ghost predicate LastsItsLength(b: Blink) {
    && 1 <= b.countdown
    && (forall n: nat :: n + 1 < b.countdown ==> Drawn(Ticks(b, n)).None?)
    && Drawn(Ticks(b, b.countdown - 1)).Some?
  }

  /** While it does not draw, a blinker only counts down. */
  lemma {:induction false} CountsDown(b: Blink, n: nat)
    requires n < b.countdown <= 0x8000
    ensures Ticks(b, n) == b.(countdown := b.countdown - n)
    ensures Drawn(Ticks(b, n)).None? <==> n + 1 < b.countdown
  {
    if n > 0 {
      CountsDown(b, n - 1);
    }
    assert (b.countdown - n + WORD - 1) % WORD == b.countdown - n - 1;
  }

  /** The lengths are unsigned 16-bit numbers but the test for the end of a phase is signed: of all of
      them, exactly 1 to 0x8000 are kept. Any other phase ends at its first tick. */
  lemma PhaseLastsIff(b: Blink)
    requires b.countdown < WORD
    ensures LastsItsLength(b) <==> 1 <= b.countdown <= 0x8000
    ensures !LastsItsLength(b) ==> Drawn(b).Some?
  {
    if 1 <= b.countdown <= 0x8000 {
      forall n: nat | n < b.countdown
        ensures Drawn(Ticks(b, n)).None? <==> n + 1 < b.countdown
      {
        CountsDown(b, n);
      }
    } else {
      assert Ticks(b, 0) == b;
      assert 0 < b.countdown ==> (b.countdown + WORD - 1) % WORD == b.countdown - 1;
    }
  }

  /** The blinker at the start of its lit or its dark phase, and the character that phase shows. */
  function PhaseStart(b: Blink, lit: bool): Blink {
    b.(countdown := if lit then b.onLength else b.offLength,
        status := if lit == (b.status % 2 == 1) then b.status else Toggled(b.status))
  }

  function Face(b: Blink, lit: bool): Byte {
    if lit then b.onChar else b.offChar
  }

  lemma TickAfter(b: Blink, n: nat, c: Blink)
    requires Ticks(b, n) == c
    ensures Ticks(b, n + 1) == Tick(c)
  {
  }

  lemma LastTick(b: Blink)
    requires b.countdown == 1
    ensures Tick(b) == PhaseStart(b, b.status % 2 == 0) && Drawn(b) == Some(Face(b, b.status % 2 == 0))
  {
  }

  /** The tick that ends a phase starts the other one, at its own length, and shows its character. */
  lemma PhaseFollows(b: Blink)
    requires 1 <= b.countdown <= 0x8000
    ensures Ticks(b, b.countdown) == PhaseStart(b, b.status % 2 == 0)
    ensures Drawn(Ticks(b, b.countdown - 1)) == Some(Face(b, b.status % 2 == 0))
  {
    var n, last := b.countdown - 1, b.(countdown := 1);
    assert Ticks(b, n) == last by {
      CountsDown(b, n);
    }
    TickAfter(b, n, last);
    LastTick(last);
  }

  lemma {:induction false} TicksAdd(b: Blink, m: nat, n: nat)
    ensures Ticks(b, m + n) == Ticks(Ticks(b, m), n)
  {
    if n > 0 {
      TicksAdd(b, m, n - 1);
    }
  }

  lemma TicksThen(b: Blink, m: nat, c: Blink, n: nat, d: Blink)
    requires Ticks(b, m) == c && Ticks(c, n) == d
    ensures Ticks(b, m + n) == d
  {
    TicksAdd(b, m, n);
  }

  predicate LengthsKept(b: Blink) {
    1 <= b.onLength <= 0x8000 && 1 <= b.offLength <= 0x8000
  }

  lemma PhaseLeadsTo(b: Blink, n: nat, next: Blink)
    requires b.countdown == n && 1 <= n <= 0x8000 && next == PhaseStart(b, b.status % 2 == 0)
    ensures Ticks(b, n) == next
  {
    PhaseFollows(b);
  }

  lemma LitLeadsTo(b: Blink, dark: Blink)
    requires LengthsKept(b) && b == PhaseStart(b, true) && dark == PhaseStart(b, false)
    ensures Ticks(b, b.onLength) == dark
  {
    PhaseLeadsTo(b, b.onLength, dark);
  }

  lemma DarkLeadsTo(b: Blink, dark: Blink)
    requires LengthsKept(b) && b == PhaseStart(b, true) && dark == PhaseStart(b, false)
    ensures Ticks(dark, b.offLength) == b
  {
    assert b == PhaseStart(dark, true);
    PhaseLeadsTo(dark, b.offLength, b);
  }

  lemma CycleCloses(b: Blink, dark: Blink, length: nat)
    requires Ticks(b, b.onLength) == dark && Ticks(dark, b.offLength) == b
    requires length == b.onLength + b.offLength
    ensures Ticks(b, length) == b
  {
    TicksThen(b, b.onLength, dark, b.offLength, b);
  }

  /** A blinker at the start of its lit phase is there again after both its lengths. */
  lemma CycleRepeats(b: Blink, dark: Blink, length: nat)
    requires LengthsKept(b) && b == PhaseStart(b, true) && dark == PhaseStart(b, false)
    requires length == b.onLength + b.offLength
    ensures Ticks(b, b.onLength) == dark && Ticks(b, length) == b
  {
    LitLeadsTo(b, dark);
    DarkLeadsTo(b, dark);
    CycleCloses(b, dark, length);
  }

  lemma {:induction false} CyclesRepeat(b: Blink, length: nat, cycles: nat, n: nat)
    requires Ticks(b, length) == b && n == length * cycles
    ensures Ticks(b, n) == b
  {
    if cycles > 0 {
      assert n - length == length * (cycles - 1);
      CyclesRepeat(b, length, cycles - 1, n - length);
      TicksThen(b, n - length, b, length, b);
    }
  }

  lemma TicksInCycle(b: Blink, length: nat, n: nat)
    requires 0 < length && Ticks(b, length) == b
    ensures Ticks(b, n) == Ticks(b, n % length)
  {
    var whole := length * (n / length);
    CyclesRepeat(b, length, n / length, whole);
    AfterWholeCycles(b, whole, n % length, n);
  }

  lemma AfterWholeCycles(b: Blink, whole: nat, k: nat, n: nat)
    requires Ticks(b, whole) == b && n == whole + k
    ensures Ticks(b, n) == Ticks(b, k)
  {
    TicksAdd(b, whole, k);
  }

  lemma InLitPhase(b: Blink, dark: Blink, n: nat)
    requires LengthsKept(b) && b == PhaseStart(b, true) && dark == PhaseStart(b, false) && n < b.onLength
    ensures Ticks(b, n).status == b.status
    ensures Drawn(Ticks(b, n)) == if n + 1 == b.onLength then Some(b.offChar) else None
  {
    CountsDown(b, n);
    if n + 1 == b.onLength {
      PhaseFollows(b);
    }
  }

  lemma InDarkPhase(dark: Blink, n: nat)
    requires LengthsKept(dark) && dark == PhaseStart(dark, false) && n < dark.offLength
    ensures Ticks(dark, n).status == dark.status
    ensures Drawn(Ticks(dark, n)) == if n + 1 == dark.offLength then Some(dark.onChar) else None
  {
    CountsDown(dark, n);
    if n + 1 == dark.offLength {
      PhaseFollows(dark);
    }
  }

  lemma AfterLitPhase(b: Blink, dark: Blink, k: nat, n: nat)
    requires LengthsKept(b) && b == PhaseStart(b, true) && dark == PhaseStart(b, false) && n == b.onLength + k
    ensures Ticks(b, n) == Ticks(dark, k)
  {
    LitLeadsTo(b, dark);
    TicksAdd(b, b.onLength, k);
  }

  /** Within a cycle: the phase that n ticks lead to, and what the next tick draws. */
  lemma InCycle(b: Blink, dark: Blink, n: nat)
    requires LengthsKept(b) && b == PhaseStart(b, true) && dark == PhaseStart(b, false)
    requires n < b.onLength + b.offLength
    ensures Ticks(b, n).status == if n < b.onLength then b.status else dark.status
    ensures Drawn(Ticks(b, n)) ==
      if n + 1 == b.onLength then Some(b.offChar)
      else if n + 1 == b.onLength + b.offLength then Some(b.onChar)
      else None
  {
    if n < b.onLength {
      InLitPhase(b, dark, n);
    } else {
      AfterLitPhase(b, dark, n - b.onLength, n);
      InDarkPhase(dark, n - b.onLength);
    }
  }

  /** Over all time: an added blinker is lit during the first `onLength` ticks of every `onLength + offLength`,
      and each change of phase draws the character of the phase that begins. */
  lemma BlinksForEver(h: Heap, b: Blink, n: nat)
    requires |h.slots| == SLOTS && Add(h, b).1 && LengthsKept(b)
    ensures var added := Add(h, b).0.slots[Add(h, b).0.head];
      && added == b.(status := 1, countdown := b.onLength, next := h.head)
      && var k := n % (b.onLength + b.offLength);
         && (Ticks(added, n).status == if k < b.onLength then 1 else 0)
         && Drawn(Ticks(added, n)) == (if k + 1 == b.onLength then Some(b.offChar)
                                       else if k + 1 == b.onLength + b.offLength then Some(b.onChar)
                                       else None)
  {
    var added := Add(h, b).0.slots[Add(h, b).0.head];
    assert added == Started(b, h.head) == PhaseStart(added, true);
    var dark, length := PhaseStart(added, false), b.onLength + b.offLength;
    CycleRepeats(added, dark, length);
    TicksInCycle(added, length, n);
    InCycle(added, dark, n % length);
  }

  class Blinkers {
    const slots: array<Blink>
    const vmem: array<Byte>
    var head: int
    ghost var list: seq<int>

    ghost predicate Valid()
      reads this, slots, vmem
    {
      vmem.Length >= 2 * SLOTS && Sound(View(), list)
    }

    ghost function View(): Heap
      reads this, slots
    {
      Heap(slots[..], head)
    }

    /** The state after `main` has zeroed the array. */
    constructor (vmem: array<Byte>)
      requires vmem.Length >= 2 * SLOTS
      ensures Valid() && list == [] && this.vmem == vmem && fresh(slots)
    {
      this.vmem := vmem;
      slots := new Blink[SLOTS](_ => ZEROED);
      head, list := NULL, [];
    }

    method Malloc() returns (p: int)
      requires slots.Length == SLOTS
      ensures p == FirstFree(slots[..], 0)
    {
      var i := 0;
      while i < SLOTS
        invariant 0 <= i <= SLOTS
        invariant FirstFree(slots[..], 0) == FirstFree(slots[..], i)
      {
        if slots[i].location == 0 {
          return i;
        }
        i := i + 1;
      }
      return NULL;
    }

    /** Copy the structure into its slot and put it at the front of the list. */
    method Insert(p: int, temp: Blink)
      requires 0 <= p < slots.Length
      modifies this`head, slots
      ensures View() == Heap(old(slots[..])[p := temp.(next := old(head))], p)
    {
      slots[p] := temp;
      slots[p] := slots[p].(next := head);
      head := p;
    }

    method IoctlAdd(b: Blink) returns (ok: bool)
      requires Valid()
      modifies this, slots, vmem
      ensures b.location != 0 || !ok ==> Valid()
      ensures (View(), ok) == Add(old(View()), b)
      ensures list == if ok then [head] + old(list) else old(list)
      ensures vmem[..] == Poke(old(vmem[..]), if ok then b.location else 0, if ok then Some(b.onChar) else None)
      ensures forall i :: 0 <= i < vmem.Length ==>
        vmem[i] == if ok && i == 2 * b.location then b.onChar else old(vmem[i])
    {
      ghost var h, l := View(), list;
      if b.location >= SLOTS {
        return false;
      }
      var temp := b.(status := 1, countdown := b.onLength);
      var p := Malloc();
      if p == NULL {
        return false;
      }
      Insert(p, temp);
      list := [p] + list;
      assert View() == Add(h, b).0;
      assert b.location != 0 ==> Sound(View(), list) by {
        if b.location != 0 {
          AddKeepsSound(h, l, b);
        }
      }
      vmem[2 * slots[p].location] := slots[p].onChar;
      return true;
    }

    method FindHelper(arg: nat) returns (p: int)
      requires Valid()
      ensures p == LinkAfter(list, FirstAt(slots[..], list, arg % WORD, 0))
    {
      var location := arg % WORD;
      p := head;
      ghost var k := 0;
      while p != NULL
        invariant k <= |list| && p == LinkAfter(list, k)
        invariant FirstAt(slots[..], list, location, 0) == FirstAt(slots[..], list, location, k)
        decreases |list| - k
      {
        if slots[p].location == location {
          return;
        }
        p := slots[p].next;
        k := k + 1;
      }
    }

    /** The search for the link that points to p; NULL stands for the address of the list head itself. */
    method FindPrevious(p: int, ghost k: nat) returns (prev: int)
      requires Valid() && k < |list| && list[k] == p
      ensures prev == if k == 0 then NULL else list[k - 1]
    {
      prev := NULL;
      ghost var j := 0;
      var link := head;
      while link != p
        invariant j <= k && link == list[j] && prev == (if j == 0 then NULL else list[j - 1])
        decreases k - j
      {
        prev := link;
        link := slots[prev].next;
        j := j + 1;
      }
    }

    method IoctlRemove(arg: nat) returns (ok: bool)
      requires Valid()
      modifies this, slots
      ensures Valid()
      ensures (View(), ok) == Remove(old(View()), old(list), arg)
      ensures ok ==> list == Without(old(list), FirstAt(old(slots[..]), old(list), arg % WORD, 0))
      ensures !ok ==> list == old(list)
    {
      ghost var h, l := View(), list;
      ghost var k := FirstAt(slots[..], list, arg % WORD, 0);
      var p := FindHelper(arg);
      if p == NULL {
        return false;
      }
      var prev := FindPrevious(p, k);
      var after := slots[p].next;
      if prev == NULL {
        head := after;
      } else {
        slots[prev] := slots[prev].(next := after);
      }
      slots[p] := ZEROED;
      list := Without(list, k);
      assert View() == Unlink(h, l, k);
      UnlinkKeepsSound(h, l, k);
      return true;
    }

    /** One turn of the loop of `mp1_rtc_tasklet`. */
    method TickSlot(p: int)
      requires 0 <= p < slots.Length && 2 * slots[p].location < vmem.Length
      modifies slots, vmem
      ensures slots[..] == old(slots[..])[p := Tick(old(slots[p]))]
      ensures vmem[..] == Poke(old(vmem[..]), old(slots[p]).location, Drawn(old(slots[p])))
    {
      var b := slots[p];
      b := b.(countdown := (b.countdown + WORD - 1) % WORD);
      if Signed(b.countdown) <= 0 {
        if b.status % 2 == 1 {
          vmem[2 * b.location] := b.offChar;
          b := b.(countdown := b.offLength, status := b.status - 1);
        } else {
          vmem[2 * b.location] := b.onChar;
          b := b.(countdown := b.onLength, status := b.status + 1);
        }
      }
      slots[p] := b;
    }

    /** The first k blinkers of the list have ticked, and nothing else has changed. */
    ghost predicate Ticked(was: seq<Blink>, now: seq<Blink>, k: nat)
      requires k <= |list|
      reads this
    {
      && |now| == |was| == SLOTS
      && (forall i :: 0 <= i < |list| ==> 0 <= list[i] < SLOTS)
      && (forall i :: 0 <= i < |list| ==> now[list[i]] == if i < k then Tick(was[list[i]]) else was[list[i]])
      && (forall p :: 0 <= p < SLOTS && p !in list ==> now[p] == was[p])
    }

    lemma TickedStep(was: seq<Blink>, before: seq<Blink>, now: seq<Blink>, k: nat)
      requires k < |list| && Distinct(list) && Ticked(was, before, k)
      requires now == before[list[k] := Tick(before[list[k]])]
      ensures Ticked(was, now, k + 1)
    {
    }

    lemma TickedKeepsSound(was: seq<Blink>, now: seq<Blink>)
      requires Sound(Heap(was, head), list) && Ticked(was, now, |list|)
      ensures Sound(Heap(now, head), list)
      ensures forall p :: 0 <= p < SLOTS ==> now[p] == if was[p].location != 0 then Tick(was[p]) else was[p]
    {
      forall p | 0 <= p < SLOTS
        ensures now[p] == if was[p].location != 0 then Tick(was[p]) else was[p]
      {
        if p in list {
          var i :| 0 <= i < |list| && list[i] == p;
          assert was[list[i]].location != 0;
        }
      }
    }

    lemma TickedAndDrawn(was: seq<Blink>, before: seq<Blink>, now: seq<Blink>, screen: seq<Byte>, shown: seq<Byte>,
                         after: seq<Byte>, k: nat)
      requires k < |list| && Distinct(list) && Ticked(was, before, k) && Drawable(was, list, screen)
      requires shown == Draw(screen, was, list, k) && 2 * was[list[k]].location < |shown|
      requires now == before[list[k] := Tick(before[list[k]])]
      requires after == Poke(shown, was[list[k]].location, Drawn(was[list[k]]))
      ensures Ticked(was, now, k + 1) && now[list[k]] == Tick(was[list[k]])
      ensures after == Draw(screen, was, list, k + 1)
    {
      DrawNext(screen, was, list, k, was[list[k]]);
      TickedStep(was, before, now, k);
    }

    /** `mp1_rtc_tasklet`: every blinker ticks exactly once. */
    method RtcTasklet()
      requires Valid()
      modifies slots, vmem
      ensures Valid() && head == old(head) && list == old(list)
      ensures forall p :: 0 <= p < SLOTS ==>
        slots[p] == if old(slots[p].location) != 0 then Tick(old(slots[p])) else old(slots[p])
      ensures Drawable(old(slots[..]), list, old(vmem[..]))
      ensures vmem[..] == Draw(old(vmem[..]), old(slots[..]), list, |list|)
    {
      ghost var was, screen := slots[..], vmem[..];
      var p := head;
      ghost var k := 0;
      while p != NULL
        invariant k <= |list| && p == LinkAfter(list, k)
        invariant Ticked(was, slots[..], k)
        invariant Drawable(was, list, screen) && vmem[..] == Draw(screen, was, list, k)
        decreases |list| - k
      {
        ghost var before, shown := slots[..], vmem[..];
        assert before[p] == was[list[k]] && was[list[k]].next == LinkAfter(list, k + 1);
        TickSlot(p);
        TickedAndDrawn(was, before, slots[..], screen, shown, vmem[..], k);
        assert slots[..][p] == Tick(was[list[k]]);
        p := slots[p].next;
        k := k + 1;
      }
      TickedKeepsSound(was, slots[..]);
    }
  }
}
