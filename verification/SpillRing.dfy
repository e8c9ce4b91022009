/** The ring buffer over an array, with masked indices and wrapping counters, refines `RingSpec`. */
module SpillRing {
  import opened Prelude
  import opened RingSpec

  // ---- Index arithmetic ----

  /** One more than the largest usize. */
  const WORD: nat := 0x1_0000_0000_0000_0000

  const MAX_CAPACITY: nat := 0x10_0000

  function Pow2(k: nat): (r: nat)
    ensures r > 0
  {
    if k == 0 then 1 else 2 * Pow2(k - 1)
  }

  /** Bitwise conjunction. */
  function BitAnd(x: nat, y: nat): nat {
    if x == 0 || y == 0 then 0
    else (if x % 2 == 1 && y % 2 == 1 then 1 else 0) + 2 * BitAnd(x / 2, y / 2)
  }

  /** Masking with a power of two less one takes the remainder. */
  lemma {:induction false} MaskIsMod(x: nat, k: nat)
    ensures BitAnd(x, Pow2(k) - 1) == x % Pow2(k)
    decreases k
  {
    hide *;
    if k == 0 {
      PowZero(x);
    } else if x > 0 {
      MaskIsMod(x / 2, k - 1);
      MaskStep(x, k);
    } else {
      MaskZero(k);
    }
  }

  lemma PowZero(x: nat)
    ensures BitAnd(x, Pow2(0) - 1) == x % Pow2(0)
  {
    assert Pow2(0) == 1 && x % 1 == 0;
  }

  lemma MaskZero(k: nat)
    ensures BitAnd(0, Pow2(k) - 1) == 0 % Pow2(k)
  {
  }

  lemma MaskStep(x: nat, k: nat)
    requires k > 0 && x > 0 && BitAnd(x / 2, Pow2(k - 1) - 1) == (x / 2) % Pow2(k - 1)
    ensures BitAnd(x, Pow2(k) - 1) == x % Pow2(k)
  {
    var half := Pow2(k - 1);
    assert Pow2(k) == 2 * half;
    hide *;
    BitAndOdd(x, half);
    ModHalf(x, half);
  }

  lemma BitAndOdd(x: nat, half: nat)
    requires x > 0 && half > 0
    ensures BitAnd(x, 2 * half - 1) == x % 2 + 2 * BitAnd(x / 2, half - 1)
  {
    assert (2 * half - 1) % 2 == 1 && (2 * half - 1) / 2 == half - 1;
  }

  lemma ModHalf(x: nat, half: nat)
    requires half > 0
    ensures x % (2 * half) == x % 2 + 2 * ((x / 2) % half)
  {
    var q, r := (x / 2) / half, (x / 2) % half;
    assert x / 2 == half * q + r;
    ModUnique(x, 2 * half, q, 2 * r + x % 2);
  }

  lemma {:induction false} MulGe(n: int, d: int)
    requires n > 0
    ensures d > 0 ==> n * d >= n
    ensures d < 0 ==> n * d <= -n
    decreases if d < 0 then -d else d
  {
    if d > 1 {
      MulGe(n, d - 1);
      assert n * d == n * (d - 1) + n;
    } else if d < -1 {
      MulGe(n, d + 1);
      assert n * d == n * (d + 1) - n;
    }
  }

  /** A multiple of `n` strictly between `-n` and `n` is zero. */
  lemma SmallMultiple(n: int, d: int)
    requires n > 0 && -n < n * d < n
    ensures d == 0
  {
    MulGe(n, d);
  }

  lemma ModUnique(x: nat, n: nat, q: int, r: nat)
    requires n > 0 && x == n * q + r && r < n
    ensures x % n == r
  {
    var q' := x / n;
    assert x == n * q' + x % n;
    assert n * (q - q') == x % n - r;
    SmallMultiple(n, q - q');
  }

  lemma ModWrap(p: nat, n: nat, m: nat)
    requires n > 0 && m > 0 && n * m > 0
    ensures (p % (n * m)) % n == p % n
  {
    var q, r := p / (n * m), p % (n * m);
    assert p == (n * m) * q + r;
    assert r == n * (r / n) + r % n;
    assert (n * m) * q == n * (m * q);
    assert n * (m * q) + n * (r / n) == n * (m * q + r / n);
    ModUnique(p, n, m * q + r / n, r % n);
  }

  lemma SameSlot(a: nat, b: nat, n: nat)
    requires n > 0 && a % n == b % n && a <= b < a + n
    ensures a == b
  {
    assert a == n * (a / n) + a % n && b == n * (b / n) + b % n;
    assert n * (b / n - a / n) == b - a;
    SmallMultiple(n, b / n - a / n);
  }

  lemma SlotsDiffer(h: nat, i: nat, j: nat, n: nat)
    requires i < j < i + n
    ensures (h + i) % n != (h + j) % n
  {
    if (h + i) % n == (h + j) % n {
      SameSlot(h + i, h + j, n);
    }
  }

  function Times(n: nat, m: nat): nat { n * m }

  /** Capacities are powers of two up to 2^20, so they divide the word. */
  ghost predicate IsCapacity(n: nat) {
    && 0 < n <= MAX_CAPACITY
    && (exists k: nat :: k <= 20 && n == Pow2(k))
    && exists m: nat {:trigger Times(n, m)} :: m > 0 && Times(n, m) == WORD
  }

  function Masked(x: nat, n: nat): nat
    requires n > 0
  {
    BitAnd(x, n - 1)
  }

  lemma MaskedSlot(x: nat, n: nat)
    requires IsCapacity(n)
    ensures Masked(x, n) == x % n && (x % WORD) % n == x % n
  {
    var k: nat :| k <= 20 && n == Pow2(k);
    MaskIsMod(x, k);
    var m: nat :| m > 0 && Times(n, m) == WORD;
    ModWrap(x, n, m);
  }

  lemma {:induction false} PowAdd(a: nat, b: nat)
    ensures Pow2(a + b) == Pow2(a) * Pow2(b)
  {
    if a > 0 {
      PowAdd(a - 1, b);
      assert Pow2(a) == 2 * Pow2(a - 1) && Pow2(a + b) == 2 * Pow2(a - 1 + b);
      assert 2 * Pow2(a - 1) * Pow2(b) == 2 * (Pow2(a - 1) * Pow2(b));
    }
  }

  lemma WordIsPower()
    ensures Pow2(64) == WORD
  {
    assert Pow2(8) == 256;
    hide Pow2;
    PowAdd(8, 8);
    PowAdd(16, 16);
    PowAdd(32, 32);
  }

  lemma CapacityOk(k: nat)
    requires k <= 20
    ensures IsCapacity(Pow2(k))
  {
    WordIsPower();
    PowAdd(k, 64 - k);
    PowBound(k);
    hide Pow2;
    assert Times(Pow2(k), Pow2(64 - k)) == WORD;
  }

  lemma PowBound(k: nat)
    requires k <= 20
    ensures Pow2(k) <= MAX_CAPACITY
  {
    assert Pow2(4) == 16 && Pow2(5) == 32;
    hide Pow2;
    PowAdd(5, 5);
    PowAdd(10, 10);
    PowAdd(k, 20 - k);
    MulGe(Pow2(k), Pow2(20 - k));
  }

  // ---- One ring over an array of slots ----

  /** `a.wrapping_sub(b)`. */
  function WrappingSub(a: nat, b: nat): nat
    requires a < WORD && b < WORD
  {
    (a + WORD - b) % WORD
  }

  function WrappingAdd(a: nat, b: nat): (r: nat)
    ensures r < WORD
  {
    (a + b) % WORD
  }

  /** The array index of the item at distance `i` from the head. */
  function Slot(head: nat, i: nat, n: nat): (r: nat)
    requires n > 0
    ensures r < n
  {
    (head + i) % n
  }

  function At<T>(buf: seq<Option<T>>, head: nat, i: nat): Option<T>
    requires |buf| > 0
  {
    buf[Slot(head, i, |buf|)]
  }

  /** The live slots, from `head` to `tail`, hold items. */
  ghost predicate RingOk<T>(buf: seq<Option<T>>, head: nat, tail: nat) {
    && IsCapacity(|buf|)
    && head < WORD && tail < WORD
    && WrappingSub(tail, head) <= |buf|
    && forall i :: 0 <= i < WrappingSub(tail, head) ==> At(buf, head, i).Some?
  }

  /** The items, oldest first. */
  ghost function Items<T>(buf: seq<Option<T>>, head: nat, tail: nat): (r: seq<T>)
    requires RingOk(buf, head, tail)
    ensures |r| == WrappingSub(tail, head) <= |buf|
    ensures forall i :: 0 <= i < |r| ==> At(buf, head, i) == Some(r[i])
  {
    seq(WrappingSub(tail, head), i requires 0 <= i < WrappingSub(tail, head) =>
      assert At(buf, head, i).Some?; At(buf, head, i).value)
  }

  lemma RingShape<T>(buf: seq<Option<T>>, head: nat, tail: nat)
    requires RingOk(buf, head, tail)
    ensures IsCapacity(|buf|) && 0 < |buf| <= MAX_CAPACITY && head < WORD && tail < WORD
    ensures WrappingSub(tail, head) <= |buf|
    ensures forall i :: 0 <= i < WrappingSub(tail, head) ==> At(buf, head, i).Some?
  {
  }

  /** Reading the items off slot by slot. */
  lemma ItemsAre<T>(buf: seq<Option<T>>, head: nat, tail: nat, items: seq<T>)
    requires IsCapacity(|buf|) && head < WORD && tail < WORD && WrappingSub(tail, head) == |items| <= |buf|
    requires forall i :: 0 <= i < |items| ==> At(buf, head, i) == Some(items[i])
    ensures RingOk(buf, head, tail) && Items(buf, head, tail) == items
  {
    assert RingOk(buf, head, tail);
    hide At, WrappingSub, IsCapacity, RingOk;
    forall i | 0 <= i < |items| ensures Items(buf, head, tail)[i] == items[i] {
      assert At(buf, head, i) == Some(items[i]);
    }
  }

  lemma ModShift(x: nat, n: nat, m: nat)
    requires n > 0
    ensures (x + n * m) % n == x % n
  {
    assert x + n * m == n * (x / n + m) + x % n;
    ModUnique(x + n * m, n, x / n + m, x % n);
  }

  /** Wrapping the counter does not move the slot it denotes. */
  lemma WrapSlot(head: nat, k: nat, i: nat, n: nat)
    requires IsCapacity(n) && head < WORD && k <= n
    ensures Slot(WrappingAdd(head, k), i, n) == Slot(head, k + i, n)
  {
    if head + k >= WORD {
      var m: nat :| m > 0 && Times(n, m) == WORD;
      assert WrappingAdd(head, k) == head + k - WORD;
      ModShift(head + k - WORD + i, n, m);
    }
  }

  /** The tail is the slot after the last item. */
  lemma TailSlot(head: nat, tail: nat, n: nat)
    requires IsCapacity(n) && head < WORD && tail < WORD && WrappingSub(tail, head) <= n
    ensures Slot(head, WrappingSub(tail, head), n) == Slot(tail, 0, n)
  {
    WrapInverse(head, tail);
    hide *;
    WrapSlot(head, WrappingSub(tail, head), 0, n);
  }

  lemma WrapInverse(head: nat, tail: nat)
    requires head < WORD && tail < WORD
    ensures WrappingAdd(head, WrappingSub(tail, head)) == tail
  {
    assert WrappingSub(tail, head) == if tail >= head then tail - head else tail + WORD - head;
  }

  lemma LenAdvance(head: nat, tail: nat, k: nat)
    requires head < WORD && tail < WORD && WrappingSub(tail, head) + k <= MAX_CAPACITY
    ensures WrappingSub(WrappingAdd(tail, k), head) == WrappingSub(tail, head) + k
  {
  }

  lemma LenConsume(head: nat, tail: nat, k: nat)
    requires head < WORD && tail < WORD && k <= WrappingSub(tail, head)
    ensures WrappingSub(tail, WrappingAdd(head, k)) == WrappingSub(tail, head) - k
  {
  }

  lemma DistinctSlots(head: nat, i: nat, j: nat, n: nat)
    requires n > 0 && i != j && i < n && j < n
    ensures Slot(head, i, n) != Slot(head, j, n)
  {
    if i < j {
      SlotsDiffer(head, i, j, n);
    } else {
      SlotsDiffer(head, j, i, n);
    }
  }

  lemma AppendSlot<T>(buf: seq<Option<T>>, head: nat, tail: nat, x: T)
    requires RingOk(buf, head, tail) && WrappingSub(tail, head) < |buf|
    ensures var buf', tail' := buf[Slot(tail, 0, |buf|) := Some(x)], WrappingAdd(tail, 1);
            RingOk(buf', head, tail') && Items(buf', head, tail') == Items(buf, head, tail) + [x]
  {
    RingShape(buf, head, tail);
    hide RingOk, Items, IsCapacity, WrappingSub, WrappingAdd, Slot;
    var n, len, items := |buf|, WrappingSub(tail, head), Items(buf, head, tail);
    TailSlot(head, tail, n);
    LenAdvance(head, tail, 1);
    var buf' := buf[Slot(tail, 0, n) := Some(x)];
    forall i | 0 <= i <= len ensures At(buf', head, i) == Some((items + [x])[i]) {
      if i < len {
        DistinctSlots(head, i, len, n);
        assert At(buf, head, i) == Some(items[i]);
      }
    }
    ItemsAre(buf', head, WrappingAdd(tail, 1), items + [x]);
  }

  lemma TakeSlot<T>(buf: seq<Option<T>>, head: nat, tail: nat)
    requires RingOk(buf, head, tail) && WrappingSub(tail, head) > 0
    ensures buf[Slot(head, 0, |buf|)] == Some(Items(buf, head, tail)[0])
    ensures var buf', head' := buf[Slot(head, 0, |buf|) := None], WrappingAdd(head, 1);
            RingOk(buf', head', tail) && Items(buf', head', tail) == Items(buf, head, tail)[1..]
  {
    RingShape(buf, head, tail);
    hide RingOk, Items, IsCapacity, WrappingSub, WrappingAdd, Slot;
    var n, len, items := |buf|, WrappingSub(tail, head), Items(buf, head, tail);
    LenConsume(head, tail, 1);
    var buf', head' := buf[Slot(head, 0, n) := None], WrappingAdd(head, 1);
    assert At(buf, head, 0) == Some(items[0]);
    forall i | 0 <= i < len - 1 ensures At(buf', head', i) == Some(items[1..][i]) {
      WrapSlot(head, 1, i, n);
      DistinctSlots(head, 0, i + 1, n);
      assert At(buf, head, i + 1) == Some(items[i + 1]);
    }
    ItemsAre(buf', head', tail, items[1..]);
  }

  lemma MaskedIs(x: nat, n: nat)
    requires IsCapacity(n)
    ensures Masked(x, n) == Slot(x, 0, n)
  {
    MaskedSlot(x, n);
  }

  lemma EmptyIff<T>(buf: seq<Option<T>>, head: nat, tail: nat)
    requires RingOk(buf, head, tail)
    ensures head == tail <==> Items(buf, head, tail) == []
  {
  }

  lemma EmptyRing<T>(buf: seq<Option<T>>)
    requires IsCapacity(|buf|)
    ensures RingOk(buf, 0, 0) && Items(buf, 0, 0) == []
  {
  }

  lemma SendNone<T>(c: Chain<T>)
    requires Fits(c)
    ensures SendAll(c, []) == c
  {
  }

  lemma SendAllSnoc<T>(c: Chain<T>, xs: seq<T>, i: nat)
    requires Fits(c) && i < |xs|
    ensures SendAll(c, xs[..i + 1]) == Send(SendAll(c, xs[..i]), xs[i])
  {
    hide SendAll, Send, Fits;
    assert xs[..i + 1] == xs[..i] + [xs[i]];
    SendAllConcat(c, xs[..i], [xs[i]]);
    SendAllHead(SendAll(c, xs[..i]), xs[i], []);
    assert [xs[i]] + [] == [xs[i]];
    SendNone(Send(SendAll(c, xs[..i]), xs[i]));
  }

  /** Flushing the spout before dropping it changes nothing. */
  lemma DropFlushed<T>(c: Chain<T>)
    requires Fits(c)
    ensures RingSpec.Drop(RingSpec.Flush(c)) == RingSpec.Drop(c)
  {
    if c.Link? {
      SendNone(SendAll(c.next, c.items));
    }
  }

  /** The slots from `start` on, wrapping at the end, hold `keep`; the others are as before. */
  ghost predicate Copied<T>(buf: seq<Option<T>>, buf': seq<Option<T>>, start: nat, keep: seq<T>) {
    && |buf'| == |buf| && start < |buf| && |keep| <= |buf|
    && (forall j :: 0 <= j < |keep| ==>
          buf'[if start + j < |buf| then start + j else start + j - |buf|] == Some(keep[j]))
    && forall i :: 0 <= i < |buf| && !(start <= i < start + |keep|) && !(i + |buf| < start + |keep|) ==>
         buf'[i] == buf[i]
  }

  lemma SlotSplit(tail: nat, j: nat, n: nat)
    requires n > 0 && j < n
    ensures var start := Slot(tail, 0, n); Slot(tail, j, n) == if start + j < n then start + j else start + j - n
  {
    var q, r := tail / n, tail % n;
    assert tail == n * q + r;
    if r + j < n {
      ModUnique(tail + j, n, q, r + j);
    } else {
      assert n * (q + 1) == n * q + n;
      ModUnique(tail + j, n, q + 1, r + j - n);
    }
  }

  lemma CopiedSlot<T>(buf: seq<Option<T>>, buf': seq<Option<T>>, tail: nat, keep: seq<T>, j: nat)
    requires |buf| > 0 && Copied(buf, buf', Slot(tail, 0, |buf|), keep) && j < |buf|
    ensures At(buf', tail, j) == if j < |keep| then Some(keep[j]) else At(buf, tail, j)
  {
    SlotSplit(tail, j, |buf|);
    hide Slot;
  }

  lemma SlotFromTail(head: nat, tail: nat, n: nat, i: nat)
    requires IsCapacity(n) && head < WORD && tail < WORD && WrappingSub(tail, head) <= n && i < n
    ensures var len := WrappingSub(tail, head);
            Slot(head, i, n) == if i < len then Slot(tail, n - len + i, n) else Slot(tail, i - len, n)
  {
    var len := WrappingSub(tail, head);
    WrapInverse(head, tail);
    WrapSlot(head, len, if i < len then n - len + i else i - len, n);
    if i < len {
      ModShift(head + i, n, 1);
    }
    hide IsCapacity, WrappingSub, WrappingAdd;
  }

  lemma CopiedAppends<T>(buf: seq<Option<T>>, buf': seq<Option<T>>, head: nat, tail: nat, keep: seq<T>)
    requires RingOk(buf, head, tail) && WrappingSub(tail, head) + |keep| <= |buf|
    requires Copied(buf, buf', Slot(tail, 0, |buf|), keep)
    ensures var tail' := WrappingAdd(tail, |keep|);
            RingOk(buf', head, tail') && Items(buf', head, tail') == Items(buf, head, tail) + keep
  {
    RingShape(buf, head, tail);
    assert |buf'| == |buf|;
    hide RingOk, Items, IsCapacity, WrappingSub, WrappingAdd, Slot, Copied;
    var n, len, items := |buf|, WrappingSub(tail, head), Items(buf, head, tail);
    LenAdvance(head, tail, |keep|);
    forall i | 0 <= i < len + |keep| ensures At(buf', head, i) == Some((items + keep)[i]) {
      SlotFromTail(head, tail, n, i);
      CopiedSlot(buf, buf', tail, keep, if i < len then n - len + i else i - len);
      if i < len {
        assert At(buf, head, i) == Some(items[i]);
      }
    }
    ItemsAre(buf', head, WrappingAdd(tail, |keep|), items + keep);
  }

  /** `count` slots from `start` on, continuing at the beginning when the end is reached. */
  function Segments<T>(buf: seq<T>, start: nat, count: nat): seq<T>
    requires start < |buf| && count <= |buf|
  {
    if count <= |buf| - start then buf[start..start + count] else buf[start..] + buf[..count - (|buf| - start)]
  }

  /** The first items lie in at most two segments, and leave the ring when the head moves past them. */
  lemma CopyOut<T>(buf: seq<Option<T>>, head: nat, tail: nat, count: nat)
    requires RingOk(buf, head, tail) && count <= WrappingSub(tail, head)
    ensures var raw := Segments(buf, Slot(head, 0, |buf|), count);
            |raw| == count && forall i :: 0 <= i < count ==> raw[i] == Some(Items(buf, head, tail)[i])
    ensures RingOk(buf, WrappingAdd(head, count), tail)
    ensures Items(buf, WrappingAdd(head, count), tail) == Items(buf, head, tail)[count..]
  {
    RingShape(buf, head, tail);
    hide RingOk, Items, IsCapacity, WrappingSub, WrappingAdd, Slot;
    var n, len, items := |buf|, WrappingSub(tail, head), Items(buf, head, tail);
    forall i | 0 <= i < count
      ensures var start := Slot(head, 0, n);
              buf[if start + i < n then start + i else start + i - n] == Some(items[i])
    {
      SlotSplit(head, i, n);
      assert At(buf, head, i) == Some(items[i]);
    }
    LenConsume(head, tail, count);
    forall i | 0 <= i < len - count ensures At(buf, WrappingAdd(head, count), i) == Some(items[count..][i]) {
      WrapSlot(head, count, i, n);
      assert At(buf, head, count + i) == Some(items[count + i]);
    }
    ItemsAre(buf, WrappingAdd(head, count), tail, items[count..]);
  }

  function Values<T>(raw: seq<Option<T>>): (r: seq<T>)
    requires forall i :: 0 <= i < |raw| ==> raw[i].Some?
    ensures |r| == |raw| && forall i :: 0 <= i < |raw| ==> raw[i] == Some(r[i])
  {
    if raw == [] then [] else [raw[0].value] + Values(raw[1..])
  }

  lemma ExcessSplit<T>(held: seq<T>, items: seq<T>, cap: nat)
    requires |items| > cap && |held| <= cap
    ensures var all, excess := held + items, |items| - cap;
            var cut := Overflow(|all|, cap);
            all[..cut] == held + items[..excess] && all[cut..] == [] + items[excess..]
  {
  }

  lemma RoomSplit<T>(held: seq<T>, items: seq<T>, cap: nat)
    requires |items| <= cap && |held| <= cap
    ensures var all := held + items;
            var cut := Overflow(|all|, cap);
            cut <= |held| && all[..cut] == held[..cut] && all[cut..] == held[cut..] + items
  {
  }

  /** A ring whose spout is another ring, or, at the end of the chain, a recording sink. */
  class SpillRing<T> {
    const buffer: array<Option<T>>
    const next: SpillRing?<T>
    var head: nat
    var tail: nat
    var sink: seq<T>
    ghost const Repr: set<object>
    ghost const height: nat

    ghost predicate Valid()
      reads this, Repr
      decreases height
    {
      && this in Repr && buffer in Repr
      && RingOk(buffer[..], head, tail)
      && (next != null ==>
            && next in Repr && next.Repr <= Repr && this !in next.Repr && buffer !in next.Repr
            && next.height < height && next.Valid())
    }

    /** The items held, oldest first. */
    ghost function Contents(): seq<T>
      requires Valid()
      reads this, Repr
    {
      Items(buffer[..], head, tail)
    }

    ghost function Spout(): Chain<T>
      requires Valid()
      reads this, Repr
      ensures Fits(Spout())
      decreases height, 0
    {
      if next == null then Sink(sink) else next.Abs()
    }

    /** The whole chain as a value. */
    ghost function Abs(): Chain<T>
      requires Valid()
      reads this, Repr
      ensures Fits(Abs())
      decreases height, 1
    {
      Link(Contents(), buffer.Length, Spout())
    }

    constructor (capacity: nat, next: SpillRing?<T>)
      requires IsCapacity(capacity)
      requires next != null ==> next.Valid()
      ensures Valid() && fresh(Repr - if next == null then {} else next.Repr)
      ensures this.next == next && buffer.Length == capacity
      ensures Abs() == Link([], capacity, if next == null then Sink([]) else next.Abs())
    {
      hide RingOk, Items, IsCapacity;
      var b := new Option<T>[capacity](_ => None);
      buffer := b;
      this.next := next;
      head, tail, sink := 0, 0, [];
      Repr := {this, b} + if next == null then {} else next.Repr;
      height := if next == null then 0 else next.height + 1;
      EmptyRing(b[..]);
    }

    method Len() returns (n: nat)
      requires Valid()
      ensures n == |Contents()|
    {
      n := WrappingSub(tail, head);
    }

    /** Moves the oldest item out of its slot. */
    method PopMut() returns (r: Option<T>)
      requires Valid()
      modifies this`head, buffer
      ensures Valid() && Spout() == old(Spout())
      ensures r == if old(Contents()) == [] then None else Some(old(Contents())[0])
      ensures Contents() == if old(Contents()) == [] then [] else old(Contents())[1..]
    {
      hide RingOk, Items, IsCapacity, Masked, Slot, WrappingAdd, Fits;
      EmptyIff(buffer[..], head, tail);
      if head == tail {
        return None;
      }
      RingShape(buffer[..], head, tail);
      MaskedIs(head, buffer.Length);
      TakeSlot(buffer[..], head, tail);
      var idx := Masked(head, buffer.Length);
      r := buffer[idx];
      buffer[idx] := None;
      assert buffer[..] == old(buffer[..])[idx := None];
      head := WrappingAdd(head, 1);
    }

    /** Writes a new item at the tail. */
    method Append(item: T)
      requires Valid() && |Contents()| < buffer.Length
      modifies this`tail, buffer
      ensures Valid() && Spout() == old(Spout()) && Contents() == old(Contents()) + [item]
    {
      hide RingOk, Items, IsCapacity, Masked, Slot, WrappingAdd, Fits;
      RingShape(buffer[..], head, tail);
      MaskedIs(tail, buffer.Length);
      AppendSlot(buffer[..], head, tail, item);
      var idx := Masked(tail, buffer.Length);
      buffer[idx] := Some(item);
      assert buffer[..] == old(buffer[..])[idx := Some(item)];
      tail := WrappingAdd(tail, 1);
    }

    /** Hands an item to the spout. */
    method Emit(item: T)
      requires Valid()
      modifies this`sink, if next == null then {} else next.Repr
      ensures Valid() && Contents() == old(Contents()) && Spout() == Send(old(Spout()), item)
      decreases height, 0
    {
      hide RingOk, Items, IsCapacity, Fits;
      if next == null {
        sink := sink + [item];
      } else {
        next.PushMut(item);
      }
    }

    /** Takes an item; a full ring first passes its oldest one on. */
    method PushMut(item: T)
      requires Valid()
      modifies Repr
      ensures Valid() && Abs() == Send(old(Abs()), item)
      decreases height, 1
    {
      hide RingOk, Items, IsCapacity, Fits;
      RingShape(buffer[..], head, tail);
      if WrappingSub(tail, head) >= buffer.Length {
        var evicted := PopMut();
        Emit(evicted.value);
      }
      Append(item);
    }

    /** Takes an item only when there is room. */
    method TryPush(item: T) returns (r: Result<(), T>)
      requires Valid()
      modifies this`tail, buffer
      ensures Valid() && Spout() == old(Spout())
      ensures r == if |old(Contents())| < buffer.Length then Ok(()) else Err(item)
      ensures Contents() == if r.Ok? then old(Contents()) + [item] else old(Contents())
    {
      RingShape(buffer[..], head, tail);
      if WrappingSub(tail, head) >= buffer.Length {
        return Err(item);
      }
      Append(item);
      r := Ok(());
    }

    /** Passes the `count` oldest items on. */
    method Spill(count: nat)
      requires Valid() && count <= |Contents()|
      modifies Repr
      ensures Valid() && Contents() == old(Contents())[count..]
      ensures Spout() == SendAll(old(Spout()), old(Contents())[..count])
      decreases height, 2
    {
      hide RingOk, Items, IsCapacity, Fits, SendAll, Send;
      SendNone(Spout());
      assert Contents()[..0] == [] && Contents()[0..] == Contents();
      for i := 0 to count
        invariant Valid() && Contents() == old(Contents())[i..]
        invariant Spout() == SendAll(old(Spout()), old(Contents())[..i])
      {
        SendAllSnoc(old(Spout()), old(Contents()), i);
        var item := PopMut();
        Emit(item.value);
      }
    }

    /** Empties the ring into its spout. */
    method Flush() returns (count: nat)
      requires Valid()
      modifies Repr
      ensures Valid() && Abs() == RingSpec.Flush(old(Abs())) && count == |old(Contents())|
      decreases height, 3
    {
      count := Len();
      Spill(count);
      assert old(Contents())[..count] == old(Contents());
    }

    /** Flushes the ring and its spout, then drops the spout. */
    method Drop()
      requires Valid()
      modifies Repr
      ensures Valid() && Abs() == RingSpec.Drop(old(Abs()))
      decreases height, 4
    {
      hide RingOk, Items, IsCapacity, Fits, SendAll, Send;
      var _ := Flush();
      if next != null {
        DropFlushed(next.Abs());
        var _ := next.Flush();
        next.Drop();
      }
    }

    /** Copies a batch that fits behind the tail, in at most two segments. */
    method CopyIn(keep: seq<T>)
      requires Valid() && |Contents()| + |keep| <= buffer.Length
      modifies this`tail, buffer
      ensures Valid() && Spout() == old(Spout()) && Contents() == old(Contents()) + keep
    {
      hide RingOk, Items, IsCapacity, Masked, Slot, WrappingAdd, WrappingSub, Fits;
      ghost var buf := buffer[..];
      RingShape(buf, head, tail);
      MaskedIs(tail, buffer.Length);
      var tailIdx := Masked(tail, buffer.Length);
      var spaceToEnd := buffer.Length - tailIdx;
      var count := |keep|;
      if count <= spaceToEnd {
        forall j | 0 <= j < count {
          buffer[tailIdx + j] := Some(keep[j]);
        }
      } else {
        forall j | 0 <= j < spaceToEnd {
          buffer[tailIdx + j] := Some(keep[j]);
        }
        forall j | 0 <= j < count - spaceToEnd {
          buffer[j] := Some(keep[spaceToEnd + j]);
        }
      }
      assert Copied(buf, buffer[..], tailIdx, keep);
      CopiedAppends(buf, buffer[..], head, tail, keep);
      tail := WrappingAdd(tail, count);
    }

    /** A batch larger than the ring: everything held and the head of the batch go straight to the spout. */
    method PassExcess(items: seq<T>) returns (keep: seq<T>)
      requires Valid() && |items| > buffer.Length
      modifies Repr
      ensures Valid() && Contents() == []
      ensures keep == items[|items| - buffer.Length..]
      ensures Spout() == SendAll(old(Spout()), old(Contents()) + items[..|items| - buffer.Length])
    {
      hide RingOk, Items, IsCapacity, Fits, SendAll, Send;
      ghost var held := Contents();
      var all := Len();
      Spill(all);
      assert held[..all] == held;
      var excess := |items| - buffer.Length;
      SendAllConcat(old(Spout()), held, items[..excess]);
      EmitAll(items[..excess]);
      keep := items[excess..];
    }

    /** Spills as many items as `extra` new ones would push out. */
    method MakeRoom(extra: nat)
      requires Valid() && extra <= buffer.Length
      modifies Repr
      ensures Valid()
      ensures var out := Overflow(|old(Contents())| + extra, buffer.Length);
              && out <= |old(Contents())|
              && Contents() == old(Contents())[out..] && Spout() == SendAll(old(Spout()), old(Contents())[..out])
    {
      hide RingOk, Items, IsCapacity, Fits, SendAll, Send;
      var n := Len();
      var free := buffer.Length - n;
      SendNone(Spout());
      assert Contents()[..0] == [] && Contents()[0..] == Contents();
      if extra > free {
        Spill(extra - free);
      }
    }

    /** Bulk push: same contents and same spills as pushing one by one. */
    method PushSlice(items: seq<T>)
      requires Valid()
      modifies Repr
      ensures Valid() && Abs() == SendAll(old(Abs()), items)
    {
      hide RingOk, Items, IsCapacity, Fits, SendAll, Send;
      RingShape(buffer[..], head, tail);
      SendNone(Abs());
      if items == [] {
        return;
      }
      ghost var held, spout := Contents(), Spout();
      SendAllLink(held, buffer.Length, spout, items);
      if |items| > buffer.Length {
        var keep := PassExcess(items);
        ExcessSplit(held, items, buffer.Length);
        CopyIn(keep);
      } else {
        MakeRoom(|items|);
        RoomSplit(held, items, buffer.Length);
        CopyIn(items);
      }
    }

    method EmitAll(items: seq<T>)
      requires Valid()
      modifies this`sink, if next == null then {} else next.Repr
      ensures Valid() && Contents() == old(Contents()) && Spout() == SendAll(old(Spout()), items)
    {
      hide RingOk, Items, IsCapacity, Fits, SendAll, Send;
      SendNone(Spout());
      assert items[..0] == [];
      for i := 0 to |items|
        invariant Valid() && Contents() == old(Contents())
        invariant Spout() == SendAll(old(Spout()), items[..i])
      {
        SendAllSnoc(old(Spout()), items, i);
        Emit(items[i]);
      }
      assert items[..|items|] == items;
    }

    /** Bulk pop of at most `max` items. */
    method PopSlice(max: nat) returns (out: seq<T>)
      requires Valid()
      modifies this`head
      ensures Valid() && Spout() == old(Spout())
      ensures out == old(Contents())[..Min(max, |old(Contents())|)]
      ensures Contents() == old(Contents())[Min(max, |old(Contents())|)..]
    {
      hide RingOk, Items, IsCapacity, Masked, Slot, WrappingAdd, WrappingSub, Fits;
      var avail := Len();
      var count := Min(max, avail);
      RingShape(buffer[..], head, tail);
      var buf := buffer[..];
      CopyOut(buf, head, tail, count);
      MaskedIs(head, buffer.Length);
      var headIdx := Masked(head, buffer.Length);
      var raw := Segments(buf, headIdx, count);
      assert forall i :: 0 <= i < count ==> raw[i].Some?;
      out := Values(raw);
      head := WrappingAdd(head, count);
    }
  }
}
