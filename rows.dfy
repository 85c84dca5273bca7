/** Bit rows: a row is a fixed array of words whose bit s (bit s % 64 of
    word s / 64) stands for document slot s. `popset` lists the set slots. */
module Rows {
  import opened Bits

  /** Words per row (Go's `bitrow` is `[4]uint64`). */
  const Words: nat := 4

  /** Slots per block: one per bit of a row. */
  const IdsPerBlock: nat := 256

  type Row = r: seq<Word> | |r| == Words witness [0, 0, 0, 0]

  /** Slot s is set in the row. */
  predicate RowBit(row: Row, s: nat)
    requires s < IdsPerBlock
  {
    Bit(row[s / 64], s % 64)
  }

  predicate StrictlyAscending(xs: seq<nat>)
  {
    forall i, j :: 0 <= i < j < |xs| ==> xs[i] < xs[j]
  }

  /** The set slots below n, in ascending order: the specification of popset. */
  function SetSlots(row: Row, n: nat): seq<nat>
    requires n <= IdsPerBlock
  {
    if n == 0 then []
    else SetSlots(row, n - 1) + (if RowBit(row, n - 1) then [n - 1] else [])
  }

  /** The set slots below n. */
  ghost function SlotsBelow(row: Row, n: nat): set<nat>
    requires n <= IdsPerBlock
  {
    set s: nat | s < n && RowBit(row, s)
  }

  /** The number of set slots of a row. */
  ghost function Popcount(row: Row): nat
  {
    |SlotsBelow(row, IdsPerBlock)|
  }

  lemma {:induction false} SetSlotsMember(row: Row, n: nat, s: nat)
    requires n <= IdsPerBlock
    ensures s in SetSlots(row, n) <==> s < n && RowBit(row, s)
  {
    if n > 0 {
      SetSlotsMember(row, n - 1, s);
    }
  }

  lemma {:induction false} SetSlotsAscending(row: Row, n: nat)
    requires n <= IdsPerBlock
    ensures StrictlyAscending(SetSlots(row, n))
  {
    if n > 0 {
      SetSlotsAscending(row, n - 1);
      var prev := SetSlots(row, n - 1);
      forall k | 0 <= k < |prev| ensures prev[k] < n - 1 {
        SetSlotsMember(row, n - 1, prev[k]);
      }
    }
  }

  /** popset returns as many slots as the row has set bits. */
  lemma {:induction false} SetSlotsCount(row: Row, n: nat)
    requires n <= IdsPerBlock
    ensures |SetSlots(row, n)| == |SlotsBelow(row, n)|
  {
    if n > 0 {
      SetSlotsCount(row, n - 1);
      SlotsBelowStep(row, n);
    }
  }

  lemma SlotsBelowStep(row: Row, n: nat)
    requires 0 < n <= IdsPerBlock
    ensures RowBit(row, n - 1) ==> SlotsBelow(row, n) == SlotsBelow(row, n - 1) + {n - 1}
    ensures !RowBit(row, n - 1) ==> SlotsBelow(row, n) == SlotsBelow(row, n - 1)
  {
  }

  /** What popset promises of its result: ascending, exactly the set slots,
      as many as the row has set bits. */
  lemma SetSlotsSpec(b: Row)
    ensures StrictlyAscending(SetSlots(b, IdsPerBlock))
    ensures forall s: nat :: s in SetSlots(b, IdsPerBlock) <==> s < IdsPerBlock && RowBit(b, s)
    ensures |SetSlots(b, IdsPerBlock)| == Popcount(b)
  {
    SetSlotsAscending(b, IdsPerBlock);
    forall s: nat {
      SetSlotsMember(b, IdsPerBlock, s);
    }
    SetSlotsCount(b, IdsPerBlock);
  }

  /** Slots in [from, to) that are all clear add nothing to the list. */
  lemma {:induction false} SkipClear(row: Row, from: nat, to: nat)
    requires from <= to <= IdsPerBlock
    requires forall s :: from <= s < to ==> !RowBit(row, s)
    ensures SetSlots(row, to) == SetSlots(row, from)
  {
    if from < to {
      SkipClear(row, from, to - 1);
    }
  }

  /** Two rows with the same set slots are the same row. */
  lemma RowsEqual(x: Row, y: Row)
    requires forall s: nat :: s < IdsPerBlock ==> (RowBit(x, s) <==> RowBit(y, s))
    ensures x == y
  {
    forall k | 0 <= k < Words ensures x[k] == y[k] {
      forall j: nat ensures Bit(x[k], j) == Bit(y[k], j) {
        if j < 64 {
          SlotOfWord(x, k, 64 * k + j);
          SlotOfWord(y, k, 64 * k + j);
        } else {
          WordHighBitsZero(x[k], j);
          WordHighBitsZero(y[k], j);
        }
      }
      BitsEqual(x[k], y[k]);
    }
  }

  /** A strictly ascending list determined by its members: one member means a singleton. */
  lemma AscendingSingleton(xs: seq<nat>, s: nat)
    requires StrictlyAscending(xs)
    requires forall t :: t in xs <==> t == s
    ensures xs == [s]
  {
    assert s in xs;
    assert xs[0] in xs && xs[|xs| - 1] in xs;
    assert |xs| == 1;
  }

  /** The row that has only slot s set. */
  function SingleSlotRow(s: nat): (row: Row)
    requires s < IdsPerBlock
    ensures forall t: nat :: t < IdsPerBlock ==> (RowBit(row, t) <==> t == s)
  {
    var w := Pow2(s % 64);
    SingleBitWord(s % 64);
    var row := seq(Words, k requires 0 <= k < Words => if k == s / 64 then w else 0);
    assert forall t: nat :: t < IdsPerBlock ==> (RowBit(row, t) <==> t == s) by {
      forall t: nat | t < IdsPerBlock ensures RowBit(row, t) <==> t == s {
        Pow2Bit(s % 64, t % 64);
        BitZero(t % 64);
      }
    }
    row
  }

  /** 2^j is a word for j < 64. */
  lemma SingleBitWord(j: nat)
    requires j < 64
    ensures Pow2(j) < 0x1_0000_0000_0000_0000
  {
    WordLimit();
    Pow2Add(j, 64 - j);
  }

  /** A zero row gives an empty list; a single slot gives exactly that slot,
      including the word boundaries 0, 63, 64 and 255. */
  lemma PopsetBoundaries(s: nat)
    requires s < IdsPerBlock
    ensures SetSlots([0, 0, 0, 0], IdsPerBlock) == []
    ensures SetSlots(SingleSlotRow(s), IdsPerBlock) == [s]
  {
    forall t: nat | t < IdsPerBlock ensures !RowBit([0, 0, 0, 0], t) {
      BitZero(t % 64);
    }
    SkipClear([0, 0, 0, 0], 0, IdsPerBlock);
    var row := SingleSlotRow(s);
    SetSlotsAscending(row, IdsPerBlock);
    forall t: nat ensures t in SetSlots(row, IdsPerBlock) <==> t == s {
      SetSlotsMember(row, IdsPerBlock, t);
    }
    AscendingSingleton(SetSlots(row, IdsPerBlock), s);
  }

  /** Slot s of word i is bit s - 64*i of that word. */
  lemma SlotOfWord(b: Row, i: nat, s: nat)
    requires i < Words && 64 * i <= s < 64 * i + 64
    ensures RowBit(b, s) <==> Bit(b[i], s - 64 * i)
  {
    assert s / 64 == i && s % 64 == s - 64 * i;
  }

  /** One step of popset's inner loop: the lowest set bit tz of what is
      left of word i is the next set slot, and shifting past it leaves the
      rest of the word; the loop's invariant holds again at next and v. */
  lemma PopsetStep(b: Row, i: nat, docid: nat, u: nat, r: seq<nat>, tz: nat, next: nat, v: nat)
    requires i < Words && 64 * i <= docid <= 64 * i + 64
    requires u == Shr(b[i], docid - 64 * i) && u != 0 && tz == Ctz(u)
    requires r == SetSlots(b, docid)
    requires next == docid + tz + 1 && v == Shr(u, tz + 1)
    ensures 64 * i <= next <= 64 * i + 64
    ensures v == Shr(b[i], next - 64 * i)
    ensures r + [docid + tz] == SetSlots(b, next)
  {
    PopsetFound(b, i, docid, u, tz);
    assert r + [docid + tz] == SetSlots(b, next) by {
      PopsetSkip(b, i, docid, u, tz);
      assert SetSlots(b, next) == SetSlots(b, docid + tz) + [docid + tz];
    }
    assert v == Shr(b[i], next - 64 * i) by {
      ShrShr(b[i], docid - 64 * i, tz + 1);
    }
  }

  /** The lowest set bit of what is left of word i is a set slot of that word. */
  lemma PopsetFound(b: Row, i: nat, docid: nat, u: nat, tz: nat)
    requires i < Words && 64 * i <= docid <= 64 * i + 64
    requires u == Shr(b[i], docid - 64 * i) && u != 0 && tz == Ctz(u)
    ensures docid + tz < 64 * i + 64 && RowBit(b, docid + tz)
  {
    var c := docid - 64 * i;
    ShrBit(b[i], c, tz);
    if c + tz >= 64 {
      WordHighBitsZero(b[i], c + tz);
    }
    SlotOfWord(b, i, docid + tz);
  }

  /** The trailing zeros of what is left of word i are clear slots. */
  lemma PopsetSkip(b: Row, i: nat, docid: nat, u: nat, tz: nat)
    requires i < Words && 64 * i <= docid && docid + tz < 64 * i + 64
    requires u == Shr(b[i], docid - 64 * i) && u != 0 && tz == Ctz(u)
    ensures SetSlots(b, docid + tz) == SetSlots(b, docid)
  {
    var c := docid - 64 * i;
    forall s: nat | docid <= s < docid + tz ensures !RowBit(b, s) {
      CtzLowest(u, s - docid);
      ShrBit(b[i], c, s - docid);
      SlotOfWord(b, i, s);
    }
    SkipClear(b, docid, docid + tz);
  }

  /** popset's inner loop ends when nothing is left of word i: no slot of
      that word at or above docid is set. */
  lemma PopsetWordDone(b: Row, i: nat, docid: nat)
    requires i < Words && 64 * i <= docid <= 64 * i + 64
    requires Shr(b[i], docid - 64 * i) == 0
    ensures SetSlots(b, 64 * (i + 1)) == SetSlots(b, docid)
  {
    var c, end := docid - 64 * i, 64 * (i + 1);
    forall s: nat | docid <= s < end ensures !RowBit(b, s) {
      ShrBit(b[i], c, s - docid);
      BitZero(s - docid);
      SlotOfWord(b, i, s);
    }
    SkipClear(b, docid, end);
  }

  /** One pass of popset's inner loop: the lowest set bit left in word i
      is appended, and the word is shifted past it. */
  method PopNext(b: Row, i: nat, docid: nat, u: nat, r: seq<nat>) returns (docid': nat, u': nat, r': seq<nat>)
    requires i < Words && 64 * i <= docid <= 64 * i + 64
    requires u == Shr(b[i], docid - 64 * i) && u != 0
    requires r == SetSlots(b, docid)
    ensures 64 * i <= docid' <= 64 * i + 64
    ensures u' == Shr(b[i], docid' - 64 * i) && u' < u
    ensures r' == SetSlots(b, docid')
  {
    var tz := Ctz(u);
    PopsetStep(b, i, docid, u, r, tz, docid + tz + 1, Shr(u, tz + 1));
    u' := Shr(u, tz + 1);
    r' := r + [docid + tz];
    docid' := docid + tz + 1;
  }

  /** popset's inner loop over word i: appends the set slots of that word. */
  method PopWord(b: Row, i: nat, r0: seq<nat>) returns (r: seq<nat>)
    requires i < Words && r0 == SetSlots(b, 64 * i)
    ensures r == SetSlots(b, 64 * (i + 1))
  {
    r := r0;
    var u: nat := b[i];
    var docid: nat := 64 * i;
    while u != 0
      invariant 64 * i <= docid <= 64 * i + 64
      invariant u == Shr(b[i], docid - 64 * i)
      invariant r == SetSlots(b, docid)
      decreases u
    {
      docid, u, r := PopNext(b, i, docid, u, r);
    }
    PopsetWordDone(b, i, docid);
  }

  /** popset: the set slots of a row, ascending, found word by word by
      skipping runs of zeros with a trailing-zero count. */
  method Popset(b: Row) returns (r: seq<nat>)
    ensures r == SetSlots(b, IdsPerBlock)
    ensures StrictlyAscending(r)
    ensures forall s: nat :: s in r <==> s < IdsPerBlock && RowBit(b, s)
    ensures |r| == Popcount(b)
  {
    r := [];
    for i := 0 to Words
      invariant r == SetSlots(b, 64 * i)
    {
      r := PopWord(b, i, r);
    }
    SetSlotsSpec(b);
  }
}
