/** A block: a table of bit rows, one per bloom bit position, whose 256
    columns are document slots, with a count of the slots handed out. */
module Blocks {
  import opened Bits
  import opened Rows
  import opened QueryKernel

  datatype Error = ErrNoSpace

  datatype Result<T> = Ok(value: T) | Err(error: Error)

  /** The row with slot s set as well: one word ORed with a single bit. */
  function SetSlot(row: Row, s: nat): (r: Row)
    requires s < IdsPerBlock
    ensures forall t: nat :: t < IdsPerBlock ==> (RowBit(r, t) <==> RowBit(row, t) || t == s)
  {
    var k, j := s / 64, s % 64;
    SingleBitWord(j);
    WordLimit();
    OrBelow(row[k], Pow2(j), 64);
    var r := row[k := Or(row[k], Pow2(j))];
    assert forall t: nat :: t < IdsPerBlock ==> (RowBit(r, t) <==> RowBit(row, t) || t == s) by {
      forall t: nat | t < IdsPerBlock ensures RowBit(r, t) <==> RowBit(row, t) || t == s {
        OrBit(row[k], Pow2(j), t % 64);
        Pow2Bit(j, t % 64);
      }
    }
    r
  }

  /** The table of the BitFunnel paper's example: the slots (documents A
      to J as 0 to 9) set in each of 16 rows. */
  function PaperSlots(p: nat): set<nat>
  {
    match p
    case 0 => {0}
    case 1 => {5, 8, 9}
    case 2 => {7}
    case 3 => {6, 9}
    case 4 => {8}
    case 5 => {8, 9}
    case 6 => {4, 7}
    case 7 => {5, 8, 9}
    case 9 => {2}
    case 10 => {9}
    case 11 => {1, 3}
    case 12 => {3, 8, 9}
    case 13 => {1}
    case 15 => {6, 7}
    case _ => {}
  }

  /** In the paper's example, querying rows 1, 5, 7, 10 and 12 leaves only
      document J. */
  lemma PaperExample(rows: seq<Row>)
    requires |rows| == 16
    requires forall p, s :: 0 <= p < 16 && 0 <= s < IdsPerBlock ==> (RowBit(rows[p], s) <==> s in PaperSlots(p))
    ensures SetSlots(Intersect(rows, [1, 5, 7, 10, 12]), IdsPerBlock) == [9]
  {
    var hs := [1, 5, 7, 10, 12];
    var r := Intersect(rows, hs);
    forall s: nat ensures s in SetSlots(r, IdsPerBlock) <==> s == 9 {
      SetSlotsMember(r, IdsPerBlock, s);
      if s < IdsPerBlock {
        IntersectBit(rows, hs, s);
        assert AllSet(rows, hs, s) <==> RowBit(rows[1], s) && RowBit(rows[5], s) && RowBit(rows[7], s)
                                        && RowBit(rows[10], s) && RowBit(rows[12], s);
      }
    }
    SetSlotsAscending(r, IdsPerBlock);
    AscendingSingleton(SetSlots(r, IdsPerBlock), 9);
  }

  class Block {
    /** One row per bloom bit position. */
    const bits: array<Row>

    /** The number of slots handed out (Go's `valid`). */
    var valid: nat

    ghost predicate Valid()
      reads this
    {
      valid <= IdsPerBlock
    }

    /** newBlock: size empty rows, no slot handed out. */
    constructor(size: nat)
      ensures Valid() && valid == 0
      ensures bits.Length == size && fresh(bits)
      ensures forall p :: 0 <= p < size ==> bits[p] == EmptyRow
    {
      bits := new Row[size](_ => EmptyRow);
      valid := 0;
    }

    /** numDocuments: never more than a block's slots. */
    function NumDocuments(): (n: nat)
      reads this
      requires Valid()
      ensures n <= IdsPerBlock
    {
      valid
    }

    /** addDocument: hands out the next slot, or fails without change when
        all slots are taken. */
    method AddDocument() returns (r: Result<nat>)
      requires Valid()
      modifies this`valid
      ensures Valid()
      ensures old(valid) == IdsPerBlock ==> r == Err(ErrNoSpace) && valid == old(valid)
      ensures old(valid) < IdsPerBlock ==> r == Ok(old(valid)) && valid == old(valid) + 1
    {
      if valid == IdsPerBlock {
        return Err(ErrNoSpace);
      }
      r := Ok(valid);
      valid := valid + 1;
    }

    /** getbit: the cell's bit in place within its word, zero when clear. */
    function GetBit(slot: nat, p: nat): (w: Word)
      reads bits
      requires slot < IdsPerBlock && p < bits.Length
      ensures w == (if RowBit(bits[p], slot) then Pow2(slot % 64) else 0)
      ensures w != 0 <==> RowBit(bits[p], slot)
    {
      var x, j := bits[p][slot / 64], slot % 64;
      var w := And(x, Pow2(j));
      var want := if RowBit(bits[p], slot) then Pow2(j) else 0;
      assert w == want by {
        forall i: nat ensures Bit(w, i) == Bit(want, i) {
          AndBit(x, Pow2(j), i);
          Pow2Bit(j, i);
          BitZero(i);
        }
        BitsEqual(w, want);
      }
      w
    }

    /** get: the whole row, whose set slots are the cells getbit reports. */
    function Get(p: nat): (row: Row)
      reads bits
      requires p < bits.Length
      ensures forall s: nat :: s < IdsPerBlock ==> (RowBit(row, s) <==> GetBit(s, p) != 0)
    {
      bits[p]
    }

    /** setbit: sets one cell; no other cell changes and no cell is cleared. */
    method SetBit(slot: nat, p: nat)
      requires slot < IdsPerBlock && p < bits.Length
      modifies bits
      ensures bits[..] == old(bits[..])[p := SetSlot(old(bits[p]), slot)]
      ensures GetBit(slot, p) != 0
      ensures forall q, t :: 0 <= q < bits.Length && 0 <= t < IdsPerBlock && (q != p || t != slot) ==>
                (GetBit(t, q) != 0 <==> old(GetBit(t, q)) != 0)
    {
      bits[p] := SetSlot(bits[p], slot);
    }

    /** query: nothing for no positions; otherwise, ascending, exactly the
        slots set in every selected row, whether handed out or not. */
    method Query(positions: seq<nat>) returns (slots: seq<nat>)
      requires Selects(positions, bits.Length)
      ensures positions == [] ==> slots == []
      ensures positions != [] ==> slots == SetSlots(Intersect(bits[..], positions), IdsPerBlock)
      ensures StrictlyAscending(slots)
      ensures forall s: nat :: s in slots <==> positions != [] && s < IdsPerBlock && AllSet(bits[..], positions, s)
    {
      if |positions| == 0 {
        return [];
      }
      var r := new Word[Words](_ => AllOnes);
      QueryCore(r, bits, positions);
      slots := Popset(r[..]);
      forall s: nat | s < IdsPerBlock ensures RowBit(r[..], s) <==> AllSet(bits[..], positions, s) {
        IntersectBit(bits[..], positions, s);
      }
    }
  }
}
