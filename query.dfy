/** The intersection kernel `queryCore`: the word-wise AND of the rows a
    query selects, computed into an accumulator row that starts all ones
    and stops early once it is empty. */
module QueryKernel {
  import opened Bits
  import opened Rows

  /** The accumulator's starting value: every slot survives. */
  const FullRow: Row := [AllOnes, AllOnes, AllOnes, AllOnes]

  /** The row without set slots. */
  const EmptyRow: Row := [0, 0, 0, 0]

  /** Every selected position names one of the n rows of a block. */
  predicate Selects(hs: seq<nat>, n: nat)
  {
    forall i :: 0 <= i < |hs| ==> hs[i] < n
  }

  /** Slot s is set in every selected row. */
  predicate AllSet(rows: seq<Row>, hs: seq<nat>, s: nat)
  {
    s < IdsPerBlock && forall i :: 0 <= i < |hs| ==> hs[i] < |rows| && RowBit(rows[hs[i]], s)
  }

  /** Only which rows are selected matters to AllSet. */
  lemma AllSetMembers(rows: seq<Row>, hs: seq<nat>, s: nat)
    requires s < IdsPerBlock
    ensures AllSet(rows, hs, s) <==> forall h :: h in hs ==> h < |rows| && RowBit(rows[h], s)
  {
    if AllSet(rows, hs, s) {
      forall h | h in hs ensures h < |rows| && RowBit(rows[h], s) {
        var i :| 0 <= i < |hs| && hs[i] == h;
      }
    }
    if forall h :: h in hs ==> h < |rows| && RowBit(rows[h], s) {
      forall i | 0 <= i < |hs| ensures hs[i] < |rows| && RowBit(rows[hs[i]], s) {
        assert hs[i] in hs;
      }
    }
  }

  /** Word-wise AND of two rows: a slot survives when it is set in both. */
  function AndRows(x: Row, y: Row): (z: Row)
    ensures forall s: nat :: s < IdsPerBlock ==> (RowBit(z, s) <==> RowBit(x, s) && RowBit(y, s))
  {
    var z: Row := [And(x[0], y[0]), And(x[1], y[1]), And(x[2], y[2]), And(x[3], y[3])];
    assert forall s: nat :: s < IdsPerBlock ==> (RowBit(z, s) <==> RowBit(x, s) && RowBit(y, s)) by {
      forall s: nat | s < IdsPerBlock ensures RowBit(z, s) <==> RowBit(x, s) && RowBit(y, s) {
        AndBit(x[s / 64], y[s / 64], s % 64);
      }
    }
    z
  }

  /** The specification of queryCore: all ones, then AND in row h of the
      block for every h of hs in turn. */
  function Intersect(rows: seq<Row>, hs: seq<nat>): Row
    requires Selects(hs, |rows|)
  {
    if hs == [] then FullRow
    else AndRows(Intersect(rows, hs[..|hs| - 1]), rows[hs[|hs| - 1]])
  }

  /** A slot survives exactly when every selected row has it set. */
  lemma {:induction false} IntersectBit(rows: seq<Row>, hs: seq<nat>, s: nat)
    requires Selects(hs, |rows|)
    requires s < IdsPerBlock
    ensures RowBit(Intersect(rows, hs), s) <==> AllSet(rows, hs, s)
  {
    if hs == [] {
      AllOnesBit(s % 64);
    } else {
      var init, last := hs[..|hs| - 1], hs[|hs| - 1];
      assert hs == init + [last];
      IntersectBit(rows, init, s);
    }
  }

  /** With no rows selected every slot survives. */
  lemma IntersectNone(rows: seq<Row>, s: nat)
    requires s < IdsPerBlock
    ensures RowBit(Intersect(rows, []), s)
  {
    IntersectBit(rows, [], s);
  }

  /** The result is a bitwise subset of every selected row: ANDing that row
      in once more changes nothing. */
  lemma IntersectSubset(rows: seq<Row>, hs: seq<nat>, h: nat)
    requires Selects(hs, |rows|)
    requires h in hs
    ensures AndRows(Intersect(rows, hs), rows[h]) == Intersect(rows, hs)
  {
    var r := Intersect(rows, hs);
    forall s: nat | s < IdsPerBlock ensures RowBit(AndRows(r, rows[h]), s) <==> RowBit(r, s) {
      IntersectBit(rows, hs, s);
    }
    RowsEqual(AndRows(r, rows[h]), r);
  }

  /** Only the set of selected rows matters: permuting or repeating
      positions gives the same result. */
  lemma IntersectSameSet(rows: seq<Row>, hs: seq<nat>, gs: seq<nat>)
    requires Selects(hs, |rows|)
    requires Selects(gs, |rows|)
    requires forall h :: h in hs <==> h in gs
    ensures Intersect(rows, hs) == Intersect(rows, gs)
  {
    forall s: nat | s < IdsPerBlock
      ensures RowBit(Intersect(rows, hs), s) <==> RowBit(Intersect(rows, gs), s)
    {
      IntersectBit(rows, hs, s);
      IntersectBit(rows, gs, s);
      AllSetMembers(rows, hs, s);
      AllSetMembers(rows, gs, s);
    }
    RowsEqual(Intersect(rows, hs), Intersect(rows, gs));
  }

  /** Once the accumulator is empty the remaining rows leave it empty,
      so the early return does not change the result. */
  lemma {:induction false} IntersectEmpty(rows: seq<Row>, hs: seq<nat>, n: nat)
    requires Selects(hs, |rows|)
    requires n <= |hs| && Intersect(rows, hs[..n]) == EmptyRow
    ensures Intersect(rows, hs) == EmptyRow
    decreases |hs| - n
  {
    if n == |hs| {
      assert hs[..n] == hs;
    } else {
      assert hs[..n + 1][..n] == hs[..n];
      assert Intersect(rows, hs[..n + 1]) == AndRows(EmptyRow, rows[hs[n]]);
      IntersectEmpty(rows, hs, n + 1);
    }
  }

  /** queryCore: overwrites *r with all ones, whatever it held, then ANDs in
      each selected row, returning early when nothing survives. */
  method QueryCore(r: array<Word>, bits: array<Row>, hashes: seq<nat>)
    requires r.Length == Words
    requires Selects(hashes, bits.Length)
    modifies r
    ensures r[..] == Intersect(bits[..], hashes)
  {
    r[0], r[1], r[2], r[3] := AllOnes, AllOnes, AllOnes, AllOnes;
    assert r[..] == FullRow;
    for n := 0 to |hashes|
      invariant r[..] == Intersect(bits[..], hashes[..n])
    {
      var row := bits[hashes[n]];
      assert hashes[..n + 1][..n] == hashes[..n];
      r[0] := And(r[0], row[0]);
      r[1] := And(r[1], row[1]);
      r[2] := And(r[2], row[2]);
      r[3] := And(r[3], row[3]);
      assert r[..] == Intersect(bits[..], hashes[..n + 1]);
      if Or(Or(Or(r[0], r[1]), r[2]), r[3]) == 0 {
        assert r[..] == EmptyRow;
        IntersectEmpty(bits[..], hashes, n + 1);
        return;
      }
    }
    assert hashes[..|hashes|] == hashes;
  }
}
