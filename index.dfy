/** The index: data blocks of 256 documents each, and meta blocks whose
    slot j in meta block k stands for data block 256k + j, so that a query
    can skip every data block whose meta slot fails. */
module BloomIndex {
  import opened Bits
  import opened Rows
  import opened QueryKernel
  import opened Blocks
  import opened Hashing
  import opened Layout

  /** rows is base with slot set in every row listed in ps, and no other
      cell changed. */
  predicate Marked(rows: seq<Row>, base: seq<Row>, slot: nat, ps: seq<nat>)
  {
    |rows| == |base| &&
    forall p, s :: 0 <= p < |rows| && 0 <= s < IdsPerBlock ==>
      (RowBit(rows[p], s) <==> RowBit(base[p], s) || (s == slot && p in ps))
  }

  /** Setting one more cell extends the list of marked rows. */
  lemma MarkStep(rows: seq<Row>, base: seq<Row>, slot: nat, ps: seq<nat>, p: nat)
    requires slot < IdsPerBlock && p < |rows|
    requires Marked(rows, base, slot, ps)
    ensures Marked(rows[p := SetSlot(rows[p], slot)], base, slot, ps + [p])
  {
    var next := rows[p := SetSlot(rows[p], slot)];
    forall q, s | 0 <= q < |next| && 0 <= s < IdsPerBlock
      ensures RowBit(next[q], s) <==> RowBit(base[q], s) || (s == slot && q in ps + [p])
    {
      if q == p {
        assert RowBit(next[q], s) <==> RowBit(rows[p], s) || s == slot;
      }
    }
  }

  /** The empty row has no slot set. */
  lemma EmptyRowClear()
    ensures forall s :: 0 <= s < IdsPerBlock ==> !RowBit(EmptyRow, s)
  {
    forall s | 0 <= s < IdsPerBlock ensures !RowBit(EmptyRow, s) {
      BitZero(s % 64);
    }
  }

  /** Row p of blk has slot s set. */
  ghost predicate CellSet(blk: Block, p: nat, s: nat)
    reads blk.bits
  {
    p < blk.bits.Length && s < IdsPerBlock && RowBit(blk.bits[p], s)
  }

  /** The prefix of length k + 1 holds one more member. */
  lemma PrefixStep(xs: seq<nat>, k: nat)
    requires k < |xs|
    ensures forall v :: v in xs[..k + 1] <==> v in xs[..k] || v == xs[k]
  {
    assert xs[..k + 1] == xs[..k] + [xs[k]];
  }

  /** Document x lies in data block b exactly when it lies in b's meta
      group, at b's slot there. */
  lemma BlockOfDoc(x: nat, b: nat)
    ensures x / 256 == b <==> x / 65536 == b / 256 && (x / 256) % 256 == b % 256
  {
    assert x / 65536 == (x / 256) / 256;
  }

  /** A value above every member extends an ascending list. */
  lemma AscendingAppend(xs: seq<nat>, v: nat)
    requires StrictlyAscending(xs)
    requires forall x :: x in xs ==> x < v
    ensures StrictlyAscending(xs + [v])
  {
    assert forall i :: 0 <= i < |xs| ==> xs[i] in xs;
  }

  /** Every data block and meta block in bs and ms is a distinct object
      in repr with its own row table in repr, of size and 64 * size rows. */
  ghost predicate Owns(bs: seq<Block>, ms: seq<Block>, repr: set<object>, size: nat)
  {
    (forall k :: 0 <= k < |bs| ==> bs[k] in repr && bs[k].bits in repr && bs[k].bits.Length == size) &&
    (forall k :: 0 <= k < |ms| ==> ms[k] in repr && ms[k].bits in repr && ms[k].bits.Length == MetaScale * size) &&
    (forall j, k :: 0 <= j < |bs| && 0 <= k < |bs| && j != k ==> bs[j] != bs[k] && bs[j].bits != bs[k].bits) &&
    (forall j, k :: 0 <= j < |ms| && 0 <= k < |ms| && j != k ==> ms[j] != ms[k] && ms[j].bits != ms[k].bits) &&
    (forall j, k :: 0 <= j < |bs| && 0 <= k < |ms| ==> bs[j] != ms[k] && bs[j].bits != ms[k].bits)
  }

  /** The row tables of a list of blocks. */
  ghost function Tables(bs: seq<Block>): set<array<Row>>
  {
    set k | 0 <= k < |bs| :: bs[k].bits
  }

  /** Document d carries term t in the data blocks bs and meta blocks ms:
      every probe of t is set in d's slot of its data block and in its
      block's slot of its meta block. */
  ghost predicate IndexedIn(bs: seq<Block>, ms: seq<Block>, hashes: nat, mask: nat, mmask: nat, d: nat, t: bv32)
    reads Tables(bs), Tables(ms)
  {
    d / 256 < |bs| && d / 65536 < |ms| &&
    forall i :: 0 <= i < hashes ==>
      CellSet(bs[d / 256], Position(t, i, mask), d % 256) &&
      CellSet(ms[d / 65536], Position(t, i, mmask), (d / 256) % 256)
  }

  /** Every (document, term) pair of added is carried by the blocks. */
  ghost predicate RecordedIn(bs: seq<Block>, ms: seq<Block>, added: set<(nat, bv32)>, hashes: nat, mask: nat, mmask: nat)
    reads Tables(bs), Tables(ms)
  {
    forall d, t :: (d, t) in added ==> IndexedIn(bs, ms, hashes, mask, mmask, d, t)
  }

  /** Appending blocks keeps every recorded pair recorded. */
  lemma RecordedGrow(bs: seq<Block>, ms: seq<Block>, bs2: seq<Block>, ms2: seq<Block>,
                     added: set<(nat, bv32)>, hashes: nat, mask: nat, mmask: nat)
    requires bs <= bs2 && ms <= ms2
    requires RecordedIn(bs, ms, added, hashes, mask, mmask)
    ensures RecordedIn(bs2, ms2, added, hashes, mask, mmask)
  {
    forall d, t | (d, t) in added ensures IndexedIn(bs2, ms2, hashes, mask, mmask, d, t) {
      assert IndexedIn(bs, ms, hashes, mask, mmask, d, t);
      assert bs2[d / 256] == bs[d / 256] && ms2[d / 65536] == ms[d / 65536];
    }
  }

  /** Slot s of meta block k is set only for data blocks 256k + s below
      count. */
  ghost predicate MetaSoundIn(ms: seq<Block>, count: nat)
    reads Tables(ms)
  {
    forall k, p, s ::
      (0 <= k < |ms| && 0 <= p < ms[k].bits.Length && 0 <= s < IdsPerBlock && RowBit(ms[k].bits[p], s))
      ==> 256 * k + s < count
  }

  /** The counter of data block k is what n documents give it. */
  ghost predicate DataCounted(bs: seq<Block>, n: nat)
    reads bs
  {
    forall k :: 0 <= k < |bs| ==> bs[k].valid == Occupancy(n, 256 * k)
  }

  /** The counter of meta block k is what n documents give it. */
  ghost predicate MetaCounted(ms: seq<Block>, n: nat)
    reads ms
  {
    forall k :: 0 <= k < |ms| ==> ms[k].valid == Occupancy(n, 65536 * k)
  }

  /** One more probe of t extends the positions listed so far. */
  lemma TermPositionsStep(ps: seq<nat>, t: bv32, i: nat, mask: nat)
    ensures ps + TermPositions(t, i + 1, mask) == ps + TermPositions(t, i, mask) + [Position(t, i, mask)]
  {
  }

  /** Marking the slot of d in its data and meta block records every term
      in ts for d. */
  lemma MarkedIndexes(bs: seq<Block>, ms: seq<Block>, hashes: nat, mask: nat, mmask: nat, d: nat, ts: seq<bv32>,
                      base: seq<Row>, mbase: seq<Row>)
    requires d / 256 < |bs| && d / 65536 < |ms|
    requires hashes == 0 || ts == [] || (mask < bs[d / 256].bits.Length && mmask < ms[d / 65536].bits.Length)
    requires Marked(bs[d / 256].bits[..], base, d % 256, Positions(ts, hashes, mask))
    requires Marked(ms[d / 65536].bits[..], mbase, (d / 256) % 256, Positions(ts, hashes, mmask))
    ensures forall t :: t in ts ==> IndexedIn(bs, ms, hashes, mask, mmask, d, t)
  {
    forall t, i | t in ts && 0 <= i < hashes
      ensures CellSet(bs[d / 256], Position(t, i, mask), d % 256)
      ensures CellSet(ms[d / 65536], Position(t, i, mmask), (d / 256) % 256)
    {
      PositionsMember(ts, hashes, mask, Position(t, i, mask));
      PositionsMember(ts, hashes, mmask, Position(t, i, mmask));
    }
  }

  /** The first loop of Query: the data and meta positions of every probe
      of every term, in probe order. */
  method ProbeLists(qs: seq<bv32>, hashes: nat, mask: nat, mmask: nat) returns (bits: seq<nat>, mbits: seq<nat>)
    ensures bits == Positions(qs, hashes, mask) && mbits == Positions(qs, hashes, mmask)
  {
    bits, mbits := [], [];
    for j := 0 to |qs|
      invariant bits == Positions(qs[..j], hashes, mask) && mbits == Positions(qs[..j], hashes, mmask)
    {
      bits, mbits := ProbeTerm(qs[j], hashes, mask, mmask, bits, mbits);
      assert qs[..j + 1][..j] == qs[..j];
    }
    assert qs[..|qs|] == qs;
  }

  /** The inner loop of Query's first loop: the data and meta positions of
      every probe of term t, appended in probe order. */
  method ProbeTerm(t: bv32, hashes: nat, mask: nat, mmask: nat, bits0: seq<nat>, mbits0: seq<nat>)
    returns (bits: seq<nat>, mbits: seq<nat>)
    ensures bits == bits0 + TermPositions(t, hashes, mask) && mbits == mbits0 + TermPositions(t, hashes, mmask)
  {
    var h := Xorshift32(t);
    var h1, h2 := High16(h), Low16(h);
    bits, mbits := bits0, mbits0;
    for i := 0 to hashes
      invariant bits == bits0 + TermPositions(t, i, mask) && mbits == mbits0 + TermPositions(t, i, mmask)
    {
      bits := bits + [Probe(h1, h2, i, mask)];
      mbits := mbits + [Probe(h1, h2, i, mmask)];
    }
  }

  /** The innermost loop of Query: document 256b + s for every slot s that
      the query of data block b returned, after every earlier document. */
  method AppendDocs(docs0: seq<nat>, b: nat, slots: seq<nat>) returns (docs: seq<nat>)
    requires StrictlyAscending(docs0) && forall x :: x in docs0 ==> x < 256 * b
    requires StrictlyAscending(slots) && forall s :: s in slots ==> s < IdsPerBlock
    ensures StrictlyAscending(docs) && forall x :: x in docs ==> x < 256 * (b + 1)
    ensures forall x: nat :: x in docs <==> x in docs0 || (x / 256 == b && x % 256 in slots)
  {
    docs := docs0;
    for k := 0 to |slots|
      invariant StrictlyAscending(docs)
      invariant forall x :: x in docs ==> x < 256 * b + (if k == 0 then 0 else slots[k - 1] + 1)
      invariant forall x: nat :: x in docs <==> x in docs0 || (x / 256 == b && x % 256 in slots[..k])
    {
      assert slots[k] in slots;
      AscendingAppend(docs, 256 * b + slots[k]);
      PrefixStep(slots, k);
      docs := docs + [256 * b + slots[k]];
    }
    assert slots[..|slots|] == slots;
    if slots != [] {
      assert slots[|slots| - 1] in slots;
    }
  }

  class Index {
    /** The data blocks; block k holds documents 256k to 256k + 255. */
    var blocks: seq<Block>

    /** The meta blocks, with rows 64 times as long as a data block's. */
    var meta: seq<Block>

    /** Rows of a data block. */
    const blockSize: nat

    /** Bit positions per term (Go's uint16 `hashes`). */
    const hashes: nat

    /** `uint16(blockSize) - 1` and `uint16(64*blockSize) - 1`. */
    const mask: nat
    const mmask: nat


    /** Every (document, term) pair passed to AddTerms. */
    ghost var Added: set<(nat, bv32)>

    /** The blocks and their row tables. */
    ghost var Repr: set<object>

    /** Every block owns its own row table, of the expected length. */
    ghost predicate Shape()
      reads this`blocks, this`meta, this`Repr
    {
      Owns(blocks, meta, Repr, blockSize)
    }

    /** The counter of data block k is what n documents give it. */
    ghost predicate DataTallied(n: nat)
      reads this`blocks, blocks
    {
      DataCounted(blocks, n)
    }

    /** The counter of meta block k is what n documents give it. */
    ghost predicate MetaTallied(n: nat)
      reads this`meta, meta
    {
      MetaCounted(meta, n)
    }

    /** b data blocks and their meta blocks, whose counters are those that
        n documents give. */
    ghost predicate Tallied(n: nat, b: nat)
      reads this`blocks, this`meta, blocks, meta
    {
      |blocks| == b && |meta| == MetaCount(b) && DataTallied(n) && MetaTallied(n)
    }

    /** The documents handed out so far: 256 for every full data block
        and the counter of the last one. */
    ghost function NumDocs(): nat
      reads this`blocks, blocks
    {
      if |blocks| == 0 then 0 else 256 * (|blocks| - 1) + blocks[|blocks| - 1].valid
    }

    /** Counters as n documents give them mean n documents. */
    lemma TalliedCount(n: nat)
      requires Tallied(n, BlockCount(n))
      ensures NumDocs() == n
    {
    }

    /** Every term passed to AddTerms is recorded in its document's cells. */
    ghost predicate Recorded()
      reads this`blocks, this`meta, this`Added, Tables(blocks), Tables(meta)
    {
      RecordedIn(blocks, meta, Added, hashes, mask, mmask)
    }

    /** No set meta cell names a data block that does not exist. */
    ghost predicate MetaSound()
      reads this`blocks, this`meta, Tables(meta)
    {
      MetaSoundIn(meta, |blocks|)
    }

    ghost predicate Valid()
      reads this, Repr
    {
      Shape() && Tallied(NumDocs(), BlockCount(NumDocs())) && Recorded() && MetaSound() &&
      hashes < 0x1_0000 && mask == Uint16Mask(blockSize) && mmask == Uint16Mask(MetaScale * blockSize)
    }

    /** Document d survives the positions ps of its data block and mps of
        its meta block. */
    ghost predicate Matches(ps: seq<nat>, mps: seq<nat>, d: nat)
      reads this`blocks, this`meta, Tables(blocks), Tables(meta)
    {
      ps != [] && d / 256 < |blocks| && d / 65536 < |meta| &&
      AllSet(meta[d / 65536].bits[..], mps, (d / 256) % 256) &&
      AllSet(blocks[d / 256].bits[..], ps, d % 256)
    }

    /** Document d answers the query for the terms qs. */
    ghost predicate Hit(qs: seq<bv32>, d: nat)
      reads this`blocks, this`meta, Tables(blocks), Tables(meta)
    {
      Matches(Positions(qs, hashes, mask), Positions(qs, hashes, mmask), d)
    }

    /** NewIndex: no blocks yet; the hash count and the size are truncated
        to uint16 as Go's conversions do. */
    constructor(blockSize: nat, h: int)
      ensures Valid() && fresh(Repr)
      ensures this.blockSize == blockSize && hashes == h % 0x1_0000
      ensures mask == Uint16Mask(blockSize) && mmask == Uint16Mask(MetaScale * blockSize)
      ensures blocks == [] && meta == [] && NumDocs() == 0 && Added == {}
    {
      this.blockSize := blockSize;
      hashes := h % 0x1_0000;
      mask := Uint16Mask(blockSize);
      mmask := Uint16Mask(MetaScale * blockSize);
      blocks, meta := [], [];
      Added, Repr := {}, {};
    }

    /** Appends a new, empty data block. */
    method AppendDataBlock()
      requires Shape() && Recorded() && MetaSound()
      modifies this
      ensures Shape() && Recorded() && MetaSound()
      ensures |blocks| == |old(blocks)| + 1 && old(blocks) <= blocks && meta == old(meta)
      ensures blocks[|blocks| - 1].valid == 0 && fresh(blocks[|blocks| - 1])
      ensures forall k, p :: |old(blocks)| <= k < |blocks| && 0 <= p < blockSize ==> blocks[k].bits[p] == EmptyRow
      ensures Added == old(Added)
      ensures old(Repr) <= Repr && fresh(Repr - old(Repr))
    {
      var b := new Block(blockSize);
      blocks := blocks + [b];
      Repr := Repr + {b, b.bits};
      RecordedGrow(old(blocks), meta, blocks, meta, Added, hashes, mask, mmask);
    }

    /** Appends a new, empty meta block. */
    method AppendMetaBlock()
      requires Shape() && Recorded() && MetaSound()
      modifies this
      ensures Shape() && Recorded() && MetaSound()
      ensures |meta| == |old(meta)| + 1 && old(meta) <= meta && blocks == old(blocks)
      ensures meta[|meta| - 1].valid == 0 && fresh(meta[|meta| - 1])
      ensures forall k, p :: |old(meta)| <= k < |meta| && 0 <= p < MetaScale * blockSize ==> meta[k].bits[p] == EmptyRow
      ensures Added == old(Added)
      ensures old(Repr) <= Repr && fresh(Repr - old(Repr))
    {
      var m := new Block(MetaScale * blockSize);
      meta := meta + [m];
      Repr := Repr + {m, m.bits};
      RecordedGrow(blocks, old(meta), blocks, meta, Added, hashes, mask, mmask);
      EmptyRowClear();
    }

    /** The allocating half of AddDocument: the first data and meta block,
        or a new data block when the last one is full, and then a new meta
        block when the last one has counted 256 documents. */
    method Grow(ghost n: nat)
      requires Shape() && Tallied(n, BlockCount(n)) && Recorded() && MetaSound()
      modifies this
      ensures Shape() && Tallied(n, BlockCount(n + 1)) && Recorded() && MetaSound()
      ensures Added == old(Added)
      ensures old(blocks) <= blocks && old(meta) <= meta
      ensures old(Repr) <= Repr && fresh(Repr - old(Repr))
      ensures forall k :: |old(blocks)| <= k < |blocks| ==> fresh(blocks[k])
      ensures forall k :: |old(meta)| <= k < |meta| ==> fresh(meta[k])
      ensures forall k, p :: |old(blocks)| <= k < |blocks| && 0 <= p < blockSize ==> blocks[k].bits[p] == EmptyRow
      ensures forall k, p :: |old(meta)| <= k < |meta| && 0 <= p < MetaScale * blockSize ==> meta[k].bits[p] == EmptyRow
    {
      AppendBlock(n);
      if |blocks| == 0 {
        AppendDataBlock();
        AppendMetaBlock();
        return;
      }
      if blocks[|blocks| - 1].NumDocuments() == IdsPerBlock {
        AppendMeta(n);
        ghost var b := |blocks|;
        AppendDataBlock();
        assert Occupancy(n, 256 * b) == 0;
        if meta[|meta| - 1].NumDocuments() == IdsPerBlock {
          AppendMetaBlock();
          assert Occupancy(n, 65536 * (|meta| - 1)) == 0;
        }
      }
    }

    /** Takes the next slot of the last data block blk, which has room
        for document n. */
    method CountData(ghost n: nat, blk: Block) returns (slot: nat)
      requires Shape() && DataTallied(n) && |blocks| == BlockCount(n + 1) && blk == blocks[|blocks| - 1]
      requires Recorded() && MetaSound()
      modifies blk`valid
      ensures DataTallied(n + 1) && slot == n % 256
      ensures Recorded() && MetaSound()
    {
      AppendBlock(n);
      var r := blk.AddDocument();
      slot := r.value;
      forall k | 0 <= k < |blocks| ensures blocks[k].valid == Occupancy(n + 1, 256 * k) {
        OccupancyStep(n, 256 * k);
      }
    }

    /** Bumps the counter of meta block mk, ignoring the error a full meta
        block returns. */
    method CountMeta(ghost n: nat, mk: nat, mblk: Block)
      requires Shape() && MetaTallied(n) && mk == n / 65536 && mk < |meta| && mblk == meta[mk]
      requires Recorded() && MetaSound()
      modifies mblk`valid
      ensures MetaTallied(n + 1)
      ensures Recorded() && MetaSound()
    {
      var _ := mblk.AddDocument();
      forall k | 0 <= k < |meta| ensures meta[k].valid == Occupancy(n + 1, 65536 * k) {
        OccupancyStep(n, 65536 * k);
      }
    }

    /** The counting half of AddDocument: the document goes into the last
        data block blk, and the meta block mblk of that block counts it. */
    method Count(ghost n: nat, blk: Block, mblk: Block) returns (docid: nat)
      requires Shape() && Tallied(n, BlockCount(n + 1))
      requires (BlockCount(n + 1) - 1) / 256 < |meta|
      requires blk == blocks[BlockCount(n + 1) - 1] && mblk == meta[(BlockCount(n + 1) - 1) / 256]
      requires Recorded() && MetaSound()
      modifies blk`valid, mblk`valid
      ensures Tallied(n + 1, BlockCount(n + 1)) && docid == n
      ensures Recorded() && MetaSound()
    {
      AppendBlock(n);
      var blkid := |blocks| - 1;
      var slot := CountData(n, blk);
      CountMeta(n, blkid / IdsPerBlock, mblk);
      docid := blkid * IdsPerBlock + slot;
    }

    /** Grow followed by Count, for document n. */
    method Admit(ghost n: nat) returns (docid: nat)
      requires Shape() && Tallied(n, BlockCount(n)) && Recorded() && MetaSound()
      modifies this, blocks, meta
      ensures Shape() && Tallied(n + 1, BlockCount(n + 1)) && Recorded() && MetaSound()
      ensures docid == n && Added == old(Added)
      ensures old(blocks) <= blocks && old(meta) <= meta
      ensures fresh(Repr - old(Repr))
      ensures forall k, p :: |old(blocks)| <= k < |blocks| && 0 <= p < blockSize ==> blocks[k].bits[p] == EmptyRow
      ensures forall k, p :: |old(meta)| <= k < |meta| && 0 <= p < MetaScale * blockSize ==> meta[k].bits[p] == EmptyRow
    {
      Grow(n);
      AppendBlock(n);
      MetaCovers(|blocks|, |blocks| - 1);
      docid := Count(n, blocks[|blocks| - 1], meta[(|blocks| - 1) / IdsPerBlock]);
    }

    /** AddDocument: the n-th call returns document n, in the slot n % 256
        of data block n / 256. */
    method AddDocument() returns (docid: nat)
      requires Valid()
      modifies this, blocks, meta
      ensures Valid()
      ensures docid == old(NumDocs()) && NumDocs() == old(NumDocs()) + 1 && Added == old(Added)
      ensures |blocks| == BlockCount(NumDocs()) && |meta| == MetaCount(|blocks|)
      ensures old(blocks) <= blocks && old(meta) <= meta
      ensures fresh(Repr - old(Repr))
      ensures forall k :: 0 <= k < |old(blocks)| ==> blocks[k].bits[..] == old(blocks[k].bits[..])
      ensures forall k :: 0 <= k < |old(meta)| ==> meta[k].bits[..] == old(meta[k].bits[..])
      ensures forall k, p :: |old(blocks)| <= k < |blocks| && 0 <= p < blockSize ==> blocks[k].bits[p] == EmptyRow
      ensures forall k, p :: |old(meta)| <= k < |meta| && 0 <= p < MetaScale * blockSize ==> meta[k].bits[p] == EmptyRow
    {
      ghost var n := NumDocs();
      docid := Admit(n);
      TalliedCount(n + 1);
    }

    /** AddTerms: every probe of every term sets slot d % 256 in data block
        d / 256 and slot (d / 256) % 256 in meta block d / 65536; nothing
        else changes. Document d need not have been handed out, but its
        data block must exist. */
    method AddTerms(d: nat, ts: seq<bv32>)
      requires Valid() && d / 256 < |blocks|
      requires blockSize >= 1 || hashes == 0 || ts == []
      modifies this`Added, blocks[d / 256].bits, meta[d / 65536].bits
      ensures Valid()
      ensures Added == old(Added) + set t | t in ts :: (d, t)
      ensures Marked(blocks[d / 256].bits[..], old(blocks[d / 256].bits[..]), d % 256, Positions(ts, hashes, mask))
      ensures Marked(meta[d / 65536].bits[..], old(meta[d / 65536].bits[..]), (d / 256) % 256, Positions(ts, hashes, mmask))
    {
      if blockSize >= 1 {
        MaskBelowSize(blockSize);
        MaskBelowSize(MetaScale * blockSize);
      }
      Mark(d, ts);
    }

    /** setbit on data block k, seen as one more marked row; what is
        recorded stays recorded. */
    method SetData(k: nat, blk: Block, slot: nat, p: nat, ghost base: seq<Row>, ghost ps: seq<nat>)
      requires Shape() && Recorded() && MetaSound()
      requires k < |blocks| && blk == blocks[k] && slot < IdsPerBlock && p < blk.bits.Length
      requires Marked(blk.bits[..], base, slot, ps)
      modifies blk.bits
      ensures Recorded() && MetaSound()
      ensures Marked(blk.bits[..], base, slot, ps + [p])
    {
      assert blk.bits !in Tables(meta);
      MarkStep(blk.bits[..], base, slot, ps, p);
      blk.SetBit(slot, p);
      forall e, t | (e, t) in Added ensures IndexedIn(blocks, meta, hashes, mask, mmask, e, t) {
        assert old(IndexedIn(blocks, meta, hashes, mask, mmask, e, t));
        forall i | 0 <= i < hashes ensures CellSet(blocks[e / 256], Position(t, i, mask), e % 256) {
          assert old(CellSet(blocks[e / 256], Position(t, i, mask), e % 256));
        }
      }
    }

    /** setbit on meta block k, for a data block that exists; what is
        recorded stays recorded, and the meta blocks stay sound. */
    method SetMeta(k: nat, mblk: Block, slot: nat, p: nat, ghost base: seq<Row>, ghost ps: seq<nat>)
      requires Shape() && Recorded() && MetaSound()
      requires k < |meta| && mblk == meta[k] && slot < IdsPerBlock && p < mblk.bits.Length
      requires 256 * k + slot < |blocks|
      requires Marked(mblk.bits[..], base, slot, ps)
      modifies mblk.bits
      ensures Recorded() && MetaSound()
      ensures Marked(mblk.bits[..], base, slot, ps + [p])
    {
      assert mblk.bits !in Tables(blocks);
      MarkStep(mblk.bits[..], base, slot, ps, p);
      mblk.SetBit(slot, p);
      forall e, t | (e, t) in Added ensures IndexedIn(blocks, meta, hashes, mask, mmask, e, t) {
        assert old(IndexedIn(blocks, meta, hashes, mask, mmask, e, t));
        forall i | 0 <= i < hashes ensures CellSet(meta[e / 65536], Position(t, i, mmask), (e / 256) % 256) {
          assert old(CellSet(meta[e / 65536], Position(t, i, mmask), (e / 256) % 256));
        }
      }
      forall j, q, s | 0 <= j < |meta| && 0 <= q < meta[j].bits.Length && 0 <= s < IdsPerBlock && RowBit(meta[j].bits[q], s)
        ensures 256 * j + s < |blocks|
      {
        if j != k || q != p || s != slot {
          assert old(RowBit(meta[j].bits[q], s));
        }
      }
    }

    /** One probe of AddTerms: setbit on the data row p and the meta row mp. */
    method SetBoth(blkid: nat, mblkid: nat, id: nat, mid: nat, p: nat, mp: nat,
                   ghost base: seq<Row>, ghost mbase: seq<Row>, ghost ps: seq<nat>, ghost mps: seq<nat>)
      requires Shape() && Recorded() && MetaSound()
      requires blkid < |blocks| && mblkid < |meta| && 256 * mblkid + mid < |blocks| && id < IdsPerBlock && mid < IdsPerBlock
      requires p < blockSize && mp < MetaScale * blockSize
      requires Marked(blocks[blkid].bits[..], base, id, ps) && Marked(meta[mblkid].bits[..], mbase, mid, mps)
      modifies blocks[blkid].bits, meta[mblkid].bits
      ensures Recorded() && MetaSound()
      ensures Marked(blocks[blkid].bits[..], base, id, ps + [p])
      ensures Marked(meta[mblkid].bits[..], mbase, mid, mps + [mp])
    {
      var blk, mblk := blocks[blkid], meta[mblkid];
      assert blk.bits != mblk.bits;
      SetData(blkid, blk, id, p, base, ps);
      SetMeta(mblkid, mblk, mid, mp, mbase, mps);
    }

    /** One pass of the inner loop of AddTerms: probe i of term t extends
        the marks of the probes before it. */
    method ProbeNext(blkid: nat, mblkid: nat, id: nat, mid: nat, t: bv32, h1: nat, h2: nat, i: nat,
                     ghost base: seq<Row>, ghost mbase: seq<Row>, ghost ps: seq<nat>, ghost mps: seq<nat>)
      requires Shape() && Recorded() && MetaSound()
      requires blkid < |blocks| && mblkid < |meta| && 256 * mblkid + mid < |blocks| && id < IdsPerBlock && mid < IdsPerBlock
      requires mask < blockSize && mmask < MetaScale * blockSize
      requires h1 == High16(Xorshift32(t)) && h2 == Low16(Xorshift32(t))
      requires Marked(blocks[blkid].bits[..], base, id, ps + TermPositions(t, i, mask))
      requires Marked(meta[mblkid].bits[..], mbase, mid, mps + TermPositions(t, i, mmask))
      modifies blocks[blkid].bits, meta[mblkid].bits
      ensures Recorded() && MetaSound()
      ensures Marked(blocks[blkid].bits[..], base, id, ps + TermPositions(t, i + 1, mask))
      ensures Marked(meta[mblkid].bits[..], mbase, mid, mps + TermPositions(t, i + 1, mmask))
    {
      TermPositionsStep(ps, t, i, mask);
      TermPositionsStep(mps, t, i, mmask);
      SetBoth(blkid, mblkid, id, mid, Probe(h1, h2, i, mask), Probe(h1, h2, i, mmask),
              base, mbase, ps + TermPositions(t, i, mask), mps + TermPositions(t, i, mmask));
    }

    /** The inner loop of AddTerms: every probe of term t sets slot id of
        its data row and slot mid of its meta row. */
    method StampTerm(blkid: nat, mblkid: nat, id: nat, mid: nat, t: bv32,
                     ghost base: seq<Row>, ghost mbase: seq<Row>, ghost ps: seq<nat>, ghost mps: seq<nat>)
      requires Shape() && Recorded() && MetaSound()
      requires blkid < |blocks| && mblkid < |meta| && 256 * mblkid + mid < |blocks| && id < IdsPerBlock && mid < IdsPerBlock
      requires hashes == 0 || (mask < blockSize && mmask < MetaScale * blockSize)
      requires Marked(blocks[blkid].bits[..], base, id, ps) && Marked(meta[mblkid].bits[..], mbase, mid, mps)
      modifies blocks[blkid].bits, meta[mblkid].bits
      ensures Recorded() && MetaSound()
      ensures Marked(blocks[blkid].bits[..], base, id, ps + TermPositions(t, hashes, mask))
      ensures Marked(meta[mblkid].bits[..], mbase, mid, mps + TermPositions(t, hashes, mmask))
    {
      var h := Xorshift32(t);
      var h1, h2 := High16(h), Low16(h);
      var i := 0;
      while i < hashes
        invariant 0 <= i <= hashes
        invariant Recorded() && MetaSound()
        invariant Marked(blocks[blkid].bits[..], base, id, ps + TermPositions(t, i, mask))
        invariant Marked(meta[mblkid].bits[..], mbase, mid, mps + TermPositions(t, i, mmask))
      {
        ProbeNext(blkid, mblkid, id, mid, t, h1, h2, i, base, mbase, ps, mps);
        i := i + 1;
      }
    }

    /** One pass of the outer loop of AddTerms: the probes of term ts[j]
        extend the marks of the terms before it. */
    method StampNext(blkid: nat, mblkid: nat, id: nat, mid: nat, ts: seq<bv32>, j: nat,
                     ghost base: seq<Row>, ghost mbase: seq<Row>)
      requires Shape() && Recorded() && MetaSound()
      requires blkid < |blocks| && mblkid < |meta| && 256 * mblkid + mid < |blocks| && id < IdsPerBlock && mid < IdsPerBlock
      requires j < |ts| && (hashes == 0 || (mask < blockSize && mmask < MetaScale * blockSize))
      requires Marked(blocks[blkid].bits[..], base, id, Positions(ts[..j], hashes, mask))
      requires Marked(meta[mblkid].bits[..], mbase, mid, Positions(ts[..j], hashes, mmask))
      modifies blocks[blkid].bits, meta[mblkid].bits
      ensures Recorded() && MetaSound()
      ensures Marked(blocks[blkid].bits[..], base, id, Positions(ts[..j + 1], hashes, mask))
      ensures Marked(meta[mblkid].bits[..], mbase, mid, Positions(ts[..j + 1], hashes, mmask))
    {
      StampTerm(blkid, mblkid, id, mid, ts[j], base, mbase,
                Positions(ts[..j], hashes, mask), Positions(ts[..j], hashes, mmask));
      assert ts[..j + 1][..j] == ts[..j];
    }

    /** The outer loop of AddTerms: every probe of every term of ts sets
        the slot of d in its data row and its meta row. */
    method MarkTerms(d: nat, ts: seq<bv32>)
      requires Shape() && Recorded() && MetaSound()
      requires d / 256 < |blocks| && d / 65536 < |meta|
      requires hashes == 0 || ts == [] || (mask < blockSize && mmask < MetaScale * blockSize)
      modifies blocks[d / 256].bits, meta[d / 65536].bits
      ensures Recorded() && MetaSound()
      ensures Marked(blocks[d / 256].bits[..], old(blocks[d / 256].bits[..]), d % 256, Positions(ts, hashes, mask))
      ensures Marked(meta[d / 65536].bits[..], old(meta[d / 65536].bits[..]), (d / 256) % 256, Positions(ts, hashes, mmask))
    {
      var blkid, id := d / 256, d % 256;
      var mblkid, mid := d / 65536, (d / 256) % 256;
      assert 256 * mblkid + mid == blkid;
      ghost var base, mbase := blocks[blkid].bits[..], meta[mblkid].bits[..];
      var j := 0;
      while j < |ts|
        invariant 0 <= j <= |ts|
        invariant Recorded() && MetaSound()
        invariant Marked(blocks[blkid].bits[..], base, id, Positions(ts[..j], hashes, mask))
        invariant Marked(meta[mblkid].bits[..], mbase, mid, Positions(ts[..j], hashes, mmask))
      {
        StampNext(blkid, mblkid, id, mid, ts, j, base, mbase);
        j := j + 1;
      }
      assert ts[..|ts|] == ts;
    }

    /** MarkTerms, and the pairs it records. */
    method Mark(d: nat, ts: seq<bv32>)
      requires Shape() && Recorded() && MetaSound()
      requires d / 256 < |blocks| && d / 65536 < |meta|
      requires hashes == 0 || ts == [] || (mask < blockSize && mmask < MetaScale * blockSize)
      modifies this`Added, blocks[d / 256].bits, meta[d / 65536].bits
      ensures Recorded() && MetaSound()
      ensures Added == old(Added) + set t | t in ts :: (d, t)
      ensures Marked(blocks[d / 256].bits[..], old(blocks[d / 256].bits[..]), d % 256, Positions(ts, hashes, mask))
      ensures Marked(meta[d / 65536].bits[..], old(meta[d / 65536].bits[..]), (d / 256) % 256, Positions(ts, hashes, mmask))
    {
      MarkTerms(d, ts);
      MarkedIndexes(blocks, meta, hashes, mask, mmask, d, ts, old(blocks[d / 256].bits[..]), old(meta[d / 65536].bits[..]));
      Added := Added + set t | t in ts :: (d, t);
      forall e, t | (e, t) in Added ensures IndexedIn(blocks, meta, hashes, mask, mmask, e, t) {
        if (e, t) !in old(Added) {
          assert e == d && t in ts;
        }
      }
    }

    /** The scan of data block b, whose meta slot survived mps: the
        documents of the slots that survive ps. */
    method ScanBlock(b: nat, ps: seq<nat>, mps: seq<nat>, docs0: seq<nat>) returns (docs: seq<nat>)
      requires Shape() && b < |blocks| && b / 256 < |meta|
      requires Selects(ps, blockSize) && (ps == [] <==> mps == [])
      requires mps != [] && AllSet(meta[b / 256].bits[..], mps, b % 256)
      requires StrictlyAscending(docs0) && forall x :: x in docs0 ==> x < 256 * b
      ensures StrictlyAscending(docs) && forall x :: x in docs ==> x < 256 * (b + 1)
      ensures forall x: nat :: x in docs <==> x in docs0 || (x / 65536 == b / 256 && (x / 256) % 256 == b % 256 && Matches(ps, mps, x))
    {
      var d := blocks[b].Query(ps);
      docs := AppendDocs(docs0, b, d);
      forall x: nat ensures x / 256 == b <==> x / 65536 == b / 256 && (x / 256) % 256 == b % 256 {
        BlockOfDoc(x, b);
      }
    }

    /** The scan of meta block i: the data blocks whose meta slot survives
        mps, and in each the slots that survive ps. */
    method ScanGroup(i: nat, ps: seq<nat>, mps: seq<nat>, docs0: seq<nat>) returns (docs: seq<nat>)
      requires Shape() && MetaSound() && i < |meta|
      requires Selects(ps, blockSize) && Selects(mps, MetaScale * blockSize) && (ps == [] <==> mps == [])
      requires StrictlyAscending(docs0) && forall x :: x in docs0 ==> x < 65536 * i
      ensures StrictlyAscending(docs) && forall x :: x in docs ==> x < 65536 * (i + 1)
      ensures forall x: nat :: x in docs <==> x in docs0 || (x / 65536 == i && Matches(ps, mps, x))
    {
      var blks := meta[i].Query(mps);
      docs := docs0;
      for k := 0 to |blks|
        invariant StrictlyAscending(docs)
        invariant forall x :: x in docs ==> x < 256 * (256 * i + (if k == 0 then 0 else blks[k - 1] + 1))
        invariant forall x: nat :: x in docs <==> x in docs0 || (x / 65536 == i && (x / 256) % 256 in blks[..k] && Matches(ps, mps, x))
      {
        docs := ScanSlot(i, blks, k, ps, mps, docs0, docs);
      }
      assert blks[..|blks|] == blks;
      if blks != [] {
        assert blks[|blks| - 1] in blks;
      }
    }

    /** One step of ScanGroup: the scan of data block 256i + blks[k], the
        k-th data block whose meta slot survives. */
    method ScanSlot(i: nat, blks: seq<nat>, k: nat, ps: seq<nat>, mps: seq<nat>, ghost docs0: seq<nat>, acc: seq<nat>)
      returns (docs: seq<nat>)
      requires Shape() && MetaSound() && i < |meta|
      requires Selects(ps, blockSize) && (ps == [] <==> mps == [])
      requires StrictlyAscending(blks) && k < |blks|
      requires forall s: nat :: s in blks <==> mps != [] && s < IdsPerBlock && AllSet(meta[i].bits[..], mps, s)
      requires StrictlyAscending(acc)
      requires forall x :: x in acc ==> x < 256 * (256 * i + (if k == 0 then 0 else blks[k - 1] + 1))
      requires forall x: nat :: x in acc <==> x in docs0 || (x / 65536 == i && (x / 256) % 256 in blks[..k] && Matches(ps, mps, x))
      ensures StrictlyAscending(docs) && forall x :: x in docs ==> x < 256 * (256 * i + blks[k] + 1)
      ensures forall x: nat :: x in docs <==> x in docs0 || (x / 65536 == i && (x / 256) % 256 in blks[..k + 1] && Matches(ps, mps, x))
    {
      assert blks[k] in blks;
      assert RowBit(meta[i].bits[mps[0]], blks[k]);
      var b := i * IdsPerBlock + blks[k];
      assert b / 256 == i && b % 256 == blks[k];
      if k > 0 {
        assert blks[k - 1] < blks[k];
      }
      PrefixStep(blks, k);
      docs := ScanBlock(b, ps, mps, acc);
    }

    /** Query: ascending, exactly the documents whose data and meta slots
        survive every probe of every term. */
    method Query(qs: seq<bv32>) returns (docs: seq<nat>)
      requires Valid()
      requires blockSize >= 1 || hashes == 0 || qs == [] || meta == []
      ensures StrictlyAscending(docs)
      ensures forall d: nat :: d in docs <==> Hit(qs, d)
      ensures qs == [] || hashes == 0 ==> docs == []
    {
      var bits, mbits := ProbeLists(qs, hashes, mask, mmask);
      PositionsEmpty(qs, hashes, mask);
      PositionsEmpty(qs, hashes, mmask);
      if blockSize >= 1 {
        MaskBelowSize(blockSize);
        MaskBelowSize(MetaScale * blockSize);
        forall j | 0 <= j < |bits| ensures bits[j] < blockSize {
          PositionsBelow(qs, hashes, mask, bits[j]);
        }
        forall j | 0 <= j < |mbits| ensures mbits[j] < MetaScale * blockSize {
          PositionsBelow(qs, hashes, mmask, mbits[j]);
        }
      }
      docs := [];
      for i := 0 to |meta|
        invariant StrictlyAscending(docs)
        invariant forall x :: x in docs ==> x < 65536 * i
        invariant forall x: nat :: x in docs <==> x / 65536 < i && Matches(bits, mbits, x)
      {
        docs := ScanGroup(i, bits, mbits, docs);
      }
      if docs != [] {
        assert docs[0] in docs;
      }
    }

    /** No false negatives: a document that was given every queried term
        answers the query, provided each term has at least one probe. */
    lemma NoFalseNegatives(qs: seq<bv32>, d: nat)
      requires Valid()
      requires qs != [] && hashes >= 1
      requires forall t :: t in qs ==> (d, t) in Added
      ensures Hit(qs, d)
    {
      var ps, mps := Positions(qs, hashes, mask), Positions(qs, hashes, mmask);
      PositionsEmpty(qs, hashes, mask);
      assert IndexedIn(blocks, meta, hashes, mask, mmask, d, qs[0]);
      forall j | 0 <= j < |ps| ensures ps[j] < |blocks[d / 256].bits[..]| && RowBit(blocks[d / 256].bits[..][ps[j]], d % 256) {
        PositionsMember(qs, hashes, mask, ps[j]);
        var t, i :| t in qs && 0 <= i < hashes && ps[j] == Position(t, i, mask);
        assert IndexedIn(blocks, meta, hashes, mask, mmask, d, t);
        assert CellSet(blocks[d / 256], Position(t, i, mask), d % 256);
      }
      forall j | 0 <= j < |mps| ensures mps[j] < |meta[d / 65536].bits[..]| && RowBit(meta[d / 65536].bits[..][mps[j]], (d / 256) % 256) {
        PositionsMember(qs, hashes, mmask, mps[j]);
        var t, i :| t in qs && 0 <= i < hashes && mps[j] == Position(t, i, mmask);
        assert IndexedIn(blocks, meta, hashes, mask, mmask, d, t);
        assert CellSet(meta[d / 65536], Position(t, i, mmask), (d / 256) % 256);
      }
    }
  }
}
