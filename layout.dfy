/** How many data and meta blocks an index holds after n calls of
    AddDocument, and how many slots of each are handed out. Data block k
    holds documents 256k to 256k + 255; meta block k stands for data blocks
    256k to 256k + 255, but its counter is bumped once per document. */
module Layout {

  /** A meta row is 64 times as long as a data row. */
  const MetaScale: nat := 64

  /** Data blocks after n documents: a new one is appended only when the
      last one is full. */
  function BlockCount(n: nat): (b: nat)
    ensures 256 * b >= n
    ensures b > 0 ==> 256 * (b - 1) < n
  {
    (n + 255) / 256
  }

  /** Meta blocks for b data blocks, as AddDocument allocates them: one
      with the first data block, and one more each time a data block is
      appended while the last meta block has counted 256 documents. */
  function MetaCount(b: nat): nat
  {
    if b <= 1 then b else (b - 2) / 256 + 2
  }

  /** The counter of a block whose first document is number first, after n
      documents: the documents from first on, capped at 256. */
  function Occupancy(n: nat, first: nat): (v: nat)
    ensures v <= 256
    ensures v == 0 <==> n <= first
  {
    if n <= first then 0 else if n - first >= 256 then 256 else n - first
  }

  /** One more document raises exactly the counter of the block it falls
      into, and only while that block has room. */
  lemma OccupancyStep(n: nat, first: nat)
    ensures Occupancy(n + 1, first) == Occupancy(n, first) + (if first <= n < first + 256 then 1 else 0)
  {
  }

  /** The meta block a data block reports to always exists. */
  lemma MetaCovers(b: nat, k: nat)
    requires k < b
    ensures k / 256 < MetaCount(b)
  {
  }

  /** Every meta block but possibly the last is needed; there is at most
      one spare. */
  lemma MetaSpare(b: nat)
    requires b >= 1
    ensures (b - 1) / 256 + 1 <= MetaCount(b) <= (b - 1) / 256 + 2
  {
  }

  /** The literal allocation rule gives one meta block more than the
      ceil(b / 256) that the data blocks need, except for a single block
      and for counts of the form 256k + 1. */
  lemma MetaCountVersusNeeded(b: nat)
    ensures MetaCount(b) == (b + 255) / 256 + (if b >= 2 && b % 256 != 1 then 1 else 0)
  {
  }

  /** Every data block but the last is full; the last holds at least one
      document. */
  lemma BlocksFull(n: nat, k: nat)
    requires k < BlockCount(n)
    ensures k + 1 < BlockCount(n) ==> Occupancy(n, 256 * k) == 256
    ensures Occupancy(n, 256 * k) >= 1
  {
  }

  /** The data block document n goes into: the last one, or a new one
      exactly when the last one is full. */
  lemma AppendBlock(n: nat)
    ensures BlockCount(n + 1) - 1 == n / 256
    ensures Occupancy(n, 256 * (n / 256)) == n % 256
    ensures n == 0 ==> BlockCount(n) == 0 && BlockCount(1) == 1 && MetaCount(1) == 1
    ensures n > 0 ==> BlockCount(n) >= 1
    ensures n > 0 ==> (Occupancy(n, 256 * (BlockCount(n) - 1)) == 256 <==> BlockCount(n + 1) == BlockCount(n) + 1)
    ensures BlockCount(n + 1) <= BlockCount(n) + 1
  {
  }

  /** When a data block is appended, a meta block is appended exactly when
      the last one has counted 256 documents, and the new one starts past
      document n. */
  lemma AppendMeta(n: nat)
    requires n > 0 && BlockCount(n + 1) == BlockCount(n) + 1
    ensures MetaCount(BlockCount(n)) >= 1
    ensures Occupancy(n, 65536 * (MetaCount(BlockCount(n)) - 1)) == 256 <==>
              MetaCount(BlockCount(n + 1)) == MetaCount(BlockCount(n)) + 1
    ensures MetaCount(BlockCount(n + 1)) <= MetaCount(BlockCount(n)) + 1
    ensures n < 65536 * MetaCount(BlockCount(n))
  {
  }
}
