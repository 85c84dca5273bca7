# bloomindex in Dafny

A model of the core of `go-bloomindex`, a bit-sliced signature index in the
style of BitFunnel. Documents are numbered in the order `AddDocument` hands
them out. Each document is given a set of 32-bit term hashes with `AddTerms`.
`Query` returns the documents that might contain every term of a query.

The model follows the index's own structure:

- **Bits**: 64-bit words as natural numbers below 2^64. It also defines bit
  access, AND, OR, shift right and the trailing-zero count (`Ctz`).
- **Rows**: a `bitrow` is a row of four words, one bit per document slot
  (256 slots). `Popset` lists the set slots of a row. It is proved against
  the ascending specification function `SetSlots`.
- **QueryKernel**: `QueryCore` ANDs the selected rows of a block into an
  accumulator that starts all ones, and stops early once the accumulator is
  empty. It is proved against the function `Intersect`. Lemmas show what
  `Intersect` means:
  - a slot survives exactly when every selected row has it;
  - the order and repetition of positions do not matter;
  - the early return does not change the result.
- **Blocks**: the class `Block` holds an array of rows and the counter
  `valid`. Its methods are `addDocument`, `setbit`, `getbit`, `get` and
  `query`. `AddDocument` returns `Err(ErrNoSpace)` when the block is full.
- **Hashing**: `xorshift32`, the split of its result into the halves `h1`
  and `h2`, and the probe `(h1 + i*h2) & mask`. The sum and product wrap
  modulo 2^16, as Go's `uint16` does. Also the masks `uint16(size) - 1`,
  including their wrap-around.
- **Layout**: how many data and meta blocks exist after n documents, and
  what each block's counter holds.
- **BloomIndex**: the class `Index`, with `NewIndex`, `AddDocument`,
  `AddTerms` and `Query`.
  - The invariant `Valid` ties the blocks and counters to the number of
    documents handed out.
  - It says that every (document, term) pair given to `AddTerms` is
    recorded in the cells of its probes.
  - It says that no meta cell names a data block that does not exist. This
    is what makes `idx.blocks[b]` in `Query` safe.
  - `Query` is proved to return, in ascending order, exactly the documents
    whose data slot and meta slot survive every probe of every term.
  - `NoFalseNegatives` proves that a document given all the queried terms
    is always among them.

Where the code departs from the evident design, the model follows the
code:

- **Meta block count.** Data block b reports to meta block b / 256, so
  B data blocks need ceil(B / 256) meta blocks. `AddDocument` instead appends a meta block
  whenever it appends a data block while the last meta block's counter is
  at 256. That counter is bumped once per *document*, not once per data
  block. So a second meta block appears with the second data block, and
  the count is `Layout.MetaCount`: B for B <= 1, otherwise
  (B - 2) / 256 + 2. `Layout.MetaCountVersusNeeded` states the difference
  exactly. Data block b still reports to meta block b / 256, so the extra
  meta blocks stay empty. `Query` scans them and finds nothing.
- **Counters do not filter queries.** Block `query` returns every slot that
  survives, whether or not that slot has been handed out. So `AddTerms` on
  a document number inside an existing data block, but not yet handed out,
  is answered by `Query`. The model allows this too.
- **Portable kernel width.** The portable `queryCore` in `query.go`
  indexes eight words of an accumulator whose type, `bitrow`, has four. It
  also takes `[]uint32` positions where its caller passes `[]uint16`. The
  model uses the four-word row that `bitrow`, `newBlock` and `popset`
  define, and the same loop and early return.

## Model

| member | source | states |
|---|---|---|
| Rows.Popset | bloomindex.go:172-189 | The result is exactly the set slots of the row, each once, in ascending order; it holds as many entries as the row has set bits. |
| Rows.PopNext | bloomindex.go:180-184 | One step of the loop appends the lowest set slot left in word i, skips past it, and strictly shrinks what is left of the word. |
| Rows.PopWord | bloomindex.go:177-185 | The ctz-and-shift loop over word i appends exactly the set slots 64i..64i+63 after those of the earlier words. |
| QueryKernel.QueryCore | query.go:6-27 | Whatever the accumulator held, it ends as the AND of all-ones with every selected row, early return included. |
| QueryKernel.AndRows | query.go:14-21 | A slot survives a word-wise AND exactly when both rows have it. |
| QueryKernel.IntersectBit | query.go:8-21 | A slot survives the kernel exactly when every selected row has it set. |
| QueryKernel.IntersectNone | query.go:8-11 | With no positions every slot survives. |
| QueryKernel.IntersectSubset | query.go:13-21 | The result is a bitwise subset of every selected row. |
| QueryKernel.AllSetMembers | query.go:13-21 | Surviving every selected row depends only on the set of positions, not on their list. |
| QueryKernel.IntersectSameSet | query.go:13-21 | Two position lists with the same members give the same result, whatever their order and repetitions. |
| QueryKernel.IntersectEmpty | query.go:23-25 | Once the accumulator is zero the remaining rows keep it zero, so the early return gives the full loop's result. |
| Blocks.SetSlot | bloomindex.go:147 | ORing in the slot's bit sets that slot and keeps every other slot as it was. |
| Blocks.PaperExample | bloomindex_test.go:40-80 | On the paper's 16-row table, querying rows 1, 5, 7, 10 and 12 leaves only slot 9 (document J). |
| Blocks.Block.constructor | bloomindex.go:124-128 | A new block has size all-zero rows and no slot handed out. |
| Blocks.Block.NumDocuments | bloomindex.go:130-132 | The counter never exceeds the 256 slots of a block. |
| Blocks.Block.AddDocument | bloomindex.go:134-144 | A full block returns ErrNoSpace and is unchanged; otherwise it returns the old counter and the counter grows by one. |
| Blocks.Block.GetBit | bloomindex.go:150-152 | The result is the cell's bit in place in its word: non-zero exactly when the cell is set. |
| Blocks.Block.Get | bloomindex.go:154-156 | The row returned has set exactly the slots whose getbit is non-zero. |
| Blocks.Block.SetBit | bloomindex.go:146-148 | Afterwards getbit of the cell is non-zero, and every other cell reads as before. |
| Blocks.Block.Query | bloomindex.go:158-170 | No positions give no slots; otherwise the result is ascending and holds exactly the slots set in every selected row. |
| Hashing.Xorshift32 | bloomindex.go:191-201 | A non-zero state is never mixed to zero. |
| Hashing.XorLeft13 | bloomindex.go:197 | The step `y ^= y << 13` maps a non-zero value to a non-zero value. |
| Hashing.XorRight17 | bloomindex.go:198 | The step `y ^= y >> 17` maps a non-zero value to a non-zero value. |
| Hashing.XorLeft5 | bloomindex.go:199 | The step `y ^= y << 5` maps a non-zero value to a non-zero value. |
| Hashing.Left13Injective | bloomindex.go:197 | Two values with the same `y ^= y << 13` result are equal. |
| Hashing.Left5Injective | bloomindex.go:199 | Two values with the same `y ^= y << 5` result are equal. |
| Hashing.High16 | bloomindex.go:69 | h1 is the number of whole 2^16 units in the mixed hash, as `uint16(h >> 16)` keeps. |
| Hashing.Low16 | bloomindex.go:69 | h2 is below 2^16, as `uint16(h)` keeps. |
| Hashing.Halves | bloomindex.go:69 | 2^16 * h1 + h2 gives back the mixed hash: the split loses nothing. |
| Hashing.XorshiftOfOne | bloomindex.go:191-201 | Seeded with 1, the generator's first output is 270369. |
| Hashing.ZeroTermProbesRowZero | bloomindex.go:68-71 | 0 is a fixed point of xorshift32, so term 0 probes row 0 with every probe. |
| Hashing.Uint16Mask | bloomindex.go:30-31 | The mask fits in 16 bits. |
| Hashing.MaskBelowSize | bloomindex.go:30-31 | For every size of at least one row the mask is below the size, so every probe selects an existing row. |
| Hashing.MaskOfPowerOfTwo | bloomindex.go:30-31 | For a power-of-two size up to 2^16 the mask is size - 1, including 2^16, where the conversion wraps to 0 and the subtraction wraps to 0xffff. |
| Hashing.Probe | bloomindex.go:71 | A probe never exceeds the mask. |
| Hashing.ProbeIsModulo | bloomindex.go:69-72 | For a power-of-two row count, a probe is the wrapped double hash modulo the row count. |
| Hashing.Position | bloomindex.go:68-71 | A term's probe position never exceeds the mask. |
| Hashing.TermPositions | bloomindex.go:70-73 | The list of a term's probes has one entry per probe; entry i is probe i. |
| Hashing.PositionsMember | bloomindex.go:84-91 | The positions listed for a query are exactly the probes of its terms. |
| Hashing.PositionsEmpty | bloomindex.go:84-91 | The list is empty exactly when there are no terms or no probes per term. |
| Hashing.PositionsBelow | bloomindex.go:84-91 | Every listed position is within the mask. |
| Layout.BlockCount | bloomindex.go:37-46 | After n documents there are just enough data blocks of 256 for them, and none to spare. |
| Layout.Occupancy | bloomindex.go:136-144 | A counter is at most 256, and zero exactly when no document has reached its block. |
| Layout.OccupancyStep | bloomindex.go:136-144 | One more document bumps exactly the counter of the block it falls in, and only while that block has room. |
| Layout.BlocksFull | bloomindex.go:42-46 | Every data block but the last is full, and the last is not empty. |
| Layout.AppendBlock | bloomindex.go:37-46 | Document n goes into data block n / 256 at slot n % 256; a data block is appended exactly when the last one is full. |
| Layout.AppendMeta | bloomindex.go:48-50 | When a data block is appended, a meta block is appended exactly when the last meta counter is at 256. |
| Layout.MetaCovers | bloomindex.go:54 | The meta block that every existing data block reports to exists. |
| Layout.MetaSpare | bloomindex.go:37-50 | There are at least as many meta blocks as the data blocks need, and at most one more. |
| Layout.MetaCountVersusNeeded | bloomindex.go:48-50 | The literal rule gives ceil(B / 256) meta blocks plus one, except for B <= 1 and B of the form 256k + 1. |
| BloomIndex.MarkStep | bloomindex.go:71-72 | Setting one more cell adds its row to the rows marked for the slot; no other cell changes. |
| BloomIndex.RecordedGrow | bloomindex.go:37-50 | Appending blocks keeps every recorded (document, term) pair recorded. |
| BloomIndex.MarkedIndexes | bloomindex.go:67-74 | Marking a document's slot at every probe of every term records each term for that document, in its data and in its meta block. |
| BloomIndex.ProbeLists | bloomindex.go:84-91 | The two lists built are the data and meta probe positions of every term, term by term, in probe order. |
| BloomIndex.ProbeTerm | bloomindex.go:85-90 | The inner loop appends the data and meta positions of every probe of one term, in probe order. |
| BloomIndex.AppendDocs | bloomindex.go:101-104 | The documents 256b + s for the returned slots s are appended, ascending, after every earlier document. |
| BloomIndex.Index.constructor | bloomindex.go:26-33 | A new index has no blocks, uint16-truncated hashes and both wrapped masks, and satisfies the index invariant. |
| BloomIndex.Index.AppendDataBlock | bloomindex.go:45 | One empty data block is appended; the invariant parts and the recorded pairs are kept. |
| BloomIndex.Index.AppendMetaBlock | bloomindex.go:49 | One empty meta block is appended; the invariant parts and the recorded pairs are kept. |
| BloomIndex.Index.Grow | bloomindex.go:37-51 | The block lists grow to the data and meta counts that n + 1 documents need; only empty blocks are added. |
| BloomIndex.Index.CountData | bloomindex.go:52 | The last data block hands out slot n % 256, and the counters become those of n + 1 documents. |
| BloomIndex.Index.CountMeta | bloomindex.go:54 | The meta counter of the document's group is bumped, and a full one is left as it is. |
| BloomIndex.Index.Count | bloomindex.go:52-56 | The document number returned is n, and every counter is that of n + 1 documents. |
| BloomIndex.Index.Admit | bloomindex.go:35-56 | The two halves of AddDocument together hand out document n and keep the invariant; only the index and the block counters may change, and every added block is empty. |
| BloomIndex.Index.AddDocument | bloomindex.go:35-57 | Call k returns document k; there are then just enough data blocks and MetaCount meta blocks; the invariant holds and nothing recorded is lost; every existing cell is unchanged and every added block is empty. |
| BloomIndex.Index.AddTerms | bloomindex.go:59-75 | Every probe of every term sets the document's slot in its data and meta rows, and nothing else changes; the terms are recorded; the invariant holds. |
| BloomIndex.Index.Mark | bloomindex.go:61-74 | The marking of all terms records each (document, term) pair and keeps every earlier pair recorded. |
| BloomIndex.Index.MarkTerms | bloomindex.go:61-74 | The loop over the terms marks exactly the probe positions of all terms in the document's data and meta rows, and keeps every recorded pair recorded. |
| BloomIndex.Index.StampNext | bloomindex.go:67-73 | One pass over term j extends the marks of the terms before it by exactly that term's probe positions. |
| BloomIndex.Index.ProbeNext | bloomindex.go:70-72 | Probe i of a term marks its data row and meta row, extending the marks of the earlier probes by exactly one position each. |
| BloomIndex.Index.StampTerm | bloomindex.go:68-73 | The inner loop marks exactly the term's probe positions in the data row and the meta row. |
| BloomIndex.Index.SetData | bloomindex.go:71 | One data setbit adds one marked row and keeps every recorded pair recorded. |
| BloomIndex.Index.SetMeta | bloomindex.go:72 | One meta setbit adds one marked row, keeps every recorded pair recorded, and names only a data block that exists. |
| BloomIndex.Index.SetBoth | bloomindex.go:71-72 | One probe adds one marked data row and one marked meta row and keeps the index invariant parts. |
| BloomIndex.Index.ScanBlock | bloomindex.go:98-104 | The scan of data block b adds, ascending, exactly the documents of that block that survive the data and meta probes. |
| BloomIndex.Index.ScanGroup | bloomindex.go:93-106 | The scan of meta block i adds, ascending, exactly the documents of group i that survive every probe. |
| BloomIndex.Index.ScanSlot | bloomindex.go:97-105 | Scanning the k-th surviving data block of group i extends the documents found to the first k + 1 surviving blocks, in ascending order. |
| BloomIndex.Index.Query | bloomindex.go:77-110 | The result is ascending and holds exactly the documents whose data and meta slots survive every probe of every term; no terms or no probes give no documents. |
| BloomIndex.Index.NoFalseNegatives | bloomindex.go:59-110 | A document that was given every queried term is in the answer, provided there is a term and a probe. |

## Left out

- The amd64 assembly kernel (`asm.go`, its generator `query.py` and `query_stub.go`) is not part of this model; the portable `queryCore` stands for it.
- `bits.Ctz` from the `go-bits` package is not part of this model; `Bits.Ctz` is the trailing-zero count it computes.
- Tokenising documents, CRC-32 term hashing and the random cells of the tests are I/O-side; `TestEndToEnd`'s answer is not reproduced, since it needs CRC-32 of the words.
- `DocID` is a 64-bit integer and `blockSize` a Go `int`: document numbers, block indices and the counter are unbounded here. Wrap-around after 2^64 documents is not modelled.
- NewIndex's `blockSize` is a `nat`: a negative size, which makes `make` panic, is not modelled.
- BloomIndex.Index.AddTerms: requires that the document's data block exists. Go indexes that block only inside the probe loop, so it panics only when there is a term and a probe; with no terms or no probes it does nothing, and the model excludes that no-op case for a missing block. It also requires at least one row per block when there are terms and probes, where Go panics on an index out of range.
- BloomIndex.Index.Query: requires at least one row per block when there are terms, probes and blocks; with zero rows Go panics on an index out of range.
- Hashing.Xorshift32: the model does not prove that xorshift32 is a bijection on 32-bit values; it proves that the two left-shift steps are injective and that no step maps a non-zero value to zero, but not that the right-shift step is injective.
- Blocks.Block.SetBit and Blocks.Block.GetBit take a slot below 256 where Go takes a `uint8`, which cannot be larger.
