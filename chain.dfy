/** The chain as the export sees it, and what the export must write for it:
    the lines of each stream, the transaction counts and the progress
    total (src/main.rs:87-116). */
module Chain {
  import opened Strings
  import opened Canonical
  import opened Csv

  /** An input or an output of a connected transaction: its value and the
      addresses the store resolved for it. */
  datatype Entry = Entry(value: nat, addresses: seq<Address>)

  datatype Tx = Tx(input: seq<Entry>, output: seq<Entry>)

  /** A connected block: its header time and its transactions. */
  datatype Block = Block(time: nat, txdata: seq<Tx>)

  /** One height of the store: the `n_tx` of its header and its connected
      block. The store's maximum height is the number of heights. */
  datatype StoredBlock = StoredBlock(nTx: nat, block: Block)

  /** Which of the two CSV files an entry goes to. */
  datatype Side = Inputs | Outputs

  function Entries(tx: Tx, side: Side): seq<Entry>
  {
    match side
    case Inputs => tx.input
    case Outputs => tx.output
  }

  /** The row of one entry of a block stamped `time`. */
  function EntryRow(time: nat, e: Entry): Row
  {
    Row(time, AddressesToString(e.addresses), e.value)
  }

  /** The lines of a run of entries: one line per entry, in entry order. */
  function EntryLines(time: nat, es: seq<Entry>): (lines: seq<string>)
    ensures |lines| == |es|
  {
    if |es| == 0 then []
    else EntryLines(time, es[..|es| - 1]) + [FormatRow(EntryRow(time, es[|es| - 1]))]
  }

  /** Line `k` of a run of entries is the row of entry `k`. */
  lemma {:induction false} EntryLinesAt(time: nat, es: seq<Entry>, k: nat)
    requires k < |es|
    ensures EntryLines(time, es)[k] == FormatRow(EntryRow(time, es[k]))
  {
    if k < |es| - 1 {
      EntryLinesAt(time, es[..|es| - 1], k);
    }
  }

  /** The lines of a run of transactions of one block, transaction by
      transaction. */
  function TxLines(side: Side, time: nat, txs: seq<Tx>): seq<string>
  {
    if |txs| == 0 then []
    else TxLines(side, time, txs[..|txs| - 1]) + EntryLines(time, Entries(txs[|txs| - 1], side))
  }

  function BlockLines(side: Side, b: Block): seq<string>
  {
    TxLines(side, b.time, b.txdata)
  }

  /** The lines of one stream for a run of blocks, block by block. */
  function ChainLines(side: Side, blocks: seq<Block>): seq<string>
  {
    if |blocks| == 0 then []
    else ChainLines(side, blocks[..|blocks| - 1]) + BlockLines(side, blocks[|blocks| - 1])
  }

  /** Number of entries on one side of a run of transactions. */
  function TxEntryCount(side: Side, txs: seq<Tx>): nat
  {
    if |txs| == 0 then 0
    else TxEntryCount(side, txs[..|txs| - 1]) + |Entries(txs[|txs| - 1], side)|
  }

  /** Number of entries on one side of a run of blocks. */
  function EntryCount(side: Side, blocks: seq<Block>): nat
  {
    if |blocks| == 0 then 0
    else EntryCount(side, blocks[..|blocks| - 1]) + TxEntryCount(side, blocks[|blocks| - 1].txdata)
  }

  /** Number of transactions in a run of blocks (the progress unit). */
  function TxCount(blocks: seq<Block>): nat
  {
    if |blocks| == 0 then 0
    else TxCount(blocks[..|blocks| - 1]) + |blocks[|blocks| - 1].txdata|
  }

  /** The blocks `iter_connected_block` yields, heights 0 up to the end. */
  function Blocks(store: seq<StoredBlock>): (blocks: seq<Block>)
    ensures |blocks| == |store|
    ensures forall i :: 0 <= i < |store| ==> blocks[i] == store[i].block
  {
    seq(|store|, i requires 0 <= i < |store| => store[i].block)
  }

  /** The exact sum of the headers' `n_tx`. */
  function HeaderTxSum(store: seq<StoredBlock>): nat
  {
    if |store| == 0 then 0
    else HeaderTxSum(store[..|store| - 1]) + store[|store| - 1].nTx
  }

  const U32Modulus: nat := 0x1_0000_0000

  /** `(0..end).map(|i| n_tx).sum::<u32>()`: the fold adds in `u32`, which
      wraps around in a release build. */
  function ProgressTotal(store: seq<StoredBlock>): (total: nat)
    ensures total < U32Modulus
    ensures total == HeaderTxSum(store) % U32Modulus
  {
    if |store| == 0 then 0
    else
      var prefix := store[..|store| - 1];
      var n := store[|store| - 1].nTx;
      ModAdd(HeaderTxSum(prefix), n, ProgressTotal(prefix));
      (ProgressTotal(prefix) + n) % U32Modulus
  }

  lemma ModAdd(a: nat, b: nat, am: nat)
    requires am == a % U32Modulus
    ensures (am + b) % U32Modulus == (a + b) % U32Modulus
  {
    var q := a / U32Modulus;
    assert a == q * U32Modulus + am;
    assert a + b == (am + b) + q * U32Modulus;
  }

  /** While the headers add up to less than 2^32 the progress total is
      their exact sum. */
  lemma ProgressTotalExact(store: seq<StoredBlock>)
    requires HeaderTxSum(store) < U32Modulus
    ensures ProgressTotal(store) == HeaderTxSum(store)
  {
  }

  /** When every header's `n_tx` is the number of transactions of its
      block, the headers add up to the number of transactions walked. */
  lemma {:induction false} HeaderSumIsTxCount(store: seq<StoredBlock>)
    requires forall i :: 0 <= i < |store| ==> store[i].nTx == |store[i].block.txdata|
    ensures HeaderTxSum(store) == TxCount(Blocks(store))
  {
    if |store| > 0 {
      var prefix := store[..|store| - 1];
      HeaderSumIsTxCount(prefix);
      assert Blocks(store)[..|store| - 1] == Blocks(prefix);
    }
  }

  /** The progress count never goes down as blocks are walked. */
  lemma {:induction false} TxCountMonotone(blocks: seq<Block>, i: nat, j: nat)
    requires i <= j <= |blocks|
    ensures TxCount(blocks[..i]) <= TxCount(blocks[..j])
  {
    if i < j {
      TxCountMonotone(blocks, i, j - 1);
      assert blocks[..j][..j - 1] == blocks[..j - 1];
    }
  }

  /** Exactly one line per transaction entry on that side. */
  lemma {:induction false} TxLinesCount(side: Side, time: nat, txs: seq<Tx>)
    ensures |TxLines(side, time, txs)| == TxEntryCount(side, txs)
  {
    if |txs| > 0 {
      TxLinesCount(side, time, txs[..|txs| - 1]);
    }
  }

  /** Exactly one line per input (per output) of the whole run of blocks. */
  lemma {:induction false} ChainLinesCount(side: Side, blocks: seq<Block>)
    ensures |ChainLines(side, blocks)| == EntryCount(side, blocks)
  {
    if |blocks| > 0 {
      ChainLinesCount(side, blocks[..|blocks| - 1]);
      TxLinesCount(side, blocks[|blocks| - 1].time, blocks[|blocks| - 1].txdata);
    }
  }

  /** Appending one transaction appends its lines. */
  lemma TxLinesSnoc(side: Side, time: nat, a: seq<Tx>, b: seq<Tx>)
    requires |b| > 0
    ensures TxLines(side, time, a + b) == TxLines(side, time, a + b[..|b| - 1]) + EntryLines(time, Entries(b[|b| - 1], side))
  {
    assert (a + b)[..|a + b| - 1] == a + b[..|b| - 1];
  }

  /** The lines of consecutive transactions are consecutive. */
  lemma {:induction false} TxLinesAppend(side: Side, time: nat, a: seq<Tx>, b: seq<Tx>)
    ensures TxLines(side, time, a + b) == TxLines(side, time, a) + TxLines(side, time, b)
  {
    if |b| == 0 {
      assert a + b == a;
    } else {
      var front, last := b[..|b| - 1], b[|b| - 1];
      TxLinesSnoc(side, time, a, b);
      TxLinesAppend(side, time, a, front);
      var tail := EntryLines(time, Entries(last, side));
      assert TxLines(side, time, b) == TxLines(side, time, front) + tail;
      AppendAssoc(TxLines(side, time, a), TxLines(side, time, front), tail);
    }
  }

  /** Appending one block appends its lines. */
  lemma ChainLinesSnoc(side: Side, a: seq<Block>, b: seq<Block>)
    requires |b| > 0
    ensures ChainLines(side, a + b) == ChainLines(side, a + b[..|b| - 1]) + BlockLines(side, b[|b| - 1])
  {
    assert (a + b)[..|a + b| - 1] == a + b[..|b| - 1];
  }

  /** The lines of consecutive blocks are consecutive. */
  lemma {:induction false} ChainLinesAppend(side: Side, a: seq<Block>, b: seq<Block>)
    ensures ChainLines(side, a + b) == ChainLines(side, a) + ChainLines(side, b)
  {
    if |b| == 0 {
      assert a + b == a;
    } else {
      var front, last := b[..|b| - 1], b[|b| - 1];
      ChainLinesSnoc(side, a, b);
      ChainLinesAppend(side, a, front);
      var tail := BlockLines(side, last);
      assert ChainLines(side, b) == ChainLines(side, front) + tail;
      AppendAssoc(ChainLines(side, a), ChainLines(side, front), tail);
    }
  }

  /** Block order: the lines of block `i` come after those of every earlier
      block and before those of every later one. */
  lemma ChainLinesAt(side: Side, blocks: seq<Block>, i: nat)
    requires i < |blocks|
    ensures ChainLines(side, blocks) ==
      ChainLines(side, blocks[..i]) + BlockLines(side, blocks[i]) + ChainLines(side, blocks[i + 1..])
  {
    var before, after := blocks[..i], blocks[i + 1..];
    assert blocks == (before + [blocks[i]]) + after;
    ChainLinesAppend(side, before + [blocks[i]], after);
    ChainLinesSnoc(side, before, [blocks[i]]);
    assert [blocks[i]][..0] == [];
    assert before + [blocks[i]][..0] == before;
  }

  /** Transaction order within a block: the lines of transaction `j` sit
      between those of the earlier and the later transactions, and are the
      lines of its entries in entry order. */
  lemma TxLinesAt(side: Side, time: nat, txs: seq<Tx>, j: nat)
    requires j < |txs|
    ensures TxLines(side, time, txs) ==
      TxLines(side, time, txs[..j]) + EntryLines(time, Entries(txs[j], side)) + TxLines(side, time, txs[j + 1..])
  {
    assert txs == txs[..j] + [txs[j]] + txs[j + 1..];
    TxLinesAppend(side, time, txs[..j] + [txs[j]], txs[j + 1..]);
    TxLinesAppend(side, time, txs[..j], [txs[j]]);
    assert TxLines(side, time, [txs[j]]) == EntryLines(time, Entries(txs[j], side)) by {
      assert [txs[j]][..0] == [];
    }
  }
}
