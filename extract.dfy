/** The body of `main` from the output files on (src/main.rs:75-120): write
    the headers, compute the progress total, then walk the blocks and write
    one row per input to `input.csv` and one per output to `output.csv`. */
module Extract {
  import opened Strings
  import opened Canonical
  import opened Csv
  import opened Chain

  /** A `BufWriter` over a newly created file. `written` holds the payload of
      every `write!` in order; flushing changes nothing in this view. */
  class CsvWriter {
    var written: seq<string>

    constructor ()
      ensures written == []
    {
      written := [];
    }

    /** The bytes of the file once the writer is flushed. */
    function Contents(): string
      reads this
    {
      Concat(written)
    }

    /** One `write!`: its text is appended, nothing is lost or reordered. */
    method Write(s: string)
      modifies this
      ensures written == old(written) + [s]
      ensures Contents() == old(Contents()) + s
    {
      ConcatAppend(written, [s]);
      assert Concat([s]) == s by {
        assert [s][..0] == [];
      }
      written := written + [s];
    }
  }

  /** The progress bar, reduced to its length and position. */
  class ProgressBar {
    const length: nat
    var position: nat

    constructor (length: nat)
      ensures this.length == length && position == 0
    {
      this.length := length;
      position := 0;
    }

    /** `bar.inc(delta)`: the position only grows. */
    method Inc(delta: nat)
      modifies this
      ensures position == old(position) + delta
      ensures old(position) <= position
    {
      position := position + delta;
    }
  }

  lemma EntryLinesSnoc(time: nat, es: seq<Entry>, k: nat)
    requires k < |es|
    ensures EntryLines(time, es[..k + 1]) == EntryLines(time, es[..k]) + [FormatRow(EntryRow(time, es[k]))]
  {
    assert es[..k + 1][..k] == es[..k];
  }

  lemma TxLinesPrefixSnoc(side: Side, time: nat, txs: seq<Tx>, t: nat)
    requires t < |txs|
    ensures TxLines(side, time, txs[..t + 1]) == TxLines(side, time, txs[..t]) + EntryLines(time, Entries(txs[t], side))
  {
    assert txs[..t + 1][..t] == txs[..t];
  }

  lemma ChainLinesPrefixSnoc(side: Side, blocks: seq<Block>, h: nat)
    requires h < |blocks|
    ensures ChainLines(side, blocks[..h + 1]) == ChainLines(side, blocks[..h]) + BlockLines(side, blocks[h])
    ensures TxCount(blocks[..h + 1]) == TxCount(blocks[..h]) + |blocks[h].txdata|
  {
    assert blocks[..h + 1][..h] == blocks[..h];
  }

  /** Writes the rows of one transaction's inputs, then of its outputs
      (src/main.rs:102-113). */
  method WriteTx(tx: Tx, timeStamp: nat, inputCsv: CsvWriter, outputCsv: CsvWriter)
    requires inputCsv != outputCsv
    modifies inputCsv, outputCsv
    ensures inputCsv.written == old(inputCsv.written) + EntryLines(timeStamp, tx.input)
    ensures outputCsv.written == old(outputCsv.written) + EntryLines(timeStamp, tx.output)
  {
    for k := 0 to |tx.input|
      invariant inputCsv.written == old(inputCsv.written) + EntryLines(timeStamp, tx.input[..k])
      invariant outputCsv.written == old(outputCsv.written)
    {
      var input := tx.input[k];
      var address := AddressesToString(input.addresses);
      var value := input.value;
      var line := FormatRow(Row(timeStamp, address, value));
      assert line == FormatRow(EntryRow(timeStamp, input));
      inputCsv.Write(line);
      EntryLinesSnoc(timeStamp, tx.input, k);
      AppendAssoc(old(inputCsv.written), EntryLines(timeStamp, tx.input[..k]), [line]);
    }
    assert tx.input[..|tx.input|] == tx.input;
    for k := 0 to |tx.output|
      invariant inputCsv.written == old(inputCsv.written) + EntryLines(timeStamp, tx.input)
      invariant outputCsv.written == old(outputCsv.written) + EntryLines(timeStamp, tx.output[..k])
    {
      var output := tx.output[k];
      var address := AddressesToString(output.addresses);
      var value := output.value;
      var line := FormatRow(Row(timeStamp, address, value));
      assert line == FormatRow(EntryRow(timeStamp, output));
      outputCsv.Write(line);
      EntryLinesSnoc(timeStamp, tx.output, k);
      AppendAssoc(old(outputCsv.written), EntryLines(timeStamp, tx.output[..k]), [line]);
    }
    assert tx.output[..|tx.output|] == tx.output;
  }

  /** Writes the rows of every transaction of one block, each stamped with
      the block's time (src/main.rs:98-114). */
  method WriteBlock(blk: Block, inputCsv: CsvWriter, outputCsv: CsvWriter)
    requires inputCsv != outputCsv
    modifies inputCsv, outputCsv
    ensures inputCsv.written == old(inputCsv.written) + BlockLines(Inputs, blk)
    ensures outputCsv.written == old(outputCsv.written) + BlockLines(Outputs, blk)
  {
    var timeStamp := blk.time;
    for t := 0 to |blk.txdata|
      invariant inputCsv.written == old(inputCsv.written) + TxLines(Inputs, timeStamp, blk.txdata[..t])
      invariant outputCsv.written == old(outputCsv.written) + TxLines(Outputs, timeStamp, blk.txdata[..t])
    {
      var tx := blk.txdata[t];
      WriteTx(tx, timeStamp, inputCsv, outputCsv);
      TxLinesPrefixSnoc(Inputs, timeStamp, blk.txdata, t);
      TxLinesPrefixSnoc(Outputs, timeStamp, blk.txdata, t);
      assert Entries(tx, Inputs) == tx.input && Entries(tx, Outputs) == tx.output;
      AppendAssoc(old(inputCsv.written), TxLines(Inputs, timeStamp, blk.txdata[..t]), EntryLines(timeStamp, tx.input));
      AppendAssoc(old(outputCsv.written), TxLines(Outputs, timeStamp, blk.txdata[..t]), EntryLines(timeStamp, tx.output));
    }
    assert blk.txdata[..|blk.txdata|] == blk.txdata;
  }

  /** Creates both files, writes their headers, sizes the progress bar from
      the headers' `n_tx`, then walks every block of the store in height
      order, advancing the bar by each block's transaction count
      (src/main.rs:75-120). */
  method Export(store: seq<StoredBlock>) returns (outputCsv: CsvWriter, inputCsv: CsvWriter, bar: ProgressBar)
    ensures outputCsv != inputCsv
    ensures inputCsv.written == [HeaderWrite] + ChainLines(Inputs, Blocks(store))
    ensures outputCsv.written == [HeaderWrite] + ChainLines(Outputs, Blocks(store))
    ensures bar.length == ProgressTotal(store)
    ensures bar.position == TxCount(Blocks(store))
  {
    outputCsv := new CsvWriter();
    inputCsv := new CsvWriter();
    outputCsv.Write(HeaderWrite);
    inputCsv.Write(HeaderWrite);

    var end := |store|;
    var total := ProgressTotal(store[..end]);
    assert store[..end] == store;
    bar := new ProgressBar(total);

    var blocks := Blocks(store);
    for h := 0 to end
      invariant inputCsv.written == [HeaderWrite] + ChainLines(Inputs, blocks[..h])
      invariant outputCsv.written == [HeaderWrite] + ChainLines(Outputs, blocks[..h])
      invariant bar.length == total
      invariant bar.position == TxCount(blocks[..h])
    {
      var blk := blocks[h];
      var len := |blk.txdata|;
      WriteBlock(blk, inputCsv, outputCsv);
      bar.Inc(len);
      ChainLinesPrefixSnoc(Inputs, blocks, h);
      ChainLinesPrefixSnoc(Outputs, blocks, h);
      AppendAssoc([HeaderWrite], ChainLines(Inputs, blocks[..h]), BlockLines(Inputs, blk));
      AppendAssoc([HeaderWrite], ChainLines(Outputs, blocks[..h]), BlockLines(Outputs, blk));
    }
    assert blocks[..end] == blocks;
  }
}
