/** Whole-run consequences of the export's contract: the files for an empty
    chain, the progress bar reaching its length, and a small worked chain. */
module Scenarios {
  import opened Strings
  import opened Decimal
  import opened Canonical
  import opened Csv
  import opened Chain

  /** The text of a file whose writes were the header and then `lines`. */
  function FileText(lines: seq<string>): (text: string)
    ensures text == HeaderWrite + Concat(lines)
  {
    ConcatAppend([HeaderWrite], lines);
    assert Concat([HeaderWrite]) == HeaderWrite by {
      assert [HeaderWrite][..0] == [];
    }
    Concat([HeaderWrite] + lines)
  }

  /** With no blocks (`end == 0`) both files hold the header line and one
      empty line, nothing else. */
  lemma EmptyChainFiles(store: seq<StoredBlock>, side: Side)
    requires |store| == 0
    ensures FileText(ChainLines(side, Blocks(store))) == "timestamp,address,value\n\n"
    ensures Split(FileText(ChainLines(side, Blocks(store))), '\n') == ["timestamp,address,value", "", ""]
  {
    assert ChainLines(side, Blocks(store)) == [];
    assert HeaderWrite == "timestamp,address,value\n\n";
    HeaderWriteLines();
  }

  /** When every header counts its block's transactions and the count fits
      in 32 bits, the bar's position ends equal to its length. */
  lemma ProgressCompletes(store: seq<StoredBlock>)
    requires forall i :: 0 <= i < |store| ==> store[i].nTx == |store[i].block.txdata|
    requires HeaderTxSum(store) < U32Modulus
    ensures ProgressTotal(store) == TxCount(Blocks(store))
  {
    HeaderSumIsTxCount(store);
    ProgressTotalExact(store);
  }

  /** A two-block chain: block 0 at time 1000 with one transaction whose
      input (value 5, addresses B and A) and output (value 3, no address);
      block 1 at time 2000 with one transaction spending 1 from C to C. */
  function SampleChain(): seq<Block>
  {
    [ Block(1000, [Tx([Entry(5, ["B", "A"])], [Entry(3, [])])]),
      Block(2000, [Tx([Entry(1, ["C"])], [Entry(1, ["C"])])]) ]
  }

  lemma SampleTimes()
    ensures NatToStr(1000) == "1000" && NatToStr(2000) == "2000"
  {
    assert NatToStr(1) == "1" && NatToStr(10) == "10" && NatToStr(100) == "100";
    assert NatToStr(2) == "2" && NatToStr(20) == "20" && NatToStr(200) == "200";
  }

  lemma SampleValues()
    ensures NatToStr(5) == "5" && NatToStr(3) == "3" && NatToStr(1) == "1"
  {
  }

  /** A block with one transaction with one entry on `side` gives one line. */
  lemma SingleEntryBlock(side: Side, b: Block)
    requires |b.txdata| == 1 && |Entries(b.txdata[0], side)| == 1
    ensures BlockLines(side, b) == [FormatRow(EntryRow(b.time, Entries(b.txdata[0], side)[0]))]
  {
    var es := Entries(b.txdata[0], side);
    assert b.txdata[..0] == [] && es[..0] == [];
    assert EntryLines(b.time, es) == [FormatRow(EntryRow(b.time, es[0]))];
    assert TxLines(side, b.time, b.txdata) == TxLines(side, b.time, b.txdata[..0]) + EntryLines(b.time, es);
  }

  lemma SampleLabel()
    ensures AddressesToString(["B", "A"]) == "A-B"
  {
    LabelIsSortedJoin(["B", "A"]);
    assert !LexLe("B", "A");
    SortOfTwo("B", "A");
    JoinOfTwo("A", "B", "-");
  }

  lemma FirstInputRow()
    ensures FormatRow(Row(1000, "A-B", 5)) == "1000,A-B,5\n"
  {
    SampleTimes();
    SampleValues();
  }

  lemma FirstOutputRow()
    ensures FormatRow(Row(1000, "", 3)) == "1000,,3\n"
  {
    SampleTimes();
    SampleValues();
  }

  lemma SecondRow()
    ensures FormatRow(Row(2000, "C", 1)) == "2000,C,1\n"
  {
    SampleTimes();
    SampleValues();
  }

  lemma SampleFirstInputs()
    ensures BlockLines(Inputs, SampleChain()[0]) == ["1000,A-B,5\n"]
  {
    var b := SampleChain()[0];
    assert b.txdata[0].input[0] == Entry(5, ["B", "A"]);
    SingleEntryBlock(Inputs, b);
    SampleLabel();
    assert EntryRow(1000, Entry(5, ["B", "A"])) == Row(1000, "A-B", 5);
    FirstInputRow();
  }

  lemma SampleFirstOutputs()
    ensures BlockLines(Outputs, SampleChain()[0]) == ["1000,,3\n"]
  {
    var b := SampleChain()[0];
    assert b.txdata[0].output[0] == Entry(3, []);
    SingleEntryBlock(Outputs, b);
    assert EntryRow(1000, Entry(3, [])) == Row(1000, "", 3);
    FirstOutputRow();
  }

  lemma SampleSecondBlock()
    ensures BlockLines(Inputs, SampleChain()[1]) == ["2000,C,1\n"]
    ensures BlockLines(Outputs, SampleChain()[1]) == ["2000,C,1\n"]
  {
    var b := SampleChain()[1];
    assert b.txdata[0].input[0] == Entry(1, ["C"]);
    assert b.txdata[0].output[0] == Entry(1, ["C"]);
    SingleEntryBlock(Inputs, b);
    SingleEntryBlock(Outputs, b);
    assert EntryRow(2000, Entry(1, ["C"])) == Row(2000, "C", 1);
    SecondRow();
  }

  /** The lines of a one-block chain are those of its block. */
  lemma LinesOfOneBlock(side: Side, b: Block)
    ensures ChainLines(side, [b]) == BlockLines(side, b)
  {
    assert [b][..0] == [];
  }

  /** The lines of a two-block chain are those of its first block followed
      by those of its second. */
  lemma LinesOfTwoBlocks(side: Side, c: seq<Block>)
    requires |c| == 2
    ensures ChainLines(side, c) == BlockLines(side, c[0]) + BlockLines(side, c[1])
  {
    assert c == [c[0]] + [c[1]];
    ChainLinesAppend(side, [c[0]], [c[1]]);
    LinesOfOneBlock(side, c[0]);
    LinesOfOneBlock(side, c[1]);
  }

  /** The lines of the sample chain, one per input and one per output. */
  lemma SampleLines()
    ensures ChainLines(Inputs, SampleChain()) == ["1000,A-B,5\n", "2000,C,1\n"]
    ensures ChainLines(Outputs, SampleChain()) == ["1000,,3\n", "2000,C,1\n"]
  {
    LinesOfTwoBlocks(Inputs, SampleChain());
    LinesOfTwoBlocks(Outputs, SampleChain());
    SampleFirstInputs();
    SampleFirstOutputs();
    SampleSecondBlock();
  }

  /** The two files of the sample chain, byte for byte. */
  lemma SampleFiles()
    ensures FileText(ChainLines(Inputs, SampleChain())) == HeaderWrite + ("1000,A-B,5\n" + "2000,C,1\n")
    ensures FileText(ChainLines(Outputs, SampleChain())) == HeaderWrite + ("1000,,3\n" + "2000,C,1\n")
  {
    SampleLines();
    FileOfTwoLines(ChainLines(Inputs, SampleChain()), "1000,A-B,5\n", "2000,C,1\n");
    FileOfTwoLines(ChainLines(Outputs, SampleChain()), "1000,,3\n", "2000,C,1\n");
  }

  /** A file whose writes were the header and two lines. */
  lemma FileOfTwoLines(lines: seq<string>, x: string, y: string)
    requires lines == [x, y]
    ensures FileText(lines) == HeaderWrite + (x + y)
  {
    ConcatPair(x, y);
  }

  lemma ConcatPair(x: string, y: string)
    ensures Concat([x, y]) == x + y
  {
    assert [x, y][..1] == [x];
    assert [x][..0] == [];
    assert Concat([x]) == Concat([]) + x;
    assert Concat([x, y]) == Concat([x]) + y;
  }
}
