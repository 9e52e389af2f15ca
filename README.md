# Blockchain to CSV: a Dafny model of the export core

The program reads a local Bitcoin chain store and writes every transaction input
and output to two flat tables. `input.csv` and `output.csv` each start with the
header line `timestamp,address,value` and an empty line. After them comes one
line per input (or output): the block's timestamp, an address label and the
value. The label comes from `addresses_to_string`. No address gives the empty
string. One address gives that address unchanged. Two or more addresses are
sorted in ascending lexicographic order and joined with `-`.

This project models two parts of `src/main.rs`:

- the label rule (`addresses_to_string`), as pure functions with lemmas
  (modules `Strings`, `Canonical`);
- the body of `main` once the files are open. It writes both headers, sums the
  headers' `n_tx` for the progress bar, then walks blocks, transactions, inputs
  and outputs and appends one line per entry. This is modelled as methods over
  two writer objects and a progress-bar object (module `Extract`). They are
  proved against a pure function listing each stream's lines
  (`Chain.ChainLines`, module `Chain`).

Modules:

| file | module | content |
|---|---|---|
| strings.dfy | `Strings` | `Join` (Rust's slice `join`), `Split`, `Concat`, `IndexOf`, `LastIndexOf` |
| decimal.dfy | `Decimal` | `NatToStr`, the `{}` rendering of an unsigned integer, and its inverse |
| canonical.dfy | `Canonical` | string order `LexLe`, insertion `Sort`, `AddressesToString` |
| csv.dfy | `Csv` | `Row`, the header, `FormatRow` and its inverse `ParseRow` |
| chain.dfy | `Chain` | `Entry`, `Tx`, `Block`, `StoredBlock`; `ChainLines`, counts, `ProgressTotal` |
| extract.dfy | `Extract` | classes `CsvWriter` and `ProgressBar`; methods `WriteTx`, `WriteBlock`, `Export` |
| scenarios.dfy | `Scenarios` | whole-run consequences: empty chain, completed progress, a worked chain |

Modelling choices:

- The chain store is a `seq<StoredBlock>`. Entry `i` holds the `n_tx` of the
  header at height `i` and the connected block at that height. The maximum
  height (`end`) is the length of this sequence. `Chain.Blocks` stands in for
  `iter_connected_block(end)` (src/main.rs:97): it is taken to yield the
  connected blocks at heights 0 up to the end, in height order. This is an
  assumption about the library, not a proved fact.
- An address is its string (`Address::to_string` is the identity). Rust orders
  `String`s byte-wise on UTF-8, which is the same as ordering by code point.
  That is how `LexLe` compares `char`s.
- A `BufWriter` is a `CsvWriter` whose field `written` lists the text of every
  `write!` in order. The file's bytes are `Concat(written)`. Flushing has no
  effect in this view.
- The header write is `write!(w, "{}\n", table_header)` with a header that
  already ends in a newline (src/main.rs:77, 82-83). So each file starts with
  the header line and then an empty line (`Csv.HeaderWriteLines`). With no
  blocks, that is all the file holds.
- `.sum::<u32>()` (src/main.rs:90) adds in 32 bits. `ProgressTotal` models a
  release build, where the sum wraps modulo 2^32. `ProgressTotalExact` shows
  the total is exact while the true sum stays below 2^32.
- Timestamps and values are `nat`s rendered by `NatToStr`. No width limit
  matters, since they are only printed.

## Model

| member | source | states |
|---|---|---|
| Canonical.AddressesToString | src/main.rs:18-29 | the label rule itself: its body is the source's three-way match (no address, one address, sort and join with `-`); its facts are carried by `LabelIsSortedJoin`, `LabelOfSeveral`, `LabelPermutationInvariant` and `LabelSplits` |
| Canonical.LabelIsSortedJoin | src/main.rs:18-29 | for every number of addresses the label is the sorted addresses joined by `-`; no address gives `""`, one address gives that address unchanged |
| Canonical.LabelOfSeveral | src/main.rs:22-27 | with two or more addresses the label joins an ascending permutation of them with `-`, begins with the first and ends with the last of them (no leading or trailing separator) |
| Canonical.LabelPermutationInvariant | src/main.rs:18-29 | two enumerations of the same addresses (equal multisets) give the same label |
| Canonical.LabelSplits | src/main.rs:22-26 | for one or more addresses, none containing `-`, splitting the label at `-` gives back the sorted addresses, so the label determines the address multiset |
| Canonical.EmptyLabelIsAmbiguous | src/main.rs:20-21 | the bound above is needed: no address and a single empty address both get the label `""` |
| Canonical.LabelIsAmbiguous | src/main.rs:26 | no escaping: the single address `a-b` and the pair `b`, `a` get the same label |
| Canonical.LabelExamples | src/main.rs:19-27 | worked cases: `[]` gives `""`, `["a"]` gives `a`, `["b","a"]` gives `a-b` |
| Canonical.LabelOfThree | src/main.rs:22-27 | worked case: `["z","a","m"]` gives `a-m-z` |
| Canonical.LexLeFirstDifference | src/main.rs:25 | the string order used by the sort holds exactly when the first string is a prefix of the second or is smaller at the first position where they differ |
| Canonical.LexLeTotal | src/main.rs:25 | any two strings are comparable |
| Canonical.LexLeAntisymmetric | src/main.rs:25 | strings that are each at most the other are equal |
| Canonical.LexLeTransitive | src/main.rs:25 | the string order is transitive |
| Canonical.Sort | src/main.rs:25 | the sort returns a permutation of its input (same length, same multiset) |
| Canonical.SortSorted | src/main.rs:25 | the sort's result is in ascending order |
| Canonical.SortedUnique | src/main.rs:25 | two ascending sequences with the same elements are equal, so any correct sort (stable or not) gives the same result |
| Canonical.SortPermutationInvariant | src/main.rs:23-25 | sorting two permutations of one collection gives the same sequence |
| Strings.Join | src/main.rs:26 | `join("-")`: its body lists the parts with the separator between neighbours; its facts are carried by `JoinEnds`, `JoinLength` and `SplitJoin` |
| Strings.JoinEnds | src/main.rs:26 | a join of at least one part begins with the first part and ends with the last |
| Strings.JoinLength | src/main.rs:26 | a join is as long as its parts plus one separator between each pair of neighbours |
| Strings.SplitJoin | src/main.rs:26 | splitting a join of one or more parts at its one-character separator gives back the parts, when no part contains that character |
| Strings.ConcatAppend | src/main.rs:105-111 | the text of consecutive writes is the text of the first ones followed by that of the rest |
| Decimal.NatToStr | src/main.rs:105 | `{}` of an integer is a non-empty string of decimal digits that starts with `0` exactly when the number is 0 |
| Decimal.NatToStrRoundTrip | src/main.rs:105 | reading the rendered digits back gives the number |
| Decimal.NatToStrInjective | src/main.rs:111 | different numbers render differently |
| Csv.HeaderWriteLines | src/main.rs:77-83 | the header write splits into the lines `timestamp,address,value`, an empty line, and nothing after the final newline |
| Csv.FormatRow | src/main.rs:105 | a row line is at least five characters long and ends in a newline |
| Csv.ParseFormatRow | src/main.rs:105 | every row line reads back as its row, for any label (commas included), since the numeric fields hold no comma |
| Csv.FormatRowInjective | src/main.rs:111 | different rows give different lines |
| Chain.ChainLines | src/main.rs:97-114 | the lines one stream receives from the walk: its body lists the lines of the blocks in height order; its facts are carried by `ChainLinesAt`, `ChainLinesAppend`, `ChainLinesCount`, and `Extract.Export` proves the walk writes exactly these lines |
| Chain.TxLines | src/main.rs:101-114 | the lines one block contributes: its body lists the lines of its transactions in order; its facts are carried by `TxLinesAt` and `TxLinesCount`, and `Extract.WriteBlock` proves the per-block loop writes exactly these lines |
| Chain.EntryLines | src/main.rs:102-107 | one line per entry |
| Chain.EntryLinesAt | src/main.rs:102-107 | line `k` of a run of entries is the row (block time, label of the entry's addresses, value) of entry `k` |
| Chain.TxLinesAt | src/main.rs:101-114 | the lines of transaction `j` come after those of the earlier transactions of its block and before those of the later ones |
| Chain.ChainLinesAt | src/main.rs:97-116 | the lines of block `i` come after those of every earlier block and before those of every later one |
| Chain.ChainLinesAppend | src/main.rs:97-116 | the lines of consecutive runs of blocks are consecutive (append-only, order-preserving) |
| Chain.ChainLinesCount | src/main.rs:97-114 | each stream gets exactly as many lines as there are inputs (outputs) in the chain |
| Chain.TxLinesCount | src/main.rs:101-114 | a block contributes exactly one line per input (output) of its transactions |
| Chain.ProgressTotal | src/main.rs:88-90 | the progress total is the sum of the headers' `n_tx` modulo 2^32 |
| Chain.ProgressTotalExact | src/main.rs:88-90 | the progress total is the exact sum while that sum is below 2^32 |
| Chain.HeaderSumIsTxCount | src/main.rs:88-100 | when each header's `n_tx` is its block's transaction count, the header sum is the number of transactions walked |
| Chain.TxCountMonotone | src/main.rs:100-115 | the progress count never decreases from one block to a later one |
| Extract.CsvWriter.constructor | src/main.rs:75-79 | a newly created file holds nothing |
| Extract.CsvWriter.Write | src/main.rs:105-106 | a write appends its text to the file and changes nothing before it |
| Extract.ProgressBar.constructor | src/main.rs:91 | the bar starts at position 0 with the given length |
| Extract.ProgressBar.Inc | src/main.rs:115 | `inc` advances the position by the given amount, so it never goes down |
| Extract.WriteTx | src/main.rs:101-114 | one transaction appends its input lines to `input.csv` and its output lines to `output.csv`, in order, and nothing else |
| Extract.WriteBlock | src/main.rs:98-114 | one block appends, to each file, the lines of its transactions stamped with the block's time |
| Extract.Export | src/main.rs:75-120 | the files are distinct. Each holds the header write followed by the chain's input (output) lines. The bar's length is the progress total, and its position after the walk (before `finish`) is the number of transactions walked |
| Scenarios.EmptyChainFiles | src/main.rs:82-97 | with no blocks each file is exactly `timestamp,address,value\n\n`: the header line and one empty line |
| Scenarios.ProgressCompletes | src/main.rs:88-115 | when the headers count their blocks' transactions and the sum fits in 32 bits, the bar's position after the walk (before `finish`) equals its length |
| Scenarios.SampleFiles | src/main.rs:97-114 | for a two-block chain, `input.csv` is the header then `1000,A-B,5\n2000,C,1\n`, and `output.csv` is the header then `1000,,3\n2000,C,1\n` |

## Left out

- Prompting for the data directory and the output directory, with their retry loops (src/main.rs:36-72): interactive I/O. The output-directory loop exits only when it creates a directory, so an existing directory makes it loop forever. That is I/O glue and is not modelled.
- Logger set-up and log calls (src/main.rs:33, 44, 54, 122): no effect on the files.
- File creation, `BufWriter` buffering and `flush` (src/main.rs:75-79, 119-120): writers are append-only sequences, and what is written is what the file holds. A failing write or flush, and its `.expect` abort, are not modelled.
- Progress-bar style and rendering (src/main.rs:91-94, 121): only the length and position are kept. `bar.finish()` is not modelled, so every statement about the position is about the bar after the walk and before `finish`.
- `bitcoin_explorer` (`BitcoinDB`, `get_max_height`, `get_header`, `iter_connected_block`, `Address::to_string`): foreign library code. It is replaced by the `seq<StoredBlock>` store and by strings. Since every height below the end has a header in this store, the panic of `get_header(i).unwrap()` on a missing header cannot occur in the model.
- Chain.ProgressTotal: models the release-build wrap-around of the `u32` sum. A debug build would panic on overflow instead; that panic is not modelled.
- Extract.ProgressBar.Inc: the bar's `u64` position is a `nat`; its overflow at 2^64 is not modelled.
- Memory use: that the walk holds one block at a time is not expressed. The model receives the whole store as a value.
- Panics from `.expect` and `.unwrap` on I/O failures, and any partial files they leave.
