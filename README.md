# coincount: the unspent-output tally, in Dafny

coincount reads a stream of Bitcoin transaction records, one per line, each
of the form `<i|o> <height> <txid-hex> <vout>`. A line starting with `i` is an
input: it spends the output `vout` of transaction `txid`. Any other first
field marks an output being created. The program keeps a set of the outputs
that are currently unspent. An output is keyed by its transaction id
followed by the four big-endian bytes of `vout`. The program also counts
inputs and outputs, and at end of input it prints the set size and both
counters.

Inputs and outputs print transaction ids in opposite byte orders. `parse`
therefore reverses the decoded id of an input before it builds the key. This
is what lets a spend find the key its creation inserted.

The model has five modules:

- `Wrappers`: the `Option` and `Result` datatypes.
- `Bytes`: bytes, u32 values, `transform_u32_to_array_of_u8` (as
  `U32ToBytes`), and sequence reversal.
- `Encoding`: lowercase base16 decoding as in section 8 of RFC 4648, the
  alphabet the `HEXLOWER` decoder uses, and Rust's `str::parse::<u32>` on
  decimal text.
- `Record`: the `Line` record, the error a record can cause, `parse` (as
  `Parse`) and the key layout.
- `LiveSet`:
  - `Replay` is a specification of a whole run over records that are
    already split into fields.
  - The class `Tally` holds `main`'s three mutable locals: the set and both
    counters.
  - `Run` is the loop, proved equal to `Replay`.

Every `unwrap` or out-of-range index in `parse` is a panic in the source.
The model reports it as a `ParseError` naming the field: `Missing(k)` when
field `k` is absent, `Malformed(k)` when it does not decode. Fields are
examined in the order the source evaluates them. A u32 counter increment
past `u32::MAX` traps in a debug build. The model reports it as
`CounterOverflow`. A run that panics prints nothing, so `Replay` and `Run`
return the panic instead of a summary.

## Model

| member | source | states |
|---|---|---|
| Bytes.U32ToBytes | src/main.rs:63-69 | Always four bytes, whose big-endian value is exactly x. |
| Bytes.U32ToBytesInjective | src/main.rs:63-69 | Two u32 values have the same four bytes iff they are equal. |
| Bytes.U32ToBytesOnto | src/main.rs:63-69 | Every four-byte sequence is the encoding of its own big-endian value. Together with the two rows above, the encoding is a bijection. |
| Bytes.Reverse | src/main.rs:51-53 | Same length; element i of the result is element \|s\|-1-i of the input. |
| Bytes.ReverseInvolution | src/main.rs:51-53 | Reversing twice gives back the original sequence. |
| Encoding.HexDigitValue | src/main.rs:49 | A character has a digit value iff it is one of 0-9a-f; the alphabet maps that value back to the character. |
| Encoding.HexDecode | src/main.rs:49 | Decoding succeeds iff the text has even length and only the characters 0-9a-f; the result has half as many bytes as the text has characters. |
| Encoding.HexDecodeValues | src/main.rs:49 | Byte i of the decoded text is 16 times the value of digit 2i plus the value of digit 2i+1: high nibble first. |
| Encoding.HexEncode | src/main.rs:49 | Encoding gives two lowercase hex digits per byte. |
| Encoding.HexDecodeEncode | src/main.rs:49 | Decoding the encoding of any byte sequence gives back that sequence. |
| Encoding.HexEncodeDecode | src/main.rs:49 | Any text the decoder accepts is the encoding of what it decodes to, so accepted text is canonical. |
| Encoding.DecimalString | src/main.rs:48 | The decimal text of n is nonempty, all digits, and has no leading zero. |
| Encoding.ParseU32 | src/main.rs:48 | Empty text and a lone '+' are rejected. Accepted text is a digit, or a '+' followed by at least one more character, and every later character is a digit. |
| Encoding.ParseU32Decimal | src/main.rs:48 | Parsing the decimal text of n gives n when n <= u32::MAX and fails otherwise (overflow is rejected). |
| Encoding.ParseU32Plus | src/main.rs:48 | One leading '+' is accepted and ignored on any text that does not itself start with '+'. |
| Encoding.ParseU32LeadingZero | src/main.rs:48 | On all-digit text, a leading '0' does not change the parsed value. |
| Record.Line | src/main.rs:7-12 | The record `parse` builds: whether the line is an input, the height, and the key. It is a datatype with no contract of its own; Record.Parse states what each field holds. |
| Record.CanonicalTxid | src/main.rs:51-53 | An input's id is reversed byte for byte; an output's id is kept as is. |
| Record.MakeKey | src/main.rs:49-54 | The key is the canonical id followed by the four big-endian bytes of vout; its length is the id length plus 4. |
| Record.Parse | src/main.rs:46-61 | Succeeds iff there are at least four fields, field 1 and field 3 parse as u32, and field 2 is lowercase hex. A failure names the first bad field in evaluation order, and says Missing exactly when that field is absent. A success has input iff field 0 is "i", the parsed height, the key from MakeKey, and key length \|hex\|/2 + 4 (36 for a 64-digit id). |
| Record.KeyCanonical | src/main.rs:51-54 | A creation of id t and a spend of id reverse(t) with the same vout build the same key. |
| Record.KeyInjective | src/main.rs:49-54 | For ids of any lengths, two keys are equal iff their canonical ids and their vouts are equal. |
| Record.ParseCanonical | src/main.rs:46-61 | From text: an output record and an input record whose hex ids are byte-reversed and whose vouts agree both parse, and give equal keys of length \|id\| + 4. |
| Record.RecordText | src/main.rs:46-50 | The text of a record has the four fields `parse` reads: "i" or "o", the decimal height, the hex id and the decimal vout. |
| Record.ParseRecordText | src/main.rs:46-61 | Parsing the text of any record gives back its direction, height and key. |
| LiveSet.Track | src/main.rs:29-35 | A spend removes its key and a creation inserts it. No other key changes membership. Spending an absent key and re-creating a present key leave the set as it was. The set grows by at most one, and only on a creation. |
| LiveSet.CountsAddUp | src/main.rs:29-35 | Over any lines, spends plus creations equal the number of lines. |
| LiveSet.LiveBound | src/main.rs:29-35 | The live set never holds more keys than there were creations. |
| LiveSet.LiveMembership | src/main.rs:29-35 | A key is live after a run iff some line created it and no later line spent it. |
| LiveSet.DecodeAll | src/main.rs:26-27 | One decoding result per record, in input order: result i is what Parse makes of record i. |
| LiveSet.Lines | src/main.rs:26-27 | When every record decodes, the decoded lines in order, one per record. |
| LiveSet.Next | src/main.rs:27-35 | One pass of the loop on a state. It has no contract of its own; LiveSet.NextSpec states what it does. |
| LiveSet.NextSpec | src/main.rs:27-35 | A pass succeeds iff the record decodes and the counter it would raise is below u32::MAX. A record that does not decode panics as BadRecord with its parse error. A full counter panics as CounterOverflow. Both panics carry the record's position. On success the set becomes Track of the old set, exactly the matching counter grows by one, and the total grows by one. |
| LiveSet.Replay | src/main.rs:14-43 | The whole loop of `main` over decoded records, stopping at the first panic. It has no contract of its own; LiveSet.ReplayNext, LiveSet.ReplayStops, LiveSet.ReplaySucceeds and LiveSet.ReplayFails state what it does. |
| LiveSet.ReplayNext | src/main.rs:18-37 | A run over i+1 records is one more loop pass after the run over the first i. |
| LiveSet.ReplayStops | src/main.rs:27-38 | Once a prefix of the input has panicked, the rest of the input does not change the outcome. |
| LiveSet.ReplaySucceeds | src/main.rs:14-43 | A run succeeds iff every record decodes and neither counter exceeds u32::MAX. It then ends with the live set of the lines, nInput = number of spends, and nOutput = number of creations. |
| LiveSet.ReplayFails | src/main.rs:26-35 | A failing run stops at a record inside the input. The records before it run without a panic, so it is the first panic, and every one of them decodes. A bad record is the one whose decoding failed, with that error. A counter overflow happens at a line whose count, including that line, exceeds u32::MAX. |
| LiveSet.ReplayTotals | src/main.rs:29-43 | In the printed summary, n_input + n_output is the number of lines and set size <= n_output. |
| LiveSet.Tally.constructor | src/main.rs:15-17 | Starts with an empty set and both counters at 0. |
| LiveSet.Tally.Step | src/main.rs:29-35 | The set becomes Track of the old set. Exactly the matching counter grows by one. The set stays no larger than the output count. |
| LiveSet.Tally.Consume | src/main.rs:26-35 | One loop pass (parse, then apply) leaves exactly the state, or raises exactly the panic, that Next gives for the parsed record. |
| LiveSet.Tally.Apply | src/main.rs:29-35 | The loop body after `parse` leaves exactly the state, or raises exactly the panic, that Next gives for the record. The set stays no larger than the output count. |
| LiveSet.Run | src/main.rs:14-43 | The loop over all records returns exactly what Replay specifies for their decodings. |
| LiveSet.SpendMatchesCreation | src/main.rs:29-54 | End to end, for any two ids t and u: create t:0 and u:1, then spend reverse(t):0. Only u:1 stays live, with one input and two outputs counted. |

## Left out

- Reading standard input (`read_line`, the end-of-input test `n == 0`, and the panic on an I/O error) is not modelled. `Run` receives the whole input as a sequence of records.
- The three `println!` lines are not modelled. The summary is returned as a `Snapshot` (the set, `n_input` and `n_output`); the printed set size is the cardinality of its set.
- `split_whitespace` is not modelled: each record arrives already split into its fields.
- `HashSet` hashing and capacity are not modelled. The set is a mathematical set of keys.
- The internals of the `data_encoding` crate are not modelled. `HexDecode` is the behaviour of its `HEXLOWER` decoder: even length, characters 0-9a-f only, no padding, no whitespace.
- The panic messages and the `Debug` derive on `Line` are not modelled. A panic is reported only by its position and cause.
- The commented-out debug prints are not modelled.
- Tally.Step: follows the debug build, where an increment past `u32::MAX` traps. A release build would wrap the counter to 0 instead, and the model does not describe that. `Consume` and `Replay` report the trap as `CounterOverflow`.
- Next, Tally.Apply: the counter is tested before the set is touched. The source updates the set first (`set.remove` or `set.insert`) and then traps on the increment. The panic ends the run with nothing printed, so the order cannot be observed.
- Bytes.U32ToBytes: the shifts and masks are stated as division and remainder by powers of 256, which is equal for unsigned 32-bit values.
- The height field is parsed and checked but never used by the accounting, as in the source.
- This version of the program removes a key from the set when it is spent, and has no per-window counters, series reduction or plotting. Later versions of the program add turnover windows, a producer/consumer pipeline and plotting; this model covers only this version.
