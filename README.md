# bw: a verified model of the streaming bitwise engine

`bw` applies a bitwise operation to a byte stream. It can OR, AND or XOR
each input byte with a constant byte, or with the matching byte of a second
"operand" stream. It can also complement each byte, or shift the whole
stream left or right by a number of bits. This project models the following
parts of it in Dafny and proves properties of them:

- the current engine (src/bitwise.c);
- its stream helpers (src/utils.c);
- the earlier draft of the engine (bitwise.c at the top of the repository);
- the argument classification of the current front end (src/bw.c) and of the
  draft front end (bw.c).

The modules follow the program:

| module | file | models |
|---|---|---|
| `Streams` | streams.dfy | the stdio streams the engine works on: `fread` returns `min(n, bytes left)` and sets the end-of-file or error indicator on a short read, `fwrite` writes as much as the device still takes, and `fseek` to the start works on seekable streams |
| `ErrorCodes` | error_codes.dfy | the exit codes of error.h, and the two ways a call can end: it returns, or the `error` macro exits the process |
| `BitwiseCore` | bitwise_core.dfy | `bw_error`, `eof_mode`, `create_error`, and the per-byte operators `bw_or`, `bw_and`, `bw_xor`, `bw_not` |
| `Utils` | utils.dfy | `fskip` and `fzero` |
| `ByteEngine` | byte_engine.dfy | `bw_byte`, `or_byte`, `and_byte`, `xor_byte`, `not` |
| `FileEngine` | file_engine.dfy | `handle_eof`, `bw_file`, `or_file`, `and_file`, `xor_file` |
| `ShiftEngine` | shift_engine.dfy | `lshift` and `rshift`, with their in-place carry loops |
| `DraftBitwise` | draft_bitwise.dfy | the draft's `bw_generic_byte` loop, the recursive `read_operand`, `or_file`, and the empty stubs |
| `Cli` | cli.dfy | `matches_option`, `parse_eof_mode`, `parse_operator`, `parse_operand`, `parse_opt`, and the dispatch `switch` of `main` |
| `DraftCli` | draft_cli.dfy | the draft's `parse_operand` and `parse_opt` |

Each C loop becomes a `method` over `Input`/`Output` objects and arrays. Its
postcondition equates the final state with a recursive function over stream
values. Lemmas then give that function a closed form. For example,
`ByteFormOutcome` states the whole output of `bw_byte` regardless of chunk
size, and `FileFormOutcome` does the same for `bw_file`. The pure parts
(`create_error`, the operators, the parsers) are functions with contracts.

Shifts are computed on `bv8`. C promotes a byte to `int` (or `size_t`)
before shifting, and truncates the result when it stores it back into a
byte. For an 8-bit value that is the same as a `bv8` shift. This includes
`b >> 8 == 0` when the bit offset is 0 (src/bitwise.c:242), and the
truncation of the `size_t` temporaries at src/bitwise.c:286-288.

## Model

| member | source | states |
|---|---|---|
| BitwiseCore.CreateError | src/bitwise.c:14-24 | the tag is kept; the error number is 0 exactly when the tag is NONE or OPERAND_EOF or `errno` is 0, and is `errno` for every other tag |
| BitwiseCore.MapByte | src/bitwise.c:51-54 | same length as the chunk; byte `k` is the operation applied to input byte `k` and the operand byte |
| BitwiseCore.Combine | src/bitwise.c:172-175 | same length; byte `k` is the operation applied to input byte `k` and operand byte `k` |
| BitwiseCore.XorByteTwice | src/bitwise.c:87-93 | XOR with the same constant byte twice gives the input back |
| BitwiseCore.NotIgnoresOperand | src/bitwise.c:205-207 | `bw_not` does not depend on its second argument |
| BitwiseCore.NotTwice | src/bitwise.c:205-211 | complementing every byte twice gives the input back |
| BitwiseCore.FillBytesAreNeutral | src/bitwise.c:126-129 | OR with the ZERO fill and AND with the ONE fill leave the input unchanged |
| Streams.Input.Read | src/bitwise.c:41 | `fread` delivers `min(n, bytes left)` bytes into the buffer at the offset, leaves the rest of the buffer alone, and sets the error or end-of-file indicator on a short read |
| Streams.Output.Write | src/bitwise.c:57 | `fwrite` appends as many of the bytes as the device still takes and returns that count |
| Utils.Skipped | src/utils.c:6-29 | either branch of `fskip` moves the stream on by exactly `min(count, bytes left)` and changes nothing else about its content |
| Utils.SoughtForward | src/utils.c:10-16 | the seek branch moves the position by `n` and clears end-of-file |
| Utils.Skip | src/utils.c:6-29 | returns `min(count, bytes left)`; the stream ends where `Skipped` says, on both the seek and the read branch |
| Utils.SkipByReading | src/utils.c:19-28 | the read fallback returns `min(count, bytes left)` and leaves the stream as one read of `count` bytes would: it never skips past `count`, and it stops at the first empty read |
| Utils.ExhaustedReadsAgree | src/utils.c:22-26 | once a read comes up short, asking for more leaves the stream the same way, which is why the fallback may stop |
| Utils.Zero | src/utils.c:31-44 | `fzero` returns `min(count, room)`, falls short only when the device has less room than `count`, and the output receives zero bytes only, `count` of them as far as the device takes them |
| Utils.ZeroWritesCompose | src/utils.c:37-41 | two rounds of zero bytes write what one round of both counts writes |
| Utils.FullDeviceAgrees | src/utils.c:37-41 | once the device is full, asking for more zero bytes changes nothing |
| ByteEngine.MapInPlace | src/bitwise.c:51-54 | the first `read` bytes of the buffer become their mapped values; the rest of the buffer is unchanged |
| ByteEngine.ByteForm | src/bitwise.c:36-63 | the streams and the error after `bw_byte` are those of the chunk-by-chunk run `ByteFormRun` |
| ByteEngine.ByteFormOutcome | src/bitwise.c:36-63 | whatever the chunk size, the output receives every input byte mapped, as far as the device takes them; the error is OUTPUT_WRITE when the device has less room than the input, otherwise INPUT_READ exactly when the input ends in a read error, otherwise none; on success the whole input is consumed |
| ByteEngine.OrByte | src/bitwise.c:67-73 | `or_byte` is `bw_byte` with `bw_or` |
| ByteEngine.AndByte | src/bitwise.c:77-83 | `and_byte` is `bw_byte` with `bw_and` |
| ByteEngine.XorByte | src/bitwise.c:87-93 | `xor_byte` is `bw_byte` with `bw_xor` |
| ByteEngine.Not | src/bitwise.c:209-211 | `not` is `bw_byte` with `bw_not` and operand 0 |
| ByteEngine.NotOutput | src/bitwise.c:205-211 | when `not` succeeds, the output is the complement of every input byte, of the input's length, and complementing it again gives the input back |
| FileEngine.FillByte | src/bitwise.c:128 | the fill is 0xFF in ONE mode and 0x00 otherwise |
| FileEngine.Fill | src/bitwise.c:128 | `memset` sets `buf[from..to)` to the byte and leaves the bytes before and after alone |
| FileEngine.LoopRefill | src/bitwise.c:113-123 | the LOOP refill only extends the operand bytes already at hand, never beyond `in_read`, and does not change the operand's content |
| FileEngine.LoopRefillCompletes | src/bitwise.c:113-123 | on a seekable, non-empty operand the refill always completes the chunk without error |
| FileEngine.LoopRefillBytes | src/bitwise.c:113-123 | the bytes the refill adds are the operand from its start, repeated: added byte `j` is `operand[j mod L]` |
| FileEngine.LoopRefillPosition | src/bitwise.c:113-123 | the refill leaves the operand at the point where the repetition stops, modulo its length |
| FileEngine.Refill | src/bitwise.c:112-124 | the seek-and-read loop ends as `LoopRefill` says: OPERAND_SEEK when a seek fails, otherwise the filled chunk; `op_buf` past `in_read` is untouched |
| FileEngine.HandleEofSpec | src/bitwise.c:102-139 | every mode keeps the operand bytes already read as a prefix and resolves at most `in_read` bytes |
| FileEngine.HandleEof | src/bitwise.c:102-139 | `handle_eof` on the operand and `op_buf` ends in the state, the operand bytes and the error of `HandleEofSpec` |
| FileEngine.OperandChunk | src/bitwise.c:157-170 | one operand chunk resolves at most `in_read` bytes and keeps the operand's content |
| FileEngine.ReadOperandChunk | src/bitwise.c:157-170 | the operand half of an iteration, with the operand read into `op_buf`, ends as `OperandChunk` says |
| FileEngine.Resolvable | src/bitwise.c:102-139 | the number of input bytes that receive an operand byte is either all of them or exactly the operand bytes left |
| FileEngine.ShortError | src/bitwise.c:102-139 | the tag reported for an operand shorter than the input is NONE exactly when the operand ends normally and the mode is TRUNCATE, ZERO or ONE |
| FileEngine.OperandChunkMeaning | src/bitwise.c:157-170 | a chunk resolves the first bytes of the operand stream (the operand, then the fill or the repetition); a short chunk reports the error of the operand's end; a full chunk leaves an operand that continues the same stream |
| FileEngine.LoopChunkMeaning | src/bitwise.c:106-125 | in LOOP mode on a seekable, non-empty operand, a chunk that runs past the end gets the operand repeated, without error, and the stream continues after it |
| FileEngine.LoopChunkBytes | src/bitwise.c:106-125 | a LOOP chunk past the operand's end is the operand from its position to its end, then from its start again |
| FileEngine.ChunkAsWritten | src/bitwise.c:157-175 | with the operand read into `in_buf` as written, the bytes under the first read combine the operand with the stale `op_buf`, and the others combine the input with the resolved operand |
| FileEngine.ChunkAsWrittenWithoutRead | src/bitwise.c:157-175 | when the first operand read returns nothing, the line as written gives what the intended reading gives |
| FileEngine.ChunkAsWrittenLosesInput | src/bitwise.c:158 | input 0x0F ORed with operand 0xF0 comes out as 0xF0 as written, where 0xFF is meant |
| FileEngine.CombineInPlace | src/bitwise.c:172-175 | `in_buf[0..n)` becomes the combination of its old bytes with `op_buf[0..n)` |
| FileEngine.ProcessChunk | src/bitwise.c:157-187 | one iteration after the input read ends as `ChunkStep` says: a short write stops with OUTPUT_WRITE, and an operand error or a short operand stops with that error |
| FileEngine.FileForm | src/bitwise.c:142-189 | the streams and the error after `bw_file` are those of the chunk-by-chunk run `FileFormRun` |
| FileEngine.FileFormOutcome | src/bitwise.c:142-189 | whatever the chunk size, the output receives the input bytes the operand covers, combined with the operand stream, as far as the device takes them. The error is OUTPUT_WRITE when the device lacks room; otherwise, when the operand covers fewer bytes than the input has, the error of its end; otherwise INPUT_READ exactly when the input ends in a read error |
| FileEngine.ShortChunkClosed | src/bitwise.c:161-187 | a chunk the operand covers only in part is the last one: the output stops there with the operand's end error, or none under TRUNCATE, ZERO and ONE |
| FileEngine.OrFile | src/bitwise.c:191-193 | `or_file` is `bw_file` with `bw_or` |
| FileEngine.AndFile | src/bitwise.c:195-197 | `and_file` is `bw_file` with `bw_and` |
| FileEngine.XorFile | src/bitwise.c:199-201 | `xor_file` is `bw_file` with `bw_xor` |
| ShiftEngine.LShiftBuf | src/bitwise.c:240-244 | each of the first `read` bytes takes its high bits from itself and its low bits from the byte after it; bytes from `read` on are unchanged |
| ShiftEngine.RShiftBuf | src/bitwise.c:285-289 | each byte in `1..read` takes its low bits from itself and its high bits from the byte before it; `buf[0]` and the bytes after `read` are unchanged |
| ShiftEngine.LShiftInPlace | src/bitwise.c:240-244 | the forward in-place loop leaves the buffer as `LShiftBuf` says, because each byte reads a neighbour the loop has not yet written |
| ShiftEngine.RShiftInPlace | src/bitwise.c:285-289 | the backward in-place loop leaves the buffer as `RShiftBuf` says |
| ShiftEngine.ShiftByZero | src/bitwise.c:240-244 | a bit offset of 0 leaves the buffer unchanged in both directions |
| ShiftEngine.LeftFill | src/bitwise.c:229 | `fread` into the front of the buffer keeps its length |
| ShiftEngine.RightFill | src/bitwise.c:274 | `fread` after the first place keeps the buffer's length |
| ShiftEngine.LShiftOnce | src/bitwise.c:229-249 | one pass reads up to `bufSize - 1` bytes, shifts them in the buffer and writes them, or changes nothing after an empty read |
| ShiftEngine.RShiftOnce | src/bitwise.c:274-294 | one pass reads after `buf[0]`, shifts places `1..read` and writes them |
| ShiftEngine.LShiftChunks | src/bitwise.c:226-250 | the chunk loop of `lshift` ends as `LShiftLoop` says |
| ShiftEngine.RShiftChunks | src/bitwise.c:271-295 | the chunk loop of `rshift` ends as `RShiftLoop` says |
| ShiftEngine.LShift | src/bitwise.c:215-258 | `lshift` ends in the streams and error of `LShiftSpec`: skip, chunk loop, zero fill |
| ShiftEngine.RShift | src/bitwise.c:260-298 | `rshift` ends in the streams and error of `RShiftSpec`: zero fill, then chunk loop |
| ShiftEngine.LShiftLoopOutcome | src/bitwise.c:226-250 | the `lshift` loop writes one byte per input byte, as far as the device takes them, and ends with OUTPUT_WRITE when the device lacks room, otherwise with INPUT_READ exactly when the input ends in a read error |
| ShiftEngine.RShiftLoopOutcome | src/bitwise.c:271-295 | the same for the `rshift` loop |
| ShiftEngine.LShiftOutcome | src/bitwise.c:215-258 | on success `lshift` writes `L - min(amount / 8, L) + amount / 8` bytes; the error is OUTPUT_WRITE or INPUT_READ exactly as the device's room and the input's end decide |
| ShiftEngine.RShiftOutcome | src/bitwise.c:260-298 | on success `rshift` writes `amount / 8 + L` bytes; the error is OUTPUT_WRITE when the device lacks room for them, otherwise INPUT_READ exactly when the input ends in a read error |
| ShiftEngine.ShiftLeftBytes | src/bitwise.h:106-107 | reference definition of the whole-stream left shift, of the input's length: byte `j` takes its bits from bytes `j + amount / 8` and the one after, zero beyond the end |
| ShiftEngine.ShiftRightBytes | src/bitwise.h:109-110 | reference definition of the whole-stream right shift, of the input's length, with zeros shifted in at the front |
| ShiftEngine.LShiftLoopOneChunk | src/bitwise.c:226-250 | when the input fits in one buffer, the `lshift` loop from a zeroed buffer writes exactly the input shifted left by the bit offset |
| ShiftEngine.RShiftLoopOneChunk | src/bitwise.c:271-295 | when the input fits in one buffer, the `rshift` loop writes exactly the input shifted right by the bit offset |
| ShiftEngine.ShiftLeftByBytes | src/bitwise.c:217-223 | skipping `min(amount / 8, L)` bytes, shifting the rest by `amount % 8` and appending as many zero bytes is the shift by `amount` |
| ShiftEngine.ShiftRightByBytes | src/bitwise.c:262-268 | writing `min(amount / 8, L)` zero bytes and then the shifted prefix is the shift by `amount` |
| ShiftEngine.LShiftAfterLoop | src/bitwise.c:252-257 | after a loop that ends without error, `lshift` appends `amount / 8` zero bytes and fails only when the device takes fewer |
| ShiftEngine.LShiftOneChunk | src/bitwise.c:215-258 | when the input left after the skip fits in one buffer and the device has room, `lshift` succeeds and writes that input shifted by the bit offset, followed by `amount / 8` zero bytes |
| ShiftEngine.LShiftOneChunkExact | src/bitwise.c:215-258 | with at least `amount / 8` bytes of input and the rest in one buffer, `lshift` writes exactly the input shifted left by `amount` bits |
| ShiftEngine.RShiftOneChunk | src/bitwise.c:260-298 | when the input fits in one buffer, `rshift` writes `amount / 8` zero bytes followed by the input shifted right by the bit offset |
| ShiftEngine.ShiftRightPrefix | src/bitwise.c:260-298 | the first `L` bytes of what `rshift` writes in one chunk are the input shifted right by `amount` |
| ShiftEngine.LShiftLoopByteChunks | src/bitwise.c:240-244 | with one-byte chunks the carry byte is never refilled, so every byte is shifted as if the next one were 0 |
| ShiftEngine.RShiftLoopByteChunks | src/bitwise.c:285-289 | with one-byte chunks `buf[0]` stays 0, so every byte is shifted as if the one before it were 0 |
| ShiftEngine.LShiftByteChunks | src/bitwise.c:215-258 | `lshift` with a two-byte buffer, a shift of fewer than 8 bits, no read error and a device with room for the input writes every input byte shifted on its own |
| ShiftEngine.RShiftByteChunks | src/bitwise.c:260-298 | `rshift` with a two-byte buffer, a shift of fewer than 8 bits and a device with room for the input writes every input byte shifted on its own |
| ShiftEngine.LShiftLosesCarry | src/bitwise.c:240-244 | input `80 80` shifted left by 1 in one-byte chunks comes out `00 00`, where the whole-stream shift is `01 00` |
| ShiftEngine.RShiftLosesCarry | src/bitwise.c:285-289 | input `01 00` shifted right by 1 in one-byte chunks comes out `00 00`, where the whole-stream shift is `00 80` |
| ShiftEngine.LShiftPadsPastInput | src/bitwise.c:252-257 | a one-byte input shifted left by 16 bits produces two bytes, where the shift of the input is one zero byte |
| ShiftEngine.LShiftLoopExtends | src/bitwise.c:226-250 | the `lshift` loop only appends to the output: what was written before stays a prefix |
| ShiftEngine.RShiftLoopKeeps | src/bitwise.c:271-295 | the `rshift` loop only appends: every byte already written stays in its place |
| ShiftEngine.LShiftLoopStep | src/bitwise.c:226-250 | a pass that reads some bytes and writes them all goes on from the rest of the input with the shifted buffer |
| ShiftEngine.LeftFillEnd | src/bitwise.c:229 | a full `fread` of `BW_BUF_SIZE - 1` bytes puts the chunk's last byte in the second-last place and leaves the last place alone |
| ShiftEngine.RightFillStart | src/bitwise.c:274 | `fread` into `buf + 1` leaves `buf[0]` alone and puts the next input byte in `buf[1]` |
| ShiftEngine.LShiftLoopChunkEnd | src/bitwise.c:226-250 | when the input fills a first chunk and has more, the loop writes that chunk's last byte shifted against 0, for any buffer size |
| ShiftEngine.LShiftChunkEndLosesCarry | src/bitwise.c:240-244 | for any buffer size and any shift below 8 bits, `lshift` writes the last byte of the first full chunk shifted against 0, where the whole-stream shift takes the top bits of the next input byte |
| ShiftEngine.RShiftLoopZeroCarry | src/bitwise.c:285-289 | from any pass of the `rshift` loop that starts with `buf[0]` zero, the next byte written is the next input byte shifted against 0 |
| ShiftEngine.RShiftLoopFullChunk | src/bitwise.c:271-295 | after a full chunk the `rshift` loop goes on with the next input byte and a buffer whose `buf[0]` is still 0, so by `RShiftLoopZeroCarry` the first byte of every later chunk loses the low bits of the byte before it, for any buffer size |
| ShiftEngine.LeftBytesAt | src/bitwise.h:106-107 | the whole-stream left shift of two bytes by fewer than 8 bits: the first takes its low bits from the second, the second from a zero |
| ShiftEngine.LShiftCarriedIsShift | src/bitwise.c:226-250 | a chunked left shift whose buffer holds the next chunk's first byte computes the whole-stream shift for every chunk size |
| ShiftEngine.RShiftCarriedIsShift | src/bitwise.c:271-295 | a chunked right shift whose `buf[0]` holds the previous chunk's last byte computes the whole-stream shift for every chunk size |
| ShiftEngine.CorrectedLShiftIsShift | src/bitwise.c:215-258 | `lshift` with carrying chunks and a zero fill as long as the skip is the whole-stream left shift, of the input's length |
| ShiftEngine.CorrectedRShiftIsShift | src/bitwise.c:260-298 | `rshift` with carrying chunks that keeps the input's length is the whole-stream right shift |
| DraftBitwise.GenericByte | bitwise.c:10-20 | the `bw_generic_byte` loop ends in the streams of `GenericByteRun` |
| DraftBitwise.GenericByteOutcome | bitwise.c:10-20 | whatever the chunk size, the draft consumes the whole input, including one that ends in a read error, and the output receives every byte mapped, as far as the device takes them |
| DraftBitwise.GenericByteMatchesCurrent | bitwise.c:10-20 | the draft and the current byte form leave the same output |
| DraftBitwise.OrByte | bitwise.c:70-72 | the draft `or_byte` is the loop with `\|=` |
| DraftBitwise.AndByte | bitwise.c:94-96 | the draft `and_byte` is the loop with `&=` |
| DraftBitwise.XorByte | bitwise.c:104-106 | the draft `xor_byte` is the loop with `^=` |
| DraftBitwise.Not | bitwise.c:114-117 | the draft `not` is the loop with `^= ~0` |
| DraftBitwise.NotMatchesCurrent | bitwise.c:114-117 | XOR with 0xFF writes what the current `not` writes: the complement of every byte |
| DraftBitwise.ReadOperandSpec | bitwise.c:26-66 | at most `count` bytes; when it returns outside TRUNCATE it has exactly `count` bytes; TRUNCATE keeps the short read; ZERO and ONE keep what was read and fill the rest with 0x00 or 0xFF |
| DraftBitwise.ReadOperand | bitwise.c:26-66 | `read_operand` on the operand and the buffer ends as `ReadOperandSpec` says and leaves the buffer before the offset alone |
| DraftBitwise.ShortRead | bitwise.c:29-63 | after a short read, a read error exits with code 3 and end-of-file goes by the mode |
| DraftBitwise.ReadAgain | bitwise.c:35-45 | the LOOP case exits with code 5 when the seek fails, and otherwise appends what the recursive call reads from the start |
| DraftBitwise.FillFrom | bitwise.c:46-55 | `memset` keeps the bytes read and fills the rest of the count |
| DraftBitwise.EmptyLoopRecursesForever | bitwise.c:35-45 | an empty seekable operand in LOOP mode reads nothing, seeks back, and calls itself again on the same stream and count |
| DraftBitwise.LoopReadsAgree | bitwise.c:35-45 | on a seekable, non-empty operand the draft's recursion reads exactly what the current refill loop reads |
| DraftBitwise.ReadOperandMatchesCurrent | bitwise.c:26-66 | the draft returns exactly when the current engine reports no error, and then with the same bytes and operand; otherwise it exits with the error.h code of that error |
| DraftBitwise.OrChunk | bitwise.c:82-88 | one iteration stops when `read_operand` exits or resolves nothing, and otherwise writes the OR of the chunk with the resolved bytes |
| DraftBitwise.OrFile | bitwise.c:74-90 | the draft `or_file` ends in the streams and status of `OrFileRun` |
| DraftBitwise.OrFileStatus | bitwise.c:74-90 | the draft exits only when the operand covers fewer input bytes than there are |
| DraftBitwise.OrFileOutcome | bitwise.c:74-90 | whatever the chunk size, the draft ends as `OrFileStatus` says, and when it returns the output is the current engine's closed form for OR |
| DraftBitwise.TruncatedRunStops | bitwise.c:82-83 | once the operand is exhausted in TRUNCATE mode, nothing more is written |
| DraftBitwise.OrFileTruncate | bitwise.c:77-89 | in TRUNCATE mode the draft returns and writes the OR of the input and the operand over the length of the shorter one |
| DraftBitwise.OrFileMatchesCurrent | bitwise.c:74-90 | when the draft `or_file` returns, its output is that of the current `or_file` |
| DraftBitwise.AndFile | bitwise.c:98-100 | the stub reads and writes nothing |
| DraftBitwise.XorFile | bitwise.c:108-110 | the stub reads and writes nothing |
| DraftBitwise.LShift | bitwise.c:121-123 | the stub reads and writes nothing |
| DraftBitwise.RShift | bitwise.c:125-127 | the stub reads and writes nothing |
| Cli.MatchesOption | src/bw.c:57-72 | true exactly when `arg` is non-empty and, ignoring case, a prefix of the option; `matches_operand` at bw.c:57-72 is the same code |
| Cli.LongerNeverMatches | src/bw.c:61-68 | an argument longer than the option never matches |
| Cli.MatchesIgnoresCase | src/bw.c:65 | lower-casing either string does not change the result |
| Cli.ParseEofMode | src/bw.c:74-88 | the result matches its name and no earlier mode in the order error, truncate, loop, zero, one matches; it exits with code 2 exactly when no mode matches |
| Cli.EofModeNamesParse | src/bw.c:74-88 | each mode's full name parses back to that mode |
| Cli.EofModeShortForms | src/bw.c:51-53 | "e", "E", "t", "T", "l", "z" and "o" select their modes, and "" exits with code 2 |
| Cli.ParseOperator | src/bw.c:90-106 | the result is named by `arg` and no earlier operator is; it exits with code 2 exactly when no symbol or word matches; the draft's `parse_operator` at bw.c:74-90 is the same code |
| Cli.OnlyNames | src/bw.c:90-106 | an argument whose first letter begins only one operator's names can name only that operator |
| Cli.OperatorNamesParse | src/bw.c:90-106 | every symbol and every word parses back to its operator |
| Cli.OperatorShortForms | src/bw.c:90-106 | "<" is LSHIFT, ">" is RSHIFT, "o" is OR, "n" is NOT, and "" exits with code 2 |
| Cli.ParseOperand | src/bw.c:108-124 | it exits exactly for NOT (code 1) or for a shift amount that does not parse (code 2); OR, AND and XOR set the byte or else the file name, and the shifts set the amount; other fields are kept |
| Cli.Arguments.constructor | src/bw.c:170-172 | the defaults: eof mode ERROR, no files, operator OR, zero operand |
| Cli.ParseOptSpec | src/bw.c:127-163 | the reply is ARGP_ERR_UNKNOWN exactly for an unknown key; the end key changes nothing; positional arguments after the second change nothing; only `-e` changes the eof mode, it returns exactly when its argument names a mode, and then sets that mode |
| Cli.ParseOpt | src/bw.c:127-163 | `parse_opt` on the `arguments` object ends as `ParseOptSpec` says |
| Cli.ParsePositional | src/bw.c:140-157 | calling `parse_opt` for each positional argument and then for the end ends as `Positional` says |
| Cli.NoOperatorIsUsageError | src/bw.c:150-152 | no positional argument exits with code 1 |
| Cli.LoneOperator | src/bw.c:140-156 | a lone operator is accepted only when it is NOT; an unknown one exits with code 2 and any other with code 1 |
| Cli.NotTakesNoOperand | src/bw.c:121-122 | NOT with an operand exits with code 1 |
| Cli.OperatorAndOperand | src/bw.c:140-149 | with an operator and an operand, parsing returns exactly when both parse, with the parsed values |
| Cli.ExtraArgumentsIgnored | src/bw.c:140-149 | arguments after the second change nothing |
| Cli.PositionalKeepsEof | src/bw.c:140-157 | positional arguments never change the eof mode |
| Cli.NoEofOptionKeepsEof | src/bw.c:127-163 | any sequence of `parse_opt` calls (`ParseAll`) none of which is for `-e` leaves the eof mode as it was |
| Cli.LastEofOptionDecides | src/bw.c:137-138 | when parsing returns, the last `-e` decides the eof mode, whatever calls come before or after it |
| Cli.DefaultEofMode | src/bw.c:170-174 | from the defaults of `main`, any command line without `-e`, options and positional arguments in any order, runs a file operation in ERROR mode |
| Cli.Dispatch | src/bw.c:204-235 | OR, AND and XOR call their file form exactly when an operand file was named (with the eof mode) and their byte form otherwise (with the byte); NOT calls `not`; the shifts pass the amount |
| DraftCli.DraftParseOperand | bw.c:92-112 | it exits exactly for NOT (code 1) or an amount that does not parse (code 2); otherwise it returns a fresh operand holding only the parsed byte, file name or amount |
| DraftCli.DraftParseOptSpec | bw.c:115-148 | `-e` is an unknown key like any other; the eof mode never changes; the second positional argument replaces the operand whole |
| DraftCli.DraftParseOpt | bw.c:115-148 | the draft `parse_opt` on the `arguments` object ends as `DraftParseOptSpec` says |
| DraftCli.DraftEofStaysError | bw.c:155-157 | whatever the command line, the draft's eof mode stays ERROR |
| DraftCli.DraftPositionalAgrees | bw.c:125-142 | from an unset operand, the draft makes of the positional arguments what src/bw.c makes of them, with the same exit codes |
| DraftCli.DraftNoOperatorIsUsageError | bw.c:135-137 | no positional argument exits with code 1 |
| DraftCli.DraftLoneOperator | bw.c:125-141 | a lone operator other than NOT exits with code 1, and an unknown one with code 2 |
| DraftCli.DraftOperandReplacesWhole | bw.c:92-112 | a byte operand clears the file name in the draft, where src/bw.c keeps it |

## Findings

| source | as written | input that shows it | evidently intended | confidence | as-written member | corrected member |
|---|---|---|---|---|---|---|
| src/bitwise.c:158 | the operand chunk is read into `in_buf`, over the input, and `op_buf` keeps stale bytes | input `0F`, operand `F0`, OR | the operand is read into `op_buf`, giving `FF` | not executed | FileEngine.ChunkAsWrittenLosesInput | FileEngine.ProcessChunk |
| src/bitwise.c:240-244 | the carry byte `buf[read]` of `lshift` is never the next stream byte, so no bits cross a chunk boundary | input `80 80`, shift 1, two-byte buffer: output `00 00` | `01 00`, the whole-stream shift | not executed | ShiftEngine.LShiftLosesCarry | ShiftEngine.CorrectedLShiftIsShift |
| src/bitwise.c:285-289 | `buf[0]` of `rshift` stays 0, so no bits cross a chunk boundary | input `01 00`, shift 1, two-byte buffer: output `00 00` | `00 80`, the whole-stream shift | not executed | ShiftEngine.RShiftLosesCarry | ShiftEngine.CorrectedRShiftIsShift |
| src/bitwise.c:252-257 | `lshift` writes `amount / 8` zero bytes even when fewer input bytes were skipped | input `AA`, shift 16: two bytes out | one zero byte, the input's length | not executed | ShiftEngine.LShiftPadsPastInput | ShiftEngine.CorrectedLShiftIsShift |
| src/bitwise.c:265-297 | `rshift` writes `amount / 8` zero bytes and then every input byte, so the output grows | input of `L` bytes, shift 8: `L + 1` bytes out | `L` bytes, the whole-stream shift | not executed | ShiftEngine.RShiftOutcome | ShiftEngine.CorrectedRShiftIsShift |

The engine's methods (`FileEngine.FileForm`, `ShiftEngine.LShift`,
`ShiftEngine.RShift`) model the code. For the operand read, the model uses
the corrected reading throughout: `ProcessChunk` reads into `op_buf`, and
`ChunkAsWritten` records the line as written. The shift drivers are
modelled as written. The corrected shifts, `CorrectedLShift` and
`CorrectedRShift`, stand beside them with their own proofs.

## Left out

- `main` of src/bw.c and of bw.c: opening and closing files, printing, and
  mapping the engine's error to an exit status are not modelled. Only the
  choice of engine call is modelled (`Cli.Dispatch`). As written,
  src/bw.c:203 uses the undefined `BW_ERROR_NONE`, and src/bw.c:249-252
  tests and returns a struct as an `int`, so this code would not compile.
- `argp`: the option tables, the help text, `argp_parse` and `argp_usage`
  are not modelled. `parse_opt` is called with a `Key` and the positional
  argument count, and `argp_usage` is its exit with `argp_err_exit_status`,
  code 1. A command line is the sequence of `parse_opt` calls it makes
  (`Cli.ParseAll`, `DraftCli.DraftParseAll`).
- What `argp_parse` does when `parse_opt` answers ARGP_ERR_UNKNOWN for an
  option listed in its table (the draft's `-e`, bw.c:115-148) is not
  modelled: the draft's calls simply go on, so `DraftEofStaysError` speaks
  only of the draft's eof mode, not of whether `argp` lets the program run.
- `sscanf` with `%hhi` and `%zu` is a library call. What it makes of an
  argument is given as a `Scan` value.
- error.c `_error` only formats a message. Only the exit codes of error.h
  are kept.
- `errno`, `BUFSIZ` and `BUF_SIZE` are parameters. Any buffer size of at
  least 2 is allowed.
- Utils.Skip: `fstat` is a parameter. src/utils.c:9 takes the seek branch
  only when `fstat` fails, and then reads the uninitialised `st.st_size`.
  The model gives that size the stream's length. With a working `fstat`,
  the read fallback always runs.
- `ftell`, `fseek` and the stream indicators are modelled only as far as
  the engine uses them. `ftell` is the position on a seekable stream and
  -1 otherwise. `fseek` succeeds exactly on seekable streams.
- Uninitialised memory is not modelled.
  - The stale contents of `op_buf` are a parameter of
    `FileEngine.ChunkAsWritten`.
  - The fields that the draft's `parse_operand` leaves unset are taken to
    be zero and NULL (`DraftCli.Fresh`).
- Sizes are unbounded: shift amounts and counts are `nat`, without
  `size_t` wrap-around.
- DraftBitwise.ReadOperandSpec: its domain leaves out an empty, seekable
  operand in LOOP mode. On that operand the C recursion never returns
  (`EmptyLoopRecursesForever`), so the function is undefined there.
  `DraftBitwise.ReadOperand`, `DraftBitwise.OrFile` and
  `DraftBitwise.OrFileOutcome` carry the same restriction.
- The draft's `fwrite` results and its silent stop at a read error are
  modelled. The process exit of the `error` macro is modelled as a status,
  not as the end of the program.
- Cross-chunk carry correctness is not claimed for the shifts as written,
  because it does not hold (see Findings). Whole-stream correctness is
  proved only when the input left after the skip fits in one buffer, and
  for the corrected shifts.
- In `lshift`, when a full chunk is followed by a shorter one, the byte
  after the shorter chunk's last byte still holds an already-shifted byte
  from the chunk before. `LShiftLoop` captures this byte for byte, but no
  separate lemma states it.
- The test harness (test/test.c, test/test.h, test/bw-test.c) and `fsize`,
  which no shown file defines, are not modelled.
