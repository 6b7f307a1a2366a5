# A model of the SentNodes agent, with proofs

This Dafny 4.11 project models the parts of the agent whose correctness does not show in any
single function body: the bech32 codec, the hand-written protobuf writer and readers with the
signed transfer built from them, the surgical editor of `config.toml`, the withdrawal guard with
its log, enrollment, the command batch and the container-event pipeline. `dafny verify
dfyconfig.toml` checks all of it. The network, the disk, the Docker daemon, the chain and the
cryptography are parameters. A theorem either holds whatever they answer or names the condition on
their answers; for the withdrawal reserve, the retries, the identity of a token and cut files that
condition is exact.

Code that loops or updates fields is a method or a class with loop invariants, proved equal to a
function; the theorems are about that function.

| part | modules |
|---|---|
| Go's integers, bits and strings, and helpers | `GoInts`, `GoStrings`, `Decimal`, `Sequences`, `Wrappers` |
| bech32 | `Regroup`, `CheckRegister`, `Checksum`, `CheckPolynomial`, `Bech32`, `Addresses` |
| protobuf and the signed transfer | `Varints`, `Protobuf`, `WireFormat`, `MessageLaws`, `SendTx`, `SendLaws`, `Keys` |
| the TOML editor | `TomlLiterals`, `TomlLines`, `TomlEdit`, `TomlDocument`, `TomlKeys`, `TomlSearch`, `TomlLaws`, `TomlFile`, `TomlEndings`, `TomlShapes`, `ConfigEdits` |
| withdrawals | `IdempotencyLog`, `Withdraw`, `WithdrawRuns` |
| the runner | `Enrollment`, `EnrollmentRuns`, `PollBatch`, `EventPipeline` |

## Main results

- **Burst errors.** Two accepted addresses of one prefix that differ only inside six consecutive
  characters are equal, at any length (`Bech32.BurstErrorsRejected`). The register step is injective
  because the low bits of the generators are independent over GF(2); up to six symbols enter the
  register unmixed.
- **The checksum is BIP-173's.** Go's shifts and exclusive ors with the five generators compute the
  remainder of a division of polynomials over GF(32), the field and the generator polynomial being the
  ones BIP-173 gives; the test is passed exactly if the polynomial of prefix and data leaves the
  remainder one (`CheckPolynomial.RegisterIsRemainder`, `CheckPolynomial.OneIffRemainderOne`). Test
  vectors of BIP-173 are accepted and produced (`Addresses`).
- **The checksum is forced.** The six symbols `Encode` appends are the only six that are accepted,
  and what `Encode` returns is accepted exactly for non-empty, lower-case prefixes that do not
  start with white space (`Bech32.ChecksumForced`, `Bech32.EncodingAccepted`).
- **The unmasked accumulator.** `convertBits`, whose accumulator wraps around in 64 bits, computes
  the digits of one unbounded number, errors included, and regrouping back returns the bytes
  (`Regroup.ConvertBits`, `Regroup.RegroupedValue`, `Regroup.RoundTrip`, `Bech32.EncodingInjective`).
- **The transfer reads back.** Walking the bytes of the signed document or of the broadcast
  transaction with the repository's own readers gives every value of the transfer, and the signed
  bytes determine all of them (`SendLaws.TransactionReadBack`, `SendLaws.DocumentDetermines`). Every
  message in them holds exactly the fields it should, each once and in order
  (`SendLaws.TransferOnce`), and what the bytes of fields are is said without writer and reader
  (`WireFormat`). Whatever is withdrawn in any run goes to the configured address
  (`WithdrawRuns.OnlyToAddress`).
- **Two readers, one answer.** The readers of `internal/chain` and `internal/keys`, written
  independently, agree on every buffer (`Keys.ReadersAgree`); wiping the key changes its 32 bytes
  and no others, and the record still shows the same window (`Keys.WipeKeepsWindow`).
- **Edits of the configuration.** The line scanner is a replacement of one item of a reference parser
  that walks the file item by item, with a key test of its own and the editor's header test and
  bracket counter (`TomlSearch.EditorSeesItems`); the new value reads back, every other entry is
  untouched, edits of different names commute, the later one of two wins, and applying a batch
  twice gives the text of applying it once, as does making any of its surviving edits again (`TomlFile`).
  So every configuration command can be sent again, a price update that also sets the oracle included
  (`ConfigEdits.CommandTwice`). Line endings are covered, among them the file whose only CRLF
  lies inside the replaced value: afterwards it has one line, or CRLF on all. An edit keeps every byte
  outside the value, at the one place where it is made, exactly if the lines around it end alike
  (`TomlEndings.EditBytes`). Values over several lines are replaced from the key to the bracket that
  closes them, whatever their strings and comments hold (`TomlShapes.ValueReplaced`,
  `TomlShapes.ArrayReplaced`).
- **The reserve.** For all 64-bit values the guards let an amount through exactly if, over the
  integers, amount + fee + reserve fits the answer of the balance query and the amount is at least the
  minimum (`Withdraw.GuardsExact`). At any moment the reserve is safe from all requests exactly if the
  answer is not above what is there when the transfer reaches the chain, or nothing can be paid, or
  the reserve is zero (`WithdrawRuns.SafeIffFresh`). Runs on such answers never go below reserve and
  floor, and runs of full withdrawals keep the reserve only on such answers
  (`WithdrawRuns.RunKeepsReserve`, `WithdrawRuns.FullWithdrawalsExact`).
- **Withdrawal runs.** Once a hash is found for an id, its id never reaches the chain again, whatever is
  written to the log afterwards, torn records included; the hash stays the same if its line is complete.
  A second call pays again exactly if the first was not remembered and key, answers, guards and account
  let it; nothing leaves the account but the transfers in the ledger; if every accepted transfer is
  reported and recorded, no two are for one id (`WithdrawRuns`).
- **Outcomes.** A withdrawal is reported as done exactly if its id was found or a transfer was made and
  the reply arrived (`WithdrawRuns.OutcomeExact`); a failure whose reply arrived paid nothing.
- **Enrollment runs.** Over restarts, rejected tokens, wallet changes and writes of the state file cut
  anywhere, a stored token is a piece of one issued for the address stored with it, or of an address
  that was written; if no write is cut inside the pair, it is the pair issued
  (`EnrollmentRuns.RunKeepsPairs`). A token in use that the server issued is the identity's own exactly
  if it was acquired for that identity, which registrations on its own key always are
  (`EnrollmentRuns.OwnIffAcquired`, `EnrollmentRuns.RunNeverForeign`).
- **Rejected tokens.** After a rejected token, or a changed wallet, and a removed file, the token in use
  is none or one the server answers with afterwards (`Enrollment.RejectedGone`,
  `EnrollmentRuns.RejectedGoneAnyWrite`).
- **Batches.** Each configuration command is edited and each other one executed exactly once, before it
  is reported; each command occurrence is reported exactly once; there is at most one restart, after
  all edits, and every deferred command gets its outcome (`PollBatch`).
- **No lost wake-up.** In every interleaving of stream reader, watcher, timer and main loop an event
  accepted since the last refresh began is still on its way, and once the stream is quiet the refresh
  begins after a bounded number of steps (`EventPipeline.EventNotLost`,
  `EventPipeline.QuietRunsDeliver`, `EventPipeline.EventIsRefreshed`).

## Where the code and its words differ

- `internal/exec/exec.go:133-135` and the warning at `internal/exec/exec.go:191` say that the on-chain
  sequence avoids a double send. A retry asks for the sequence again (line 179), so only the log
  distinguishes it. `WithdrawRuns.RetryPays` says exactly when a second call pays again, for every reply
  and every record; `WithdrawRuns.WaysToPayTwice` shows it with a fee of 20000 udvpn for a lost reply, a
  record not written or torn, an id with white space and a reply without a hash.
- `internal/exec/exec.go:232-243` appends to the log in place. After a torn record exactly the next one is
  lost, unless it is for the same id and the tear came after that id (`IdempotencyLog.NextLost`).
- The repository's `README.md:71` and `README.md:80` promise a balance that is always kept. The guards look at the answer
  of the balance query, and two commands that are answered with the same balance can break it:
  `WithdrawRuns.StaleAnswerBreaksReserve`, with `WithdrawRuns.SafeIffFresh` as the exact condition.
- `internal/exec/exec.go:299-301` says that an edit leaves all other lines intact. A file that mixes line
  endings gets the file's CRLF throughout: `TomlEndings.MixedExample` edits `a` and changes the end of
  `b`'s line, `TomlEndings.EditBytes` and `TomlEndings.UnmixedKept` give the exact conditions.
- `internal/runner/runner.go:512-513` describes the state file as the pair last enrolled with. It is
  written in place: a file cut inside the address is read as a token without an address and that is
  adopted (`Enrollment.AddressAdopted`); `Enrollment.HarmlessCuts` says exactly which cuts do no harm.
- `internal/exec/exec.go:397-400` promises a TOML basic string. It is one exactly if the value holds no
  control character but tab, line feed and carriage return (`TomlLiterals.LegalString`); U+0001 is one
  that fails (`TomlLiterals.ControlRefused`).
- `readState` inverts `writeState` exactly under the condition of `Enrollment.StateRoundTrip`.

## Assumptions

- Strings are sequences of characters. Bech32 prefixes are ASCII; addresses are any strings, and of
  Go's case folding only what can lead into ASCII is modelled, since nothing else is ever accepted.
- A Go slice has at most 2^48 bytes (`Protobuf.MAX_SLICE`). A declared length whose end leaves the
  signed 64-bit range makes Go's slice expression fail its run-time check; that is the outcome
  `Trapped`, `Panic` or `Trap`.
- The editor's keys are bare and its literals are what the encoders emit (`TomlLaws.Proper`); no line
  inside a multi-line value looks like a header or like the line of an edited key
  (`TomlFile.Editable`).
- The account grows by credits and shrinks only by the transfers of the agent. `World.balance` is what
  is there once every transfer the chain took is executed; what the balance query answers is arbitrary.
- Addresses and the server's tokens are non-empty and free of white space.

## Model

| member | source | states |
|---|---|---|
| `Regroup.ConvertBits` | internal/bech32/bech32.go:60-84 | with the accumulator wrapping in 64 bits, for widths 1 to 8, the result - symbols, range error or padding error - is that of regrouping one unbounded number |
| `Regroup.TakeGroups` | internal/bech32/bech32.go:71-74 | the inner loop takes every complete group; symbols taken and accumulator still come from the same unbounded number |
| `Regroup.WrapLowBits` | internal/bech32/bech32.go:69-73 | wrapping changes no bit below 64: a shift and mask within them reads the unbounded number |
| `Regroup.ShiftRoom` | internal/bech32/bech32.go:69 | or-ing a digit into the wrapped, shifted accumulator is an addition that cannot overflow, and equals the wrapped exact result |
| `Regroup.RegroupedValue` | internal/bech32/bech32.go:60-84 | with padding there are as many symbols as the bits need, each below 2^to, and they write the input's number times two to the padding |
| `Regroup.RoundTrip` | internal/bech32/bech32.go:60-84 | regrouping to narrower symbols with padding and back without returns the input, for every input |
| `Regroup.UnpaddedIff` | internal/bech32/bech32.go:60-84 | without padding: symbols come out exactly if the input is in range and they write the same number, but for fewer zero bits at the end than a symbol and a source digit have; a range error exactly if some digit is out of range |
| `CheckRegister.ApplyGenerators` | internal/bech32/bech32.go:39-43 | the inner loop on Go integers applies exactly the generators the shifted-out bits select |
| `CheckRegister.Polymod` | internal/bech32/bech32.go:34-46 | the source's integer arithmetic computes the 30-bit register of the GF(2) feedback loop, for every symbol list |
| `CheckRegister.LowBits` | internal/bech32/bech32.go:32 | the last five bits of the feedback as five independent sums over GF(2) of the bits shifted out |
| `CheckRegister.FeedbackInjective` | internal/bech32/bech32.go:32 | the low five bits of the feedback determine the bits shifted out |
| `CheckRegister.StepInjective` | internal/bech32/bech32.go:36-44 | the register before a step is determined by the register after it and the symbol read |
| `CheckPolynomial.GeneratorsArePowers` | internal/bech32/bech32.go:32 | over GF(32), with x^5 + x^3 + 1, the i-th generator is x^i times what 29, 22, 20, 21, 29, 18 make of x^6, symbol by symbol |
| `CheckPolynomial.StepDivides` | internal/bech32/bech32.go:36-44 | shift and feedback are one step of long division by x^6 + 29x^5 + 22x^4 + 20x^3 + 21x^2 + 29x + 18 |
| `CheckPolynomial.RegisterIsRemainder` | internal/bech32/bech32.go:34-46 | for every symbol list: one followed by the symbols, as a polynomial, is a multiple of the generator polynomial plus the register's six symbols |
| `CheckPolynomial.DivisionUnique` | internal/bech32/bech32.go:34-46 | quotient and remainder by a monic polynomial are the only ones of their kind |
| `CheckPolynomial.OneIffRemainderOne` | internal/bech32/bech32.go:27-28 | the register is one exactly if the polynomial of the symbols leaves the remainder one |
| `Checksum.FoldXor` | internal/bech32/bech32.go:34-46 | up to six symbols reach the register unmixed: the result is that of as many zeros, exclusive-or the symbols themselves |
| `Checksum.WindowInjective` | internal/bech32/bech32.go:34-46 | from one register, different runs of at most six symbols lead to different registers |
| `Checksum.BurstDetected` | internal/bech32/bech32.go:34-46 | changing at most six consecutive symbols changes the checksum, whatever comes before and after (if and only if they differ) |
| `Checksum.ChecksumUnique` | internal/bech32/bech32.go:93-102 | for every register exactly one run of six symbols leads to one, the one computed |
| `Checksum.SymbolNumber` | internal/bech32/bech32.go:100-102 | shifting and masking the final number reads the six symbols of the register |
| `Bech32.CharsetIndex` | internal/bech32/bech32.go:20-24 | searching the charset finds a character's symbol, or -1 exactly for characters outside it |
| `Bech32.HrpExpand` | internal/bech32/bech32.go:48-58 | the two loops produce high parts, a zero and low parts of the prefix |
| `Bech32.ReadSymbols` | internal/bech32/bech32.go:19-26 | the scan succeeds exactly if all characters are in the charset, and then the symbols write the text |
| `Bech32.IsValid` | internal/bech32/bech32.go:10-28 | for every string: true exactly if the trimmed, lower-cased string is prefix, '1' and at least six symbols that check, in any reading of it |
| `Bech32.Separator` | internal/bech32/bech32.go:12 | the last '1' is the separator, whatever the prefix holds |
| `Bech32.TextInjective` | internal/bech32/bech32.go:10-28 | an address text determines its prefix and its symbols |
| `Bech32.BurstErrorsRejected` | internal/bech32/bech32.go:10-46 | two accepted addresses of one prefix and length that differ only inside a window of six characters are equal |
| `Bech32.Encode` | internal/bech32/bech32.go:88-104 | never fails, and returns prefix, '1', payload symbols and the six symbols of `ChecksumOf` |
| `Bech32.AppendPayload` | internal/bech32/bech32.go:96-99 | the loop writes prefix, '1' and the payload's characters |
| `Bech32.AppendChecksum` | internal/bech32/bech32.go:100-102 | the loop appends the characters of the six checksum symbols, first symbol first |
| `Bech32.ChecksumForced` | internal/bech32/bech32.go:93-102 | prefix, payload and six symbols check exactly if the six are the ones `Encode` appends |
| `Bech32.EncodingAccepted` | internal/bech32/bech32.go:86-104 | `IsValid` accepts an encoding for its prefix exactly if the prefix is non-empty, lower-case and does not start with white space |
| `Bech32.EncodingInjective` | internal/bech32/bech32.go:86-104 | an encoded address determines its prefix and its payload bytes |
| `Addresses.SumsIffRemainderOne` | internal/bech32/bech32.go:27-28 | prefix and data check exactly if their polynomial leaves the remainder one, as BIP-173 asks |
| `Addresses.UpperCaseAccepted` | internal/bech32/bech32.go:10-28 | "A12UEL5L" is accepted for the prefix "a" |
| `Addresses.EmptyEncodings` | internal/bech32/bech32.go:86-104 | for the prefixes "a" and "?" and no bytes the encodings are "a12uel5l" and "?1ezyfcl" |
| `Addresses.ExpandedAt` | internal/bech32/bech32.go:48-58 | position by position: high halves, a zero, low halves of the prefix's characters |
| `Addresses.CharsetOrder` | internal/bech32/bech32.go:30 | the symbols 0 to 31 are written "qpzry9x8gf2tvdw0s3jn54khce6mua7l" |
| `Addresses.SmallLetters` | internal/bech32/bech32.go:11 | every capital letter is read as its small one |
| `Varints.UvarintOfVarint` | internal/chain/chain.go:230-236 | `binary.Uvarint` reads back every uint64 and exactly its bytes, whatever follows |
| `Varints.PrefixFree` | internal/chain/chain.go:230-236 | no varint is the beginning of another: a concatenation determines both parts |
| `Varints.UvarintBound` | internal/chain/chain.go:258 | what `binary.Uvarint` accepts fits 64 bits |
| `WireFormat.VarintBytes` | internal/chain/chain.go:230-236 | byte k of a varint is bits 7k to 7k+6 of the number, with the mark on all but the last byte |
| `WireFormat.VarintLength` | internal/chain/chain.go:230-236 | a varint has as many bytes as the number has groups of seven bits |
| `WireFormat.UvarintIs` | internal/chain/chain.go:258 | for all bytes: a number is read exactly if an unmarked byte comes within ten, the tenth holding one bit at most; it is the one the groups write |
| `Protobuf.Pb.Uvarint` | internal/chain/chain.go:230-236 | the loop appends the varint of the argument and changes nothing else |
| `Protobuf.Pb.Tag` | internal/chain/chain.go:237 | appends the varint of the tag word, the shift wrapping in 64 bits |
| `Protobuf.Pb.BytesField` | internal/chain/chain.go:238-243 | appends one length-delimited field; the buffer stays the encoding of the fields written |
| `Protobuf.Pb.Uint64Field` | internal/chain/chain.go:244 | appends one varint field, zero included; the buffer stays the encoding of the fields written |
| `WireFormat.FieldOnWire` | internal/chain/chain.go:237-244 | a field is the varint of eight times its number plus wire type 0 or 2, and its varint, or length and bytes |
| `WireFormat.NumberItem` | internal/chain/chain.go:265-273 | a tag of wire type 0 and a varint are handed on as that number, and the scan goes on behind them |
| `WireFormat.BytesItem` | internal/chain/chain.go:284-296 | a length is taken if the buffer holds as many bytes; a longer one ends the scan, by the run-time check exactly if its end is no signed 64-bit number |
| `WireFormat.OtherItem` | internal/chain/chain.go:274-299 | eight bytes of wire type 1 and four of wire type 5 are skipped; fewer, and the other wire types, end the scan |
| `Protobuf.PbScan` | internal/chain/chain.go:255-301 | the callback gets the visits of a full scan in order, up to the first it answers with false; malformed input ends the scan |
| `Protobuf.PbBytesField` | internal/chain/chain.go:303-313 | the captured variable holds the first length-delimited field with the number, or nothing |
| `Protobuf.PbVarintField` | internal/chain/chain.go:315-325 | the captured variable holds the first varint field with the number, or zero |
| `MessageLaws.ScanOfEncode` | internal/chain/chain.go:228-301 | scanning written fields visits exactly them, in order, each window holding its value, and consumes the whole buffer |
| `MessageLaws.GetOfEncode` | internal/chain/chain.go:303-325 | for every field list the getters return the first value written under the number, and nothing or zero if there is none |
| `Decimal.ParseOfFormat` | internal/chain/chain.go:163 | every amount survives being written and read as a decimal string |
| `Decimal.ParseOfLarge` | internal/chain/chain.go:69-75 | a balance beyond 64 bits is read as the largest 64-bit number, every other one as itself |
| `WireFormat.FormatDigits` | internal/chain/chain.go:163 | the digit at each decimal place of a written amount |
| `WireFormat.FormatLength` | internal/chain/chain.go:163 | an amount is written with as many digits as it needs |
| `WireFormat.ParseIs` | internal/chain/chain.go:69-75 | for all bytes: the number the digits write, the largest 64-bit number if it is larger, 0 if there is anything but digits |
| `SendTx.Coin` | internal/chain/chain.go:160-165 | the bytes are the encoding of a Coin with the amount in decimal |
| `SendTx.WrapAny` | internal/chain/chain.go:246-251 | the bytes are the encoding of an Any with type URL and value |
| `SendTx.BuildBody` | internal/chain/chain.go:167-180 | the bytes are the encoding of the transaction body; an empty memo is left out |
| `SendTx.BuildSignerInfo` | internal/chain/chain.go:182-197 | the bytes are the encoding of the signer info: key, sign mode, sequence |
| `SendTx.BuildFee` | internal/chain/chain.go:199-202 | the bytes are the encoding of fee coin and gas limit |
| `SendTx.BuildAuthInfo` | internal/chain/chain.go:204-208 | the bytes are the encoding of signer info and fee |
| `SendTx.BuildSignDoc` | internal/chain/chain.go:210-215 | the bytes are the encoding of the document to sign, built on the given body and auth bytes |
| `SendTx.BuildTxRaw` | internal/chain/chain.go:218-223 | the bytes are the encoding of the transaction: body, auth info and signature as given |
| `SendTx.BuildSignedSend` | internal/chain/chain.go:159-224 | the result is the transaction over the same body and auth bytes, with the signature of exactly the document |
| `SendLaws.DocumentReadBack` | internal/chain/chain.go:159-216 | the repository's readers recover every value of the transfer from the signed document, and the type URLs and sign mode |
| `SendLaws.TransferOnce` | internal/chain/chain.go:159-224 | document, transaction, body, signer info, fee and every message inside hold exactly the fields of the bank transfer, with their numbers and wire types, each once and in order |
| `SendLaws.AsciiCodes` | internal/chain/chain.go:172-188 | the bytes of a text are the codes of its characters, for every ASCII text |
| `SendLaws.DocumentDetermines` | internal/chain/chain.go:210-216 | equal signed documents come from equal transfers: sender, key, destination, denomination, amount, fee, gas, chain, account, sequence and memo |
| `SendLaws.TransactionReadBack` | internal/chain/chain.go:159-224 | the transaction carries the body and auth bytes that were signed and the signature over the document, and reads back to the transfer |
| `Keys.PbBytes` | internal/keys/keys.go:146-187 | the loop returns the window of the first wanted field or the error of the first malformed item |
| `Keys.ReadersAgree` | internal/keys/keys.go:146-187 | on every buffer this reader finds a window exactly if the other one does, and the same one |
| `Keys.PbBytesIn` | internal/keys/keys.go:126-137 | a search inside a window already found, in coordinates of the record |
| `Keys.ExtractPrivKey` | internal/keys/keys.go:121-142 | the four nested searches and the length test yield the key's window in the record or the source's error |
| `Keys.TakeKey` | internal/keys/keys.go:65-74 | the key is read, then its window is zero and the rest of the record unchanged; on an error nothing changes |
| `Keys.Wipe` | internal/keys/keys.go:72-74 | the loop zeroes the window and nothing else |
| `Keys.WipeKeepsWindow` | internal/keys/keys.go:72-74 | the wiped record shows the same window, all zero, and differs nowhere else |
| `Keys.KeyOfRecord` | internal/keys/keys.go:118-142 | from a nested record built by the writer, whatever other fields it holds, the written key is taken if it has 32 bytes and refused otherwise |
| `TomlLiterals.BracketDelta` | internal/exec/exec.go:369-395 | the loop counts the brackets opened outside strings and comments |
| `TomlLiterals.StringDelta` | internal/exec/exec.go:397-400 | the counter sees an encoded string as nothing, whatever it holds and whatever follows |
| `TomlLiterals.ArrayDelta` | internal/exec/exec.go:402-409 | the counter sees an encoded list as balanced, whatever the items hold |
| `TomlLiterals.NoBreakString` | internal/exec/exec.go:397-400 | an encoded string holds no raw line break |
| `TomlLiterals.NoBreakElements` | internal/exec/exec.go:402-409 | an encoded list holds no raw line break |
| `TomlLiterals.StringRoundTrip` | internal/exec/exec.go:397-400 | a decoder of the emitted escapes recovers every string |
| `TomlLiterals.ArrayRoundTrip` | internal/exec/exec.go:402-409 | a decoder of the emitted form recovers every list of strings |
| `TomlLiterals.PlainKept` | internal/exec/exec.go:397-400 | characters without a special meaning are written as they are |
| `TomlLiterals.Spelling` | internal/exec/exec.go:397-409 | how the five escaped characters, an empty list, and lists of one and two are spelled |
| `TomlLiterals.LegalString` | internal/exec/exec.go:397-400 | the encoded string is a TOML v1.0.0 basic string exactly if the value holds no control character but tab, line feed and carriage return |
| `TomlLiterals.ControlRefused` | internal/exec/exec.go:397-400 | a value holding U+0001 is written raw and is no TOML basic string then |
| `TomlLines.LinesOfJoin` | internal/exec/exec.go:303-307 | lines joined and split again are the same lines, and the line ending is kept as soon as there is one |
| `TomlLines.TextJoinable` | internal/exec/exec.go:303-307 | the lines of any text survive joining with its line ending |
| `TomlEdit.SpanEnd` | internal/exec/exec.go:322-330 | the loop finds the last line of the value that starts here, or that its brackets never close |
| `TomlEdit.ReplaceAt` | internal/exec/exec.go:318-336 | the value's lines become one line with the old indentation; no value on the line or an open value fails |
| `TomlEdit.SetKeyInTable` | internal/exec/exec.go:302-339 | the scanner with its table cursor makes the edit at the first matching line, or fails exactly where the line-wise specification does |
| `TomlEdit.SurgicalEdit` | internal/exec/exec.go:288-297 | the edits are applied in order, each to the text the one before left; one failure fails all |
| `TomlShapes.CountIsDepth` | internal/exec/exec.go:369-395 | for every line made of words, basic and literal strings, brackets and a comment: the count is the number of brackets opened less that of those closed, strings and comment not counting |
| `TomlShapes.SpanIsValue` | internal/exec/exec.go:322-330 | a value's lines end where its brackets close, whatever follows |
| `TomlShapes.ValueReplaced` | internal/exec/exec.go:302-339 | for every file in which such a value starts at the first line of the key in the table: exactly the value's lines are replaced, by one with the old indentation |
| `TomlShapes.ArrayReplaced` | internal/exec/exec.go:302-339 | the same for any list of strings written one to a line, with any indentation, and comments that may hold brackets and quotes |
| `TomlShapes.UnclosedFails` | internal/exec/exec.go:322-330 | a value whose brackets never close makes the edit fail |
| `TomlShapes.ValueOnNextLineFails` | internal/exec/exec.go:318-321 | so does a line with nothing behind the equals sign |
| `TomlShapes.HeaderRead` | internal/exec/exec.go:342-356 | [name] and [[name]], with blanks inside and outside and a comment behind, name the table |
| `TomlShapes.NoHeaderBefore` | internal/exec/exec.go:342-346 | a line that begins with anything but a bracket is no header |
| `TomlShapes.HeaderLeads` | internal/exec/exec.go:309-317 | the table in force at a line is that of the last header before it |
| `TomlDocument.FlattenParse` | internal/exec/exec.go:299-339 | the reference parser takes a file apart into headers, entries and other lines without loss |
| `TomlKeys.KeyTests` | internal/exec/exec.go:359-365 | for bare keys the editor's prefix test and the parser's key before the equals sign agree, both ways |
| `TomlSearch.NewLineEntry` | internal/exec/exec.go:331-334 | the line written is an entry of its own with the key sought: no header, balanced, with a value |
| `TomlSearch.NewLineIndent` | internal/exec/exec.go:331-334 | writing over a written line gives the line written over the original one |
| `TomlSearch.EditorSeesItems` | internal/exec/exec.go:309-338 | the scanner over lines makes the same edit, or fails alike, as replacing the first entry of that name among the parsed items |
| `TomlLaws.SetStable` | internal/exec/exec.go:309-338 | parsing the edited lines gives the edited items |
| `TomlLaws.SetSucceeds` | internal/exec/exec.go:309-338 | an edit succeeds exactly if the parser finds the entry, with a value on its line, and it ends |
| `TomlLaws.SetReads` | internal/exec/exec.go:309-338 | afterwards the edited name reads as the new line and every other name as before |
| `TomlLaws.Overwrites` | internal/exec/exec.go:288-297 | a later edit of the same name undoes the earlier one |
| `TomlLaws.Commutes` | internal/exec/exec.go:288-297 | edits of different names can be exchanged, and neither makes the other fail or succeed |
| `TomlLaws.BatchAbsorbs` | internal/exec/exec.go:288-297 | an edit before a batch that edits the same name leaves no trace |
| `TomlLaws.BatchTwice` | internal/exec/exec.go:288-297 | a batch on its own result changes no item |
| `TomlFile.EditedItems` | internal/exec/exec.go:302-339 | an edited text parses to the edited items, is joined with the old line ending, keeps it while it has two lines, and has no more lines than before |
| `TomlFile.EditSucceeds` | internal/exec/exec.go:302-339 | on texts: an edit succeeds exactly if the reader finds the entry with a value on its line and it ends |
| `TomlFile.EditReadBack` | internal/exec/exec.go:302-339 | after an edit the reader returns the literal for table and key |
| `TomlFile.EditFrame` | internal/exec/exec.go:302-339 | after an edit every other table and key reads as before |
| `TomlFile.EditShape` | internal/exec/exec.go:302-339 | for every file and without preconditions: the new lines are the old ones with one closed span replaced by one line |
| `TomlFile.BatchText` | internal/exec/exec.go:288-297 | a batch on the text is the batch on its items, failures included |
| `TomlFile.BatchIdempotent` | internal/exec/exec.go:288-339 | applying a batch to its own result gives the same text, line endings included |
| `TomlFile.EditsCommute` | internal/exec/exec.go:288-339 | two edits of different names give the same text, or the same failure, in either order |
| `TomlFile.LaterWins` | internal/exec/exec.go:288-339 | two edits of one name give the text, or the failure, of the later one alone |
| `TomlFile.EditAgain` | internal/exec/exec.go:288-339 | after a batch, an edit of it that no later edit overwrites changes nothing when made again |
| `TomlFile.BatchAgain` | internal/exec/exec.go:288-339 | after a batch, any further batch of its surviving edits, in any order and number, changes nothing |
| `TomlEndings.UnmixedKept` | internal/exec/exec.go:303-336 | splitting and joining gives a text back exactly if it holds no CRLF or every line break is one |
| `TomlEndings.UniformIff` | internal/exec/exec.go:303-307 | all lines end with the line ending the editor chooses exactly if the text holds no CRLF or nothing else |
| `TomlEndings.EditBytes` | internal/exec/exec.go:299-339 | on success, in every file, at the first line of the key in its table and over the lines its value takes: all bytes outside are kept, line endings included, exactly if those lines end with the file's line ending; an unmixed file is one such |
| `TomlEndings.MixedChanged` | internal/exec/exec.go:303-336 | the same for any two lines: the second one's LF becomes CRLF though only the first is edited |
| `TomlEndings.MixedExample` | internal/exec/exec.go:303-336 | editing one key of "a = 1\r\nb = 2\n" changes the ending of the other line |
| `ConfigEdits.StringLiteral` | internal/exec/exec.go:397-400 | what the string encoder emits is a literal the editor's laws apply to |
| `ConfigEdits.ArrayLiteral` | internal/exec/exec.go:402-409 | what the list encoder emits is a literal the editor's laws apply to |
| `ConfigEdits.PricesReadBack` | internal/exec/exec.go:37-42 | both prices, decoded, read back as given, for all strings, and every other entry is unchanged |
| `ConfigEdits.AddressesReadBack` | internal/exec/exec.go:55-57 | the address list, decoded, reads back as given |
| `ConfigEdits.MonikerReadBack` | internal/exec/exec.go:69-71 | the moniker, decoded, reads back as given |
| `ConfigEdits.OracleReadBack` | internal/exec/exec.go:90-96 | the oracle's name reads back; the endpoint is the default set beside it, or else as before |
| `ConfigEdits.CommandTwice` | internal/runner/runner.go:324-356 | every configuration command, for all values, carried out twice leaves the file of carrying it out once: prices with and without an oracle, whatever is decided from name and endpoint entry about the default endpoint, addresses and moniker |
| `ConfigEdits.PriceUpdateReads` | internal/runner/runner.go:326-338 | a price update carried out leaves both prices sent, each under its own key, and the oracle's name |
| `ConfigEdits.EndpointSet` | internal/exec/exec.go:90-96 | the default endpoint is set exactly if it is decided so, and is left as it was otherwise |
| `ConfigEdits.OtherCommandsRead` | internal/runner/runner.go:339-355 | addresses and moniker read back after their command; an empty address list is refused |
| `ConfigEdits.PriceUpdateSucceeds` | internal/runner/runner.go:326-338 | a price update is carried out exactly if every entry it sets is there with a value that ends; the oracle's endpoint counts exactly if it is decided, on the file as it was sent, to set it |
| `ConfigEdits.OtherCommandsSucceed` | internal/runner/runner.go:339-355 | so are the other commands; the address list must not be empty |
| `IdempotencyLog.LookupWithdraw` | internal/exec/exec.go:218-230 | the loop over the lines returns the hash of the first line for the id |
| `IdempotencyLog.LookupKept` | internal/exec/exec.go:218-243 | a recorded hash is found unchanged whatever is appended |
| `IdempotencyLog.FoundStays` | internal/exec/exec.go:218-243 | in any log an id that is found stays found whatever is appended; its hash stays if its line is complete, and is continued otherwise |
| `IdempotencyLog.RecordedFound` | internal/exec/exec.go:218-243 | after any record in a log of complete lines - any id, any hash, torn anywhere - the id is found exactly if it is a word and something of the hash can be read back, and then that |
| `IdempotencyLog.FindableIff` | internal/exec/exec.go:218-243 | for hashes without a line break: a record is findable exactly if the id is a word and something of the hash but white space is written |
| `IdempotencyLog.OthersKept` | internal/exec/exec.go:218-243 | recording one id leaves the lookups of all others as they were |
| `IdempotencyLog.NextLost` | internal/exec/exec.go:218-243 | after a torn record exactly the next one is lost, unless it is for the same id and the tear came after that id; the log is closed again |
| `Withdraw.GuardsExact` | internal/exec/exec.go:160-177 | for all 64-bit values the wrapping guards send an amount exactly if amount + fee + reserve is within the answered balance over the integers - equal to it for `all` - and the amount is positive and at least the minimum |
| `Withdraw.Host.CheckAmount` | internal/exec/exec.go:160-177 | the branches in wrapping arithmetic compute the verdict of the guards, refusals and their reasons included |
| `Withdraw.Host.Withdraw` | internal/exec/exec.go:136-194 | log, account, transfers and result are those of one call, for every answer of the balance query and every failure of key, queries, chain, reply and record; what is broadcast is the signed transaction over the amount, the fee and the configured address |
| `WithdrawRuns.OutcomeExact` | internal/exec/exec.go:136-194 | with an address configured the outcome is a hash exactly if the id was found or a transfer was made and the reply arrived, and then the one found or the reply's; a failure with an arrived reply changed neither ledger nor log |
| `WithdrawRuns.DisabledRefuses` | internal/exec/exec.go:137-139 | without an address nothing happens but the refusal |
| `WithdrawRuns.FailureReasons` | internal/exec/exec.go:141-189 | the reason of every failure is the first thing that went wrong |
| `WithdrawRuns.RefusalOfAmount` | internal/exec/exec.go:168-177 | why an amount asked for is refused, over the integers, each reason exactly |
| `WithdrawRuns.RefusalOfAll` | internal/exec/exec.go:160-177 | why a withdrawal of everything is refused, each reason exactly, for all 64-bit values: with a sum of fee and reserve beyond 64 bits nothing is ever sent |
| `WithdrawRuns.OnlyToAddress` | internal/exec/exec.go:132-185 | over any run every transfer goes to the configured address, the one named in the transaction's bytes |
| `WithdrawRuns.RunKeepsReserve` | internal/exec/exec.go:155-186 | over any run whose transfers are made on fresh answers every transfer leaves at least the reserve |
| `WithdrawRuns.TransferLeaves` | internal/exec/exec.go:155-177 | a transfer is at least the minimum and on a fresh answer leaves the reserve; a full withdrawal leaves it exactly then |
| `WithdrawRuns.SafeIffFresh` | internal/exec/exec.go:155-177 | no request at all can be paid out of the reserve exactly if the answer is not above what is there, or nothing can be paid, or the reserve is zero |
| `WithdrawRuns.RunKeepsMinimum` | internal/exec/exec.go:171-173 | over any run, whatever is answered, every transfer is at least the minimum |
| `WithdrawRuns.FullWithdrawalsExact` | internal/exec/exec.go:160-166 | a run of full withdrawals keeps the reserve exactly if the answers behind its transfers are fresh |
| `WithdrawRuns.StaleAnswerBreaksReserve` | internal/exec/exec.go:155-186 | two commands answered with the same balance, both sent, reported and recorded, leave less than the reserve |
| `WithdrawRuns.FloorKept` | internal/runner/runner.go:63-72 | whatever limits are configured, every transfer of a run on fresh answers is at least the 50 P2P floor and leaves at least it |
| `WithdrawRuns.LimitsEnforced` | internal/runner/runner.go:63-72 | the limits in force are the larger of the configured one and 50000000 |
| `WithdrawRuns.RecordedForever` | internal/exec/exec.go:141-144 | once found, after any run every call with the id returns a hash and changes nothing, and no further transfer is made for it; the hash is the first one if its line is complete, and begins with it otherwise |
| `WithdrawRuns.WhenRemembered` | internal/exec/exec.go:186-193 | after a transfer, for any log, hash and record, the id is remembered exactly if the reply arrived and the record can be found behind what the log ends with |
| `WithdrawRuns.RetryPays` | internal/exec/exec.go:141-193 | for any two calls with one id, the first of which paid, and any reply and record in a log of complete lines: the second pays exactly if the first was not remembered and key, answers, guards and account let it |
| `WithdrawRuns.RetryPaysAnyLog` | internal/exec/exec.go:141-193 | the same for a log that ends in a torn record |
| `WithdrawRuns.ForgottenPaysTwice` | internal/exec/exec.go:186-193 | a lost reply, or a record that is not findable for whatever reason, leads to two transfers for one id, for every account, amount and fee the account can bear twice, all answers being fresh |
| `WithdrawRuns.WaysToPayTwice` | internal/exec/exec.go:186-193 | with the floors as limits and a fee of 20000: a lost reply, a record not written, a torn record, an id with white space and an empty hash each lead to two transfers for one id |
| `WithdrawRuns.RunBalances` | internal/exec/exec.go:136-194 | over any run balance plus all debits equals the start plus all credits |
| `WithdrawRuns.RunUnique` | internal/exec/exec.go:141-193 | if every accepted transfer is reported and recorded findably, no two transfers of a run are for one id |
| `Enrollment.StateRoundTrip` | internal/runner/runner.go:512-534 | reading inverts writing exactly if both values are words, or there is no address and the token is a word or empty |
| `Enrollment.Runner.Enroll` | internal/runner/runner.go:182-230 | token, file and tokens issued after one attempt, branch by branch: bare token, own pair, other pair, registration and its failures |
| `Enrollment.Runner.EnsureEnrolled` | internal/runner/runner.go:129-147 | attempts are made until the first that succeeds |
| `Enrollment.Runner.Reenroll` | internal/runner/runner.go:155-160 | file and token are dropped, then attempts are made |
| `Enrollment.Runner.RefreshIdentity` | internal/runner/runner.go:164-180 | nothing changes for an unreadable key or the same address; otherwise the new identity is taken, file and token are dropped and attempts are made |
| `Enrollment.ChangedKey` | internal/runner/runner.go:201-229 | one registration leaves a token of the identity in use exactly if the key opened is still that identity's |
| `Enrollment.OtherPairNotAdopted` | internal/runner/runner.go:129-200 | a stored pair of another address is never adopted, however many attempts are made: the token in use stays or is one the server answered with |
| `Enrollment.AttemptSucceeds` | internal/runner/runner.go:182-230 | an attempt succeeds exactly if a stored token is adopted or key, challenge, answer and write are all good; which token is then in use; what a failure leaves |
| `Enrollment.RegistrationStored` | internal/runner/runner.go:201-229 | a registered pair is in use and read back from the file |
| `Enrollment.FirstSuccessCounts` | internal/runner/runner.go:129-147 | what follows the first successful attempt does not matter |
| `Enrollment.RejectedGone` | internal/runner/runner.go:155-160 | for every file and state: after a rejected token and a removed file the token in use is none or one the server answers with in these attempts; without an attempt nothing is stored |
| `Enrollment.OldWalletGone` | internal/runner/runner.go:164-180 | the same after a changed wallet, and the identity is the new one |
| `Enrollment.UnremovedAdopted` | internal/runner/runner.go:155-191 | if the file cannot be removed, a rejected token stored for the own address, or without one, is adopted again |
| `Enrollment.SameWalletKept` | internal/runner/runner.go:164-172 | the same or an unreadable key changes nothing |
| `EnrollmentRuns.RejectedGoneAnyWrite` | internal/runner/runner.go:155-230 | with writes cut anywhere: the token in use is then none, a piece of one the server answers with, or a piece of an address written |
| `EnrollmentRuns.RunKeepsPairs` | internal/runner/runner.go:129-230 | over any run of starts, rejected tokens and wallet changes, with writes of the state file cut anywhere, a stored token is a piece of one issued for the address stored with it, or of an address written; with whole writes the stored pair is one issued |
| `EnrollmentRuns.RunKeepsOwn` | internal/runner/runner.go:129-230 | over any run in which each registration opens the key of the identity in force, with writes cut anywhere, the token in use is a piece of one issued for the identity in use or of an address; with whole writes it is one issued for it |
| `EnrollmentRuns.RunNeverForeign` | internal/runner/runner.go:129-230 | over such runs a token the server issued for another address is never in use, if its tokens are no pieces of each other or of addresses |
| `EnrollmentRuns.OwnIffAcquired` | internal/runner/runner.go:129-230 | the converse, over any run and with writes cut anywhere: a token in use that the server issued is the identity's own exactly if the stored pair or registration that gave it was for that identity's address |
| `Enrollment.EnrolledAsSelf` | internal/runner/runner.go:182-230 | a successful attempt leaves a token issued for the current identity, if the key is still its own |
| `Enrollment.BareTokenBound` | internal/runner/runner.go:186-191 | a token without an address is adopted and bound to the current identity, and the state is sound if it was issued for it |
| `Enrollment.CutRead` | internal/runner/runner.go:512-534 | what is read from a state file cut after any number of characters |
| `Enrollment.HarmlessCuts` | internal/runner/runner.go:512-534 | a state file cut after n characters is read as nothing or as the pair exactly if n is zero or everything |
| `Enrollment.AddressAdopted` | internal/runner/runner.go:186-191 | after a cut inside the address or just behind it, and only then, the next attempt adopts what was written of the address as the token |
| `PollBatch.Poller.RunBatch` | internal/runner/runner.go:283-308 | the actions of a batch: everything done at once in order, then one restart and the reports of the commands that waited |
| `PollBatch.Poller.PollOnce` | internal/runner/runner.go:266-309 | a rejected token re-registers and does nothing else, another failure does nothing, a reply is announced and its batch carried out |
| `PollBatch.BatchAccounts` | internal/runner/runner.go:283-308 | every command occurrence is reported exactly once; there is one restart exactly if some command asked for it or its edit succeeded, else none |
| `PollBatch.BatchOrder` | internal/runner/runner.go:280-308 | all edits and executions come before the restart; the reports after it are exactly those of waiting commands, with the restart's outcome, and the others carry their own |
| `PollBatch.ActedOnce` | internal/runner/runner.go:283-302 | each configuration command is edited and each other one executed exactly once, and nothing else is |
| `PollBatch.ActedBeforeReport` | internal/runner/runner.go:291-301 | a command that does not wait is reported right after its execution or failed edit |
| `PollBatch.BatchInOrder` | internal/runner/runner.go:285-308 | before the restart, and after it, commands are dealt with in the order of the batch |
| `PollBatch.AnnouncedOnce` | internal/runner/runner.go:276-279 | over any run of polls the agent's own version is never announced and no version twice in a row |
| `PollBatch.NewsUpToDate` | internal/runner/runner.go:276-279 | after any number of polls the version announced last is the last one the server named that is not the agent's own |
| `EventPipeline.InvKept` | internal/runner/runner.go:432-460 | every step of the three parties keeps a wake-up on its way, both lossy sends and the timer reset included |
| `EventPipeline.NeverLost` | internal/dockerx/dockerx.go:200-228 | in every reachable interleaving an event accepted since the last refresh began is still on its way, until the agent is stopped |
| `EventPipeline.WakeUpPending` | internal/runner/runner.go:240-263 | when no party is between two steps: the event channel or `settled` is full, or the timer is armed or has fired |
| `EventPipeline.BacklogFalls` | internal/runner/runner.go:438-459 | every step of the agent's own parties brings them closer to rest |
| `EventPipeline.NeverStuck` | internal/runner/runner.go:249-263 | while a wake-up is owed one of the agent's own parties can take a step |
| `EventPipeline.QuietRunsDeliver` | internal/runner/runner.go:240-263 | once the stream is quiet every run is bounded, and when nothing more can move the refresh has begun |
| `EventPipeline.EventNotLost` | internal/dockerx/dockerx.go:200-228 | for every run from the start and every event in it: without a refresh begun since, a channel, the timer or a party holds a wake-up, or the agent is stopped |
| `EventPipeline.EventIsRefreshed` | internal/runner/runner.go:240-263 | once the parties are at rest a refresh has begun after every event |
| `EventPipeline.RestIsIdle` | internal/runner/runner.go:432-460 | at rest an ended stream has been opened again and nothing is on its way |
| `EventPipeline.EndedStreamSilent` | internal/dockerx/dockerx.go:200-228 | an ended stream brings no event until it has been opened again |
| `EventPipeline.StopEndsAll` | internal/runner/runner.go:240-263 | a stopped agent comes to rest when watcher and main loop have ended |

## Left out

- `Bech32.EncodingAccepted`: prefixes are ASCII; BIP-173's mixed-case rule and 90-character limit are not claims of the code.
- HTTP clients, JSON envelopes, endpoint failover and Docker calls other than the event stream: their outcomes are parameters.
- Cryptography: signing is an arbitrary function of the document's bytes; keyring decryption, hashes and the derivation of addresses from keys are not part of this model.
- Floating point: `computeFee`, `parseGasPrice`, `p2p` and the payload's numbers; fee, limits and amounts are arbitrary 64-bit values.
- The full-marshal fallback of `applyConfigEdit`, the TOML library and `atomicWrite`: the model is the surgical path and its failure.
- `Regroup.ConvertBits`: widths above 8 bits, which the code never asks for, are not covered.
- `TomlFile.EditReadBack`: multi-line `"""` and `'''` strings and lines inside a value that look like a header or a sought key are excluded by `PlainItems`; the same holds for the other laws stated with `PlainItems` or `Editable`.
- `ConfigEdits.CommandTwice`: the TOML library's reading of the endpoint and the regular expression on it are any decision on the name and the entry's lines; that a file unreadable elsewhere reads as having no endpoint is not modelled.
- `Withdraw.Host.Withdraw`: a transfer that the chain takes and then fails to execute, and debits of the account by anyone but the agent, are not modelled; an unreadable log file is an empty one.
- `EnrollmentRuns.RunKeepsPairs`: a bare token of an older agent counts among the names of a run; `Enrollment.BareTokenBound` says what becomes of it.
- `PollBatch.Poller.RunBatch`: the payloads of commands and the text of results are reduced to success or failure, and so is an edit that fails after a part of it was written.
- `EventPipeline.NeverLost`: an agent without Docker or without a container, for which `watchEvents` returns at once, has no pipeline; the length of the debounce interval and of the reconnect pause is not modelled.
- `SendLaws.DocumentDetermines`: canonical proto3 bytes are not claimed, zero scalars are written explicitly.
- `Account.Wipe`, which clears the key field of an opened account, and the account and balance queries around the readers: no law beyond those of the readers.
- Heartbeats, metrics, container discovery, directory probes and file modes: plumbing without laws of its own.
