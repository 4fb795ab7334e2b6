# DigiAsset Core: a verified model

DigiAsset Core indexes DigiAssets on the DigiByte chain and runs the pool that pays
nodes for keeping asset files. This project models the parts of it whose results
depend on exact bit positions, exact arithmetic or the order of durable steps, and
proves what they promise for every input and every run.

How the parts hang together:

* **Bit stream.** `Words` gives 64-bit words their bits, `Packing` moves bits between
  and across words, `BitIO` (module `BitStream`) is the stream class. Every operation is
  proved to do to the packed words what the plain operation does to a sequence of bits;
  everything above the stream then speaks of bit sequences only. `Fields`,
  `FixedPrecision`, `BitcoinPush`, `TextCodecs` / `StringStreams` and `BestString` are
  the codecs: a specification of what each writes and reads, the methods proved against
  it, and the round trips.
* **Base 58 and asset ids.** `Radix` is positional notation in any base, `Base58` the
  two carry-propagating loops over a fixed buffer, `AssetId` the id an issuance
  calculates and the asset a node rebuilds from it.
* **Chain analyzer.** `BlockStore` is the store with its committed and its working
  copy, `SyncPass` the account of what one pass has applied and made durable, `ChainSync`
  the analyzer. The outside is a script of answers: any hash a chain
  could have at that height, any failure (an answer no chain could give counts as one),
  and the end of the script is the death of the process. A run is any number of such
  processes.
* **Payouts.** `PayoutPlan` is the money of one plan, `Ledger` the table, `Payouts` the
  protocol of plan, confirmation or automatic start, guard row, one send with three
  outcomes, ledger rows and a process that may die between any two of them.
* **Storage plan and challenges.** `Ranking` is sorting and taking the best k,
  `StoragePlan` the paid set and the keepers of each file, `Challenges` the life of a
  storage challenge over every interleaving of the pool's threads.
* **Wallet and pages.** `Decimal` and `Amounts` are amounts as text, `CoinSelection`
  chooses the coins of an asset transfer, `PageJson` prints a page of assets and reads
  it back.

`Numbers` and `Results` hold what several parts share. Exceptions are `Result` values or
outcomes. Hashes, Core, peers, the clock and
database failures are parameters. DGB amounts and scores, which the source keeps in
floating point, are reals.

## What does not hold as promised

* A block can be applied twice: a pass that ends at the tip because Core has another
  block there leaves the tip's block applied, and if Core has the old block again at
  the next look nothing is rewound before it is processed again (`ChainSync.BlockTwice` is
  a life in which it happens). So it can when a discard fails, which the source lets pass
  silently although its comment says it retries (`ChainSync.BlockTwiceAfterDiscard`).
  `ChainSync.ChainAnalyzer.MainFunction` says exactly which passes begin at a height that is
  applied already, `ChainSync.DoublesExactly` what that comes to, and `ChainSync.Run` that
  without such a pass every run applies every block once.
* Headers below the asset era are batched a hundred to a transaction. When the era
  begins inside a batch, that is for a pass begun at a height h below the era's first
  block f with (f - h) % 100 not 0, the block transactions nest in it: no block of the era
  is durable until the pass ends by its loop condition
  (`ChainSync.ChainAnalyzer.PhaseSync`). From block 1 that is so (`SyncPass.FromBlockOne`).
  A stop while waiting at the tip, or Core having another block there, returns from inside
  the loop and leaves that transaction open. While it is open no later pass makes anything
  durable, and when the process ends everything since the era began is lost
  (`ChainSync.EraLost`; `ChainSync.EraLostOnce` is a life in which it is).
* Inside a transaction that is open already, a discard whose statement fails leaves the
  deletes before it undone by nobody (`ChainSync.ChainAnalyzer.ClearBlocksAboveHeight`).
* `dgbToSats` adds and multiplies in 64 bits. An amount of 2^63 satoshis or more whose
  whole part is below 2^63 is accepted and comes back as another, possibly negative one,
  as far as C++ says anything about it at all (`Amounts.SatsOfDenotes`,
  `Amounts.OneTooMany`).
* A send that went out but whose reply reads as a failure that releases the guard, or that
  left neither its guard row nor any payment's row in the ledger, can be repeated in the
  same second (`Payouts.PaidAgain`); no other can within its period, over any run
  (`Payouts.Run`, `Payouts.BlocksExactly`).
* Fixed-precision numbers: 10^16 alone of all numbers up to 2^54 - 1 has no encoding.
  3B40: a lone last character of value 32 or more has none. UTF-8: a text with a
  two-byte character led by 0xDF or a three-byte one led by 0xEF does not survive. An
  empty push cannot be read back.
* `getStrCount` writes a point even without decimals, "1." where its comment says "1"
  (`Amounts.PointLast`).
* Several challenges let lapse in one sweep are several failed verdicts but one mark
  against the node.

## Model

| member | source | states |
|---|---|---|
| Packing.Fetch | src/BitIO.cpp:282-307 | reading up to 64 bits inside one word or across two gives the number those bits of the flat sequence spell |
| Packing.Store | src/BitIO.cpp:350-376 | writing a value at any bit offset overwrites exactly its bits, growing the vector only where it ends |
| Packing.Append | src/BitIO.cpp:422-447 | appending fills the slack of the last word, then starts another, and keeps the slack behind it clear |
| Packing.OpenGap | src/BitIO.cpp:493-519 | after shifting words and leftovers, every old bit stands before the gap unchanged or n places on, whatever junk the gap holds |
| Packing.OpenWideGap | src/BitIO.cpp:536-572 | the same for a gap of any length, whole words and an odd rest together |
| Packing.Fill | src/BitIO.cpp:606-630 | the clear places behind the content take the fill words' bits of their own places and nothing else changes |
| BitStream.BitIO.GetBits | src/BitIO.cpp:277-308 | returns the number the next n bits spell and moves past them; refused exactly for a bad length or too few bits, cursor unmoved |
| BitStream.BitIO.SetBits | src/BitIO.cpp:336-377 | overwrites n bits at the cursor, extending the content where it is short; refused exactly when the value does not fit |
| BitStream.BitIO.AppendBits | src/BitIO.cpp:414-448 | the content gains exactly the value's n bits at its end |
| BitStream.BitIO.InsertBits | src/BitIO.cpp:484-523 | at cursor p the content becomes s[..p] + value + s[p..] and the cursor stands behind the value |
| BitStream.BitIO.InsertStream | src/BitIO.cpp:529-577 | at cursor p the content becomes s[..p] + the other stream + s[p..]; the other stream is as before |
| BitStream.BitIO.SetStream | src/BitIO.cpp:382-402 | overwrites the content from the cursor on with the other stream, extending it where needed |
| BitStream.BitIO.AppendStream | src/BitIO.cpp:472-481 | the content gains the whole other stream, read from its start, its cursor put back |
| BitStream.BitIO.AppendZeros | src/BitIO.cpp:657-660 | the content gains exactly that many clear bits |
| BitStream.BitIO.CopyBits | src/BitIO.cpp:455-466 | the copy holds exactly the next n bits; too few left is an error that leaves the cursor after the whole words read |
| BitStream.BitIO.PadWidth | src/BitIO.cpp:587-631 | the length becomes the next multiple, the content is kept, the padding is zeros or the fill's bits |
| BitStream.BitIO.CheckBits | src/BitIO.cpp:318-329 | answers whether the next bits spell the value without moving the cursor |
| BitStream.BitIO.MovePositionTo | src/BitIO.cpp:645-655 | moves exactly to places inside the content or its end |
| FixedPrecision.EncodeDomain | src/BitIO.cpp:1071-1123 | a number encodes if and only if it is at most 2^54 - 1 and not 10^16, always in 1 to 7 whole bytes |
| FixedPrecision.RoundTrip | src/BitIO.cpp:1131-1157 | an encoded number reads back as itself at any place of any stream, the cursor ending right after it |
| FixedPrecision.SplitFits | src/BitIO.cpp:1083-1095 | mantissa and exponent always multiply out to the number, and the exponent fits its field except for 10^16 |
| FixedPrecision.Normalise | src/BitIO.cpp:1083-1095 | the in-place stripping of tens and its two corrections give exactly that mantissa and exponent |
| FixedPrecision.Make | src/BitIO.cpp:1071-1123 | writes the shortest encoding of the number into a fresh stream, or throws exactly where there is none; the first three bits tell its length |
| FixedPrecision.Shortest | src/BitIO.cpp:1071-1123 | however the number is written as m * 10^e with both in their fields of a k-byte layout, the encoding takes no more than k bytes; it is one byte exactly below 32 |
| FixedPrecision.PrefixTells | src/BitIO.cpp:1098-1122 | the first three bits, read by themselves, are the number of bytes less one, and the number is the mantissa behind them times ten to the exponent in the last bits |
| FixedPrecision.Get | src/BitIO.cpp:1131-1157 | reads whatever encoding stands at the cursor, product wrapping at 64 bits, and leaves the cursor after it |
| BitcoinPush.PushReadsBack | src/BitIO.cpp:1436-1457 | a push of fewer than 2^32 bytes reads back as its bytes if and only if there are any |
| BitcoinPush.HeaderIs | src/BitIO.cpp:1336-1357 | up to 75 bytes the count is the opcode; above, opcodes 76, 77 and 78 announce it in 1, 2 and 4 bytes, the shortest that hold it |
| BitcoinPush.PrefixIs | src/BitIO.cpp:1338-1340 | with OP_RETURN asked for the one byte 106 stands in front, else nothing |
| BitcoinPush.NoneShorter | src/BitIO.cpp:1336-1457 | nothing the reader takes for the same bytes is shorter than the push made of them |
| BitcoinPush.MakeFromBytes | src/BitIO.cpp:1336-1357 | header first, then the bytes, for every size below 2^32 |
| BitcoinPush.MakeInPlace | src/BitIO.cpp:1364-1386 | the header goes in front of the stream's own bits; refused exactly for a part byte or 2^32 bytes |
| BitcoinPush.MakeBothWays | src/BitIO.cpp:1336-1386 | both ways of making a push accept the same payloads and give identical streams |
| BitcoinPush.GetData | src/BitIO.cpp:1436-1457 | returns exactly the pushed bytes at the cursor, refusing every other opcode and short data |
| TextCodecs.AlphaRoundTrip | src/BitIO.cpp:827-844 | what the Alpha encoder accepts reads back letter for letter, whatever follows |
| TextCodecs.AlphaSpells | src/BitIO.cpp:796-819 | pair after pair, 11 bits hold 45 times the first character's place in the set plus the second's |
| TextCodecs.AlphaLast | src/BitIO.cpp:813-817 | a lone last character is its place in the last 6 bits, and there are no other bits |
| TextCodecs.B40RoundTrip | src/BitIO.cpp:1036-1058 | what the 3B40 encoder accepts reads back letter for letter |
| TextCodecs.B40Spells | src/BitIO.cpp:1005-1027 | triple after triple, 16 bits hold three characters as the digits of a number in base 40 |
| TextCodecs.B40Last | src/BitIO.cpp:1018-1025 | two characters left over are the last 11 bits and a lone one the last 5 |
| TextCodecs.B40Domain | src/BitIO.cpp:1005-1027 | 3B40 accepts a text if and only if all its characters are in the set and a lone last one has a value below 32 |
| TextCodecs.HexRoundTrip | src/BitIO.cpp:985-995 | what the hex encoder accepts reads back in lower case, four bits a character |
| TextCodecs.HexSpells | src/BitIO.cpp:966-977 | digit after digit, in either case, as its own number in four bits |
| TextCodecs.SetsAre | src/BitIO.h:36-37 | in both sets a digit counts itself and a letter 10 and on, and besides these they hold exactly their nine and four signs |
| TextCodecs.SignsAscend | src/BitIO.h:36-37 | the signs stand behind the letters in the order of their character codes |
| TextCodecs.Utf8RoundTrip | src/BitIO.cpp:923-955 | every faithful text is accepted and reads back byte for byte |
| TextCodecs.Utf8Squeezes | src/BitIO.cpp:855-911 | for a faithful text the state machine over bytes writes each character as a marker 0, 10, 110 or 111 and its Unicode code point in 7, 11, 16 or 21 bits |
| TextCodecs.Utf8Converse | src/BitIO.cpp:855-911 | a text that comes back unchanged, the cursor where its packing ends or the stream ending there, was faithful, so the round trip holds for no others |
| TextCodecs.LeadDf | src/BitIO.cpp:873-889 | no text starting with the lead byte 0xDF comes back, not even with its cursor elsewhere when the stream ends with it |
| TextCodecs.LeadEf | src/BitIO.cpp:873-889 | no text starting with the lead byte 0xEF comes back, not even with its cursor elsewhere when the stream ends with it |
| TextCodecs.TruncatedLead | src/BitIO.cpp:873-911 | such a character alone encodes to nothing, and before an ASCII character it is refused |
| StringStreams.MakeAlpha | src/BitIO.cpp:796-819 | the pairing loop writes exactly the Alpha encoding or throws where there is none |
| StringStreams.GetAlpha | src/BitIO.cpp:827-844 | reads exactly the given number of Alpha characters |
| StringStreams.Make3B40 | src/BitIO.cpp:1005-1027 | the loop over triples and its remainder write exactly the 3B40 encoding |
| StringStreams.Get3B40 | src/BitIO.cpp:1036-1058 | reads exactly the given number of 3B40 characters |
| StringStreams.MakeHex | src/BitIO.cpp:966-977 | writes the folded hex digits or throws at the first character that is none |
| StringStreams.GetHex | src/BitIO.cpp:985-995 | reads exactly the given number of hex digits |
| StringStreams.MakeUtf8 | src/BitIO.cpp:855-911 | the state machine over lead and continuation bytes writes exactly the packed code points |
| StringStreams.GetUtf8 | src/BitIO.cpp:923-955 | reads exactly the given number of characters back into bytes |
| BestString.XBitRoundTrip | src/BitIO.cpp:1491-1518 | a valid xBit value reads back as itself, continuation segments included |
| BestString.MakeXBit | src/BitIO.cpp:1491-1502 | writes depth all-zero segments and the value, or throws exactly for an invalid value |
| BestString.GetXBit | src/BitIO.cpp:1510-1518 | reads segments until one is not all zeros |
| BestString.MakeBestString | src/BitIO.cpp:692-748 | throws exactly when the count does not fit, an encoder is unknown or none accepts; otherwise the chosen option's result is the first of the shortest |
| BestString.GetBestString | src/BitIO.cpp:759-787 | finds the encoder by its header and reads the counted characters |
| BestString.EncoderRoundTrip | src/BitIO.cpp:759-787 | each encoder's output reads back (hex in lower case) if and only if the text is faithful |
| BestString.BestStringRoundTrip | src/BitIO.cpp:692-787 | whichever option was chosen, the whole record reads back if and only if the text is faithful |
| BestString.WellFormedSurvives | src/BitIO.cpp:873-889 | of well-formed UTF-8 (section 4 of RFC 3629) exactly the texts without bytes 0xDF and 0xEF survive |
| BestString.Rfc3629Is | src/BitIO.cpp:855-911 | the characters meant are those of section 4 of RFC 3629: lead byte and continuations, not longer than need be, at most 0x10FFFF and no surrogate |
| BestString.WellFormedMore | src/BitIO.cpp:855-911 | a text is well formed exactly when it is one such character after another |
| BestString.MakeAndGet | src/BitIO.cpp:692-787 | with the default options every well-formed text without 0xDF and 0xEF whose count fits is taken and comes back whole as it was, or in lower case where hex was the shortest; with one of those bytes it never comes back as it was |
| Radix.SpreadMinimal | src/Base58.cpp:53-61 | multiplying by a base and adding a digit never leaves a digit too many |
| Radix.NumSpread | src/Base58.cpp:53-61 | the carry loop's digits spell the old number times the base plus the new digit |
| Base58.BufferHolds | src/Base58.cpp:53-61 | after any prefix the buffer spells exactly the number read, minimally |
| Base58.BufferFactor | src/Base58.cpp:50 | 58^138 is at least 256^100, which is why 138 digits do for 100 bytes |
| Base58.EncodeCapacity | src/Base58.cpp:50-61 | encoding never needs more than size * 138 / 100 + 1 digits |
| Base58.DecodeCapacity | src/Base58.cpp:83-94 | decoding never needs more bytes than the text has characters |
| Base58.CarryThrough | src/Base58.cpp:53-57 | both directions: the carry, never more than a byte, through the digits there are in place; what is left of it spells the rest |
| Base58.WriteCarry | src/Base58.cpp:58-60 | the rest of the carry becomes new digits behind the old ones, never past the buffer |
| Base58.PushByte | src/Base58.cpp:53-61 | one byte taken into the buffer in place, never past its end |
| Base58.PushDigit | src/Base58.cpp:85-94 | one character's value taken into the buffer in place, never past its end |
| Base58.Encode | src/Base58.cpp:49-71 | the text of the bytes: the same number in base 58 with each leading zero byte kept |
| Base58.Decode | src/Base58.cpp:82-101 | the bytes of the text, invalid characters counting 255 |
| Base58.Alphabet | src/Base58.cpp:19-37 | a character has a value exactly when it is a digit or letter other than 0, I, O and l, and the values ascend with the character codes |
| Base58.EncodeSpells | src/Base58.cpp:49-71 | the digits of the text make the number the bytes make, and the text starts with k characters 1 exactly when the bytes start with k zeros |
| Base58.DecodeSpells | src/Base58.cpp:82-101 | the bytes make the number that the characters' values spell, the top bit of a character not looked at and 255 standing for one without a value |
| Base58.DecodeEncode | src/Base58.cpp:49-101 | decode(encode(b)) = b for every non-empty byte string |
| Base58.EncodeDecode | src/Base58.cpp:49-101 | encode(decode(t)) = t for every non-empty valid text |
| AssetId.LeadingDigits | src/DigiAsset.cpp:126-161 | a number between q and q + 1 times 58^36 has 38 base-58 digits that start with those of q |
| AssetId.HeaderShows | src/DigiAsset.cpp:129-133 | whatever 26 bytes follow it, a header fixes the first two characters of the text |
| AssetId.FlagFields | src/DigiAsset.cpp:219-221 | a flags byte built from an asset's fields holds exactly them |
| AssetId.FieldsOf | src/DigiAsset.cpp:409-412 | a flags byte is 32 times the divisibility read out of it, 16 for the lock, 4 times the aggregation, and two bits nobody reads |
| AssetId.IdTellsFlags | src/DigiAsset.cpp:126-161 | for every flags byte an issuance accepts, every hash and every checksum, an id starts with the characters of its lock and aggregation, and decoded it is their two header bytes, the hash, a zero, the divisibility and the checksum |
| AssetId.DigiAsset.Create | src/DigiAsset.cpp:194-211 | refuses exactly divisibility above 7, an unknown aggregation and counts outside 1 to 2^54 - 1 |
| AssetId.DigiAsset.ReadFlags | src/DigiAsset.cpp:409-413 | an issuance takes any byte off the chain as its flags, refusing exactly the fourth aggregation |
| AssetId.DigiAsset.CalculateAssetId | src/DigiAsset.cpp:126-161 | the id is the text of header, the hash the lock status asks for, divisibility, and the first four bytes of the doubled hash of those |
| AssetId.DigiAsset.FromDatabase | src/DigiAsset.cpp:229-263 | lock status from the first character, aggregation from the second, divisibility from byte 23; the native coin's id apart |
| AssetId.DigiAsset.IssueAndRebuild | src/DigiAsset.cpp:126-263 | the id issued under any accepted flags byte, read back by any node, gives the lock status, aggregation and divisibility of that byte |
| BlockStore.ClearReady | src/Database.cpp:1701-1745 | clearing from a height on leaves exactly everything below it applied once, whether or not that height had been applied |
| BlockStore.ReadyOrReached | src/Database.cpp:1701-1745 | in a once-only store a height with everything below it applied is either ready to be processed or applied already |
| BlockStore.TwiceIsNotGood | src/ChainAnalyzer.cpp:812-818 | processing a height whose effects are there already is never a once-only store |
| SyncPass.OpenInEra | src/ChainAnalyzer.cpp:989-1000 | in the asset era a batch of headers is open if and only if the era began inside one |
| SyncPass.FromBlockOne | src/ChainAnalyzer.cpp:759 | a sync from block 1 comes to block 8432316 with fifteen headers in an open transaction |
| SyncPass.TurnInEra | src/ChainAnalyzer.cpp:812-818 | a block of the era is durable when its transaction ends exactly where no other was open, and the account of the pass goes on |
| SyncPass.HeaderStored | src/ChainAnalyzer.cpp:989-1000 | storing the next header keeps the account of what is applied, open and durable |
| ChainSync.ChainAnalyzer.StartTransaction | src/Database.cpp:984-994 | only the outermost start touches the store; nested ones count |
| ChainSync.ChainAnalyzer.EndTransaction | src/Database.cpp:1000-1020 | only the outermost end commits, exactly what was open; a failed commit rolls back; a nested end makes nothing durable |
| ChainSync.ChainAnalyzer.ClearBlocksAboveHeight | src/Database.cpp:1701-1745 | silent on failure; in a transaction of its own all or nothing, inside an open one a failing statement leaves the deletes before it; on success the height is ready to be replayed |
| ChainSync.ChainAnalyzer.Restart | src/ChainAnalyzer.cpp:1083-1088 | back to block 1 with an empty store, or an error that keeps the store good |
| ChainSync.ChainAnalyzer.StepBack | src/ChainAnalyzer.cpp:690-702 | steps down at least once and stops at the first lower height whose stored hash is the one Core answers with, or where none is stored |
| ChainSync.ChainAnalyzer.PhaseRewind | src/ChainAnalyzer.cpp:672-726 | no change exactly when Core answers with the expected block; otherwise what the answers make of the way down: everything from the fork on discarded, or a restart at block 1 |
| ChainSync.ChainAnalyzer.SteadyRewind | src/ChainAnalyzer.cpp:672-726 | against a chain that stands still a rewind ends at the highest lower height where stored and live agree, everything from there on discarded, or restarts at block 1 |
| ChainSync.ChainAnalyzer.RewindsToStored | src/ChainAnalyzer.cpp:672-726 | a pass that no longer finds the expected block in Core goes on from block 1 or from a stored block below it |
| ChainSync.ChainAnalyzer.ProcessBlock | src/ChainAnalyzer.cpp:812-818 | a block is applied whole or the failure leaves part of it in the open transaction only; nothing of it is durable before its transaction ends; a crash at any moment leaves a good store |
| ChainSync.ChainAnalyzer.WaitAtTip | src/ChainAnalyzer.cpp:871-905 | stops exactly when an answer to its poll was a stop; fails only if an answer failed or is one no chain could give; otherwise ends with a child of the tip's block or with Core having another block at this height |
| ChainSync.ChainAnalyzer.FetchNext | src/ChainAnalyzer.cpp:930-986 | in a pipelined pass of the era the background fetch's block, looked up again if its height is wrong; else deep below the tip by the expected hash but for every hundredth block, and by asking for the height otherwise; the block got is one of the asked height |
| ChainSync.ChainAnalyzer.SaveHeader | src/ChainAnalyzer.cpp:989-1000 | the header goes in before its block is processed; below the era the batch counts modulo a hundred and one transaction is open while it is not empty |
| ChainSync.ChainAnalyzer.Step | src/ChainAnalyzer.cpp:763-1000 | one turn stops exactly when the answer to its poll does, fails only for a failing or impossible answer, returns only when Core has another block at the height or the background fetch has nothing left; else it processes the expected block, in serial, bulk and prefetch mode alike, and moves one height on; in the asset era it is durable as a whole when no transaction was open and not at all when one was |
| ChainSync.ChainAnalyzer.PhaseSync | src/ChainAnalyzer.cpp:740-1021 | goes on as long as the answers let it: it stops only by a stop among the answers it used, fails only by one that fails or that no chain could give, ends its loop only when Core's block at the height is not the expected one, and returns from inside it only then or when the background fetch has nothing left; in every mode each block processed is the child of the one before; a transaction is open at the turns of the era if and only if one was before the pass or the era began inside a header batch; without one every block processed is durable at every moment, with one none is until the loop ends by its condition, and a return from inside it leaves the transaction open |
| ChainSync.ChainAnalyzer.PickUp | src/ChainAnalyzer.cpp:283-309 | the start and the recovery resume at the highest stored header and discard what was written from there on, as far as the answers let the discard |
| ChainSync.ChainAnalyzer.Backfill | src/ChainAnalyzer.cpp:389-429 | going back to index an era again discards exactly what is replayed, as far as the answers let the discard |
| ChainSync.ChainAnalyzer.MainFunction | src/ChainAnalyzer.cpp:440-549 | once-only application is lost in exactly the passes that will begin their sync at a height applied already, a condition on the state and the answers before the call; the first block of the era such a pass processes is applied twice; with a transaction left open nothing becomes durable; a pass ends stopped only by a stop, failed only by an answer that fails or that no chain could give or, with a transaction open, by a restart that cannot begin one, dead only after the last answer |
| ChainSync.ChainAnalyzer.Start | src/ChainAnalyzer.cpp:274-326 | after a crash at any moment the new process makes of the durable store what the answers say and never loses once-only application itself; the height it picks up at is applied exactly when its discard failed and something from there on was durable |
| ChainSync.Run | src/ChainAnalyzer.cpp:274-549 | over all runs of starts, passes, failures and crashes once-only application is kept if and only if no pass began at a height applied already, and then every block below the highest stored header is applied exactly once at every moment; sufficient for that is that no discard fails and the answers never name two blocks of one height in a row |
| ChainSync.DoublesExactly | src/ChainAnalyzer.cpp:672-903 | a pass begins at a height applied already exactly when Core answers with the expected block and that is applied, or at a fork whose discard fails with something from there on applied; after a failed pass the expected block is applied exactly when the recovery's discard failed and something was there |
| ChainSync.KindNeverDoubles | src/ChainAnalyzer.cpp:440-549 | where no discard fails and no two blocks of one height are named in a row, no pass does |
| ChainSync.ReachesDiscarded | src/Database.cpp:1701-1745 | after a discard its height is still applied exactly when it failed and something was there |
| ChainSync.DiscardIs | src/Database.cpp:1701-1745 | what is left after no failure, after a failure in a transaction of its own, and after one at each statement inside an open transaction |
| ChainSync.BackReaches | src/ChainAnalyzer.cpp:690-707 | after a fork the same holds of the height the rewind ends at; a restart leaves nothing |
| ChainSync.SecondTime | src/ChainAnalyzer.cpp:812-818 | the first block of the era processed from a height applied already is no longer lined up |
| ChainSync.FlipIsUnkind | src/ChainAnalyzer.cpp:899-903 | the answers that bring a block back right after the tip was left for another are two different blocks of one height in a row |
| ChainSync.BlockTwice | src/ChainAnalyzer.cpp:680-903 | a life of 21 answers, none a failure, in which block 1 is applied twice |
| ChainSync.BlockTwiceAfterDiscard | src/ChainAnalyzer.cpp:296-903 | a crash and a start whose discard fails: the block is applied twice |
| ChainSync.EraLost | src/ChainAnalyzer.cpp:866-1019 | a pass whose era began inside a header batch and that did not end behind its loop leaves the next process no effect that was not durable before the pass |
| ChainSync.EraLostOnce | src/ChainAnalyzer.cpp:740-903 | a life of 15 answers, none a failure, in which a pass goes through blocks 1 and 2 and, whatever process comes next, the effects of block 2 are lost |
| Ranking.OneMore | pool/StoragePlan.h:105-133 | one more entry changes nothing among the best k or stands among them and pushes out at most the last |
| Ranking.OneForAnother | pool/StoragePlan.h:105-133 | one entry in another's place changes at most one of the best k each way |
| Ranking.SortIgnoresOrder | pool/StoragePlan.h:105-133 | the same distinct entries in another order sort the same |
| StoragePlan.NodeOrder | pool/StoragePlan.h:111-115 | the ranking of nodes is a strict order |
| StoragePlan.PaidSet | pool/StoragePlan.h:105-117 | the filter, the sort and the cap together give the specified paid set |
| StoragePlan.PaidAreBest | pool/StoragePlan.h:105-117 | every paid node is eligible, and against every eligible one left out it has the greater reliability, or the same and was seen earlier, or both the same and the lesser peer id; someone is left out only when all slots are taken |
| StoragePlan.EligibleIs | pool/StoragePlan.h:106-109 | a node can be paid exactly when its reliability and what it shows are both above 0 |
| StoragePlan.HeldScoreIs | pool/StoragePlan.h:97-100 | a node that has answered a challenge counts its proof score; another its coverage times the factor, which counts as 0 below and 1 above |
| StoragePlan.TextLessIs | pool/StoragePlan.h:114-114 | peer ids are compared character by character at their first difference, a prefix first |
| StoragePlan.PaidIgnoresOrder | pool/StoragePlan.h:105-117 | the paid set does not depend on the order of the list when peer ids are distinct |
| StoragePlan.Assignees | pool/StoragePlan.h:121-133 | the loop gives the file's keepers: the paid nodes of the highest hashes, ties by peer id |
| StoragePlan.KeepersAreBest | pool/StoragePlan.h:121-133 | a keeper's hash of the file's CID, a bar and its peer id is greater than that of every paid node that is none, or the same with the lesser peer id |
| StoragePlan.KeepersIgnoreOrder | pool/StoragePlan.h:121-133 | a file's keepers do not depend on the order of the paid set |
| StoragePlan.KeepersApart | pool/StoragePlan.h:121-133 | each file goes to min(replicas, paid nodes) nodes, all paid, none twice |
| StoragePlan.NodeJoins | pool/StoragePlan.h:121-133 | a node added to the paid set leaves a file's keepers alone or becomes one of them for at most one other |
| StoragePlan.NodeLeaves | pool/StoragePlan.h:121-133 | a node removed disturbs only files it kept, and those keep all their other keepers |
| StoragePlan.CandidateJoins | pool/StoragePlan.h:105-133 | one more candidate, paid, paid in another's place or not paid at all, costs every file at most one keeper and brings at most one |
| StoragePlan.IsAssigned | pool/StoragePlan.h:166-172 | true exactly for a keeper of the file, no replicas counting as one |
| StoragePlan.CreditedIsAssigned | pool/StoragePlan.h:136-172 | the bytes and files a node is credited are exactly those isAssigned says are its own |
| StoragePlan.OneFileMore | pool/StoragePlan.h:149-155 | a file more adds for its keepers its measured size, or what an unmeasured one counts, and for nobody else |
| StoragePlan.Conservation | pool/StoragePlan.h:136-162 | all credits together are min(max(replicas, 1), paid nodes) times all file bytes |
| StoragePlan.Weights | pool/StoragePlan.h:136-162 | each paid node's row names it and holds its own files' bytes, count, held score and their product, and the rows conserve the total |
| Challenges.ChallengeRange | pool/StoragePlan.h:195-202 | exactly 64 KiB inside a file longer than that, the whole of a shorter one, nothing of an unmeasured one |
| Challenges.EveryRangeAsked | pool/StoragePlan.h:195-202 | every place where a range can start is asked for, and by seeds one round through these places apart |
| Challenges.NextProofScore | pool/StoragePlan.h:205-207 | a score in 0..1 stays there, never falls by passing and never rises by failing, and closes a fifth of its distance to the verdict |
| Challenges.InARow | pool/StoragePlan.h:205-207 | n verdicts alike leave 0.8^n of the distance to them |
| Challenges.ChallengeTable.GetOpenChallenge | pool/PoolDatabase.cpp:537-551 | finds one exactly when some challenge of the node is open inside its deadline, and then a newest |
| Challenges.ChallengeTable.InsertChallenge | pool/PoolDatabase.cpp:553-568 | adds the row unless its id is taken |
| Challenges.ChallengeTable.ClaimChallenge | pool/PoolDatabase.cpp:569-597 | closes the row and returns it exactly when it is the node's, open and in time |
| Challenges.ChallengeTable.RecordProofResult | pool/PoolDatabase.cpp:599-622 | a first verdict is stored and folded into the node's score once; a second changes nothing |
| Challenges.ChallengeTable.ExpireChallenges | pool/PoolDatabase.cpp:624-654 | the two statements in their order close every lapsed row and mark each scored node down once |
| Challenges.ClaimableOrLapsed | pool/PoolDatabase.cpp:569-654 | an unanswered challenge can be claimed by its node up to 120 seconds after it was issued and be swept from then on, at no moment both or neither |
| Challenges.ClaimedIsClosed | pool/PoolDatabase.cpp:569-654 | after a claim nobody can claim again and no sweep touches the row |
| Challenges.VerdictLands | pool/PoolServer.cpp:1838-1858 | the verdict on a claimed answer is always the first: the row gets it and the node exactly one more score |
| Challenges.Answered | pool/PoolServer.cpp:1783-1858 | a challenge issued, answered inside 120 seconds and judged ends with that time and that verdict in its row and one more score for its node; nothing else changes |
| Challenges.FirstProof | pool/PoolDatabase.cpp:599-622 | a node not known before starts at nothing: its first verdict makes its score 0.2 or 0 |
| Challenges.SweepAccount | pool/PoolDatabase.cpp:624-654 | a sweep gives a scored node one failed verdict per lapsed challenge and one mark, any other node neither |
| Challenges.SweepExact | pool/PoolDatabase.cpp:631-647 | scores and verdicts stay equal in a sweep if and only if it closed at most one of a scored node's challenges |
| Challenges.OneMarkForTwo | pool/PoolDatabase.cpp:631-647 | two lapsed challenges in one sweep: two verdicts, one mark |
| Challenges.StartSound | pool/PoolServer.cpp:1783-1858 | the empty tables with nothing being judged are a sound state, where every run begins |
| Challenges.RunSound | pool/PoolServer.cpp:1783-1858 | over every interleaving of issue, claim, verdict, sweep and restart, scores stay in 0..1, no node has more scores than verdicts, and a challenge closes once and keeps its one verdict |
| Challenges.NeverAnswered | pool/PoolDatabase.cpp:627-647 | a node whose answers were never judged keeps its score whatever it ignores |
| PayoutPlan.PayoutSats | pool/PayoutMath.h:24-27 | the whole satoshis nearest to the amount, halves up, none for a negative one |
| PayoutPlan.AboveDust | pool/PayoutMath.h:31-33 | dust is what is below 10000 satoshis; any other amount is sent as at least that |
| PayoutPlan.ComputeBudget | pool/PoolDashboard.cpp:306-347 | 100 times the budget is balance times percentage, at most 100, or else all the balance leaves after the fee reserve; a fixed amount comes back itself where it and the reserve fit or the balance is unknown; a percentage is refused exactly when the balance is unknown |
| PayoutPlan.Uncapped | pool/PoolDashboard.cpp:334-345 | the budget is not covered exactly when a fixed amount is configured and the balance is unknown |
| PayoutPlan.Split | pool/PoolDashboard.cpp:853-870 | each address once, with the sum of its nodes' positive shares |
| PayoutPlan.SharesMakeBudget | pool/PoolDashboard.cpp:853-870 | the shares of all nodes make up the budget |
| PayoutPlan.PaidByWeight | pool/PoolDashboard.cpp:853-870 | an address gets the part of the budget that its nodes have of the weight |
| PayoutPlan.BuildPlan | pool/PoolDashboard.cpp:849-942 | the plan pays exactly the addresses that are not dust, valid and unpaid by peers, each once and in full |
| PayoutPlan.AddressShape | pool/PoolDashboard.cpp:112-122 | 26 to 90 characters, either dgb1 and lower-case letters and digits or D or S and base-58 characters; none of them means anything to JSON |
| PayoutPlan.PlanWithinBalance | pool/PoolDashboard.cpp:306-347 | the rounded satoshis of a plan plus the base fee reserve never exceed the balance its budget came from |
| PayoutPlan.SendManyAmounts | pool/PoolDashboard.cpp:156-178 | refused exactly for an empty batch or an address of the wrong shape |
| PayoutPlan.SentIsRecorded | pool/PoolDashboard.cpp:160-178 | reading the sent amounts back gives each payee exactly the satoshis the ledger records |
| Ledger.LastAtMax | pool/PoolDatabase.cpp:767-779 | the time that guards the period is the newest in the table, 0 in an empty one |
| Ledger.PaidRow | pool/PoolDatabase.cpp:741-765 | a row counts towards what was paid exactly when it carries a transaction id |
| Ledger.LedgerTable.BeginPayoutPeriod | pool/PoolDatabase.cpp:705-726 | adds the guard row and returns its id, or -1 and no row |
| Ledger.LedgerTable.AbortPayoutPeriod | pool/PoolDatabase.cpp:728-739 | removes that row only, nothing for -1, and nothing when the delete fails |
| Ledger.LedgerTable.GetLastPayoutAt | pool/PoolDatabase.cpp:767-779 | the newest time, 0 for an empty table |
| Ledger.LedgerTable.GetPaidTotal | pool/PoolDatabase.cpp:741-765 | sum and number of the rows with a transaction id |
| Payouts.PoolDashboard.PlanPayout | pool/PoolDashboard.cpp:801-956 | plans if and only if a payout is due, and then what is due to each address |
| Payouts.PoolDashboard.ExecutePayout | pool/PoolDashboard.cpp:973-1050 | what stays in the ledger depends only on what happened; the guard is released by a definite failure alone, if the release succeeds; the plan is used up |
| Payouts.PoolDashboard.KeyPress | pool/PoolDashboard.cpp:427-489 | E plans exactly when a payout is due; only Y after it executes, only what was planned, and once, and leaves in the ledger what that execution leaves; Q and Ctrl-C quit and change nothing else; any other key withdraws the plan |
| Payouts.PoolDashboard.MaybeAutoPayout | pool/PoolDashboard.cpp:1066-1110 | pays exactly when it is switched on, the period and both timers are over, nobody is being asked and a payout is due, and then exactly the plan of this moment; never without a period; a tick that gets as far as the plan puts the next try off by an hour whether or not it paid, any other leaves that time as it was |
| Payouts.PlanMade | pool/PoolDashboard.cpp:831-837 | a plan the guard lets through is a period away from every attempt that left a row |
| Payouts.Run | pool/PoolDashboard.cpp:416-1110 | over all runs of keys, ticks and crashes on a clock that never goes back, every attempt comes a period after each earlier one that left any row, the guard's or a payment's, and no plan is executed twice, and no two automatic attempts of one process are less than an hour apart |
| Payouts.TruthfulIsApart | pool/PoolDashboard.cpp:1005-1037 | so when everything broadcast left a row, no two broadcasts are less than a period apart |
| Payouts.LeavesNothingIs | pool/PoolDashboard.cpp:1005-1047 | an execution leaves the ledger as it was exactly when its guard was not written or was released after a definite failure, and no payment's row was written |
| Payouts.LeftGuards | pool/PoolDatabase.cpp:705-779 | every row an execution leaves is as new as its start, so any of them guards the period |
| Payouts.BlocksExactly | pool/PoolDatabase.cpp:705-779 | inside the period the next plan is refused exactly when the execution left any row |
| Payouts.BlockedByRow | pool/PoolDashboard.cpp:831-837 | a period is closed exactly by some row of the ledger less than the period old |
| Payouts.PaidAgain | pool/PoolDashboard.cpp:1015-1033 | a broadcast that leaves no row can be repeated in the same second |
| Payouts.PaidOnlyByTxid | pool/PoolDatabase.cpp:741-753 | the paid total grows by what was recorded under a transaction id and by nothing else |
| Payouts.AllWritten | pool/PoolDashboard.cpp:1038-1043 | with every row written that is exactly what the plan sent |
| Amounts.GetStrCount | src/DigiAsset.cpp:533-539 | the padded digits with the point that many places from the end |
| Amounts.StrCountDenotes | src/DigiAsset.cpp:533-539 | the text of a count denotes count / 10^decimals, with all decimals and a digit before the point |
| Amounts.PointLast | src/DigiAsset.cpp:533-539 | without decimals the text is the digits and a point, and only then does it end in a point |
| Amounts.ParseAssetAmount | src/AssetWallet.cpp:152-206 | a text gives n exactly when it denotes n / 10^decimals with n from 1 to 2^54 - 1, never wrapping |
| Amounts.ParseIntegralAmount | src/AssetWallet.cpp:159-164 | an integral amount is taken exactly when it is positive and its units are at most 2^54 - 1 |
| Amounts.NumberOrText | src/AssetWallet.cpp:152-206 | a whole amount gives the same as a number and as its text |
| Amounts.CountReadsBack | src/AssetWallet.cpp:152-206 | parsing undoes getStrCount for every count an output can hold |
| Amounts.SatsToDecimal | src/AssetWallet.cpp:208-213 | whole coins, a point, eight decimals |
| Amounts.DgbToSats | src/AssetWallet.cpp:215-240 | one pass over the characters reads the amount the text denotes into 64 bits, refusing every other shape |
| Amounts.SatsShapes | src/AssetWallet.cpp:221-239 | a text is taken exactly when it is, after at most one plus, digits with at most one point, at least one digit, at most eight behind the point and fewer than 2^63 whole coins |
| Amounts.SatsSpelled | src/AssetWallet.cpp:234-236 | the amount denoted is the whole coins and, as satoshis, the decimals filled up to eight |
| Amounts.SatsOfDenotes | src/AssetWallet.cpp:215-240 | what is accepted is decided by shape alone; the very amount denoted comes back if and only if it is below 2^63 satoshis |
| Amounts.SatsRoundTrip | src/AssetWallet.cpp:208-240 | an amount reads back from its own text if and only if it is below 2^63 |
| Amounts.OneTooMany | src/AssetWallet.cpp:235-237 | "92233720368.54775808" comes back as -2^63 |
| CoinSelection.SelectAssetInputs | src/AssetWallet.cpp:91-149 | throws exactly when all candidates together hold too little; one pure coin of least change where one is enough; else covering, coins with other assets only on top of all pure ones where these are too little, and no fewer would do |
| CoinSelection.Collect | src/AssetWallet.cpp:91-103 | the coins holding the asset in the wallet's order, unless one of them may not be moved |
| CoinSelection.CandidatesAre | src/AssetWallet.cpp:91-103 | a coin is a candidate exactly when some holding of it is of the asset, and in the way exactly when the first such may not be moved |
| CoinSelection.FirstHoldMost | src/AssetWallet.cpp:114-119 | largest first, no k coins hold more than the first k |
| CoinSelection.BestSingle | src/AssetWallet.cpp:126-137 | the first pure coin that is enough and leaves the least change, if there is one |
| CoinSelection.Gather | src/AssetWallet.cpp:139-148 | takes from the front, stopping at the first coin that makes it enough |
| PageJson.BuildPermanentPageJson | pool/PoolDatabase.cpp:1028-1099 | the flags of the printing loop give each run of equal keys one array of its values |
| PageJson.OneArrayPerRun | pool/PoolDatabase.cpp:1048-1087 | what is printed is a JSON object with one array for each longest run of rows with the same key, holding the run's CIDs in order |
| PageJson.EscapeReadsBack | pool/PoolDatabase.cpp:23-44 | any text at all is escaped to a JSON string (section 7 of RFC 8259) that reads back as itself |
| PageJson.ReadChanges | pool/main.cpp:161-226 | the cursor loops read exactly what the recursive reader of the text reads, on every text |
| PageJson.BetweenParts | pool/main.cpp:161-226 | what the reader passes over between keys, values and separators, and what braces do to its depth |
| PageJson.PageReadsBackAs | pool/main.cpp:161-226 | a printed page reads back as its rows, each key split at its first dash, rows without a CID dropped |
| PageJson.PageRoundTrip | pool/PoolDatabase.cpp:1048-1098 | a page of fields that need no escape comes back exactly if and only if every row has a CID and no asset id holds a dash |

## Left out

- BitStream.BitIO.SetBits: a whole word at a word boundary past the last word writes outside the vector in the source; callers must not ask for it.
- BitStream.BitIO.PadWidth: the random fill is any fill, the random source is not modelled.
- BitStream.BitIO: streams passed as arguments are other objects than the receiver; the byte-vector constructor, `makeDouble`/`getDouble`, `copyBitcoinData` and operator overloads are not modelled, nor what exception messages say.
- StringStreams.GetAlpha: a lone character's 6 bits from 46 on index outside the character set in the source; the model reads a zero byte there.
- StringStreams.Get3B40: a trailing pair's 11 bits from 1640 on index outside the character set in the source; the model reads a zero byte there.
- Base58.Encode, Base58.Decode: not for empty input, where the source computes the size minus one of nothing.
- AssetId.DigiAsset.CalculateAssetId: hashes are parameters; an id that decodes to fewer than 24 bytes is outside `FromDatabase`, which indexes past it in the source.
- ChainSync: what one block's transactions do to the tables is one effect per block; pruning, checkpoints, performance indexes, oracle prices, the Thaw Day version check and back-off pauses are at most a failure or nothing. Forks that happen while the node is stopped or recovering are not detected by the source and not claimed.
- ChainSync.ChainAnalyzer.ClearBlocksAboveHeight: which of its fourteen statements touch a block is not told apart: after some but not all of the deletes every effect from the height on counts as partly gone, the headers as all there. A BEGIN or a COMMIT of its own that fails is not modelled: the source ignores both results, and after a failed BEGIN the deletes are durable one by one. The un-spending of outputs is part of the discarded effects.
- StoragePlan.Weights: byte totals are unbounded integers, scores are reals; the sort's result for entries that compare equal is not fixed by the source, so the results ask for distinct peer ids, the table's primary key.
- Challenges: the choice of the file to ask about and the comparison of hashes are inputs of the steps; SQLite failures are not modelled there.
- PayoutPlan.ComputeBudget: real arithmetic instead of doubles; configuration texts are already numbers.
- Payouts.PoolDashboard.ExecutePayout: wallet unlocking, the reading of Core's reply text and the log are not modelled; the reply is one of its three meanings. One process at a time drives the wallet.
- Payouts.PoolDashboard.KeyPress: keys that only print are no steps.
- Amounts.ParseAssetAmount: doubles, which the source first formats to text with the asset's decimals. Characters above 127 are simply no digits.
- Amounts.DgbToSats: signed overflow, which C++ leaves undefined, wraps around as compilers do it.
- CoinSelection.SelectAssetInputs: which rules make an asset unmovable is a flag of the holding; sums are unbounded integers.
- PageJson.ReadChanges: the "daily" and "done" fields and the fetching of pages.
- Transaction building and signing, RPC methods, HTTP, discovery, maps, statistics, dashboards, command line, configuration files and the rules engine are not part of this model.
