# Verified model of barnyard2's algorithmic core

barnyard2 reads the unified2 spool files of an intrusion detection system, correlates packets with
events, decodes the packets and hands both to output plugins. This project models the parts of it
that are algorithms, in Dafny, and proves what they are for. `dafny verify dfyconfig.toml` checks
everything.

| part | files |
|---|---|
| Twofish with CBC and ciphertext stealing | `TwofishWords`, `TwofishCipher`, `KeySchedule`, `ReedSolomon`, `TwofishPaper`, `CipherStealing`, `TwofishStream`, `HexCodec`, `TwofishFrame` |
| Boyer-Moore search | `BoyerMoore` |
| Internet checksums | `Checksum` |
| The spooler: event cache, reader, bookmark | `EventCache`, `EventDelivery`, `PacketDelivery`, `SpoolRun`, `SpoolPackets`, `SpoolLoop` |
| The packet decoder: TCP options, encapsulation | `TcpOptions`, `DecodeLayers`, `DecodeSafety`, `PacketGrammar`, `DecodeRefines`, `DecodedFrames`, `PacketDecoder` |
| Bytes as numbers | `Octets` |

## How it is built

**Twofish.** `TwofishCipher` takes the two table look-ups of the round function as arbitrary
functions, so the inverse laws hold for every key and every content of the tables; `KeySchedule`
then shows that the tables filled from a key compute the cipher's function h, and `ReedSolomon` that
the key words of the S-boxes are remainders of polynomials over GF(2^8). `TwofishPaper` writes the cipher
down once more, from its publication and without the program's operations: sixteen swapped rounds in
arithmetic modulo 2^32, h as a fold over a table of permutations, the subkeys from multiples of
0x01010101. The block routine with any key's schedule computes it. `CipherStealing` says what a
whole message encrypts to, and `TwofishStream` holds the object with the chaining state: it
writes each block one block late, and its methods are proved against that specification, bytes past
the end included. Messages of whole blocks are not swapped at the end: the mode is CBC-CS2 of the
addendum to NIST SP 800-38A. The layer above frames a message behind a salted header of magic and length.

**Boyer-Moore.** The specification is that the pattern occurs in the buffer. The shift table is not
the textbook one: its construction accepts some candidates early, which makes the entries smaller than
they could be. `ShiftTable` states what it does guarantee, which is what the search needs.

**Checksums.** All seven routines share their unrolled loops here. Each is proved to return
`Computed` of the pseudo-header and data, and `Computed` is proved to be the checksum of RFC 1071
for as many words as a 32-bit accumulator can hold. `Standard` is that checksum of the bytes themselves,
with a zero byte behind data of an odd length.

**The spooler.** `EventCache` holds the cache as an object with the operations of the program, proved
against `Step`, the effect of one record. `EventDelivery` counts deliveries of events over a file, and
`PacketDelivery` says of each record, in terms of the records and of which events are cached and used, what it
sends to the plugins, so how every packet of a file gets there, and in what order. `SpoolRun`
is a state machine of a writer that appends and rotates, a reader that follows it and restarts of the
reader from its bookmark, in any interleaving; its theorems are about every reachable state. `SpoolPackets`
lifts the law of packets to those.
`SpoolLoop` is the reader's main loop over mutable fields, whose passes are the steps of that machine.

**The decoder.** A decoding function calls at most one other, and after that only settles two flags (the
mark of an uncertain encapsulation, and whether to trust the packet). `DecodeLayers` gives the effect of
each function as a turn: a new state and the call that follows. `Run` follows the calls and settles; its
termination measure is the number of bytes left and the rank of the function. `DecodeSafety` proves
invariants of turns and lifts them to `Run`. `PacketDecoder` has the functions as methods that call each
other; each is proved to end in the state that `Run` gives, and to do what `Decoded` says: recorded layers
are neither lost nor changed; called on bytes that are ready for it, it leaves a parsed packet, with all
layers inside the captured bytes, and inside the datagrams around them, if and only if decoding gets to no
options header that claims too many; it notes going back to the packet's start exactly if it does so; called
with room for it, it leaves at most two IP layers pushed. `Gets` says whether decoding gets to a place that
is given by the bytes and the call there.

`PacketGrammar` is a second account of packets that knows no turns and no packet to fill in: `Frame` and `Read`
give the list of headers that stand in some bytes, from the formats. It is a function of the bytes, the place
and what is around it (`Around`). `DecodeRefines` proves that the decoder records exactly that list, up to the
slots there are, from every frame (`FrameIsRead`) and in every call (`Finds`). `DecodedFrames` draws from it
the ports of a frame, and what the decoder makes of the common frames, by conditions on their bytes.

## Departures

What each part of the code is for, in italics, and exactly when it does something else.

- *The length field gives back the length of the data* (`twofish.c:503-506`). It is put together with `int`
  shifts: a set top bit is extended into a 64-bit `long`, as common compilers do, and lengths of 2^32 and
  more are cut off. `FrameRoundTrip`: the data comes back if and only if its length is faithful to the field.
- *Raw decryption may write over its input*, as raw encryption may. The bytes of a partial final block are
  read a second time, when the plaintext is already there. The result is right if and only if the length is
  a multiple of sixteen, or the last whole block of ciphertext deciphers to zeros in front of the stolen
  bytes (`InPlaceIsRight`).
- *An event is delivered at most once.* A cached event is fired while it is unused (`spooler.c:774`, `816`,
  `850`), but an unrecognised record leaves it unused, so each one delivers it again (`UnrecognisedRepeats`).
  An event is delivered once for each such record and each packet that repeats it by the settings, and
  once when something claims it; `DeliveryLaw` is that count.
- *Every event read reaches the plugins.* An event is claimed by its own packet, by another event, or by a
  packet of no cached event; extra data, unrecognised records and packets of an older cached event leave
  it waiting (`StepWaits`, `WaitsWhileUnclaimed`). With one alert per stream and every record recognised, an
  event is delivered if and only if some later record of its file claims it (`EventsDeliveredOnce`): the
  cache is dropped with the file, and an unclaimed event with it, for good (`UnclaimedIsLost`;
  `EventRotatedAway` is such a run).
- *The count of cached events, which is compared with the limit, is the length of their list.* Purging the
  head empties the list and counts off one event (`CountDrifts`). The count is right if and only if no purge
  so far has hit the head of a longer list (`CountIsExact`).
- *The bookmark stands behind what has been delivered.* It is written after the calls of the plugins, so a
  stop in between repeats the outputs of that one record, and nothing else (`CrashRepeatsOneRecord`). Between
  records it lags behind unrecognised ones only (`BookmarkIsClose`).
- *The least spool file whose extension parses and is due is found.* The error number that an extension out
  of range sets is never reset, so the scan counts only the entries in front of the first such one
  (`Counted`), and none in the next scans, as long as no other failing library call overwrites the number.
  The right file is found if and only if every due one has a due one no larger that counts (`ScanIsRight`);
  `OverflowHides` is a directory where it is not.
- *A layer is inside the captured bytes, and inside the IP datagrams around it.* An IPv6 hop-by-hop or
  destination options header is recorded before its length is compared with the bytes at hand. All layers
  are inside the captured bytes if and only if decoding gets to no such header that claims more than these;
  they are inside their datagrams if and only if it gets to none that claims more than the bytes at hand
  (`FrameIsParsed`). `HopOptionsOverrun` has frames for both.
- *A payload is decoded from behind the header that announced it.* Behind an LLC header in a VLAN tag, and
  behind ethernet over MPLS, decoding goes on from the start of the packet. It does so if and only if it gets
  to such a header with enough bytes (`FrameIsParsed`), as in the frame of `LlcArpGoesBack`, where ARP is
  recorded inside the ethernet header. IP behind such an LLC header is never recorded (`LlcIpIsLost`).

## Model

| member | source | states |
|---|---|---|
| TwofishCipher.DecryptEncrypt | barnyard2-master/src/twofish.c:786-884 | decrypting an encrypted block gives it back, for any key schedule and any content of the tables |
| TwofishCipher.EncryptDecrypt | barnyard2-master/src/twofish.c:786-884 | encrypting a decrypted block gives it back |
| TwofishCipher.DecLoopUndoes | barnyard2-master/src/twofish.c:814-857 | n pairs of decryption rounds undo n pairs of encryption rounds, on swapped halves and with the subkeys taken backwards |
| TwofishCipher.EncLoopUndoes | barnyard2-master/src/twofish.c:814-857 | the converse, from the decryption loop to the encryption loop |
| TwofishCipher.PairInverse | barnyard2-master/src/twofish.c:815-857 | one unrolled pair of decryption rounds undoes one of encryption, and conversely |
| TwofishPaper.EncryptIsPaper | barnyard2-master/src/twofish.c:786-884 | for every schedule whose look-ups are g of a word and of a word turned by eight bits: the unrolled loop, without half swaps, computes the published cipher, whose rounds add t0 + t1 and t0 + 2 t1 modulo 2^32 and rotate by one bit, swap halves, and stand between two whitenings of words in little-endian order |
| TwofishCipher.EncryptPass | barnyard2-master/src/twofish.c:843-857 | one pass of the encryption loop, word by word, is a pair of rounds |
| TwofishCipher.EncryptRounds | barnyard2-master/src/twofish.c:842-857 | the encryption loop computes eight pairs of rounds |
| TwofishCipher.DecryptPass | barnyard2-master/src/twofish.c:815-829 | one pass of the decryption loop, word by word, is a pair of inverse rounds |
| TwofishCipher.DecryptRounds | barnyard2-master/src/twofish.c:814-829 | the decryption loop, index run backwards, computes eight pairs of inverse rounds |
| TwofishCipher.BlockCrypt16 | barnyard2-master/src/twofish.c:786-884 | the block routine computes Encrypt or Decrypt, to which the inverse laws and EncryptIsPaper apply |
| KeySchedule.TablesRefineH | barnyard2-master/src/twofish.c:906-968 | on filled tables the three fast look-ups equal the keyed function h, of x and of x rotated by eight bits, for every 32-bit x |
| KeySchedule.FillTables | barnyard2-master/src/twofish.c:602-645 | the 256 turns of the filling loop expand all four tables for the key words |
| KeySchedule.Entry | barnyard2-master/src/twofish.c:602-645 | the fall-through switch gives one entry of each table for two, three or four key words |
| KeySchedule.ExtractByte | barnyard2-master/src/twofish.c:145-150 | the shifting loop extracts byte n modulo four |
| KeySchedule.KeyWords | barnyard2-master/src/twofish.c:571-581 | even words, odd words and, in reverse order, the Reed-Solomon words of the key |
| KeySchedule.MakeSubKeys | barnyard2-master/src/twofish.c:557-645 | from any 32-byte key: all forty subkeys are those of the cipher and all tables are expanded for its S-box words |
| KeySchedule.ScheduleIsH | barnyard2-master/src/twofish.c:949-961 | the schedule that the object uses has h itself as its two round functions |
| TwofishPaper.F32IsH | barnyard2-master/src/twofish.c:910-968 | for every key size, word and key: the columns unrolled by key size compute h, in which column j of a stage goes through the permutation that a table of zeros and ones gives, then is xored with byte j of its key word |
| TwofishPaper.BumpsAre | barnyard2-master/src/twofish.c:583-594 | adding the bump n times gives n times 0x01010101 |
| TwofishPaper.SubKeyIs | barnyard2-master/src/twofish.c:583-601 | subkeys 2i and 2i + 1 are A + B and A + 2 B turned by nine bits, for A = h(2i r, Me), B = h((2i + 1) r, Mo) turned by eight bits, and r = 0x01010101 |
| TwofishPaper.ScheduleIsPaper | barnyard2-master/src/twofish.c:557-645 | a schedule with the subkeys and look-ups of a key encrypts every block as the published cipher does under that key |
| ReedSolomon.RsMdsEncode | barnyard2-master/src/twofish.c:894-904 | the two loops of four steps compute Encode |
| ReedSolomon.EncodeIsRemainder | barnyard2-master/src/twofish.c:894-904 | the encoded word is a remainder of x^4 (k1 x^4 + k0) by x^4 + (a+1/a) x^3 + a x^2 + (a+1/a) x + 1 over GF(2^8) modulo 0x14D |
| ReedSolomon.RemainderUnique | barnyard2-master/src/twofish.c:894-904 | remainders by that polynomial are unique, so it is the remainder |
| ReedSolomon.EncodeLinear | barnyard2-master/src/twofish.c:894-904 | encoding is linear over GF(2) in both words |
| ReedSolomon.InverseOfA | barnyard2-master/src/twofish.c:136-136 | the constant a + 1/a in the feedback is made of a field element and its inverse |
| ReedSolomon.RemBytes | barnyard2-master/src/twofish.c:136-136 | one feedback step subtracts the top coefficient times the polynomial and shifts |
| CipherStealing.StealRoundTrip | barnyard2-master/src/twofish.c:672-755 | decryption with stealing undoes encryption with stealing for every message of at least one block and every pair of inverse block functions |
| CipherStealing.KeyInverse | barnyard2-master/src/twofish.c:672-755 | the block functions of every key schedule are such a pair |
| CipherStealing.ChainOpens | barnyard2-master/src/twofish.c:682-702 | a block decrypted and chained with the ciphertext before it is the plaintext block |
| CipherStealing.InPlaceIsRight | barnyard2-master/src/twofish.c:711-741 | decryption with stealing into the buffer of the input is right if and only if the length is a multiple of sixteen or the last whole block deciphers to zeros in front of the stolen bytes |
| CipherStealing.StealEncryptIsCs2 | barnyard2-master/src/twofish.c:672-755 | equations for the ciphertext: each whole block is the cipher of its plaintext xored with the ciphertext before it; of a partial final block, the last two are in swapped order and the first of them is cut |
| TwofishStream.FillKey | barnyard2-master/src/twofish.c:165-196 | the 32-byte key repeats the password from its beginning |
| TwofishStream.TwoFish.constructor | barnyard2-master/src/twofish.c:165-196 | a new object has the schedule of the password repeated over 32 bytes, of the default text without one; it encrypts every block as the published cipher does under that key |
| TwofishStream.TwoFish.FlushOutput | barnyard2-master/src/twofish.c:778-784 | bytes go out at the output position unless one flush is to be suppressed, which it resets |
| TwofishStream.TwoFish.QBlockPush | barnyard2-master/src/twofish.c:757-764 | the block waiting is written and the new pair waits; the ciphertext before it is kept |
| TwofishStream.TwoFish.QBlockPop | barnyard2-master/src/twofish.c:766-771 | the waiting pair is taken back and nothing is written |
| TwofishStream.TwoFish.BlockCrypt | barnyard2-master/src/twofish.c:672-755 | one more whole block keeps the chaining state and the written prefix of either direction; a partial block completes the whole message with stealing; bytes past it are the rest of its cipher block |
| TwofishStream.TwoFish.CryptRawCBC | barnyard2-master/src/twofish.c:206-222 | the block loop ends with the whole message encrypted or decrypted with stealing; in the buffer of the input, decryption of a partial block gives what reading its bytes twice gives |
| TwofishStream.TwoFish.CryptRaw16 | barnyard2-master/src/twofish.c:225-231 | at most one block goes through the cipher zero-padded and unchained |
| TwofishStream.TwoFish.CryptRaw | barnyard2-master/src/twofish.c:234-286 | raw encryption and decryption compute RawCrypt of the input, also into the buffer of the input, unless that is decryption of a partial final block, which gives StealDecryptInPlace |
| TwofishFrame.RawRoundTrip | barnyard2-master/src/twofish.c:225-286 | raw decryption returns the message, filled up with zeros to one block if it was shorter |
| TwofishStream.TwoFish.Alloc | barnyard2-master/src/twofish.c:330-346 | the size of the buffer that the library allocates, for either direction and encoding and any length |
| TwofishStream.TwoFish.EncryptFramed | barnyard2-master/src/twofish.c:406-443 | the output is the sealed message; writing stays inside SealExtent, the bytes beyond the result are the rest of its last cipher block and those further on are unchanged; null and empty inputs give nothing |
| TwofishStream.TwoFish.DecryptFramed | barnyard2-master/src/twofish.c:465-517 | the output is what Unseal finds in the input, nothing if the magic does not match |
| TwofishFrame.FrameRoundTrip | barnyard2-master/src/twofish.c:406-517 | unsealing a sealed message gives the data back, in binary or hexadecimal, for every key, salt and content, if and only if the length is faithful to the header field; otherwise the stated prefix |
| TwofishFrame.HeaderLayout | barnyard2-master/src/twofish.c:406-443 | the header is four bytes of salt, the length with its least significant byte first, and the text of the magic with its terminator |
| TwofishFrame.StoredLengthOf | barnyard2-master/src/twofish.c:465-517 | what the receiver reads from the length field: the length exactly below 2^31; cut to the bytes received it is Kept, which is the length exactly for faithful ones |
| TwofishFrame.AllocCovers | barnyard2-master/src/twofish.c:330-346 | all writes of sealing stay inside the allocated buffer; the overrun is at most fifteen bytes, reached exactly at one residue, and without the extra sixteen bytes every partial final block would be out of bounds |
| HexCodec.HexRoundTrip | barnyard2-master/src/twofish.c:349-383 | decoding the hexadecimal encoding of any bytes gives them back |
| HexCodec.HexDecodeEncode | barnyard2-master/src/twofish.c:349-383 | encoding the decoded bytes of any hexadecimal digits gives the digits in lower case |
| HexCodec.HexIsText | barnyard2-master/src/twofish.c:349-383 | byte by byte the encoding is the digit of the upper half and that of the lower half, out of 0123456789abcdef |
| HexCodec.BinToHex | barnyard2-master/src/twofish.c:349-383 | the backward walk encodes in place without overwriting what it has still to read |
| HexCodec.HexToBin | barnyard2-master/src/twofish.c:349-383 | the forward walk decodes in place without overwriting what it has still to read |
| HexCodec.BinHex | barnyard2-master/src/twofish.c:349-383 | either conversion in place, and the rest of the buffer unchanged |
| BoyerMoore.MakeSkip | barnyard2-master/src/mstring.c:807-819 | every entry is the distance of the last occurrence of its byte from the end of the pattern |
| BoyerMoore.MakeShift | barnyard2-master/src/mstring.c:837-869 | for every mismatch index the displacement is between 1 and the pattern length less one, and every smaller one is contradicted by the matched suffix; the nested loops terminate |
| BoyerMoore.Candidate | barnyard2-master/src/mstring.c:852-862 | the do-while loop ends at a displacement below which every one is contradicted, although it accepts some early |
| BoyerMoore.StepSafe | barnyard2-master/src/mstring.c:893-949 | the larger of the two strides moves the window forward by at least one and past no occurrence |
| BoyerMoore.Search | barnyard2-master/src/mstring.c:893-949 | with such tables the search returns true exactly when the pattern occurs in the buffer |
| BoyerMoore.SearchCI | barnyard2-master/src/mstring.c:973-1011 | the same for the upper-cased buffer |
| BoyerMoore.ToUpperIsText | barnyard2-master/src/mstring.c:973-1011 | the upper-casing maps each letter of the alphabet to its capital and leaves every other byte alone |
| BoyerMoore.ContainsSubstr | barnyard2-master/src/mstring.c:731-788 | the naive search, with its back-up step, gives the same answer on non-empty inputs and terminates |
| Checksum.ComputedIsRfc1071 | barnyard2-master/src/checksum.h:65-96 | for up to 65537 words the accumulator cannot wrap and two folds at the end give the complement of the one's-complement sum |
| Checksum.BoundIsExact | barnyard2-master/src/checksum.h:65-96 | all inputs of n words come out right if and only if n is at most 65537 |
| Checksum.OnesSumResidue | barnyard2-master/src/checksum.h:65-96 | the one's-complement sum is the residue of the plain sum modulo 65535, zero only for a sum of zero |
| Checksum.WordsArePairs | barnyard2-master/src/checksum.h:505-514 | the words that the loops add are the byte pairs, in the order of the host, of the data with a zero byte behind an odd last one |
| Checksum.ResultIsStandard | barnyard2-master/src/checksum.h:65-96 | for up to 131074 bytes the result is the checksum of RFC 1071 of these pairs |
| Checksum.AddSixteen | barnyard2-master/src/checksum.h:136-156 | the body unrolled sixteen times adds exactly the next sixteen words |
| Checksum.AddRest | barnyard2-master/src/checksum.h:136-188 | the unrolled loop, the single-word loop and the odd byte add all words of the data, which WordsArePairs shows to be those of data padded with a zero byte at the end |
| Checksum.InChksumIp | barnyard2-master/src/checksum.h:65-96 | the standard checksum of a header of at least 20 bytes in units of four, up to 131074 bytes; beyond, two folds of the wrapped accumulator |
| Checksum.InChksumTcp | barnyard2-master/src/checksum.h:106-188 | up to 131074 bytes, the standard checksum of the 12-byte pseudo-header and the data, filled up with a zero byte to whole words; beyond, two folds of the wrapped accumulator |
| Checksum.InChksumTcp6 | barnyard2-master/src/checksum.h:197-291 | up to 131074 bytes, the standard checksum of the 36-byte pseudo-header and the data, filled up with a zero byte to whole words; beyond, two folds of the wrapped accumulator |
| Checksum.InChksumUdp6 | barnyard2-master/src/checksum.h:301-385 | up to 131074 bytes, the standard checksum of the same bytes for UDP over IPv6, whose header words are added separately, filled up with a zero byte to whole words; beyond, two folds of the wrapped accumulator |
| Checksum.InChksumUdp | barnyard2-master/src/checksum.h:389-461 | up to 131074 bytes, the standard checksum of the same bytes for UDP over IPv4, filled up with a zero byte to whole words; beyond, two folds of the wrapped accumulator |
| Checksum.InChksumIcmp | barnyard2-master/src/checksum.h:466-520 | up to 131074 bytes, the standard checksum of the message alone, filled up with a zero byte to whole words; beyond, two folds of the wrapped accumulator |
| Checksum.InChksumIcmp6 | barnyard2-master/src/checksum.h:525-601 | up to 131074 bytes, the standard checksum of the 36-byte pseudo-header and the message, filled up with a zero byte to whole words; beyond, two folds of the wrapped accumulator |
| Checksum.StoredChecksumVerifies | barnyard2-master/src/checksum.h:466-520 | a checksum stored in its zeroed word makes the sum verify |
| Checksum.PacketVerifies | barnyard2-master/src/checksum.h:466-520 | the routine's own result, stored in native order over a zeroed field at an even offset, makes the routine return zero on the packet |
| Checksum.ChangeDetected | barnyard2-master/src/checksum.h:466-520 | on a verifying packet a change of one word goes unnoticed if and only if the new word is congruent modulo 65535 and not every word becomes zero |
| Checksum.SwappedSum | barnyard2-master/src/checksum.h:466-520 | swapping the bytes of every word swaps those of the sum |
| Checksum.HostsAgree | barnyard2-master/src/checksum.h:466-520 | hosts of either byte order store the same two bytes for the same data |
| EventCache.Spooler.CacheGetByEventID | barnyard2-master/src/spooler.c:904-923 | the loop finds the newest event with these ids and counts its use |
| EventCache.Spooler.CachePush | barnyard2-master/src/spooler.c:874-902 | the event becomes the unused head and the count grows |
| EventCache.Spooler.CacheClean | barnyard2-master/src/spooler.c:941-1015 | over the limit the oldest used event is purged; as the head it takes the whole list with it |
| EventCache.Spooler.ProcessRecord | barnyard2-master/src/spooler.c:688-872 | one record changes cache, outputs and bookmark as Step says, whose outputs PacketDelivery.RecordFires and whose cache EventDelivery and CacheHolds describe; without firing, the cache changes the same way and nothing else does |
| EventDelivery.NoPurgeOfUndelivered | barnyard2-master/src/spooler.c:756-840 | after any records only the head can be unused, the count is at least the list's length, and whatever a purge drops has been used |
| EventDelivery.DeliveryLaw | barnyard2-master/src/spooler.c:756-840 | at any settings, every event read has been delivered once plus its repeats, the waiting one only its repeats, and nothing else has been delivered |
| EventDelivery.SingleDelivery | barnyard2-master/src/spooler.c:756-840 | without unrecognised records and with one alert per stream, every event is delivered exactly once unless it is the unused head, and then not at all |
| EventDelivery.UnrecognisedRepeats | barnyard2-master/src/spooler.c:849-869 | two unrecognised records after an event deliver it twice and leave it waiting |
| EventDelivery.CountDrifts | barnyard2-master/src/spooler.c:941-1015 | an input after which the list is empty and the count is one |
| EventDelivery.CleanDrifts | barnyard2-master/src/spooler.c:941-1015 | a purge makes the count exceed the list by exactly the nodes lost with the head of a longer list |
| EventDelivery.CountIsExact | barnyard2-master/src/spooler.c:941-1015 | after any records the count is the length of the list if and only if no purge so far has hit the head of a longer list |
| EventDelivery.StepWaits | barnyard2-master/src/spooler.c:756-869 | a waiting event goes on waiting exactly at extra data, at an unrecognised record and at a packet of an older cached event |
| EventDelivery.WaitsWhileUnclaimed | barnyard2-master/src/spooler.c:756-869 | after any records an event is waiting if and only if every record behind it was one of those |
| PacketDelivery.RecordFires | barnyard2-master/src/spooler.c:756-869 | what each record of a file sends: a packet goes with the newest cached event of the same second and id and with that event's record type, unless the event has been used and events are not repeated; without one it goes alone, behind the alert of a waiting event; events and unrecognised records send that alert only, extra data nothing |
| PacketDelivery.PacketLaw | barnyard2-master/src/spooler.c:756-809 | for every prefix of a file and every packet in it: exactly one output carries it, with its newest cached event or alone, and none only if that event has been used and events are not repeated; nothing that is not a packet is sent as one |
| PacketDelivery.PacketsInOrder | barnyard2-master/src/spooler.c:756-809 | packets go out in the order of their records |
| PacketDelivery.CacheHolds | barnyard2-master/src/spooler.c:874-902 | after any records every node is an event record read before, with its type, second and the low 16 bits of its id, and the newest comes first |
| PacketDelivery.NothingPurged | barnyard2-master/src/spooler.c:941-1015 | as long as no more events have been read than the limit, exactly these are cached, and counted |
| PacketDelivery.CleanLaw | barnyard2-master/src/spooler.c:941-1015 | a purge happens if and only if the count is over the limit and some used event has had a packet; it takes the oldest such one, or the whole list if that is the newest of all |
| PacketDelivery.CountIsBounded | barnyard2-master/src/spooler.c:941-1015 | after any records the count is within the limit unless no cached event can be purged |
| PacketDelivery.UsesAreCounted | barnyard2-master/src/spooler.c:904-923 | every cached event has counted exactly the packets that belonged to it as their newest cached event |
| SpoolRun.FindNextExtension | barnyard2-master/src/spooler.c:81-151 | the least positive extension that is at least the timestamp among those that parse, in front of any extension out of range, with the error number clear; none if there is none |
| SpoolRun.ScanIsRight | barnyard2-master/src/spooler.c:108-147 | that is the least one due of all that parse if and only if each due one has a due one no larger in front of any extension out of range, with the error number clear |
| SpoolRun.OverflowHides | barnyard2-master/src/spooler.c:117-123 | a directory with one file that is due, in which the scan finds none |
| SpoolRun.CountedAreThere | barnyard2-master/src/spooler.c:117-123 | what counts is there; all of it counts if the error number is clear and no extension is out of range, and nothing if it is set |
| SpoolRun.RunInv | barnyard2-master/src/spooler.c:426-672 | in every reachable state: what has been emitted is what the files determine up to the bookmark, and up to the record at which skipping ends; the cache is that of the records read; a newer file noticed means the open one is final |
| SpoolRun.EmittedIsPrefix | barnyard2-master/src/spooler.c:426-672 | in every reachable state the outputs are a prefix of those of the writer's whole log, through all rotations and restarts |
| SpoolRun.ClosedOnlyWhenConsumed | barnyard2-master/src/spooler.c:605-632 | a file is closed only when a later one exists, all its complete records have been read, none is left to skip and the outputs of all files up to it have been emitted |
| SpoolRun.FinishedFilesStay | barnyard2-master/src/spooler.c:605-663 | a file with a later one beside it never changes again, so nothing is added to a closed file |
| SpoolRun.NoLoss | barnyard2-master/src/spooler.c:458-663 | from any reachable state a reader left alone comes to rest having emitted the outputs of every complete record of every file |
| SpoolRun.ResumeEquivalence | barnyard2-master/src/spooler.c:469-473 | any two runs that end with the same files, however often either was restarted from its bookmark, come to the same outputs |
| SpoolRun.SameRecordSameOutputs | barnyard2-master/src/spooler.c:566-592 | two readers at the same record of the same files have emitted and cached the same, whatever restarts led there |
| SpoolRun.EventsDeliveredOnce | barnyard2-master/src/spooler.c:756-869 | over whole runs with restarts, with one alert per stream and every record recognised: no event is delivered twice, and once the reader has caught up an event has been delivered exactly once if some record behind it in its file claims it and not at all otherwise |
| SpoolRun.UnclaimedIsLost | barnyard2-master/src/spooler.c:605-632 | under the same settings an event that no record of its finished file claims is never delivered, in any continuation of the run |
| SpoolRun.EventRotatedAway | barnyard2-master/src/spooler.c:605-632 | a run that ends in the next file with the event of the first one undelivered |
| SpoolPackets.PacketsSentOnce | barnyard2-master/src/spooler.c:756-809 | over all rotations and restarts: once the reader has caught up, every packet of every file has been sent as its file says, so once at most, and at no time has more been sent |
| SpoolPackets.BookmarkIsClose | barnyard2-master/src/spooler.c:561-595 | in every reachable state the bookmark stands behind the last record that was recognised and processed, so a restart goes over nothing again but unrecognised records |
| SpoolRun.CatchesUp | barnyard2-master/src/spooler.c:458-663 | any run can be continued by the reader alone to the drained state |
| SpoolRun.CrashRepeatsOneRecord | barnyard2-master/src/spooler.c:756-809 | after a stop behind any of the plugin calls of one record, before its bookmark, the restarted reader emits the whole log with just the outputs already made by that record, at most two, repeated |
| SpoolRun.PassDecreases | barnyard2-master/src/spooler.c:458-663 | every pass of the loop over resting files makes progress until the reader is idle |
| SpoolLoop.MainLoop.Pass | barnyard2-master/src/spooler.c:458-663 | one pass over the loop's mutable fields is one step of the machine |
| SpoolLoop.MainLoop.OpenPass | barnyard2-master/src/spooler.c:464-526 | without an open file: the next one is opened, skipping is dropped if it is not the one of the bookmark, which then moves to it |
| SpoolLoop.MainLoop.RecordPass | barnyard2-master/src/spooler.c:561-595 | a record read is skipped or fired, and the bookmark written, as the machine says |
| SpoolLoop.MainLoop.CatchUp | barnyard2-master/src/spooler.c:458-663 | the loop comes to rest in the drained state, with the whole log emitted |
| TcpOptions.Packet.OptLenValidate | barnyard2-master/src/decode.c:3759-3820 | the verdict on a length byte, and the recorded length and data if it is good |
| TcpOptions.Packet.DecodeTCPOptions | barnyard2-master/src/decode.c:3870-4022 | for every area of at most 40 bytes the recorded options, data slices in bounds, are those of the walk; for longer ones only the header is dropped |
| TcpOptions.WalkReserialises | barnyard2-master/src/decode.c:3870-4022 | the options found form a well-formed list and re-serialise to exactly the bytes walked over |
| TcpOptions.WalkIsMaximal | barnyard2-master/src/decode.c:3870-4022 | the walk ends only at the end of the area, behind an end-of-list option, or where no well-formed option fits the bytes left |
| TcpOptions.WellFormedIsBytes | barnyard2-master/src/decode.c:3870-4022 | an option is well-formed if and only if its bytes are: one byte for kinds 0 and 1, else a length byte that is their number, and for the kinds of a table the length that it gives |
| TcpOptions.BytesAreOption | barnyard2-master/src/decode.c:3870-4022 | any such bytes are the serialisation of a well-formed option |
| TcpOptions.SerialiseWalk | barnyard2-master/src/decode.c:3870-4022 | wherever the serialisation of a well-formed list stands, the walk finds that list, then goes on unless the list ended it |
| TcpOptions.OptionsRoundTrip | barnyard2-master/src/decode.c:3870-4022 | decoding the serialisation of any well-formed list gives the list back |
| TcpOptions.WalkDetermines | barnyard2-master/src/decode.c:3870-4022 | equal options mean equal bytes walked over |
| TcpOptions.CapNeverCuts | barnyard2-master/src/decode.c:3906-4017 | the cap on the number of options never cuts a walk short |
| DecodeLayers.TurnDecreases | barnyard2-master/src/decode.c:1493-1565 | every call in the mutual recursion is on fewer bytes, or on as many and of a lower rank |
| DecodeLayers.PeelLabels | barnyard2-master/src/decode.c:645-691 | the label loop terminates, inside the bytes at hand |
| DecodeSafety.FrameIsParsed | barnyard2-master/src/decode.c:364-471 | every frame: at most 32 layers, all inside the captured bytes if and only if decoding gets to no options header that claims more of these; it goes back to the packet's start if and only if it gets to an inner header of ethernet over MPLS or an LLC header in a VLAN tag, with enough bytes; if it does not, each layer is as long as its header says, behind the one before it and announced by that one's header, and all are inside the IP datagrams around them if and only if it gets to no options header that claims more than the bytes at hand |
| DecodeSafety.NextKept | barnyard2-master/src/decode.c:1493-1792 | every decoding function keeps the invariant behind that, or is at such an options header, records it and stops |
| DecodeSafety.ReadyPush | barnyard2-master/src/decode.c:68-82 | recording a layer at the front of the bytes at hand keeps it, whether or not a slot is left |
| DecodeSafety.ReadyPatch | barnyard2-master/src/decode.c:1377-1393 | putting back a protocol field in bytes still to be decoded leaves everything recorded true |
| DecodeSafety.HopOptionsOverrun | barnyard2-master/src/decode.c:2201-2225 | frames whose last layer, an options header, lies past its datagram, and past the captured bytes exactly if the frame ends before it does, without going back |
| DecodeSafety.RunEnclosed | barnyard2-master/src/decode.c:2175-2325 | from any call whose bytes are ready, layers end up inside their datagrams exactly if decoding gets to no options header that claims more than the bytes at hand |
| DecodeSafety.RunReturns | barnyard2-master/src/decode.c:716-1024 | going back to the packet's start is noted exactly if decoding gets to one of the two places |
| DecodeSafety.LlcArpGoesBack | barnyard2-master/src/decode.c:858-930 | a frame whose ARP layer is recorded from byte twelve, inside its ethernet header |
| DecodeSafety.LlcIpIsLost | barnyard2-master/src/decode.c:858-930 | in no frame is anything recorded behind an LLC header in a VLAN tag that announces IP |
| DecodeSafety.PeelsStack | barnyard2-master/src/decode.c:645-691 | an accepted label stack ends behind its first label marked as the bottom, whatever the settings |
| DecodeSafety.GreIsClaimed | barnyard2-master/src/decode.c:3113-3187 | an accepted GRE header is as long as its flags and its source routes, up to the first empty one, make it |
| DecodeSafety.TcpIsDecoded | barnyard2-master/src/decode.c:1578-1792 | an unfragmented IPv4 datagram with a TCP segment is recorded as exactly its two headers, outside or inside another datagram, as far as there are slots |
| DecodeSafety.TaggedFrameIsDecoded | barnyard2-master/src/decode.c:828-1024 | a frame of any number of VLAN tags around such a datagram is decoded to exactly its headers, in order, as far as there are slots |
| DecodeSafety.FrameHasTwoIp | barnyard2-master/src/decode.c:1578-1620 | no frame has more than two IP layers pushed, recorded or not |
| DecodeSafety.NextTwoIp | barnyard2-master/src/decode.c:1493-1792 | the invariant behind that: the address family is reset only where no decoder that could push is called again |
| DecodeSafety.RunExtends | barnyard2-master/src/decode.c:68-82 | whatever is decoded, the layers recorded before it stay as they are |
| DecodeSafety.RunDecodes | barnyard2-master/src/decode.c:1493-1792 | any call of any decoding function does what Decoded says |
| DecodeRefines.FrameIsRead | barnyard2-master/src/decode.c:364-471 | every frame: the recorded layers are exactly the headers that stand in it by the grammar, in order, as far as there are slots |
| DecodeRefines.RunReads | barnyard2-master/src/decode.c:1493-1565 | from any call on, with the state that is around its place: the layers recorded before, then exactly the headers that stand in its bytes |
| DecodeRefines.NextReadsOne | barnyard2-master/src/decode.c:1493-1565 | one turn of any decoding function records the first of these headers or passes, leaves the rest to the call that follows, and keeps the ports or sets them to those of the TCP or UDP header it records |
| DecodeRefines.PeelsLabels | barnyard2-master/src/decode.c:645-691 | the loop over labels accepts a stack if and only if it has a bottom inside the bytes and every label is allowed where it stands; it ends there, with the payload that the bottom label announces |
| DecodedFrames.FramePorts | barnyard2-master/src/decode.c:3602-3703 | the ports of every decoded frame are those of the last TCP or UDP header that it holds, zero without one, unless a protocol field of a compressed header was put back, which happens only behind a PPP header |
| DecodedFrames.RunPorts | barnyard2-master/src/decode.c:3602-3703 | the same from any call on; bytes change only behind a PPP header, and only to the number of TCP |
| DecodedFrames.PortsAreLast | barnyard2-master/src/decode.c:3602-3703 | what these ports are: the two 16-bit numbers at the start of the last TCP or UDP header in a list of layers |
| DecodedFrames.UdpInIpv4 | barnyard2-master/src/decode.c:1503-1506 | a frame of an unfragmented IPv4 datagram with UDP, by its bytes: the three headers are recorded first, and nothing else unless the data looks like a tunnel; the ports are its own |
| DecodedFrames.UdpInIpv6 | barnyard2-master/src/decode.c:2351-2354 | the same in IPv6 |
| DecodedFrames.TcpInIpv6 | barnyard2-master/src/decode.c:2347-2350 | a frame of an IPv6 datagram with a TCP header that fits is exactly its three headers, with its ports |
| DecodedFrames.IcmpInIpv4 | barnyard2-master/src/decode.c:1508-1511 | one of an IPv4 datagram with an ICMP message of at least 20 bytes, or an echo of 8, is exactly its three headers |
| DecodedFrames.Icmp6InIpv6 | barnyard2-master/src/decode.c:2355-2358 | the same for ICMP in IPv6, but for the two kinds that are refused |
| DecodedFrames.ArpFrame | barnyard2-master/src/decode.c:258-280 | a frame of either ARP type with 28 bytes is exactly its two headers |
| DecodedFrames.AhInIpv4 | barnyard2-master/src/decode.c:2864-2882 | an authentication header that fits is recorded behind IPv4 |
| DecodedFrames.Ipv6InIpv4 | barnyard2-master/src/decode.c:2403-2511 | an IPv6 header that fits its datagram is recorded behind IPv4 |
| DecodedFrames.GreInIpv4 | barnyard2-master/src/decode.c:3113-3296 | a GRE header without flags is recorded behind IPv4, and behind it ERSPAN of version 2 or an ethernet header, if announced and there |
| DecodedFrames.MplsFrame | barnyard2-master/src/decode.c:625-714 | a frame with one allowed label records it |
| DecodedFrames.PppoeFrame | barnyard2-master/src/decode.c:1045-1300 | a session of PPPoE that carries IPv4 records both its headers |
| PacketDecoder.Packet.PushLayer | barnyard2-master/src/decode.c:68-82 | a layer is recorded while there is room and nothing else changes |
| PacketDecoder.Packet.DecodeEthPkt | barnyard2-master/src/decode.c:364-471 | decoding a frame ends in the state DecodeFrame gives, whose layers are the headers of Frame as far as there are slots; it is parsed, with the two bounds under their exact conditions, and has at most two IP layers |
| PacketDecoder.Packet.DecodeTransBridging | barnyard2-master/src/decode.c:490-541 | ends in the state Run gives for this call, does what Decoded says, and records the headers that stand there by the grammar |
| PacketDecoder.Packet.DecodeMPLS | barnyard2-master/src/decode.c:625-714 | ends in the state Run gives for this call, does what Decoded says, and records the headers that stand there by the grammar |
| PacketDecoder.Packet.PeelMpls | barnyard2-master/src/decode.c:645-691 | the loop over labels computes PeelLabels, within its byte-sized depth count |
| PacketDecoder.Packet.DecodeEthOverMPLS | barnyard2-master/src/decode.c:716-800 | ends in the state Run gives for this call, does what Decoded says, and records the headers that stand there by the grammar |
| PacketDecoder.Packet.DecodeVlan | barnyard2-master/src/decode.c:828-1024 | ends in the state Run gives for this call, does what Decoded says, and records the headers that stand there by the grammar |
| PacketDecoder.Packet.DecodePPPoEPkt | barnyard2-master/src/decode.c:1045-1300 | ends in the state Run gives for this call, does what Decoded says, and records the headers that stand there by the grammar |
| PacketDecoder.Packet.DecodePppPktEncapsulated | barnyard2-master/src/decode.c:1313-1408 | ends in the state Run gives for this call, does what Decoded says, and records the headers that stand there by the grammar |
| PacketDecoder.Packet.DecodeIPv4Proto | barnyard2-master/src/decode.c:1493-1565 | ends in the state Run gives for this call, does what Decoded says, and records the headers that stand there by the grammar |
| PacketDecoder.Packet.DecodeIP | barnyard2-master/src/decode.c:1578-1792 | ends in the state Run gives for this call, does what Decoded says, and records the headers that stand there by the grammar |
| PacketDecoder.Packet.DecodeICMP | barnyard2-master/src/decode.c:1809-1939 | ends in the state Run gives for this call, does what Decoded says, and records the headers that stand there by the grammar |
| PacketDecoder.Packet.DecodeIPV6Options | barnyard2-master/src/decode.c:2175-2325 | ends in the state Run gives for this call, does what Decoded says, and records the headers that stand there by the grammar |
| PacketDecoder.Packet.CheckHopOptions | barnyard2-master/src/decode.c:2133-2173 | the loop over options terminates and accepts exactly what HopScan does: padding and known kinds, each inside the end the header claims |
| PacketDecoder.Packet.DecodeIPV6Extensions | barnyard2-master/src/decode.c:2327-2397 | ends in the state Run gives for this call, does what Decoded says, and records the headers that stand there by the grammar |
| PacketDecoder.Packet.DecodeIPV6 | barnyard2-master/src/decode.c:2403-2511 | ends in the state Run gives for this call, does what Decoded says, and records the headers that stand there by the grammar |
| PacketDecoder.Packet.DecodeICMP6 | barnyard2-master/src/decode.c:2517-2695 | ends in the state Run gives for this call, does what Decoded says, and records the headers that stand there by the grammar |
| PacketDecoder.Packet.DecodeTeredo | barnyard2-master/src/decode.c:2802-2850 | ends in the state Run gives for this call, does what Decoded says, and records the headers that stand there by the grammar |
| PacketDecoder.Packet.DecodeAH | barnyard2-master/src/decode.c:2864-2882 | ends in the state Run gives for this call, does what Decoded says, and records the headers that stand there by the grammar |
| PacketDecoder.Packet.DecodeESP | barnyard2-master/src/decode.c:2899-3000 | ends in the state Run gives for this call, does what Decoded says, and records the headers that stand there by the grammar |
| PacketDecoder.Packet.DecodeERSPAN | barnyard2-master/src/decode.c:3020-3093 | ends in the state Run gives for this call, does what Decoded says, and records the headers that stand there by the grammar |
| PacketDecoder.Packet.DecodeGRE | barnyard2-master/src/decode.c:3113-3296 | ends in the state Run gives for this call, does what Decoded says, and records the headers that stand there by the grammar |
| PacketDecoder.Packet.SkipRoutes | barnyard2-master/src/decode.c:3165-3187 | the loop over source route entries terminates and computes RouteEnd |
| PacketDecoder.Packet.DecodeUDP | barnyard2-master/src/decode.c:3470-3633 | ends in the state Run gives for this call, does what Decoded says, and records the headers that stand there by the grammar |
| PacketDecoder.Packet.CheckUdp | barnyard2-master/src/decode.c:3531-3583 | a zero field is bad in IPv6 and means no checksum in IPv4; otherwise the verdict is that of the checksum of pseudo-header and datagram, and good in a fragment |
| PacketDecoder.Packet.DecodeTCP | barnyard2-master/src/decode.c:3650-3739 | ends in the state Run gives for this call, does what Decoded says, and records the headers that stand there by the grammar |

## Left out

- The fixed permutation tables and the MDS matrix: parameters of the key schedule, so the laws hold for any contents; the precomputation of the matrix is not modelled.
- TwofishStream.TwoFish.DecryptFramed: needs at least one block of ciphertext and an even hexadecimal length; with less the C code computes a negative length, and an odd length makes its conversion loop run past the buffer.
- Checksum.InChksumIp: takes lengths from 20 bytes on in multiples of four, as IP headers are; for other lengths the C loop, which subtracts four until it meets zero, does not end inside the data.
- TwofishStream.TwoFish.CryptRaw: an input and an output that are the same buffer are modelled, ones that overlap otherwise are not.
- TwofishStream.TwoFish.EncryptFramed: needs an output that is not the buffer of the input, which the header would overwrite before it is read. The salt is a parameter where the program calls its random number generator, and the length is given where the program can take a string's.
- TwofishFrame.FrameRoundTrip: data of 2^63 bytes and more is outside a signed 64-bit length; sign extension of the length field is that of common compilers, where the C standard leaves the shift undefined.
- Failing allocation, in the cipher and elsewhere.
- BoyerMoore.ContainsSubstr: needs non-empty arguments, because the code reads a byte of each before it looks at a length.
- The regular search, token splitting, suppression lists and the name maps: no crisp specification, or only linear look-ups.
- Each checksum routine repeats its loops in the source; here they share one copy of each loop.
- The event cache is a sequence of nodes, not a linked list, so aliasing between nodes is not captured.
- Spool files are sequences of complete records: corrupt headers, read errors, archiving, deletion of files, negative extensions and their truncation to 32 bits are not modelled, and the bookmark is written as one piece.
- SpoolRun: in the runs restarts happen between passes of the loop; CrashRepeatsOneRecord treats a stop inside the pass that fires a record.
- Processing of new records only, and batch processing of a single file.
- SpoolRun.FindNextExtension: takes the entries of the directory with the outcome of parsing each one; comparing names, converting digits and the two error returns are not modelled. That the error number keeps its value from one scan to the next is up to the calls in between. In SpoolLoop every extension is clean.
- DecodeLayers: the link layer is ethernet; other link layers, EAPOL and the statistics counters are not modelled. IPX and loopback frames are only counted and the GTP decoder is never called, so nothing follows them here either. Support for GRE and MPLS is built in.
- DecodeLayers: four kinds of IPv6 options are named by system headers, which are not part of this model; they have the numbers that IANA assigns (0, 1, 0xc2 and 5).
- DecodeLayers: bytes past the end of memory read as zero; the scan of hop options and two Teredo checks may look past the bytes at hand, as in the code.
- PacketDecoder.Packet.DecodeTCP: the walk over its options is modelled separately, in TcpOptions. IP options are not modelled.
- PacketDecoder: the fields of the packet are nested records that the methods update in place, and the layer array is a sequence of at most 32; pointers to headers and payload and the error flags, which steer nothing, are left out.
