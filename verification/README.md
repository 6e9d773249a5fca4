# Tek, a proof-of-work node: model and proofs

Tek is a small cryptocurrency node in C. It keeps a chain of blocks linked by SHA-256 hashes,
admits transactions, mines blocks with several threads, and exchanges transactions, chains and
server addresses with its peers. This project models the node in Dafny and proves what its
design relies on.

## How the model is built

| Part | Files |
|---|---|
| Bytes, widths, printf conversions | `Arithmetic`, `WordSums`, `Bytes`, `Buffers`, `Decimal` |
| SHA-256 | `Fips180` (the standard's definition), `FipsLaws`, `Sha256` (the streaming code), `NodeHash` |
| Hash-linked ledger | `Transactions`, `Blocks`, `Ledger`, `Blockchain`, `TamperEvidence`, `Conservation`, `Genesis` |
| Proof of work | `Difficulty`, `Mining`, `MiningTermination` |
| Binary formats | `Codec` (the formats), `Layouts`, `CodecMethods` (the cursor code), `RoundTrips` |
| Node | `Protocol`, `StepLaws` and `AdoptionSteps` (steps), `Node` (the class), `NodeRuns`, `ChainRuns`, `PendingRuns`, `Overdraft`, `DoubleSpend` |
| Network of nodes | `Gossip` |
| Concurrency | `Queue`, `SharedQueue`, `Locks` |
| Known servers | `Peers`, `PeerMessage`, `PeerList` |

Code that works by updating memory is a class or a method with the loops of the C code, proved
against a specification function: the hash context, the growable transaction list, the chain,
the node, the circular queue, the peer list, the encoders and decoders. What interleaves (the
node's threads, the mining threads, the users of a shared queue, the holders of locks, the
nodes of a network) is a state machine whose steps are the atomic actions of the code, and the
theorems are about all runs.

A specification function that code and theorems share has a law of its own, which says what it
computes without naming it: which bits the word functions select, which byte of a format or of a
hashed text holds what, what each step does to each field of the node, who wins between two chains.

Conventions:

- The hash is a parameter `H` of every statement about chains. No statement assumes that `H`
  has no collisions: where one could matter, the theorem returns the two strings or names the
  condition. `NodeHash.Hash` is the function the node uses for `H`.
- `U64` is `unsigned long long` with its wrap-around written out, `Time` is a signed 64-bit
  `time_t`, `CString` is a string of bytes without NUL, `Digest` is 32 bytes.
- Time, the reachability of a server and the nonce that mining returns are inputs of the steps
  that use them.
- A decoder answers `None` where the C code would read beyond its input.

Facts about the code that shape the statements:

- `len_of_proof(0)` is 0 although its comment calls it the length of the proof as a string, so
  `getHash` does not hash what the miner hashed when the proof is 0. The same happens when a
  time needs more than 11 digits. `Blocks.MinedTextIsPreimage` gives the exact condition.
- `tlToString` puts nothing between fields; `Transactions.TxTextAmbiguous` shows two payments
  with one text, and the tamper evidence is for fields of fixed width.
- `amountMoney` compares only as many bytes as the address asked for has, so addresses that
  begin alike share money. Balance theorems are about sets of addresses none of which begins
  another.
- Admission asks for one pending transaction per sender and for enough money on the chain. It
  does not see a transaction that the miner has taken off the list and the main loop has not
  yet appended. `DoubleSpend.KeySpendsTwice` follows the run in which a balance goes below
  zero. `Overdraft.AdmissionCoversExactly` gives the exact condition
  under which the pending transactions stay covered: the sender must be able to pay even after
  the block that is about to be appended. For balances it is enough, not needed, since what
  others pay the sender can make up for it; `DoubleSpend.SecondPaymentBalance` says exactly when
  it does not. `Overdraft.NoOverdraft` proves that with the condition, and with what it asks of
  foreign chains, no run takes a balance below zero.
- An adopted chain replaces the old one before the pending list is filtered, and the miner can
  work in between. `AdoptionSteps.AdoptionIsOneStep` shows that this makes no difference.
- `network_tools.h` says that `prev` of the sentinel and `next` of the last client are NULL. The
  code makes the list circular through `next`, and the first insertion sets `prev` of the
  sentinel. The model follows the code.
- `sameIP` compares the first five bytes of the port field, those behind the terminator of a
  short port included, while `addClient` stores a port without them.
  `Peers.NoDuplicatesExactly` says for which records this lets in a duplicate.

## Model

| member | source | states |
|---|---|---|
| Sha256.Context.constructor | Projet/Hash/sha256.c:85-97 | A fresh context stands for the empty message: the state is the initial hash value of section 5.3.3 of FIPS 180-4. |
| Sha256.Context.Transform | Projet/Hash/sha256.c:44-83 | The word loops compute the compression of section 6.2.2 of FIPS 180-4 of the buffered block, in place. |
| Sha256.Context.Schedule | Projet/Hash/sha256.c:46-51 | The two filling loops give the message schedule W of section 6.2.2 for all 64 words. |
| Sha256.Context.Update | Projet/Hash/sha256.c:99-112 | Feeding bytes appends them to the message that the context stands for, whatever its fill level. |
| Sha256.Context.FlushBlock | Projet/Hash/sha256.c:106-110 | A full buffer moves the running hash and the wrapped bit count to the next block boundary. |
| Sha256.Context.PadOneBlock | Projet/Hash/sha256.c:118-125 | With less than 56 bytes buffered, what has been hashed and the first 56 bytes of the buffer are the message, 0x80 and the zeros of section 5.1.1. |
| Sha256.Context.PadTwoBlocks | Projet/Hash/sha256.c:126-133 | With 56 or more, the same after one more compressed block. |
| Sha256.Context.AppendLength | Projet/Hash/sha256.c:134-144 | The state becomes the hash of the padded message, its 64-bit big-endian bit length included. |
| Sha256.Context.Final | Projet/Hash/sha256.c:114-158 | The digest is SHA-256 of the message as FIPS 180-4 defines it. |
| Sha256.HashParts | Projet/Hash/sha256.c:85-158 | However a message is cut into update calls, the digest is that of the whole message. |
| Sha256.MacrosAreFips | Projet/Hash/sha256.c:21-29 | The shift-and-or macros are the rotations of section 4.1.2. |
| Sha256.TableIsFips | Projet/Hash/sha256.c:32-41 | The table k of the code is the table of section 4.2.2 of FIPS 180-4. |
| FipsLaws.KIsCubeRoots | Projet/Hash/sha256.c:32-41 | Each word of that table is the first 32 bits of the fractional part of the cube root of the t-th prime, as section 4.2.2 defines it. |
| FipsLaws.H0IsSquareRoots | Projet/Hash/sha256.c:85-97 | The initial hash value is the same of the square roots of the first eight primes, section 5.3.3. |
| FipsLaws.ChSelects | Projet/Hash/sha256.c:24 | Ch has the bits of y where x has a 1, and those of z where x has a 0. |
| FipsLaws.MajSelects | Projet/Hash/sha256.c:25 | Maj has the bits on which x and y agree, and those of z where they differ. |
| FipsLaws.AddWraps | Projet/Hash/sha256.c:50-82 | The sum of two words is the sum of the integers modulo 2^32. |
| FipsLaws.WordReads | Projet/Hash/sha256.c:48-49 | The first of four octets is the most significant of the word. |
| FipsLaws.OctetsRead | Projet/Hash/sha256.c:148-157 | The four octets a word is written as are those it is read from. |
| FipsLaws.BigEndianReads | Projet/Hash/sha256.c:135-143 | The 8-byte length field, read as a big-endian number, is the bit count modulo 2^64. |
| Fips180.PaddingIsLeast | Projet/Hash/sha256.c:114-133 | Counted in bits, the zeros that the byte padding adds are the least number section 5.1.1 asks for. |
| Fips180.BigEndianWraps | Projet/Hash/sha256.c:135-143 | The 8-byte length field depends on the bit count only modulo 2^64. |
| Fips180.HashBlocksAppend | Projet/Hash/sha256.c:99-112 | Hashing one more block after whole blocks is one compression of what they gave, which is what lets the code stream. |
| NodeHash.HashText | Projet/Hash/sha256.c:161-168 | The one-call form on a C string gives the SHA-256 digest of the octets that are the string's bytes, one by one and in their order. |
| NodeHash.ToOctetsKeepsBytes | Projet/Hash/sha256.c:104 | Octet i of what is hashed has the value of byte i of the text. |
| NodeHash.ToOctetsSpells | Projet/Hash/sha256.c:161-168 | There are such octets for every text. |
| NodeHash.FromOctetsKeepsBytes | Projet/Hash/sha256.c:148-157 | Byte i of a hash field has the value of octet i of the digest. |
| Difficulty.ToAscii | Projet/Hash/sha256.c:170-190 | The buffer ends up with the lower-case hexadecimal text of the digest. |
| Difficulty.HexReads | Projet/Hash/sha256.c:170-190 | Characters 2i and 2i + 1 of the hexadecimal text are the high and the low digit of byte i. |
| Difficulty.HexInjective | Projet/Hash/sha256.c:170-190 | The hexadecimal text determines the digest. |
| Difficulty.DifficultyTest | Projet/Noeud_de_minage/minage.c:84-94 | The byte loop with the nibble test passes exactly when the last diff hexadecimal characters are '0', and exactly when 16^diff divides the digest as a big-endian number. |
| Difficulty.ByteTestMeansZeros | Projet/Noeud_de_minage/minage.c:56-66 | For any length of digest, zero bytes and a zero low nibble at the end are trailing '0' characters, and conversely. |
| Difficulty.ByteTestDivides | Projet/Noeud_de_minage/minage.c:56-66 | The same test is divisibility by 16^diff. |
| Decimal.LenOfProof | Projet/Noeud_de_minage/minage.c:18-26 | The loop counts the decimal digits of the proof, bounded by powers of ten on both sides, and none for 0. |
| Decimal.PadDecInjective | Projet/Block/transactions.c:36-42 | Equal zero-padded fields come from equal numbers. |
| Decimal.PadDecLength | Projet/Block/transactions.c:36-42 | A padded field keeps its width exactly when the number has no more digits than that. |
| Decimal.PadDecFills | Projet/Block/transactions.c:36-42 | A padded field reads as its number, is filled up with zeros to its width, and no number but 0 begins with a zero of its own. |
| Decimal.PadSignedReads | Projet/Block/transactions.c:40 | A signed field has at least its width; it reads as the number, or as a minus sign followed by its magnitude. |
| Bytes.SameBytesOverLength | Projet/Block/blockchain.c:248-255 | Comparing strlen(address) bytes asks whether the address is a prefix, no more. |
| Bytes.SameBytesPastEnd | Projet/Block/transactions.c:25-34 | Comparing past the terminator, or over the longer length, is equality of strings. |
| Transactions.TlToString | Projet/Block/transactions.c:44-56 | The loop leaves the texts of the transactions, one behind the other in the order of the list. |
| Transactions.TxTextFields | Projet/Block/transactions.c:36-42 | With addresses of len bytes and numbers that fit: the first len bytes are the sender, the next the receiver, the next 14 read as the amount, the last 11 as the time. |
| Transactions.TxTextParts | Projet/Block/transactions.c:36-42 | For any transaction: sender, receiver, a field of at least 14 digits that reads as the amount, and a field of at least 11 characters that reads as the signed time. |
| Transactions.TlTextAt | Projet/Block/transactions.c:44-56 | With fixed widths the slice of the text at i times the width is the text of transaction i. |
| Transactions.TlTextAppends | Projet/Block/transactions.c:44-56 | The text of two lists joined is their texts joined. |
| Transactions.TlTextOfOne | Projet/Block/transactions.c:44-56 | The empty list has the empty text, and one transaction has its own. |
| Transactions.TxTextInjective | Projet/Block/transactions.c:36-42 | With addresses of one length, amounts below 10^14 and times of at most 11 digits, the text determines the transaction. |
| Transactions.TlTextInjective | Projet/Block/transactions.c:44-56 | Under the same widths the text of a list determines the list, its length included. |
| Transactions.TxTextAmbiguous | Projet/Block/transactions.c:36-42 | Without fixed lengths two different payments can have one text. |
| Transactions.TxsEqual | Projet/Block/transactions.c:25-34 | The comparison over length plus one bytes is equality of transactions. |
| Transactions.TransactionsList.Add | Projet/Block/transactions.c:245-258 | Appends to the contents, whether or not the array has to double. |
| Transactions.TransactionsList.HasSended | Projet/Block/transactions.c:260-270 | Found exactly when some listed transaction has that sender. |
| Transactions.TransactionsList.Remove | Projet/Block/transactions.c:272-282 | What stands before start and from end on is left, in order, also when end lies past the list. |
| Blocks.GetHash | Projet/Block/block.c:34-59 | The overlapping buffer writes leave the block's preimage, and the result is its hash. |
| Blocks.PreimageFields | Projet/Block/block.c:34-59 | The preimage is digits that read as the proof, without leading zeros and none for 0, then 11 that read as the time if it fits, then the hexadecimal texts of the previous hash and of the hash of the transactions. |
| Blocks.MinerTextFields | Projet/Noeud_de_gestion/gestion.c:75-76 | What the miner hashes reads as the proof, with a digit also for 0, then the time with all its digits, then the same two hashes. |
| Blocks.MinedTextIsPreimage | Projet/Noeud_de_gestion/gestion.c:75-92 | The text the miner tested is the text getHash hashes if and only if the proof is positive and the time fits 11 digits. |
| Blocks.PreimageInjective | Projet/Block/block.c:34-59 | The preimage determines proof, time, previous hash and transaction hash, although the proof has no fixed width. |
| TamperEvidence.TipHashCommits | Projet/Block/blockchain.c:99-119 | Two valid chains of one length with one tip hash agree on every block after genesis, or the comparison returns two different strings, hashed in those chains, with one digest. |
| TamperEvidence.BlocksAgree | Projet/Block/block.c:34-66 | Two correctly hashed blocks with one hash are equal or give such a pair. |
| TamperEvidence.GenesisIsExchangeable | Projet/Block/blockchain.c:99-119 | Exactly which other genesis blocks pass in place of the first one: the check covers its hash field and its time, not its contents. |
| TamperEvidence.LengthIsNotCommitted | Projet/Block/blockchain.c:99-119 | A tip hash does not fix the length: exactly which blocks can stand before a valid chain, leaving the tip as it is. |
| Ledger.ValidChainSnoc | Projet/Block/blockchain.c:16-42 | Appending keeps a chain valid exactly when the block links to the tip. |
| Ledger.ValidChainExactly | Projet/Block/blockchain.c:99-119 | A chain is valid exactly when every block is no older than the one before, names its hash and carries its own. |
| Ledger.UpdatedMembers | Projet/Block/blockchain.c:121-144 | A transaction is in the filtered list if and only if it was in the list, is in no block from 1 on, and its amount is at most the sender's balance modulo 2^64. |
| Ledger.TlDeltaSnoc | Projet/Block/blockchain.c:246-256 | One more transaction adds its amount for addresses that the receiver begins with and takes it from those that the sender begins with. |
| Blockchain.Chain.AddBlock | Projet/Block/blockchain.c:16-42 | Appends exactly the blocks that link to the tip, leaves the chain alone otherwise, and keeps a valid chain valid. |
| Blockchain.Chain.Check | Projet/Block/blockchain.c:99-119 | Answers 0 exactly for chains in which every block links to the one before it. |
| Blockchain.Chain.FindTxs | Projet/Block/blockchain.c:134-144 | Found exactly when the transaction is in a block after the first. |
| Blockchain.Chain.AmountMoney | Projet/Block/blockchain.c:235-260 | The wrapping 64-bit sum is the true balance modulo 2^64. |
| Blockchain.MoneyStep | Projet/Block/blockchain.c:246-256 | One transaction in wrapping arithmetic matches one transaction in the true balance, a payment to oneself included. |
| Blockchain.Chain.EnoughMoney | Projet/Block/blockchain.c:263-272 | Yes exactly when the wrapped balance reaches the amount. |
| Blockchain.Chain.UpdateTl | Projet/Block/blockchain.c:121-132 | The list keeps, in order, exactly the transactions that are in no block from 1 on and whose amount the wrapped balance of their sender reaches. |
| Conservation.BalancesConserve | Projet/Block/blockchain.c:235-260 | Over a prefix-free set with all receivers and senders the true balances add up to what the empty sender paid out. |
| Conservation.MoneyConserves | Projet/Block/blockchain.c:235-260 | The answers of amountMoney add up to the same modulo 2^64. |
| Conservation.MatchesOnce | Projet/Block/blockchain.c:248-255 | In a prefix-free set the comparison picks exactly one address for a member and none for the empty sender. |
| Conservation.EmptyAddressHasNothing | Projet/Block/blockchain.c:235-272 | The empty address has balance 0 on every chain, so it is covered for an amount exactly when that is 0. |
| Conservation.MoneyIsExact | Projet/Block/blockchain.c:235-260 | With nonnegative balances and a mint below 2^64 no answer is a wrapped one. |
| Conservation.BalanceBelowTotal | Projet/Block/blockchain.c:235-260 | A nonnegative balance never exceeds the sum of all. |
| Genesis.CreateGenesis | Projet/Block/blockchain.c:63-96 | The genesis block pays the reward from the empty sender, stands on zeros, carries its own hash, and its proof is the one least nonce that passes. |
| Genesis.InitBlockchain | Projet/Block/blockchain.c:44-61 | A chain of the genesis block alone, valid and fit to start from. |
| Genesis.GenesisIsSolvent | Projet/Block/blockchain.c:63-70 | After genesis the key holds the whole reward, everybody else nothing, and the chain meets the starting condition of the overdraft theorem. |
| Genesis.GenesisTextIsPreimage | Projet/Block/blockchain.c:85-91 | The text mined for with a signed time is what getHash hashes if and only if the proof is positive and the time is nonnegative with at most 11 digits. |
| Genesis.GenesisSumFields | Projet/Block/blockchain.c:84-85 | That text is the signed time in at least 11 characters and the hexadecimal texts of the two hashes. |
| Mining.TestProof | Projet/Noeud_de_minage/minage.c:76-95 | Answers 0 exactly for nonces whose hash meets the difficulty. |
| Mining.RunInv | Projet/Noeud_de_minage/minage.c:30-73 | In every interleaving each thread has failed all earlier nonces of its stride, and a set stop flag means some gone thread has a passing nonce. |
| Mining.JoinThreads | Projet/Noeud_de_minage/minage.c:121-127 | The joining loop returns an output that passes when tested again and behind which none passes, and 0 when none does. |
| Mining.LastPassingIs | Projet/Noeud_de_minage/minage.c:121-127 | The value that the other theorems call the result is the last output that passes, and 0 without one. |
| Mining.MiningIsSafe | Projet/Noeud_de_minage/minage.c:30-131 | In every interleaving the value returned passes and is the least passing nonce of its residue class, however often the nonces have wrapped. |
| Mining.OneThreadFindsLeast | Projet/Block/blockchain.c:86 | One thread returns the least passing nonce of all. |
| Mining.NoncesDisjoint | Projet/Noeud_de_minage/minage.c:36-71 | Before the wrap no nonce is tried twice, by one thread or by two. |
| Mining.RoundsCover | Projet/Noeud_de_minage/minage.c:36-71 | k rounds of all threads try exactly the nonces below k times the number of threads. |
| MiningTermination.FailuresBounded | Projet/Noeud_de_minage/minage.c:43-71 | If nonce p passes, thread p mod nbthread fails at most p / nbthread times in any run. |
| MiningTermination.MeasureRun | Projet/Noeud_de_minage/minage.c:43-71 | A bound on that thread's remaining steps falls with each of its steps and with no other's. |
| MiningTermination.FairRunsEnd | Projet/Noeud_de_minage/minage.c:99-131 | Once the responsible thread has had so many steps, and then every thread two more, all threads have ended. |
| MiningTermination.FairSchedulesEnd | Projet/Noeud_de_minage/minage.c:99-131 | If some nonce passes, then in every infinite schedule that gives each thread a step again and again, all threads have ended after finitely many steps. |
| MiningTermination.ResultExists | Projet/Noeud_de_minage/minage.c:99-131 | Mining has a result exactly when some nonce passes. |
| CodecMethods.TxsToBin | Projet/Block/transactions.c:152-188 | The cursor code fills the buffer with the transaction's record. |
| CodecMethods.BinToTxs | Projet/Block/transactions.c:190-224 | The cursor code reads a record, cutting each string at its first NUL. |
| Layouts.RecordBytes | Projet/Block/transactions.c:152-188 | A record is 8 bytes with the size of what follows the first word, both strings behind their lengths, the amount and the time. |
| Layouts.LittleEndianAt | Projet/Block/transactions.c:162-186 | Byte i of a number is its i-th digit to the base 256, the least significant first. |
| Codec.CutAtNulIs | Projet/Block/transactions.c:190-224 | A C string read from raw bytes is what stands before the first NUL. |
| CodecMethods.SizeOfBlock | Projet/Block/block.c:118-127 | The size loop gives the size of the block's encoding. |
| CodecMethods.BlockToBin | Projet/Block/block.c:129-161 | Header and transactions end up at their places in the buffer. |
| Layouts.HeaderBytes | Projet/Block/block.c:129-161 | A block is the number of transactions, the two hashes, the proof and the time at offsets 0, 8, 40, 72 and 80, and the transactions from 88 on. |
| Layouts.TlBytes | Projet/Block/block.c:148-154 | The transactions stand in their order, without gaps. |
| Layouts.TxBytes | Projet/Block/transactions.c:152-188 | The record of a transaction is that of its sender, receiver, amount and time. |
| CodecMethods.BinToBlock | Projet/Block/block.c:163-196 | The decoder's running offset reads header and transactions. |
| CodecMethods.BlockchainToBin | Projet/Block/blockchain.c:175-200 | The buffer that grows block by block is the encoding of the chain. |
| Layouts.ChainBytes | Projet/Block/blockchain.c:175-200 | A chain is the number of blocks and the blocks in their order, without gaps. |
| Layouts.FileBytes | Projet/Block/blockchain.c:298-317 | A saved file is the size of the encoding and the encoding. |
| CodecMethods.BinToBlockchain | Projet/Block/blockchain.c:203-223 | The decoder walks the blocks by their recomputed sizes. |
| CodecMethods.MessageToBin | Projet/Network/message.c:54-63 | One byte of type, 8 bytes of length, then the data. |
| Layouts.MessageBytes | Projet/Network/message.c:54-63 | Byte 0 is the type, bytes 1 to 8 are the length, and the rest is the data. |
| CodecMethods.BinToMessage | Projet/Network/message.c:37-46 | Returns the one message, its type a byte, whose encoding the buffer starts with: a message that was written there comes back with its type cut to a byte. |
| RoundTrips.RecordDecodes | Projet/Block/transactions.c:144-224 | A record around any raw bytes decodes to the strings cut at NUL, and the size advanced is the size of the record if and only if neither contains NUL. |
| RoundTrips.TxDecodes | Projet/Block/transactions.c:144-224 | A transaction's record decodes to it anywhere in a buffer. |
| RoundTrips.TlDecodes | Projet/Block/block.c:180-192 | A list of records decodes to the list, with the cursor advanced by exactly their sizes. |
| RoundTrips.BlockDecodes | Projet/Block/block.c:118-196 | A block's encoding decodes to the block anywhere in a buffer. |
| RoundTrips.BlocksDecode | Projet/Block/blockchain.c:203-223 | Consecutive encodings decode to the blocks in order. |
| RoundTrips.ChainRoundTrip | Projet/Block/blockchain.c:175-223 | Decoding an encoded chain gives it back, whatever follows it. |
| RoundTrips.MessageRoundTrip | Projet/Network/message.c:10-63 | A message comes back from the wire unchanged if and only if its type fits one byte; its data always does. |
| RoundTrips.SaveLoadRoundTrip | Projet/Block/blockchain.c:298-348 | Loading a saved file gives back the chain. |
| RoundTrips.BroadcastRoundTrip | Projet/Noeud_de_gestion/gestion.c:110-112 | A chain sent in a message of TYPE_BLOCKCHAIN arrives as the same chain. |
| Node.Node.OnTransaction | Projet/Noeud_de_gestion/gestion.c:223-254 | A transaction is accepted exactly when its sender has nothing pending and the wrapped balance on the chain reaches its amount; then it is appended at the end of the list, and otherwise the list is unchanged. |
| StepLaws.AdmissionExactly | Projet/Noeud_de_gestion/gestion.c:223-254 | The Tx step appends the transaction if and only if no pending one has its sender and its amount is at most the sender's balance modulo 2^64; otherwise it changes nothing. |
| Node.Node.ReplaceChain | Projet/Noeud_de_gestion/gestion.c:255-299 | Under bc_m.mutex: a received chain takes the place of the held one exactly when it is valid and longer, or as long with an earlier tip time, and the list is left as it is for the time being. |
| Node.Node.FilterList | Projet/Noeud_de_gestion/gestion.c:274-291 | Under txs_temp_m.mutex besides: of the list as the miner has left it, exactly what is in no block from 1 on of the new chain and covered there is kept. |
| Node.Node.OnBlockchain | Projet/Noeud_de_gestion/gestion.c:255-305 | With nothing of the miner in between, replacing and filtering are the ChainMessage step. |
| StepLaws.AdoptionExactly | Projet/Noeud_de_gestion/gestion.c:255-305 | The ChainMessage step takes over a chain if and only if it is valid and longer than the held one, or as long with an earlier tip time; otherwise it changes nothing. |
| StepLaws.AdoptionFilters | Projet/Noeud_de_gestion/gestion.c:274-291 | After an adoption a transaction is pending if and only if it was before, is in no block from 1 on of the chain held, and is covered there. |
| Node.Node.OnMinedBlock | Projet/Noeud_de_gestion/gestion.c:346-366 | Taking a block from the queue is the MinedBlock step: appended exactly when it links to the tip, and gone from the queue either way. |
| StepLaws.TakingExactly | Projet/Noeud_de_gestion/gestion.c:346-366 | The MinedBlock step takes the head of the queue and appends it if and only if it is no older than the tip, names the tip's hash and carries its own. |
| Node.Node.MinerCheckSize | Projet/Noeud_de_gestion/gestion.c:40 | The miner starts only on a list that is not empty at that moment. |
| Node.Node.MinerReadTip | Projet/Noeud_de_gestion/gestion.c:42-51 | Later, and whatever the list has become, it takes the tip and the time. |
| Node.Node.MinerSnapshot | Projet/Noeud_de_gestion/gestion.c:53-59 | Copying the list with addTx is the Snapshot step. |
| Node.Node.MinerRemove | Projet/Noeud_de_gestion/gestion.c:78-83 | Removing as many transactions as were copied is the Remove step, also when the list has become shorter. |
| Node.Node.MinerPush | Projet/Noeud_de_gestion/gestion.c:85-92 | Hashing the block and queueing it is the PushBlock step. |
| StepLaws.SizeExactly | Projet/Noeud_de_gestion/gestion.c:40 | On an empty list the miner's step changes nothing. |
| StepLaws.TipExactly | Projet/Noeud_de_gestion/gestion.c:42-51 | The hash of the last block and the time of reading are what the miner's block gets. |
| StepLaws.CopyExactly | Projet/Noeud_de_gestion/gestion.c:53-59 | The block gets the whole list, and the number copied is its length. |
| StepLaws.RemovalExactly | Projet/Noeud_de_gestion/gestion.c:78-80 | As many as were copied go from the front, or all there are, and the others keep their order. |
| StepLaws.QueueingExactly | Projet/Noeud_de_gestion/gestion.c:85-92 | The block goes to the end of the queue with its own hash, and the miner starts over. |
| StepLaws.MisplacedIsNothing | Projet/Noeud_de_gestion/gestion.c:36-93 | Steps of the miner that it is not at change nothing. |
| AdoptionSteps.MinerCommutes | Projet/Noeud_de_gestion/gestion.c:53-92 | Testing the size, copying, removing and queueing come out the same before and after a chain is replaced. |
| AdoptionSteps.AdoptionIsOneStep | Projet/Noeud_de_gestion/gestion.c:264-299 | Every run in which the miner works between the two parts of an adoption ends in the state of a run with the adoption as one step; in the middle they differ in the chain alone. |
| ChainRuns.BetterIsAnOrder | Projet/Noeud_de_gestion/gestion.c:265-296 | The order in which chains replace each other is irreflexive and transitive. |
| ChainRuns.RunProgress | Projet/Noeud_de_gestion/gestion.c:255-366 | Every run keeps a valid chain valid, and the chain at its end is the one at its start, or longer, or as long with an earlier tip time. |
| ChainRuns.NoReturn | Projet/Noeud_de_gestion/gestion.c:255-366 | No run comes back to a chain it has left. |
| ChainRuns.AlwaysValid | Projet/Noeud_de_gestion/gestion.c:153-166 | From a genesis block, or from the file of a saved valid chain, every run holds a nonempty valid chain: the first one, or a longer one, or one as long with an earlier tip time. |
| ChainRuns.SavedStateRestarts | Projet/Noeud_de_gestion/gestion.c:132-166 | The file saved at any moment of a run loads back to the chain held then, and a node can start from it. |
| NodeRuns.EveryMoment | Projet/Noeud_de_gestion/gestion.c:145-376 | At every moment of such a run, in the middle of an adoption too, the chain is valid, and it is the first one, or longer, or as long with an earlier tip time; and the pending senders are distinct. |
| NodeRuns.Drive | Projet/Noeud_de_gestion/gestion.c:145-376 | Under any sequence of inputs and steps that the locks allow, the node object is where the run leads, with those properties. |
| ChainRuns.MinedBlockAccepted | Projet/Noeud_de_gestion/gestion.c:346-366 | In every run a block taken from the queue is appended if and only if it stands on the tip and is no older: its own hash is never the obstacle. |
| ChainRuns.AppendedBlocksWorked | Projet/Noeud_de_gestion/gestion.c:75-92 | In every run whose proofs come from mining, a block the node appends has a hash that meets the difficulty, for a positive proof and a time of 11 digits. |
| PendingRuns.SendersDistinct | Projet/Noeud_de_gestion/gestion.c:227-243 | In every run the senders of pending transactions are pairwise distinct. |
| PendingRuns.UpdatedAppends | Projet/Block/blockchain.c:121-144 | Filtering works part by part, so it keeps the order. |
| PendingRuns.RemovalTakes | Projet/Noeud_de_gestion/gestion.c:53-80 | Whatever happens between copy and removal, nothing copied is left, and the later transactions all survive if and only if no adoption had dropped a copied one, or there are none. |
| PendingRuns.CopiedSurvive | Projet/Noeud_de_gestion/gestion.c:255-305 | A copied transaction is still pending at the removal exactly when every chain adopted in between keeps it. |
| PendingRuns.CopiedAreGone | Projet/Noeud_de_gestion/gestion.c:53-80 | In a run, a copied transaction still pending at the removal is nowhere in the list after it. |
| PendingRuns.RemovalIsExact | Projet/Noeud_de_gestion/gestion.c:53-80 | Without an adoption in between, exactly the copied transactions go and the later ones stay in order. |
| Overdraft.NoOverdraft | Projet/Noeud_de_gestion/gestion.c:223-366 | Over whole runs every balance stays nonnegative, amountMoney answers true balances and every pending transaction is covered, if each admitted transaction is between known addresses and affordable after the block in hand, adopted chains are solvent, no adopted tip is the previous block of a block in flight, and no appended block with others behind it is its own previous block. |
| Overdraft.NoOverdraftOnFreshTips | Projet/Noeud_de_gestion/gestion.c:223-366 | The same with the condition on adopted tips in terms of the chains the node has held: no adopted chain brings back the hash of an earlier tip. |
| Overdraft.RunKeepsSafe | Projet/Noeud_de_gestion/gestion.c:40-93 | The invariant behind it: the block that will be appended next can be paid from the chain and leaves the pending transactions covered, and of everything in flight what stands on the tip is younger than what does not. |
| Overdraft.AppendClears | Projet/Noeud_de_gestion/gestion.c:346-366 | The append itself therefore leaves nothing in flight on the new tip: all that stood on the old one is stale. |
| Overdraft.AdmissionCoversExactly | Projet/Noeud_de_gestion/gestion.c:223-254 | From an admission on, the pending transactions are always covered if and only if the sender can pay even after the block about to be appended: otherwise handing over and appending that block is enough to uncover it. |
| Overdraft.AdmissionSafeExactly | Projet/Noeud_de_gestion/gestion.c:223-254 | The same condition decides whether the invariant survives the admission. |
| Overdraft.HeadDecides | Projet/Noeud_de_gestion/gestion.c:346-366 | With a linking block at the head of the queue, an admitted transaction is covered after the append exactly when it was affordable after the block. |
| Overdraft.NothingInHandAffords | Projet/Noeud_de_gestion/gestion.c:78-92 | That holds of every admitted sender who has nothing in that block. |
| Overdraft.PayableBlockKeepsSolvent | Projet/Block/blockchain.c:16-42 | Appending a block of covered transactions with distinct senders takes nobody below zero and mints nothing. |
| Overdraft.RunHeldTips | Projet/Noeud_de_gestion/gestion.c:40-93 | In every run, whatever the miner has in hand stands on a tip the node once held. |
| DoubleSpend.SecondPaymentChain | Projet/Noeud_de_gestion/gestion.c:40-92 | With a block that is about to be appended, in the queue or in the miner's hands, and the miner between two rounds: admitting a payment, appending the block and one round of the miner, with a clock that is not behind the block's, put everything pending, that payment last, on the chain. |
| DoubleSpend.SecondPaymentBalance | Projet/Noeud_de_gestion/gestion.c:40-92 | After that run the sender's balance is what it is with the block, plus what was pending for him, less the payment; he is overdrawn exactly when that is negative, which needs a payment he could not afford after the block. |
| DoubleSpend.KeySpendsTwice | Projet/Noeud_de_gestion/gestion.c:78-92 | From every genesis block, with any two proofs and with clock readings that never go back, the key pays its whole reward twice and ends at minus the reward, reported as 2^64 less the reward; only the second admission breaks a condition of NoOverdraft. |
| Gossip.AdoptAllIsBest | Projet/Noeud_de_gestion/gestion.c:255-305 | After any messages the node holds its own chain or a valid received one; it is at least as long as its own and as every valid received one, and no later at the tip than those as long as it is. |
| Gossip.OrderIsIrrelevant | Projet/Noeud_de_gestion/gestion.c:255-305 | Neither order nor repetition of the messages changes the final length and tip time. |
| Gossip.HearsChain | Projet/Noeud_de_gestion/gestion.c:106-112 | Receiving the bytes that another node broadcast is adopting its chain. |
| Gossip.NetRunInv | Projet/Noeud_de_gestion/gestion.c:106-114 | In a network without mining only the initial chains circulate, and each node holds its initial chain, or a longer one, or one as long with an earlier tip time. |
| Gossip.Converges | Projet/Noeud_de_gestion/gestion.c:255-305 | After every broadcast has reached every node, in any order and with repetitions, every node holds an initial chain that is at least as long as each initial one, and no later at the tip than those as long as it is; all hold one chain if only one is like that. |
| Queue.Queue.Push | Projet/Tools/queue/queue.c:3-21 | Appends to the queue; the nodes stay one cycle through the tail. |
| Queue.Queue.Pop | Projet/Tools/queue/queue.c:23-40 | Takes the first element; the cycle closes over the rest, or the queue is NULL. |
| Queue.Queue.Empty | Projet/Tools/queue/queue.c:42-50 | Ends with NULL. |
| Queue.Replay | Projet/Tools/queue/queue.c:3-40 | Over any mix of calls, what came out followed by what is left is what went in. |
| SharedQueue.RunInv | Projet/Tools/queue/shared_queue.c:20-49 | In every interleaving the lock counts the thread inside, the length is the size semaphore plus claims plus unposted pushes, and popped values are a prefix of pushed ones. |
| SharedQueue.MutualExclusion | Projet/Tools/queue/shared_queue.c:20-49 | At most one thread is at the list. |
| SharedQueue.PopsAreSafe | Projet/Tools/queue/shared_queue.c:34-49 | queue_pop never meets an empty list, and values leave in the order they came. |
| SharedQueue.StuckOnlyWhenEmpty | Projet/Tools/queue/shared_queue.c:20-49 | If nobody in a call can go on, all of them wait for an element and none is left. |
| SharedQueue.SoleConsumerNeverBlocks | Projet/Tools/queue/shared_queue.c:34-61 | A sole consumer that saw the queue nonempty is not held back at the size semaphore, whatever producers do before and after it calls shared_queue_pop. |
| Locks.NoDeadlock | Projet/Noeud_de_gestion/gestion.c:106-366 | No run of any number of threads reaches a set of threads that wait for each other. |
| Locks.SomeoneCanStep | Projet/Noeud_de_gestion/gestion.c:106-366 | While a thread is in the middle of something, some such thread can go on. |
| Locks.RunInv | Projet/Noeud_de_gestion/gestion.c:223-366 | In every run locks are held by one thread each, and only the main loop is ever in the code that nests tl and bc. |
| Locks.AdmissionWalks | Projet/Noeud_de_gestion/gestion.c:226-253 | The locks that the code takes and gives back while it admits a transaction, on each of its ways, are a way through the places of the model. |
| Locks.AdoptionWalks | Projet/Noeud_de_gestion/gestion.c:264-299 | The same while it adopts a chain or refuses one. |
| Locks.BroadcastWalk | Projet/Noeud_de_gestion/gestion.c:108-114 | The same while a chain is sent, from the main loop and from the thread that answers a request. |
| Locks.SendDataWalks | Projet/Noeud_de_gestion/gestion.c:116-125 | The same for a list of any length, sent one by one under the list's mutex. |
| Locks.AloneWalks | Projet/Noeud_de_gestion/gestion.c:106-366 | Every other critical section takes one lock and gives it back. |
| Peers.NoDuplicatesExactly | Projet/Network/network_tools.c:168-258 | A record of a reachable server keeps every list free of duplicates if and only if its port is clean in the five bytes compared. |
| Peers.SameAddressMeans | Projet/Network/network_tools.c:168-181 | Two addresses are the same for the node exactly when the host names are equal and the first five bytes of the ports. |
| Peers.StoredPortBytes | Projet/Network/network_tools.c:48-112 | A stored port has the bytes before the terminator, and zeros from there on. |
| Peers.ApplyExactly | Projet/Network/network_tools.c:209-258 | A record changes the flags of the first client with its address, each unless it is -1; without one it puts a reachable server at the front, and changes nothing otherwise. |
| Peers.ApplyAllKeeps | Projet/Network/network_tools.c:209-258 | A whole message whose reachable records are clean in those bytes keeps a list free of duplicates and leaves the server of each record known or unreachable. |
| Peers.SettledOnlyRefreshes | Projet/Network/network_tools.c:245-251 | When every server is known or unreachable, a message changes only flags, to the last value given for each, of the first client with the address. |
| Peers.MessageIdempotent | Projet/Network/network_tools.c:209-258 | With the same servers reachable, a message whose reachable records are clean in those bytes, applied twice to any list, is the message applied once. |
| Peers.MessageIdempotentExactly | Projet/Network/network_tools.c:209-258 | That holds for all lists if and only if every record of a reachable server has a port clean in the five bytes compared. |
| PeerMessage.PeersRoundTrip | Projet/Network/network_tools.c:209-301 | What sendNetwork writes, addServerFromMessage reads back, for host names whose length plus 7 fits 16 bits. |
| Layouts.PeerBytes | Projet/Network/network_tools.c:279-301 | A client is written as the size of host name and port, the host name with its terminator, the port and the two flags. |
| Layouts.PeersBytes | Projet/Network/network_tools.c:279-301 | The clients stand in their order, without gaps. |
| PeerList.KnownServers.constructor | Projet/Network/network_tools.c:8-22 | An empty circular list with its sentinel. |
| PeerList.KnownServers.AddClient | Projet/Network/network_tools.c:48-112 | A reachable server is linked behind the given element, an unreachable one leaves the list alone. |
| PeerList.KnownServers.RemoveClient | Projet/Network/network_tools.c:119-136 | Unlinks any client but the sentinel; the ring stays well formed. |
| PeerList.KnownServers.ListLen | Projet/Network/network_tools.c:144-154 | Counts the clients without the sentinel, from any element. |
| PeerList.KnownServers.FindClient | Projet/Network/network_tools.c:183-196 | The first client with that address, or NULL when there is none. |
| PeerList.KnownServers.AddServerFromMessage | Projet/Network/network_tools.c:209-258 | The pointer code applies the records of the message in order. |
| PeerList.Tell | Projet/Network/network_tools.c:209-301 | One server's message, written from its ring and read into another's, applies the first one's servers in ring order to the second one's list. |
| PeerList.KnownServers.Encode | Projet/Network/network_tools.c:279-301 | The encoder writes the clients in the order of the ring. |

## Left out

- Sockets, name resolution, HTTP, the API's JSON and thread start-up: input and output only. Whether `addClient` can connect is a parameter.
- `SendMessage`'s removal of unreachable peers (Projet/Network/client.c:118-132): it depends on results of `Send`, and after a removal its result index and its list cursor no longer advance together.
- Printing and JSON functions, `ProcessingArgs`, `findInfoTxs`, `isGenesis`, `last` and `freeClientList`: easy, or without a counterpart to check against.
- RSA keys and accounts: wrappers over OpenSSL that the ledger does not use.
- Memory: failing allocations, frees and double frees, and buffers that are too small for what `sprintf` writes. `Blocks.GetHash` follows the writes inside the buffer that `getHash` has.
- Reads beyond a received message: `binTo...` and `addServerFromMessage` are modelled on data that holds what they read; the specification decoders answer `None` otherwise.
- The unlocked use of the pointer from `getLastBlock` in the mining thread: reading the tip is one atomic step.
- Reads and writes of `ismining`, and the miner's read of the size of the list outside its mutex, are atomic.
- The network sender's copy of the outgoing queue and the order of messages on a socket: `Gossip` lets packets arrive in any order, late, twice or never.
- Genesis.CreateGenesis: the key that receives the reward is a parameter instead of the literal of `createGenesis`, and so is the nonce that mining returns.
- Node.Node.ReplaceChain: on messages that hold all that `binToBlockchain` reads.
- PeerMessage.PeersRoundTrip: host names of 65529 bytes and more are excluded, because they wrap the encoder's two 16-bit lengths.
- Sha256.Context.Update: inputs of 2^32 bytes and more are excluded, because the 32-bit counter of the loop would never reach their length.
- Mining.TestProof: difficulties above 64 are excluded, because the C code then reads outside the digest.
- Queue.Queue.Pop: an empty queue is excluded, because `queue_pop` then ends the program; `SharedQueue.PopsAreSafe` shows that the node never does that.
- Locks.NoDeadlock: the waits on the size semaphores are not locks of this model; no lock is held during them, and `SharedQueue.SoleConsumerNeverBlocks` covers the main loop's.
- TamperEvidence.TipHashCommits: for fields of fixed width only, since `Transactions.TxTextAmbiguous` shows that the hashed text is ambiguous otherwise.
- Overdraft.NoOverdraft: foreign chains are assumed solvent, because `checkBlockchain` tests neither balances nor difficulty.
- Gossip.Converges: for a round in which no node appends a block of its own.
- The queue of mined blocks is a sequence in `Node`; its semaphores are the subject of `SharedQueue` and its pointers of `Queue`.
- That a transaction is at most once on the chain is not claimed: admission never asks `findTxsInBc`.
