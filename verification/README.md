# Verified models of the repository's cores

This project models, in Dafny, the parts of the repository whose correctness is hard to see by
reading: a pure-Python AES-GCM with the packet format around it, two codecs, the script supervisor
with its restart backoff, a seccomp filter compiler, a session buffer with a hash chain, the depth
control of the healing agent, an event hub, a log rate limiter, and the economy of a game. Code
that changes state is a method or a class here, proved equal to a function of its inputs or its old
state; what the code is for is then proved about those functions, for all inputs and all runs.

`dafny verify dfyconfig.toml` checks everything. Each file is one module:

- **Cryptography** (`GaloisField`, `Ghash`, `SubstitutionBox`, `ByteField`, `MixColumns`, `AesCipher`,
  `KeySchedule`, `ByteOrder`, `GcmMode`, `SignItemPacket`): the 128-round multiplication loop is a
  bilinear, commutative and associative product with an identity, modulo the polynomial of the
  standard; the hash loop is a polynomial in its subkey, over the blocks the standard names; the
  substitution table and the key schedule are those of FIPS 197; the cipher is a permutation undone by the inverse cipher of FIPS 197; under a given key
  and nonce, decryption yields a text exactly for its own encryption, and packets likewise. This is
  a statement about two functions, not about what can be computed without the key.
- **Codecs** (`Base64`, `Adler32`): round trips in both directions, with the exact set of texts that
  survive; the closed form of the checksum and its law for concatenations.
- **Supervisor** (`Backoff`, `Supervisor`, `RestartTiming`, `ScriptLifetimes`, `Engine`): at most one
  live process a script, what is down stays down and what is up stays up, which backoff entries prompt
  clock readings lead to, and an amortised bound on restarts whose rate whole runs come as close to as
  one likes.
- **Seccomp** (`SeccompFilter`): an interpreter for classic BPF and the correctness of the compiled
  filter for every list of syscalls.
- **Sessions** (`SessionBuffer`, `MessagePersistence`, `SessionManager`): the hash chain over all
  runs of appending, flushing, saving and restoring, and no lost message unless a flush comes late.
- **Healing agent** (`HealingAgent`, and `WorkOrderQuery` for the query it polls with): depth and
  chain control, and which work orders are never handled. **Hub** (`PhooksHub`), **log watcher**
  (`LogWatcher`), **loot economy** (`LootEconomy`).
- `Wrappers` holds the result types.

Clock readings are arbitrary amounts of time passing; random numbers, ids, process exits, launch
outcomes and what a query returns are parameters, so every theorem holds whatever they are.

## Where the code and its documentation differ

The model follows the code. The lemmas named here state the difference.

- The filter is documented to let other architectures through. Its two architecture checks never
  reach the instruction that would, so the verdict is the same for every architecture
  (`SeccompFilter.DocumentedExactly`, `SeccompFilter.OtherArchitectureKilled`).
- The backoff is documented to grow to 16 and 30 seconds. Waiting counts as running, so the entry
  is reset first: readings of one check under six seconds apart never get past 8 seconds
  (`Backoff.CheckStaysWithinFive`, `Backoff.GapExactly`). Slower checks do; `Backoff.LongDelayExactly`
  says exactly when and `Backoff.LongDelaysReached` shows a log that gets to 16 and to 30.
- A stop command for a crashed script is refused, and if its policy restarts, the monitor can start
  it later (`ScriptLifetimes.StopHoldsExactly`; `ScriptLifetimes.RefusedStop` is a run where it does).
- A work order is to be escalated after too many recovery attempts. Each retry starts a fresh count,
  so that never happens with a threshold of one or more (`HealingAgent.EscalatesExactly`).
- Once the session buffer has pushed out a message, the integrity check fails at the first entry and
  a restore brings nothing back (`SessionBuffer.VerifyExactly`, `SessionBuffer.SaveThenRestore`,
  and `SessionBuffer.EvictedRunFails` for a run of two messages).
- The hash chain is meant to notice changed messages. It covers the concatenation of role, content,
  tool calls and time stamp, so text may move between these unnoticed, and message id and tool
  results are not covered at all (`SessionBuffer.TamperingNoticedIff`, `SessionBuffer.MovedTextUnnoticed`).
- Every pending work order is meant to be handled in the end. The query takes the ten most urgent,
  fewer if an exception ends the cycle, and the last checked id then moves past all older ones
  (`WorkOrderQuery.LostExactly`, `WorkOrderQuery.OldestOrderLost`, `WorkOrderQuery.InterruptedCycleLoses`).
- An order whose session failed is noted as requeued. It is pending again, but the last checked id has
  passed it, so the same polling run never takes it up again (`WorkOrderQuery.RequeuedNotRetried`).
- A chain count of ten is to be reset by a forced flush. If that flush raises, it stays at ten
  (`HealingAgent.ChainStaysBelowTen`).
- The counter mode starts at J0 itself where NIST SP 800-38D starts one later, so the mask of the
  tag is also the key stream of the first block (`GcmMode.SealedAt`, `GcmMode.TagSharesFirstBlock`).
- One item may serve as both inputs of a craft (`LootEconomy.CraftOverdrawsIff`), which can leave a player
  with minus one of it (`LootEconomy.FloorReached`).

## Model

| member | source | states |
|---|---|---|
| GaloisField.GfMult | minescript/HELPERS/crypto_fallback.py:100-112 | the select, shift and reduce loop computes the sum of y stepped i times over the coefficients i set in x |
| GaloisField.CodeBit | minescript/HELPERS/crypto_fallback.py:104-105 | the code's bit test in round i reads coefficient i of x, counted from the left as the standard does |
| GaloisField.ProductDistributes | minescript/HELPERS/crypto_fallback.py:100-112 | the product is bilinear over exclusive or |
| GaloisField.ProductCommutes | minescript/HELPERS/crypto_fallback.py:100-112 | the product is commutative |
| GaloisField.ProductAssociates | minescript/HELPERS/crypto_fallback.py:100-112 | the product is associative |
| GaloisField.ProductOne | minescript/HELPERS/crypto_fallback.py:100-112 | 1 << 127 is the identity on both sides |
| GaloisField.FieldPolynomial | minescript/HELPERS/crypto_fallback.py:101-112 | multiplication is modulo the polynomial of section 6.3 of NIST SP 800-38D: the power x^128 is 1 + x + x^2 + x^7, and the highest coefficient times x is 0xe1 << 120 |
| Ghash.ToFromBlock | minescript/HELPERS/crypto_fallback.py:114-118 | reading back the 16 bytes written for a field element gives the element |
| Ghash.BlockIsInt | minescript/HELPERS/crypto_fallback.py:114-118 | a block read as a field element is, as an integer, its bytes with the first the most significant |
| Ghash.PadIs | minescript/HELPERS/crypto_fallback.py:122-131 | padding starts with the data, adds only zeros and fewer than sixteen of them |
| Ghash.BlocksAt | minescript/HELPERS/crypto_fallback.py:124-132 | block i stands for bytes 16i to 16i + 15 |
| Ghash.HashedBlocksAre | minescript/HELPERS/crypto_fallback.py:120-137 | the blocks hashed are those of the padded data, those of the padded ciphertext, and 2^64 times the bit length of the data plus that of the ciphertext |
| Ghash.LengthsFitExactly | minescript/HELPERS/crypto_fallback.py:136 | the length block cannot be packed exactly when a length is 2^61 bytes or more |
| Ghash.AbsorbBlocks | minescript/HELPERS/crypto_fallback.py:120-134 | the loop over padded data is the chain y := (y + x) * h over its blocks from any start |
| Ghash.GhashLoop | minescript/HELPERS/crypto_fallback.py:98-138 | the hash of data and ciphertext of any length is the polynomial over all their blocks and the length block, and fails exactly when a length does not fit 64 bits |
| Ghash.ChainIsPolynomial | minescript/HELPERS/crypto_fallback.py:120-138 | the chain over m blocks is the sum over i of block i times h to the power m + 1 - i (section 6.4 of NIST SP 800-38D) |
| SubstitutionBox.SBoxInverse | minescript/HELPERS/crypto_fallback.py:13-30 | the substitution table is a bijection, inverted by the table of figure 14 of FIPS 197 |
| ByteField.SBoxIsAffineInverse | minescript/HELPERS/crypto_fallback.py:13-30 | each entry is the affine map of section 5.1.1 of FIPS 197 applied to the inverse of its byte in the field of 256 elements, zero standing for its own |
| MixColumns.XTimeXor | minescript/HELPERS/crypto_fallback.py:81-82 | doubling a byte is linear over exclusive or |
| MixColumns.MixColumnIsMatrix | minescript/HELPERS/crypto_fallback.py:79-93 | the shortcut with one column sum equals the circulant matrix product of section 5.1.3 of FIPS 197 |
| MixColumns.MixFourTimes | minescript/HELPERS/crypto_fallback.py:79-93 | mixing a column four times is the identity |
| MixColumns.InvIsMixThrice | minescript/HELPERS/crypto_fallback.py:79-93 | the inverse matrix of section 5.3.3 is three more mixings |
| MixColumns.MixInverse | minescript/HELPERS/crypto_fallback.py:79-93 | the inverse matrix undoes the mixing in both orders |
| ByteField.RowsAreProducts | minescript/HELPERS/crypto_fallback.py:79-93 | the rows of both matrices are the sums of field products with 02, 03, 01, 01 and with 0e, 0b, 0d, 09 |
| AesCipher.ShiftRowsMovesRows | minescript/HELPERS/crypto_fallback.py:61-66 | the index permutation moves row r of the state r places to the left |
| AesCipher.MixColumnsLoop | minescript/HELPERS/crypto_fallback.py:79-93 | the loop over the four columns mixes each column of the block and nothing else |
| AesCipher.AesEncryptBlock | minescript/HELPERS/crypto_fallback.py:54-77 | the loop of rounds computes the cipher whose inverse is given by the next two rows |
| AesCipher.InvCipherUndoesCipher | minescript/HELPERS/crypto_fallback.py:54-77 | for any 15 round keys the inverse cipher of section 5.3 of FIPS 197 undoes the encryption of any block |
| AesCipher.CipherUndoesInvCipher | minescript/HELPERS/crypto_fallback.py:54-77 | every block is the encryption of its inverse cipher, so encryption is a permutation of blocks |
| KeySchedule.KeyExpansion | minescript/HELPERS/crypto_fallback.py:35-52 | for keys of 32 bytes or more, whose first 32 alone matter, the loop produces the 15 round keys of the schedule |
| KeySchedule.ScheduleDetermined | minescript/HELPERS/crypto_fallback.py:35-52 | the words are the only ones that start with the key and satisfy the recurrence, which the next row gives byte by byte |
| KeySchedule.ScheduleBytes | minescript/HELPERS/crypto_fallback.py:35-52 | byte by byte, the first 32 bytes are the key; every later one is the byte eight words back plus the byte of the word before, which at words divisible by eight is the next one substituted, with 2^(i/8 - 1) added to the first, at those four later is substituted, and elsewhere is taken as it is |
| KeySchedule.NeighbouringKeysDetermineKey | minescript/HELPERS/crypto_fallback.py:35-52 | two keys with two neighbouring round keys in common agree in their 32 bytes, so expansion is injective and can be run backwards |
| ByteOrder.IntBytesInverse | minescript/HELPERS/crypto_fallback.py:160-163 | an integer that fits comes back from its big-endian bytes |
| ByteOrder.BytesIntInverse | minescript/HELPERS/crypto_fallback.py:158 | bytes come back from the integer they stand for, which fits their length |
| ByteOrder.ToIntJoin | minescript/HELPERS/crypto_fallback.py:158 | the integer of a concatenation is the first part moved up by the bytes of the second, plus the second |
| GcmMode.GcmCipher.constructor | minescript/HELPERS/crypto_fallback.py:145-158 | a cipher object holds the expanded key, the encrypted zero block and J0, and its counter starts at J0 |
| GcmMode.GcmCipher.NextCounter | minescript/HELPERS/crypto_fallback.py:160-163 | yields the counter as a block and moves it on by one, failing exactly when it exceeds 128 bits |
| GcmMode.GcmCipher.ApplyStream | minescript/HELPERS/crypto_fallback.py:165-179 | the chunk loop lays the encryptions of successive counters over the data and advances the counter by the number of blocks, or fails exactly when the counters run out |
| GcmMode.GcmCipher.EncryptAndDigest | minescript/HELPERS/crypto_fallback.py:165-179 | yields the stream over the plaintext with the masked hash of the ciphertext |
| GcmMode.GcmCipher.DecryptAndVerify | minescript/HELPERS/crypto_fallback.py:181-196 | checks the tag first, and moves the counter only when it fits |
| GcmMode.StreamTwice | minescript/HELPERS/crypto_fallback.py:165-196 | the stream laid twice from one counter gives the data back |
| GcmMode.CountersFitExactly | minescript/HELPERS/crypto_fallback.py:160-163 | the counters for n bytes run out exactly when the last one used is 2^128 or more |
| GcmMode.Encrypt | minescript/HELPERS/crypto_fallback.py:209-213 | runs a fresh cipher object on the plaintext, with the nonce error of the constructor |
| GcmMode.Decrypt | minescript/HELPERS/crypto_fallback.py:215-218 | runs a fresh cipher object on ciphertext and tag |
| GcmMode.SealedAt | minescript/HELPERS/crypto_fallback.py:156-178 | byte i of the ciphertext is byte i of the plaintext under byte i mod 16 of the encryption of J0 + i / 16; block 0 is under J0 itself |
| GcmMode.TagSharesFirstBlock | minescript/HELPERS/crypto_fallback.py:156-178 | the block that masks the hash into the tag is the one laid over the first sixteen bytes of plaintext |
| GcmMode.SealFromTag | minescript/HELPERS/crypto_fallback.py:165-179 | from any state of a cipher object, the tag is the hash of associated data and ciphertext under the encryption of J0 |
| GcmMode.SealSucceeds | minescript/HELPERS/crypto_fallback.py:145-179 | encryption fails exactly for a nonce of other than 12 bytes, counters past 128 bits or a length past 64 |
| GcmMode.SealFailsExactly | minescript/HELPERS/crypto_fallback.py:145-179 | which error encryption raises, and exactly when: the nonce first, then the counters, then the length |
| GcmMode.OpenFailsExactly | minescript/HELPERS/crypto_fallback.py:181-218 | which error decryption raises, and exactly when: nonce, length, tag, counters, in this order |
| GcmMode.OpenIffSealed | minescript/HELPERS/crypto_fallback.py:181-218 | decryption yields p if and only if ciphertext and tag are the encryption of p; so it inverts encryption and accepts nothing else |
| GcmMode.OpenFromIffSealed | minescript/HELPERS/crypto_fallback.py:165-196 | the same from any state of a cipher object and with any associated data |
| SignItemPacket.EncryptData | minescript/sign_item.py:145-153 | builds sequence number, nonce, tag and ciphertext into a packet, failing as the cipher or the packing does |
| SignItemPacket.DecryptData | minescript/sign_item.py:155-174 | takes the packet apart; short packets and failed authentication are reported, the overflow of a counter or a length escapes as it is |
| SignItemPacket.PacketLayout | minescript/sign_item.py:145-153 | four bytes of sequence number, twelve of nonce, the ciphertext, sixteen of tag |
| SignItemPacket.UnpackIffPacked | minescript/sign_item.py:145-174 | a packet yields sequence number and payload if and only if it is the packet of both under the nonce it carries |
| SignItemPacket.PackSucceeds | minescript/sign_item.py:145-153 | packing fails exactly for a sequence number past 32 bits or data whose counters or length do not fit |
| SignItemPacket.PackFailsExactly | minescript/sign_item.py:145-153 | packing fails with the error of the encryption, and else exactly for a sequence number outside 32 bits |
| SignItemPacket.UnpackFailsExactly | minescript/sign_item.py:155-174 | fewer than 32 bytes are too short; from there on a wrong tag is a failed decryption, and a length or a counter that does not fit is raised as it is |
| SignItemPacket.RoundTrip | minescript/sign_item.py:145-174 | every packet made is read back to the same sequence number and payload |
| Adler32.Adler32Loop | minescript/sign_item.py:202-207 | the loop over a and b equals the closed form with the sum and the weighted sum of the bytes, and fits 32 bits |
| Adler32.ClosedForm | minescript/sign_item.py:202-207 | the definition of section 2.2 of RFC 1950: two sums modulo 65521, the second in the upper sixteen bits |
| Adler32.KnownChecksum | minescript/sign_item.py:202-207 | the checksum of "Wiki" is 0x03da0195 |
| Adler32.Combine | minescript/sign_item.py:197-207 | the checksum of a concatenation from the two checksums and the length of the second part (section 2.2 of RFC 1950) |
| Base64.B64Encode | minescript/HELPERS/base64_fallback.py:8-36 | the loop encodes three bytes at a time into the text that decoding gives back, of length 4 * ceil(n / 3) |
| Base64.AlphabetExactly | minescript/HELPERS/base64_fallback.py:5-6 | the alphabet is table 1 of RFC 4648, character by character |
| Base64.ChunkSextets | minescript/HELPERS/base64_fallback.py:19-35 | the characters of a chunk are its sextets from the left, the last one filled with zero bits |
| Base64.KnownEncodings | minescript/HELPERS/base64_fallback.py:8-36 | test vectors of section 10 of RFC 4648 |
| Base64.EncodedLength | minescript/HELPERS/base64_fallback.py:16-36 | the text of n bytes has 4 * ceil(n / 3) characters |
| Base64.B64Decode | minescript/HELPERS/base64_fallback.py:38-57 | strips, checks and decodes four characters at a time, with the two error cases |
| Base64.DecodedExactly | minescript/HELPERS/base64_fallback.py:38-57 | which error a text gets and exactly when, and that the bytes decoded are six eighths of the characters left, rounded down |
| Base64.SurroundingsIgnored | minescript/HELPERS/base64_fallback.py:40-42 | white space around a text and any amount of padding after it make no difference |
| Base64.DecodeEncode | minescript/HELPERS/base64_fallback.py:8-57 | decoding the encoding of any byte string gives it back |
| Base64.EncodeDecodeIffCanonical | minescript/HELPERS/base64_fallback.py:8-57 | a text is an encoding, and survives decoding and encoding, if and only if it is canonical in the sense of section 4 of RFC 4648: padded, in the alphabet, spare bits zero |
| Backoff.CheckStaysWithinFive | engine/process_wrapper.py:259-284 | with the two readings of a check under 6 seconds apart, an entry with equal time stamps and a count within 5 keeps both, and any restart has delay 0.5, 1, 2, 4 or 8 |
| Backoff.LongDelayExactly | engine/process_wrapper.py:259-284 | from any entry, a delay beyond 8 seconds is granted if and only if the count is at least 5, the first reading shows no run over 10 seconds and the second is the whole delay after the last restart; 30 seconds likewise from a count of 6 |
| Backoff.LongDelayNeedsGap | engine/process_wrapper.py:259-284 | if the last start lies before the first reading, such a delay takes readings at least the delay less 10 seconds apart, 6 or more |
| Backoff.LongDelaysReached | engine/process_wrapper.py:259-284 | from a fresh entry, five fast restarts and two slow checks are granted delays of 16 and then 30 seconds |
| Backoff.GapExactly | engine/process_wrapper.py:259-284 | a gap between the two readings of a check keeps every such entry within a count of 5 if and only if it is below 6 seconds |
| Backoff.LateCheckRestarts | engine/process_wrapper.py:259-284 | a check over 10 seconds after the last restart grants a restart at once with the smallest delay |
| Backoff.DelaysExactly | engine/process_wrapper.py:266 | delays double from half a second to 16 and stay at 30 |
| Backoff.FirstCheckExactly | engine/process_wrapper.py:259-284 | what the first check ever of a script grants and records, by its clock reading |
| Backoff.CheckPays | engine/process_wrapper.py:262-284 | each granted restart comes late enough to pay the rate out of time passed and change of potential |
| Backoff.CheckKeepsAccounts | engine/process_wrapper.py:262-284 | granted restart times stay spread by the rate less the debt, at both rates |
| Backoff.SpanBound | engine/process_wrapper.py:262-284 | k further restarts take at least 4k - 5 seconds, and at least (17k - 23) / 4 |
| Backoff.BoundsAreSharp | engine/process_wrapper.py:262-284 | both bounds are met exactly, by two restarts in 3 seconds and three in 7 |
| Backoff.RateIsSharp | engine/process_wrapper.py:262-284 | for any n and any time to spare, checks can grant 4n further restarts in less than 17n seconds and that time |
| Backoff.RestartLog.CheckCrashed | engine/process_wrapper.py:314-331 | records the run length in the log entry and decides, changing this entry alone |
| Backoff.RestartLog.RestartBackoff | engine/process_wrapper.py:247-284 | changes the entry in place; an entry that was not there appears only when the restart is granted |
| Backoff.RestartLog.Forget | engine/process_wrapper.py:300-305 | a clean shutdown removes the entry |
| Supervisor.StepKeepsInv | engine/process_wrapper.py:106-244 | each command, exit and tick keeps every live process the one its script's record holds |
| Supervisor.RunKeepsInv | main.py:117-146 | the invariant holds after any sequence of commands, exits and ticks |
| Supervisor.AtMostOneProcess | main.py:117-146 | after any run each script owns at most one live process, the one in its record |
| Supervisor.RunKeepsDown | engine/process_wrapper.py:350-373 | a script that is down and gets no start or reload stays down and without a process over any run |
| Supervisor.StopTakesDown | main.py:126-133 | a stop command ends the one process of a running script, records its exit code, and touches nothing else |
| Supervisor.StoppedRecord | engine/process_wrapper.py:300-373 | a stopped record is dropped under "never", under "on-failure" and after exit code zero, which also forgets the backoff entry, and is otherwise kept |
| Supervisor.GoneWaits | engine/process_wrapper.py:314-331 | a script under "on-failure" or "always" that is gone and granted no restart yet is kept as crashed, with the exit code found |
| Supervisor.CommandRefused | engine/watcher.py:240-264 | commands for unregistered scripts and reloads too soon after another do nothing, and a record without registration is dropped |
| RestartTiming.VisitEffect | engine/process_wrapper.py:287-336 | a visit changes one script's log entry, by one check or by forgetting, and starts a process exactly on a granted restart that launches |
| RestartTiming.RestartRate | engine/process_wrapper.py:262-336 | in any run, k further monitor restarts of a script with no clean exit between take at least 4k - 5 and (17k - 23) / 4 seconds |
| RestartTiming.RunKeepsLogOk | engine/process_wrapper.py:259-331 | in any run with prompt readings every log entry has equal stamps and a count within 5 |
| RestartTiming.VisitKeepsLogOk | engine/process_wrapper.py:259-331 | a check with prompt readings grants only delays of 0.5, 1, 2, 4 or 8 seconds and leaves an entry with equal stamps and a count within 5 |
| RestartTiming.VisitRetries | engine/process_wrapper.py:314-336 | a look at a crashed script over 10 seconds after its last restart retries it, with the smallest delay |
| RestartTiming.CrashedScriptComesBack | engine/process_wrapper.py:314-373 | after any run with prompt readings, the first monitor tick that reads the clock over 10 seconds after the last restart of a crashed script whose policy restarts it, and any later one, ends with the script running, if its launch works |
| RestartTiming.FirstLateTick | engine/process_wrapper.py:314-373 | a script started, gone, and first looked at over 10 seconds on the clock runs again after that tick |
| RestartTiming.RunRateIsSharp | engine/process_wrapper.py:262-373 | for any n and any time to spare, some whole run makes 4n further monitor restarts in less than 17n seconds and that time |
| ScriptLifetimes.StopHoldsExactly | main.py:126-133 | from any consistent state, a stop command keeps a script without a process over every run that does not start or reload it, if and only if the script is not crashed under a policy that restarts it |
| ScriptLifetimes.RefusedStop | main.py:126-133 | started, exited, found crashed too soon for a restart, stopped with no effect, looked at later: the script runs |
| ScriptLifetimes.RunKeepsSettled | engine/process_wrapper.py:310-373 | a script that is down, or crashed under a policy that restarts nothing, stays so over every run that does not revive it |
| ScriptLifetimes.CleanShutdownIsFinal | engine/process_wrapper.py:300-305 | a clean shutdown seen by a tick forgets the backoff entry, and over every run that does not revive it the script is down without a process, whatever its policy |
| ScriptLifetimes.RunKeepsUp | engine/process_wrapper.py:203-244 | a live process stays the one of its running script over every run in which it is not stopped or reloaded, does not exit and announces no shutdown |
| ScriptLifetimes.LaunchedStaysUp | engine/watcher.py:254-264 | what a start or a reload launches is the one process of its script, and stays so over every such run |
| Engine.Engine.StartScript | engine/process_wrapper.py:106-166 | launches a process, or yields a crashed record when the launch fails |
| Engine.Engine.StopScript | engine/process_wrapper.py:168-201 | ends the process of a running record and leaves any other record alone |
| Engine.Engine.CheckHealth | engine/process_wrapper.py:203-244 | a running record becomes stopped or crashed by the shutdown marker and the exit code |
| Engine.Engine.ApplyRestartPolicy | engine/process_wrapper.py:287-336 | performs the policy step of the state machine, log changes included |
| Engine.Engine.Examine | engine/process_wrapper.py:350-373 | one turn of the monitor's loop is one visit of the state machine |
| Engine.Engine.MonitorScripts | engine/process_wrapper.py:350-373 | the loop that collects the kept records into a fresh dictionary performs exactly the tick |
| Engine.Engine.HandleStart | main.py:117-125 | the start command, refused for unknown and running scripts |
| Engine.Engine.HandleStop | main.py:126-133 | the stop command, refused for unknown and not running scripts |
| Engine.Engine.ReloadScript | engine/watcher.py:240-269 | stop, then start, unless debounced or unknown |
| SeccompFilter.CompileBpfFilter | SCRIPTS/SERVICES/fastmcp_server/divine_protection_advanced.py:678-710 | the appending loop emits the header, a check and a kill per listed syscall, and a final allow |
| SeccompFilter.CompiledInNumbers | SCRIPTS/SERVICES/fastmcp_server/divine_protection_advanced.py:678-710 | every instruction of the program in the numbers of the kernel interface |
| SeccompFilter.WellFormedReturns | SCRIPTS/SERVICES/fastmcp_server/divine_protection_advanced.py:678-710 | a program that passes the kernel's rules returns a verdict from any instruction on |
| SeccompFilter.CompiledWellFormed | SCRIPTS/SERVICES/fastmcp_server/divine_protection_advanced.py:678-710 | the compiled program passes those rules (length in range, jumps in range, loads aligned, a return at the end) if and only if the list has at most 2045 entries |
| SeccompFilter.CompiledVerdict | SCRIPTS/SERVICES/fastmcp_server/divine_protection_advanced.py:678-710 | for every list and every call the program returns kill if the number is listed and allow otherwise, on any architecture; its fourth instruction is never reached |
| SeccompFilter.VerdictInNumbers | SCRIPTS/SERVICES/fastmcp_server/divine_protection_advanced.py:678-710 | the verdict in the numbers of the kernel interface, 0x80000000 to kill and 0x7fff0000 to allow |
| SeccompFilter.ListedIsMembership | SCRIPTS/SERVICES/fastmcp_server/divine_protection_advanced.py:684-706 | for numbers that are 32-bit words, being listed is being in the list |
| SeccompFilter.DocumentedExactly | SCRIPTS/SERVICES/fastmcp_server/divine_protection_advanced.py:670-676 | the documented verdict is met if and only if the call is for x86_64 or not listed |
| SeccompFilter.OtherArchitectureKilled | SCRIPTS/SERVICES/fastmcp_server/divine_protection_advanced.py:670-697 | an i386 call numbered 169 is killed where the documentation allows it |
| SessionBuffer.PrefixOfChain | SCRIPTS/CLIENTS/deepsky_client/session_manager.py:497-522 | the restore loop keeps a whole snapshot if and only if it chains |
| SessionBuffer.PrefixIsLongest | SCRIPTS/CLIENTS/deepsky_client/session_manager.py:497-522 | restore keeps the longest prefix that chains: the first n entries chain if and only if n is at most its length |
| SessionBuffer.RunKeepsWhole | SCRIPTS/CLIENTS/deepsky_client/session_manager.py:199-234 | until something is evicted, any run of appends, flushes, saves and restores keeps the buffer a chain from the empty hash to the current one |
| SessionBuffer.VerifyExactly | SCRIPTS/CLIENTS/deepsky_client/session_manager.py:551-575 | after any run verification passes over all messages while nothing has been evicted, and afterwards, if the hash is injective and never empty, fails at once |
| SessionBuffer.HashesExist | SCRIPTS/CLIENTS/deepsky_client/session_manager.py:60-63 | what is assumed of the hash can be met |
| SessionBuffer.EvictedRunFails | SCRIPTS/CLIENTS/deepsky_client/session_manager.py:551-575 | with a buffer of one and such a hash, two messages are enough for verification to fail at the first entry |
| SessionBuffer.SaveThenRestore | SCRIPTS/CLIENTS/deepsky_client/session_manager.py:359-372 | saving and restoring gives the same messages and hash back while nothing has been evicted, and none afterwards |
| SessionBuffer.TamperingNoticedIff | SCRIPTS/CLIENTS/deepsky_client/session_manager.py:497-549 | putting another entry with the same recorded hash into a chained snapshot cuts the restore off just before it if and only if the texts hashed for the two differ; otherwise it is restored as if nothing had happened |
| SessionBuffer.EachPartHashed | SCRIPTS/CLIENTS/deepsky_client/session_manager.py:60-63 | under an injective hash, changing exactly one of role, content, tool calls and time stamp changes the hash of a message; changing its tool results never does |
| SessionBuffer.AlteredPartCutsOff | SCRIPTS/CLIENTS/deepsky_client/session_manager.py:497-549 | a chained snapshot with one such part of one message changed is cut off exactly at that message |
| SessionBuffer.AlteredHashCutsOff | SCRIPTS/CLIENTS/deepsky_client/session_manager.py:497-522 | and so is one with the recorded hash of one message changed, under any hash |
| SessionBuffer.MovedTextUnnoticed | SCRIPTS/CLIENTS/deepsky_client/session_manager.py:545-549 | two different messages, text moved from content to role and tool results changed, have the same hash after any other |
| SessionBuffer.AppendRecords | SCRIPTS/CLIENTS/deepsky_client/session_manager.py:218-234 | an appended message is the last one, hashed onto the hash before it; the oldest goes only from a full buffer |
| SessionBuffer.FlushRecords | SCRIPTS/CLIENTS/deepsky_client/session_manager.py:302-344 | a flush marks with its reason what had no mark, changes nothing else in the buffer, and saves a checkpoint exactly when it is for a bug and found something to write |
| SessionBuffer.RestoreRecords | SCRIPTS/CLIENTS/deepsky_client/session_manager.py:459-543 | a restore counts the messages it kept, saves what it restored as a recovery checkpoint, and touches no row |
| MessagePersistence.RunInv | SCRIPTS/CLIENTS/deepsky_client/session_manager.py:302-344 | after any run without restores the buffer is the end of the history, marked up to the last flush, and the table holds flushed messages only |
| MessagePersistence.AllSavedIffNoOverrun | SCRIPTS/CLIENTS/deepsky_client/session_manager.py:302-344 | after a flush every message ever appended has its row if and only if no flush found more new messages than the buffer holds; no row belongs to anything else |
| MessagePersistence.FlushTwice | SCRIPTS/CLIENTS/deepsky_client/session_manager.py:302-344 | flushing again changes no row |
| MessagePersistence.RowsRecordReason | SCRIPTS/CLIENTS/deepsky_client/session_manager.py:302-330 | every row is as it was before the flush or carries its reason |
| MessagePersistence.CountsMessages | SCRIPTS/CLIENTS/deepsky_client/session_manager.py:218-228 | without restores the message count is the number of messages ever appended |
| SessionManager.SessionManager.AppendMessage | SCRIPTS/CLIENTS/deepsky_client/session_manager.py:199-234 | appends an entry hashed onto the last, dropping the oldest of a full buffer; an unknown role is an error |
| SessionManager.SessionManager.FlushBuffer | SCRIPTS/CLIENTS/deepsky_client/session_manager.py:287-344 | the loop writes each unflushed entry once and marks it |
| SessionManager.SessionManager.CreateCheckpoint | SCRIPTS/CLIENTS/deepsky_client/session_manager.py:359-372 | saves the whole buffer and the hash, and changes nothing else |
| SessionManager.SessionManager.RestoreFromCheckpoint | SCRIPTS/CLIENTS/deepsky_client/session_manager.py:459-543 | the loop rebuilds the buffer from the chained prefix of the snapshot and takes its last hash; with no checkpoint nothing changes |
| SessionManager.SessionManager.VerifyStateIntegrity | SCRIPTS/CLIENTS/deepsky_client/session_manager.py:551-575 | counts the entries that chain and says whether all do |
| HealingAgent.AgentDepthTracker.Enter | SCRIPTS/CLIENTS/deepsky_client/healing_agent.py:141-150 | pushes the session and goes one deeper, unless the limit is reached |
| HealingAgent.AgentDepthTracker.MarkChainStep | SCRIPTS/CLIENTS/deepsky_client/healing_agent.py:152-161 | counts one step up to the chain limit |
| HealingAgent.AgentDepthTracker.Exit | SCRIPTS/CLIENTS/deepsky_client/healing_agent.py:163-168 | goes one up only for the session on top of the stack, never below zero |
| HealingAgent.HealingAgent.HandleWorkOrder | SCRIPTS/CLIENTS/deepsky_client/healing_agent.py:498-629 | the recursive retry ends by the depth limit, leaves depth and stack as they were on every return and every exception, and has the effects stated by the next rows |
| HealingAgent.HealingAgent.EnterLevel | SCRIPTS/CLIENTS/deepsky_client/healing_agent.py:509-532 | enters a level, counts a step, and where chaining is not allowed flushes and resets the count, unless the flush raises |
| HealingAgent.HealingAgent.Attempted | SCRIPTS/CLIENTS/deepsky_client/healing_agent.py:541-622 | one attempt: skipping, prompting, threshold, session, retry, and the error path |
| HealingAgent.AtMostTwoSessions | SCRIPTS/CLIENTS/deepsky_client/healing_agent.py:498-629 | one work order runs at most two fix sessions |
| HealingAgent.FixedExactly | SCRIPTS/CLIENTS/deepsky_client/healing_agent.py:541-622 | an order is reported fixed if and only if it ends completed, which is when the first attempt gets past its flush and succeeds, or fails in a session that is retried, past its flush, and then succeeds |
| HealingAgent.StatusExactly | SCRIPTS/CLIENTS/deepsky_client/healing_agent.py:541-622 | the status an order is left with, for every course of both attempts |
| HealingAgent.EscalatesExactly | SCRIPTS/CLIENTS/deepsky_client/healing_agent.py:564-576 | an order is escalated if and only if the threshold is below one and the first attempt gets past its flush and gets a prompt |
| HealingAgent.TwoFailuresEndAsFailed | SCRIPTS/CLIENTS/deepsky_client/healing_agent.py:597-612 | two failing sessions leave the order failed; without a session manager, or with a flush that raises at the retry, one failure leaves it pending |
| HealingAgent.RaisedExactly | SCRIPTS/CLIENTS/deepsky_client/healing_agent.py:524-532 | an exception leaves the handler for the polling loop if and only if the flush forced at the root raises |
| HealingAgent.ChainStaysBelowTen | SCRIPTS/CLIENTS/deepsky_client/healing_agent.py:152-173 | the chain count stays within 10 between orders, and within 9 unless a flush forced by the tenth step raises |
| HealingAgent.Poller.PollOnce | SCRIPTS/CLIENTS/deepsky_client/healing_agent.py:415-441 | a cycle hands over the orders of the query one at a time and moves the last checked id to their maximum |
| HealingAgent.HandledAtMostOnce | SCRIPTS/CLIENTS/deepsky_client/healing_agent.py:415-476 | over any run, whatever the queries return, the last checked id never falls and no order is handled twice |
| WorkOrderQuery.QueryReturns | SCRIPTS/CLIENTS/deepsky_client/healing_agent.py:465-476 | the query returns at most ten orders, lower priority numbers first and smaller ids first among equal ones, and an order if and only if its priority is at most 3, its id is newer than the last checked, and fewer than ten such orders are ahead of it |
| WorkOrderQuery.QueryFits | SCRIPTS/CLIENTS/deepsky_client/healing_agent.py:465-476 | what the query returns is an answer the polling results hold for: ids all different and newer than the last checked |
| WorkOrderQuery.LostExactly | SCRIPTS/CLIENTS/deepsky_client/healing_agent.py:415-476 | a cycle that hands over the first k orders of its query, all of them or fewer if an exception ends it, passes an eligible order over for good if and only if k eligible ones are ahead of it and one of the first k has a larger id |
| WorkOrderQuery.LostIffNeverReturned | SCRIPTS/CLIENTS/deepsky_client/healing_agent.py:415-476 | an order that such a cycle does not hand over is lost if and only if no later query, whatever is pending then, can return it |
| WorkOrderQuery.LostForever | SCRIPTS/CLIENTS/deepsky_client/healing_agent.py:415-476 | a lost order is handled in no run of later cycles, however the table changes |
| WorkOrderQuery.OldestOrderLost | SCRIPTS/CLIENTS/deepsky_client/healing_agent.py:465-476 | with eleven pending orders, the oldest of them the least urgent, the first cycle loses it |
| WorkOrderQuery.InterruptedCycleLoses | SCRIPTS/CLIENTS/deepsky_client/healing_agent.py:415-441 | with two pending orders, the older one less urgent, a cycle that an exception ends after the first loses the older one, and a full one does not |
| WorkOrderQuery.RequeuedNotRetried | SCRIPTS/CLIENTS/deepsky_client/healing_agent.py:597-612 | an order handed over whose session fails without a session manager is pending again, but is handled in no later cycle of the run and returned by no later query |
| WorkOrderQuery.CycleIs | SCRIPTS/CLIENTS/deepsky_client/healing_agent.py:415-441 | handing over the first k orders of a query is a cycle the polling results hold for |
| PhooksHub.HubRefinesHistory | engine/phooks.py:134-184 | after any history the registry holds each client's latest registration not since removed, a client subscribes to an event if and only if a registration listed it with no later removal, and subscribers are registered |
| PhooksHub.DeliveryFollowsHistory | engine/phooks.py:186-205 | an event goes to exactly the subscribers of the history other than the sender, each at its latest address |
| PhooksHub.CleanupKeepsExactly | engine/phooks.py:134-144 | after any history, a cleanup keeps exactly the clients seen at most 120 seconds ago |
| PhooksHub.RegistrationRecorded | engine/phooks.py:168-175 | a registration is recorded with its address and time and subscribes to each event it lists |
| PhooksHub.PhooksHub.HandleRegister | engine/phooks.py:168-175 | the loop over listed events adds the client to each, creating missing ones |
| PhooksHub.PhooksHub.DiscardEverywhere | engine/phooks.py:182-183 | the loop takes the client out of every event |
| PhooksHub.PhooksHub.HandleUnregister | engine/phooks.py:177-184 | removes the client from registry and events |
| PhooksHub.PhooksHub.CleanupStaleClients | engine/phooks.py:134-144 | the loop removes exactly the clients unseen for more than the timeout |
| PhooksHub.PhooksHub.Emit | engine/phooks.py:186-205 | sends once to each recipient and to nobody else |
| LogWatcher.PruningChangesNothing | SCRIPTS/TOOLS/log_watcher_daemon.py:264-293 | with both memories pruned, every run creates the same work orders as with everything remembered |
| LogWatcher.StampsAreFilter | SCRIPTS/TOOLS/log_watcher_daemon.py:274-281 | the time stamps kept and those of all orders ever created have the same recent part |
| LogWatcher.OrderCreatedExactly | SCRIPTS/TOOLS/log_watcher_daemon.py:184-256 | after any run an entry becomes a work order if and only if the engine creates it, its key was not remembered within 300 seconds by a memory that never forgets, and fewer than 5 of all orders are under 60 seconds old |
| LogWatcher.AtMostFiveAMinute | SCRIPTS/TOOLS/log_watcher_daemon.py:184-256 | over any run a window of 60 seconds holds at most 5 created work orders |
| LogWatcher.SameKeyApart | SCRIPTS/TOOLS/log_watcher_daemon.py:184-272 | over any run two orders with one dedup key come from entries detected at least 300 seconds apart |
| LogWatcher.DedupEdge | SCRIPTS/TOOLS/log_watcher_daemon.py:184-272 | a second entry of one key becomes no order 299 seconds after the first, and does 300 seconds after it |
| LogWatcher.RateEdge | SCRIPTS/TOOLS/log_watcher_daemon.py:274-281 | five orders of one time hold an entry back 59 seconds later and not 60 seconds later |
| LogWatcher.FifthCreated | SCRIPTS/TOOLS/log_watcher_daemon.py:274-281 | four orders hold nothing back |
| LogWatcher.RememberedExactly | SCRIPTS/TOOLS/log_watcher_daemon.py:184-272 | an entry not suppressed is remembered at its detection if and only if it is an error or becomes an order, and nothing else is |
| LogWatcher.CleanupKeepsExactly | SCRIPTS/TOOLS/log_watcher_daemon.py:283-293 | a cleanup keeps exactly the keys remembered less than 300 seconds ago and the stamps less than 60 seconds old |
| LogWatcher.LogWatcherDaemon.IsDuplicate | SCRIPTS/TOOLS/log_watcher_daemon.py:264-272 | recognises an entry seen within the window and remembers any other |
| LogWatcher.LogWatcherDaemon.IsRateLimited | SCRIPTS/TOOLS/log_watcher_daemon.py:274-281 | drops old stamps and compares what is left with the limit |
| LogWatcher.LogWatcherDaemon.HandleError | SCRIPTS/TOOLS/log_watcher_daemon.py:184-217 | an error is remembered even when it is rate limited; each suppression is counted once |
| LogWatcher.LogWatcherDaemon.HandleWarning | SCRIPTS/TOOLS/log_watcher_daemon.py:219-256 | a warning is remembered only when it becomes a work order |
| LogWatcher.LogWatcherDaemon.CleanupSeenErrors | SCRIPTS/TOOLS/log_watcher_daemon.py:283-293 | drops expired keys and stamps only |
| LootEconomy.Conservation | SCRIPTS/GAMES/lootpower/lp_auction.py:19-107 | after any run, holdings plus listings of each loot id are its drops less its craft inputs, and so is the sum of all rarity columns of it |
| LootEconomy.ListConserves | SCRIPTS/GAMES/lootpower/lp_auction.py:19-40 | listing moves loot from inventory to auction, for any amount asked, negative ones included |
| LootEconomy.BuyConserves | SCRIPTS/GAMES/lootpower/lp_auction.py:53-87 | buying moves loot from auction to the buyer, whether or not the buyer has a row |
| LootEconomy.CancelConservesIff | SCRIPTS/GAMES/lootpower/lp_auction.py:89-107 | in any tables a cancellation loses loot if and only if the seller has no row to return it to |
| LootEconomy.ListedWithinStock | SCRIPTS/GAMES/lootpower/lp_auction.py:19-44 | a listing is made if and only if the seller has a row with at least the amount asked, which leaves it not negative, and is recorded under the next id |
| LootEconomy.BuyHandsOver | SCRIPTS/GAMES/lootpower/lp_auction.py:53-87 | which reply a purchase gets and exactly when; one that succeeds adds the listed amount to the buyer and no rarity |
| LootEconomy.CancelHandsBack | SCRIPTS/GAMES/lootpower/lp_auction.py:89-107 | which reply a cancellation gets and exactly when; one that succeeds returns the listed amount to the seller |
| LootEconomy.StepKeepsInv | SCRIPTS/GAMES/lootpower/lp_auction.py:19-107 | every listing's seller keeps an inventory row, so no reachable cancellation loses anything |
| LootEconomy.StepGains | SCRIPTS/GAMES/lootpower/lp_crafting.py:102-117 | one event adds one for a drop, takes one for each input of a craft that succeeds, and otherwise changes no total |
| LootEconomy.DropsAndCraftsBalance | SCRIPTS/GAMES/lootpower/lp_chance.py:201-224 | over drops and crafts alone every row's amount is the sum of its nine rarity columns |
| LootEconomy.DropRaises | SCRIPTS/GAMES/lootpower/lp_chance.py:195-224 | a drop raises the amount and the column of its own rarity by one, in a row new or old, and nothing else |
| LootEconomy.ShadesFloor | SCRIPTS/GAMES/lootpower/lp_crafting.py:53-117 | no rarity column ever falls below minus one |
| LootEconomy.FloorReached | SCRIPTS/GAMES/lootpower/lp_crafting.py:53-117 | with a recipe of an item with itself, one drop and one craft leave its column at minus one |
| LootEconomy.CraftOverdrawsIff | SCRIPTS/GAMES/lootpower/lp_crafting.py:53-117 | a craft that succeeds makes a column negative if and only if both inputs are one item and its column for the rarity asked for holds one |
| LootEconomy.CraftsCounted | SCRIPTS/GAMES/lootpower/lp_crafting.py:82-100 | after any run a player owns as many of a crafted item as crafts of it succeeded |
| LootEconomy.CraftRepliesExactly | SCRIPTS/GAMES/lootpower/lp_crafting.py:39-80 | which reply a craft gets and exactly when, first reason first; what is made is the item of a recipe that takes both inputs |
| LootEconomy.CraftPays | SCRIPTS/GAMES/lootpower/lp_crafting.py:82-117 | a craft credits one item and takes one of each input in the column of the rarity asked for; a refused one changes nothing |
| LootEconomy.RecipeOrderFree | SCRIPTS/GAMES/lootpower/lp_crafting.py:71-80 | the order of the two inputs does not matter to which recipe is found |
| LootEconomy.LootDatabase.AddDrop | SCRIPTS/GAMES/lootpower/lp_chance.py:195-224 | adds one item to amount and rarity column, or a new row with both one |
| LootEconomy.LootDatabase.CreateListing | SCRIPTS/GAMES/lootpower/lp_auction.py:14-44 | checks the stock, takes the amount and lists it under a new id, or refuses and changes nothing |
| LootEconomy.LootDatabase.BuyListing | SCRIPTS/GAMES/lootpower/lp_auction.py:53-87 | refuses unknown and own listings; otherwise the listing is gone and the buyer has its loot |
| LootEconomy.LootDatabase.CancelListing | SCRIPTS/GAMES/lootpower/lp_auction.py:89-107 | refuses unknown and others' listings; otherwise the listing is gone and the seller has its loot |
| LootEconomy.LootDatabase.CraftAny | SCRIPTS/GAMES/lootpower/lp_crafting.py:31-37 | refuses arguments that are not integers, with no change, and otherwise crafts |
| LootEconomy.LootDatabase.CraftItems | SCRIPTS/GAMES/lootpower/lp_crafting.py:39-119 | makes the checks in their order, with the reply of the first that fails and no change; otherwise credits one item and consumes both inputs |

## Left out

- Conformance of the ciphertext to NIST SP 800-38D: the counter starts at J0, so the code's output is not the standard's.
- The byte packing of BPF instructions: the packing used yields ten bytes where the kernel's structure has eight; the model works on instructions.
- Sockets, threads, subprocesses, log files, SQLite and its 64-bit integers: tables are maps or sequences, live processes a map from handles, integers unbounded.
- The administration thread on UDP, which works on a dictionary that the main loop has replaced; only commands of the main loop are modelled.
- A child that outlives both waits after being killed: terminating a process succeeds.
- Failed flushes: entries are marked before the commit, so a commit that fails loses them; the model's flush commits.
- JSON and the hash functions: the session hash is any function of the concatenated text, injective and never empty where a lemma says so, which SHA-256 is only in effect; the MD5 dedup key stands for itself.
- Message entries shared between buffer and callers: they are values here, so aliasing is not captured.
- What prompts and sessions of the healing agent do is one of six outcomes an attempt, and a forced flush either raises or does not.
- The confidence check, sub-agents, tools and prompts of the healing agent: AI conversation, and nothing in the repository calls the sub-agents during a work order.
- KeySchedule.KeyExpansion: keys shorter than 32 bytes are not modelled; the code ends in an IndexError on them, here or in the cipher.
- LogWatcher.SameKeyApart: entries are told apart by their key; two messages with one MD5 would count as the same.
- Parsing of log lines, the discovery of log files and the scan loop: I/O.
- The order in which a set of recipients is gone through, and sends that fail: a send is an attempt to send.
- PING and malformed packets at the hub, which change nothing, and packets with missing fields, which raise an error.
- The drop chance and rarity rolls on floating-point numbers: a drop is an event with any of the seven rarities that can be rolled.
- Payments for listings, story texts, statistics and the chance boost: the code treats payment as abstract, and the rest changes no loot.
- The duplicate-request cache, rarity roll and clipboard handling of the signing client: user interface.
- Base64.B64Decode: the bits of a group are joined by addition where the code uses a bitwise or; the operands do not overlap.
- God watcher, Landlock, bubblewrap and the other protection layers, the GUI, configuration, environment setup, LAN discovery and the Minecraft front end: I/O or resting on libraries not shown.
- Session metadata, token counts, message formatting and the automatic flush loop: they would only add easy members.
