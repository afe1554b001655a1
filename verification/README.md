# Verification of the Pinaivu protocol code

A Dafny model of the parts of Pinaivu that other parties have to rely on: the bytes that are
signed and sent, the proofs that are checked, the money that is held, and the concurrent and
time-dependent bookkeeping around inference jobs. `dafny verify dfyconfig.toml` checks it.

| module | models | main results |
|---|---|---|
| `CompactU16`, `SolanaAccounts`, `SolanaWire`, `SolanaMessage`, `SolanaRecompile`, `SolanaTransaction` | the Solana message compiler and program-derived addresses | the message decompiles to what was compiled, exactly when the casts fit, and compiles back to the same bytes |
| `Rlp`, `Eip1559` | RLP (Appendix B of the Ethereum Yellow Paper) and the EIP-1559 envelope (the Specification sections of EIP-2718 and EIP-1559) | the strict decoder is the exact inverse of the encoder; the signing input determines every field |
| `Merkle`, `MerkleShape`, `Reputation` | the Merkle tree over proof ids and the reputation store on it | exactly when a generated path exists and verifies; binding up to explicit collisions, across sizes too; histories of recorded proofs |
| `Escrow`, `EscrowLedger`, `Score` | the on-chain escrow and score program | conservation, one payout, provenance of every escrow, every balance from the escrows; the error of the integer average and when there is none |
| `Channel` | the off-chain payment channel, in-memory | conservation; each channel follows the fate its own calls decide |
| `Scheduler`, `SchedulerSteps` | the node scheduler under every interleaving | limits, one place for each job, complete draining, the exact overshoot of the queue limit, the streams that no limit holds |
| `Jobs` | the job store and the deadline sweep among request handlers | what a sweep settles, and exactly when a completion survives it |
| `Stream`, `StreamServer`, `StreamCodec` | the streaming clients and the daemon's two stream formats | cuts in the text are invisible; tokens arrive as they were sent |
| `Nonce`, `Peers`, `Throttle` | replay protection, peer registry, bid throttle | lazy expiry is invisible over whole histories |
| `Context` | the token-budget walks | the longest suffix that fits, and exactly when 32-bit counting spoils it |

`Options`, `Machine` (fixed-width arithmetic), `Bytes` (big-endian numbers), `Collections` and `Sums`
(sums over maps) are shared helpers.

## How the code is represented

- Objects whose methods update fields are classes, and the loops of the sources are loops. Each
  such method is proved to do one step of a specification function; the lemmas then speak about
  runs of these functions. For the scheduler and the job sweep one step is one lock acquisition
  or store call, and a run is any interleaving.
- Hashing, signing, curve membership, JSON and the white space of `trim` are function parameters.
  Clock readings are parameters; a lemma that needs them in order says so. The deployment's rent
  and the default timeout are part of the configuration.
- Rust integers: casts, saturation and wrap-around are written out. `+`, `-` and `+=` without a
  checked or saturating form wrap, as they do in a release build with default settings: neither
  the workspace's `Cargo.toml` nor that of the on-chain program sets `overflow-checks`. Where the
  checks are on, those operations panic instead. The program is not part of the workspace
  (`Cargo.toml:18`) and is built separately, so this matters for `Escrow.FreshLockIsReleasableIff`:
  built with the checks, a lock whose expiry leaves the range of an i64 fails instead of wrapping.
  A negative default timeout needs no wrapping to expire a lock at once.

## Where the code and its description differ

- `crates/reputation/src/merkle.rs:21-22` promises the usual duplication of the last node. `root`
  does that on every level, `proof` only among the leaves: the fifth of five leaves has no path
  (`Merkle.FifthOfFivePanics`), and the path of a lone leaf does not lead to its root
  (`Merkle.ProvableIff`).
- `crates/inference/src/scheduler.rs:122-123` says that a job leaves the active map when the caller
  drops the stream; it leaves as soon as the stream is handed over, and so does its permit. Any
  number of streams can be open with all permits free (`SchedulerSteps.AnyNumberOfStreamsOpen`), so
  the limit of lines 3-4 on what the GPU does at once holds in no configuration that accepts jobs
  (`SchedulerSteps.StreamsLimitedIff`); `Scheduler.LimitsHold` is about the active map only.
- `crates/inference/src/scheduler.rs:80-84`: the queue limit is checked and used under two
  locks, so concurrent submitters exceed it (`SchedulerSteps.QueueLimitKeptIff`).
- `programs/pinaivu/src/escrow.rs:43-44` uses the default timeout for 0 only; the code uses it for
  negative timeouts too, and stores a default of any sign (`programs/pinaivu/src/lib.rs:24-33`). When
  a new escrow is of use to its node is `Escrow.FreshLockIsReleasableIff`.
- `crates/inference/src/scheduler.rs:131-132` counts the jobs that are running; with a request id
  submitted twice it can count none (`SchedulerSteps.RepeatedIdVanishes`).
- `programs/pinaivu/src/score.rs:87-88` gives the average as 0.9 old + 0.1 new; the integer form
  is that average exactly when no division leaves a remainder (`Score.AverageExactIff`), and settles
  9 ms below a constant latency (`Score.ConstantSettles`).
- `crates/persistence/src/job.rs:34-37`: `TimedOut` is pending a compensating action, but where a
  sweep breaks off there no later sweep takes it up (`Jobs.StrandedForGood`).
- `crates/persistence/src/job.rs:138`: the Postgres filter compares signed numbers, so a saturated
  deadline is due at once (`Jobs.FiltersAgreeIff`, `Jobs.SaturatedDeadlineDiffers`).
- `crates/persistence/src/nonce.rs:23-24`: a lifetime that runs past 2^64 milliseconds does not
  protect its id (`Nonce.ProtectedIff`), which as a rule is not remembered at all
  (`Nonce.RememberedAtAllIff`, `Nonce.LongestLifetimeForgets`).
- `crates/context/src/session.rs:343`: the window fits `model_max_tokens` only from 512 on
  (`Context.WindowFitsModelIff`); `crates/context/src/summariser.rs:119-122` holds up to
  wrap-around of the count (`Context.WalkFindsLongestIff`, `Context.FiveLongKeptWhole`), and so does
  the agreement of the two decisions (`Context.NeededIffSplitDropsIff`,
  `Context.FiveLongDroppedUnsummarised`).

## Model

| member | source | states |
|---|---|---|
| `CompactU16.DecodeEncode` | crates/settlement/src/solana.rs:106-119 | the length prefix is self-delimiting: in front of any bytes exactly the length is read back, reduced mod 65536 by the `as u16` cast |
| `CompactU16.EncodeDecode` | crates/settlement/src/solana.rs:106-119 | the prefix is canonical: whatever the reader accepts is the encoder's own output followed by the rest |
| `SolanaAccounts.EnsureAllRepresents` | crates/settlement/src/solana.rs:155-176 | collecting uses one by one leaves a table with every used key once, at the join of the privileges of all its uses |
| `SolanaAccounts.SortIsStable` | crates/settlement/src/solana.rs:180 | the sort by `(!signer, !writable)` is sorted and keeps the order inside each of the four classes |
| `SolanaAccounts.SortIsUnique` | crates/settlement/src/solana.rs:180 | sortedness and stability determine the result: any such rearrangement equals it |
| `SolanaAccounts.AccountTableCorrect` | crates/settlement/src/solana.rs:153-180 | no key twice, exactly the payer and the referenced keys, each at its joined privilege, sorted by class, the payer at index 0 as writable signer |
| `SolanaAccounts.JoinedAsAskedFor` | crates/settlement/src/solana.rs:168-176 | the joined privileges in terms of the instructions: the payer has both, any other key signs (is writable) exactly if some instruction names it among its accounts as signer (writable), and being a program gives nothing; exactly payer, programs and named accounts are mentioned |
| `SolanaAccounts.AccountTableInOrder` | crates/settlement/src/solana.rs:158-180 | inside each privilege class the keys of the table stand in the order of their first use |
| `SolanaWire.ParseSerialize` | crates/settlement/src/solana.rs:192-219 | the message bytes read back to the message for all lengths below 65536 |
| `SolanaMessage.PlaceGivesPrivileges` | crates/settlement/src/solana.rs:182-185 | in a sorted table the three counts decide of each position whether it signs and whether it is writable |
| `SolanaMessage.HeaderGivesPrivileges` | crates/settlement/src/solana.rs:153-185 | the privilege of each position as read from the header counts equals the OR of all uses of its key |
| `SolanaMessage.RecoverIffFits` | crates/settlement/src/solana.rs:147-219 | main result: decompiling the bytes gives back payer, blockhash and every instruction (program, accounts in order at joined privilege, data) if and only if at most 256 accounts are named, at most 255 sign and every length is below 65536 |
| `SolanaMessage.MessageDeterminesMeaning` | crates/settlement/src/solana.rs:147-219 | equal message bytes mean equal instructions, payer and blockhash |
| `SolanaMessage.LongDataIsLost` | crates/settlement/src/solana.rs:217 | 65536 bytes of instruction data are a concrete input that is not recovered |
| `SolanaRecompile.LiftedCompilesTheSame` | crates/settlement/src/solana.rs:153-219 | compiling the instructions with every account at its joined privilege gives the same bytes |
| `SolanaRecompile.RecompileIsIdentity` | crates/settlement/src/solana.rs:147-219 | decompiling and compiling again is the identity on the builder's messages |
| `SolanaRecompile.BytesEqualIffMeaningsEqual` | crates/settlement/src/solana.rs:147-219 | two messages are equal exactly when payer, blockhash and all instructions mean the same |
| `SolanaTransaction.CollectAccounts` | crates/settlement/src/solana.rs:155-176 | the collecting loops produce the account table that the lemmas above describe |
| `SolanaTransaction.AppendIndices` | crates/settlement/src/solana.rs:214-216 | the index loop appends the index of every account, in order |
| `SolanaTransaction.AppendIx` | crates/settlement/src/solana.rs:212-218 | program index, account indices and data with their prefixes are appended in wire order |
| `SolanaTransaction.AppendIxs` | crates/settlement/src/solana.rs:211-219 | all instructions are appended in order |
| `SolanaTransaction.AppendKeys` | crates/settlement/src/solana.rs:202-204 | all keys of the table are appended in order |
| `SolanaTransaction.BuildMessage` | crates/settlement/src/solana.rs:153-219 | the imperative builder emits exactly the bytes that the decompiler theorems are about |
| `SolanaTransaction.BuildTransaction` | crates/settlement/src/solana.rs:147-230 | one signature over the message, in front of the message |
| `SolanaTransaction.TransactionReadsBack` | crates/settlement/src/solana.rs:221-229 | the whole transaction reads back as that one signature and that message |
| `SolanaTransaction.OneSignatureSuffices` | crates/settlement/src/solana.rs:183-225 | the header asks for exactly the one signature that is emitted if and only if nobody but the payer signs |
| `SolanaTransaction.FindPda` | crates/settlement/src/solana.rs:61-78 | the highest nonce whose hash is off the curve, with that hash; the panic happens exactly when all 256 hashes are on the curve; every string that is hashed is laid out as the next row says |
| `SolanaTransaction.PreimageLaidOut` | crates/settlement/src/solana.rs:63-69 | by position: the hashed string is the seeds, one nonce byte, the 32 bytes of the program and the 21 characters of "ProgramDerivedAddress", and nothing else |
| `Rlp.DecodeLenPrefix` | crates/settlement/src/evm.rs:138-149 | a header is read back from in front of any bytes: kind, length and its own size |
| `Rlp.HeaderIsLenPrefix` | crates/settlement/src/evm.rs:138-149 | and it is the only header of that kind and length: no leading zeros, no long form below 56 |
| `Rlp.DecodeEncode` | crates/settlement/src/evm.rs:110-149 | for every tree below 2^64 bytes and every trailing string, decoding the encoding followed by the rest gives the tree and the rest |
| `Rlp.EncodeDecode` | crates/settlement/src/evm.rs:110-149 | whatever the strict decoder reads is an encoding of what it returns |
| `Rlp.DecodeIffEncoded` | crates/settlement/src/evm.rs:110-149 | main result: the decoder reads item and rest from exactly those inputs that are the item's encoding followed by the rest |
| `Rlp.EncodePrefixFree` | crates/settlement/src/evm.rs:110-149 | no encoding is a proper prefix of another, and different trees have different encodings |
| `Rlp.UintIsString` | crates/settlement/src/evm.rs:110-117 | an integer is encoded as the byte string without leading zeros that denotes it, zero as the empty string, for every u128 |
| `Rlp.UintRoundTrip` | crates/settlement/src/evm.rs:110-117 | the decoded string of any encoded u128 denotes it again |
| `Eip1559.Sign` | crates/settlement/src/evm.rs:221-284 | the raw transaction begins with the byte 2, and what follows decodes, with nothing left over, to the nine fields followed by the signature over the hash of the signing input; failure exactly when the signer fails |
| `Eip1559.SigningInputHolds` | crates/settlement/src/evm.rs:235-251 | what is hashed begins with the byte 2 and continues with a list of exactly nine items, which place by place are chain id, nonce, the two fees, gas, recipient, value, calldata and the empty access list |
| `Eip1559.RawTransactionHolds` | crates/settlement/src/evm.rs:263-283 | the raw transaction begins with the byte 2 and continues with the list of the same nine items followed by v, r, s, with nothing left over |
| `Eip1559.EnvelopeRoundTrip` | crates/settlement/src/evm.rs:221-284 | reading either envelope recovers every field, and the signature |
| `Eip1559.SigningInputDeterminesFields` | crates/settlement/src/evm.rs:235-251 | equal signing inputs imply equal chain id, nonce, fees, gas, recipient, value and calldata |
| `Merkle.ClimbSucceeds` | crates/reputation/src/merkle.rs:70-84 | the sibling loop stays in range exactly when on every level the current index's sibling exists |
| `Merkle.ClimbReachesRoot` | crates/reputation/src/merkle.rs:70-84 | a path that the loop returns folds from its node to the root and has one step a level |
| `Merkle.ProofComplete` | crates/reputation/src/merkle.rs:61-87 | for a leaf that exists `proof(i)` returns a path iff the siblings on the way up exist and panics otherwise; with two leaves or more the path verifies against the root and has ceil(log2 n) steps |
| `Merkle.NoSuchLeafIff` | crates/reputation/src/merkle.rs:61-64 | `proof(i)` gives nothing exactly for an index beyond the leaves |
| `Merkle.EmptyTree` | crates/reputation/src/merkle.rs:50-64 | the tree without leaves has 32 zero bytes as root and no path for any index |
| `Merkle.ProvableIff` | crates/reputation/src/merkle.rs:50-109 | for every tree and leaf: the generated path verifies against the root iff those siblings exist and, for a single leaf, the leaf is the hash of itself with itself |
| `Merkle.FifthOfFivePanics` | crates/reputation/src/merkle.rs:70-84 | five leaves, index 4: the generator reads out of range |
| `Merkle.AllSiblingsIffPow2` | crates/reputation/src/merkle.rs:70-84 | all nodes of a level have their siblings on the way up exactly when their number is a power of two |
| `Merkle.EveryLeafHasPathIff` | crates/reputation/src/merkle.rs:61-87 | a tree serves a path for each of its leaves exactly when its size, rounded up to even, is a power of two |
| `Merkle.EveryLeafProvableIff` | crates/reputation/src/merkle.rs:50-109 | the path of every leaf verifies against the root exactly in that case (and, for one leaf, when it is the hash of itself with itself) |
| `Merkle.PathsBind` | crates/reputation/src/merkle.rs:95-109 | two different leaves accepted under one root by paths with the same directions give an explicit hash collision |
| `Merkle.RootBinds` | crates/reputation/src/merkle.rs:50-55 | two leaf lists of one length with one root are equal or give an explicit hash collision |
| `Merkle.LastLeafTwice` | crates/reputation/src/merkle.rs:122-141 | for odd n >= 3 a copy of the last leaf leaves the root unchanged |
| `MerkleShape.CompleteKeepsRoot` | crates/reputation/src/merkle.rs:122-141 | a tree has the root of the perfect tree over its leaves padded on every level |
| `MerkleShape.RootIsPerfect` | crates/reputation/src/merkle.rs:50-55 | what the root is, for every tree: the root of the perfect tree over the leaves padded on every level, defined from the top, each node the hash of its left and its right half |
| `MerkleShape.HeightBinds` | crates/reputation/src/merkle.rs:122-141 | two leaf lists of one height, whatever their sizes: one root if the padded forms agree, and only then unless those give an explicit hash collision |
| `MerkleShape.CompleteIsInjective` | crates/reputation/src/merkle.rs:122-141 | lists of one size have one padded form only if they are equal |
| `MerkleShape.LastPairTwice` | crates/reputation/src/merkle.rs:122-141 | even sizes share roots too: where the level above is odd, the last pair of leaves can be there twice |
| `Merkle.MerkleTree.GetRoot` | crates/reputation/src/merkle.rs:50-55 | the level loop computes the root that the lemmas are about; zero for the empty tree |
| `Merkle.MerkleTree.GetProof` | crates/reputation/src/merkle.rs:61-87 | the sibling loop computes the path, the panic or `None` that the lemmas are about |
| `Merkle.MerkleTree.Insert` | crates/reputation/src/merkle.rs:34-36 | appends the leaf and changes nothing else |
| `Merkle.VerifyProof` | crates/reputation/src/merkle.rs:95-109 | the verification loop accepts exactly when the path folds to the root |
| `Reputation.ScoreIsFraction` | crates/reputation/src/local.rs:159-183 | the composite lies between 0 and 1 and is 1 only for verified proofs without latency (over the reals) |
| `Reputation.ScoreTimesProofs` | crates/reputation/src/local.rs:164-172 | for every list of n proofs, n times the value is 0.6 for each verified proof plus 0.4 (n - total latency / 5000), the second part zero from five seconds a proof on |
| `Reputation.ScoreCorners` | crates/reputation/src/local.rs:164-172 | all verified but slow gives 0.6, none verified but without latency 0.4 |
| `Reputation.VerificationAdds` | crates/reputation/src/local.rs:164-172 | that one proof more among n is verified adds 0.6 / n |
| `Reputation.ScoreShowsProofs` | crates/reputation/src/local.rs:164-216 | after any sequence of recordings the root in the score is that of the tree, and job count, verified count and average latency are those of the kept proofs |
| `Reputation.RecordAllAgrees` | crates/reputation/src/local.rs:188-222 | after any sequence of `record_proof` calls index, tree leaves and proof list agree, with no id twice |
| `Reputation.RebuildIsIdentity` | crates/reputation/src/local.rs:62-77 | rebuilding from the stored proofs gives the identical leaves (so root) and index, and the stored score is that of the stored proofs |
| `Reputation.IndexedIffRecorded` | crates/reputation/src/local.rs:196-206 | exactly the recorded ids are indexed |
| `Reputation.RecordIsIdempotent` | crates/reputation/src/local.rs:198-202 | recording a recorded id again changes nothing |
| `Reputation.NodesAreIndependent` | crates/reputation/src/local.rs:188-222 | each node's state is what its own proofs make of it |
| `Reputation.ServedProofsVerify` | crates/reputation/src/local.rs:232-254 | after any run a path is looked up exactly for recorded ids of the local node, and the answer verifies against `merkle_root` exactly under the sibling condition |
| `Reputation.LocalReputationStore.Rebuild` | crates/reputation/src/local.rs:62-77 | the rebuilding loop yields the leaves and the index of the list |
| `Reputation.LocalReputationStore.RecordProof` | crates/reputation/src/local.rs:188-222 | one call is one step of the run above, other nodes untouched |
| `Reputation.LocalReputationStore.GetMerkleRoot` | crates/reputation/src/local.rs:232-238 | the root of the local node's leaves, zero when it has none |
| `Reputation.LocalReputationStore.GetMerkleProof` | crates/reputation/src/local.rs:240-254 | the lookup and path that `ServedProofsVerify` is about |
| `Escrow.FreshLockIsReleasableIff` | programs/pinaivu/src/escrow.rs:52-65 | for every clock, lock and deployment, a new escrow can be released at once exactly when its timeout (its own if positive, else the default of whatever sign) is not negative and the expiry stays below 2^63, or is negative and the expiry falls below -2^63; from 1970 on only the first |
| `Escrow.NegativeDefaultExpires` | programs/pinaivu/src/lib.rs:24-33 | a deployment with default timeout -1: a lock that relies on it cannot be released and can be refunded at once |
| `Escrow.LongestTimeoutExpires` | programs/pinaivu/src/escrow.rs:52-65 | so can any lock with the longest timeout, by wrap-around |
| `Escrow.PayOutExact` | programs/pinaivu/src/escrow.rs:108-111 | a payout neither underflows nor overflows and leaves exactly the rent |
| `Escrow.StepKeepsInv` | programs/pinaivu/src/escrow.rs:45-151 | every call keeps total lamports, the balance each status demands and the counters |
| `Escrow.RunConserves` | programs/pinaivu/src/escrow.rs:45-151 | over every run lamports are conserved, a locked escrow holds rent plus amount and a settled one exactly the rent, and the counters are the saturated count and sum over released escrows |
| `Escrow.PaidOutOnce` | programs/pinaivu/src/escrow.rs:97-151 | each escrow is paid out at most once: exactly once if it ends settled, never otherwise |
| `Escrow.SettledForGood` | programs/pinaivu/src/escrow.rs:101-136 | a settled escrow never changes again |
| `Escrow.PayoutPaysItsAmount` | programs/pinaivu/src/escrow.rs:97-151 | a payout gives the escrow's amount to its node (release) or its client (refund), who signed, and touches no other balance or escrow |
| `Escrow.PaidOutIff` | programs/pinaivu/src/escrow.rs:97-151 | a release succeeds exactly for the node of a locked escrow up to its expiry, a refund exactly for the client after it; a call that fails changes nothing |
| `Escrow.ReleaseXorRefund` | programs/pinaivu/src/escrow.rs:101-136 | while locked, at any time exactly one of release and refund is possible |
| `Escrow.ExpiredStaysExpired` | programs/pinaivu/src/escrow.rs:102-136 | with a clock that does not go back, no release succeeds after expiry |
| `Escrow.EveryEscrowIsExplained` | programs/pinaivu/src/escrow.rs:45-151 | every escrow of every run has its lock in the run (client, node, amount, times) and, once settled, a later release by that node in time or a refund by that client after expiry |
| `EscrowLedger.RunBalances` | programs/pinaivu/src/escrow.rs:45-151 | after every run each key has what it began with, less rent and amount of the escrows it locked, plus what was released and refunded to it |
| `Escrow.Program.LockEscrow` | programs/pinaivu/src/escrow.rs:45-90 | the handler, statement by statement, is one `Lock` step of the model above |
| `Escrow.Program.ReleaseEscrow` | programs/pinaivu/src/escrow.rs:97-125 | the handler is one `Release` step, account constraint first |
| `Escrow.Program.RefundEscrow` | programs/pinaivu/src/escrow.rs:131-151 | the handler is one `Refund` step, account constraint first |
| `Score.CompositeIsFormula` | programs/pinaivu/src/state.rs:126-143 | for every u16 success rate nothing saturates and no division has a remainder: the score is 40000 * (success + min(jobs, 10000) + 5000 - min(avg, 5000)), and exactly when it is at most 1,000,000,000 |
| `Score.RefusedIff` | programs/pinaivu/src/score.rs:80 | a submission by anybody but the authority is refused as unauthorized, one of the authority with 32 zero bytes as proof hash as invalid, any other is accepted; a refused one changes nothing |
| `Score.RunCounts` | programs/pinaivu/src/score.rs:73-105 | after any sequence of submissions only the accepted ones count: saturated totals, the average of their latencies, and the formula as score |
| `Score.AverageError` | programs/pinaivu/src/score.rs:87-89 | the stored average is at most the exact rational moving average and less than 9 below it, for every sequence of samples |
| `Score.AverageExactIff` | programs/pinaivu/src/score.rs:87-89 | the stored average equals the exact moving average precisely when no division of the run had a remainder, for every sequence of samples |
| `Score.ConstantClimbs` | programs/pinaivu/src/score.rs:87-89 | under a constant sample the average climbs by at least one a step up to sample - 9, and stays at zero for samples below 9 |
| `Score.ConstantSettles` | programs/pinaivu/src/score.rs:87-89 | under a constant sample it settles exactly 9 below it (0 for samples below 9) and stays there |
| `Score.NodeScore.RecomputeScore` | programs/pinaivu/src/state.rs:126-143 | writes the composite and no other field |
| `Score.NodeScore.SubmitProof` | programs/pinaivu/src/score.rs:73-105 | the handler is one step of the run above; a refused submission changes nothing |
| `Score.NodeScore.constructor` | programs/pinaivu/src/score.rs:45-66 | the initial account |
| `Channel.RunConserves` | crates/settlement/src/channel.rs:341-530 | over every run exactly the locked requests have a channel, client plus node hold the amount first locked, and the settled total is the sum of node balances as a u64 holds it |
| `Channel.RunShowsFates` | crates/settlement/src/channel.rs:341-530 | each channel is in the state its own calls decide: opened by the first lock, then paid by the first affordable release or returned by the first refund, whichever comes first |
| `Channel.CallFailsIff` | crates/settlement/src/channel.rs:345-508 | after any run, from the calls of the request alone: a lock fails exactly if it was ever opened, a release or refund exactly if it never was, or the release is above the balance of an open channel; failing changes nothing |
| `Channel.SettledForGood` | crates/settlement/src/channel.rs:434-437 | a settled channel never changes again |
| `Channel.OpenedOnce` | crates/settlement/src/channel.rs:345-347 | a request id is opened at most once, exactly once if it has a channel |
| `Channel.PaymentChannel.LockFunds` | crates/settlement/src/channel.rs:341-417 | the in-memory branch is one `Lock` step |
| `Channel.PaymentChannel.ReleaseFunds` | crates/settlement/src/channel.rs:421-486 | the in-memory branch is one `Release` step |
| `Channel.PaymentChannel.RefundFunds` | crates/settlement/src/channel.rs:489-530 | the in-memory branch is one `Refund` step |
| `Scheduler.StepKeepsInv` | crates/inference/src/scheduler.rs:85-126 | every step keeps permits plus permit holders at the maximum, queue plus checked submitters below `max_queue + k`, queue and active map within the jobs of those phases, and open streams to delivered jobs |
| `Scheduler.LimitsHold` | crates/inference/src/scheduler.rs:85-126 | in every interleaving at most `max_concurrent` jobs are active and with k concurrent submitters the queue holds at most `max_queue + k - 1`; streams that have been handed over are bounded by none of this, see the next two rows |
| `SchedulerSteps.AnyNumberOfStreamsOpen` | crates/inference/src/scheduler.rs:104-126 | for every n and every configuration that accepts jobs, n streams can be open with the caller while no job is active and every permit is free |
| `SchedulerSteps.StreamsLimitedIff` | crates/inference/src/scheduler.rs:104-126 | `max_concurrent` bounds the open streams in every interleaving exactly when no job is ever accepted |
| `Scheduler.OnePlaceEach` | crates/inference/src/scheduler.rs:100-124 | with distinct request ids every job is in the queue exactly while it waits, in the active map exactly while it runs, never in both or twice |
| `Scheduler.ShownAreInPhase` | crates/inference/src/scheduler.rs:100-124 | with repeated request ids too, every id in the queue is that of a waiting job and every id in the active map that of a running one |
| `SchedulerSteps.RepeatedIdVanishes` | crates/inference/src/scheduler.rs:113-124 | with one id submitted twice, some interleaving has an empty active map while one of the jobs is running |
| `Scheduler.StuckMeansDone` | crates/inference/src/scheduler.rs:105-126 | no deadlock: a state that leaves submitters and tasks nothing to do has finished every job, whatever streams are still open |
| `Scheduler.StepsAreCounted` | crates/inference/src/scheduler.rs:105-126 | every step of a submitter or task takes exactly one off the remaining steps of all jobs |
| `Scheduler.DrainsCompletely` | crates/inference/src/scheduler.rs:105-126 | once submissions stop every run is bounded, and every run that leaves the tasks nothing to do ends with all jobs done, all permits free, queue and active map empty |
| `SchedulerSteps.OvershootReached` | crates/inference/src/scheduler.rs:86-101 | the bound is attained: some interleaving fills the queue to `max_queue + k - 1` |
| `SchedulerSteps.QueueLimitKeptIff` | crates/inference/src/scheduler.rs:86-101 | `max_queue` is kept in every interleaving exactly when submissions do not overlap (or it is 0) |
| `SchedulerSteps.NodeScheduler.constructor` | crates/inference/src/scheduler.rs:65-74 | at least one permit, everything empty |
| `SchedulerSteps.NodeScheduler.CheckDepth` | crates/inference/src/scheduler.rs:86-92 | the first lock of `submit` is the `Check` step |
| `SchedulerSteps.NodeScheduler.PushBack` | crates/inference/src/scheduler.rs:101-105 | the second lock and the spawn are the `Push` step |
| `SchedulerSteps.NodeScheduler.AcquirePermit` | crates/inference/src/scheduler.rs:107 | taking a permit is the `Acquire` step |
| `SchedulerSteps.NodeScheduler.RemoveFromQueue` | crates/inference/src/scheduler.rs:110 | `retain` under the queue lock is the `Dequeue` step |
| `SchedulerSteps.NodeScheduler.MarkActive` | crates/inference/src/scheduler.rs:113 | the insertion under the active lock is the `Activate` step |
| `SchedulerSteps.NodeScheduler.SendResult` | crates/inference/src/scheduler.rs:117-120 | work and send are the `Deliver` step: an open stream for the caller, or none for an error or a caller that is gone |
| `SchedulerSteps.NodeScheduler.RemoveFromActive` | crates/inference/src/scheduler.rs:124 | the removal under the active lock is the `Deactivate` step |
| `SchedulerSteps.NodeScheduler.DropPermit` | crates/inference/src/scheduler.rs:107-126 | the permit is given back when the spawned code ends: the `Drop` step |
| `Jobs.StatusTextRoundTrip` | crates/persistence/src/job.rs:42-61 | `from_str` gives a status for its own text and for no other text |
| `Jobs.NewJobDueIff` | crates/persistence/src/job.rs:91-112 | a new job is dispatched without metrics and due exactly from now + timeout on; where that is 2^64 or more, at the last millisecond only |
| `Jobs.FiltersAgreeIff` | crates/persistence/src/job.rs:197-206 | the in-memory and the SQL filter agree on a job exactly when it is not waiting any more or deadline and clock lie on the same side of 2^63 |
| `Jobs.SaturatedDeadlineDiffers` | crates/persistence/src/job.rs:351-362 | a saturated deadline is never due in memory and due at once in SQL |
| `Jobs.StepKeepsInv` | crates/node/src/jobs.rs:82-115 | every step, breaking off included, keeps: `TimedOut` only between the two marks of a sweep or where one broke off there, passed jobs terminal |
| `Jobs.SweepSettlesItsJobs` | crates/node/src/jobs.rs:86-108 | in every interleaving with handlers no job is `TimedOut` outside the two marks but those on which a sweep broke off (none, if none did), and every job a sweep found is terminal when it returns |
| `Jobs.AbortStrands` | crates/node/src/jobs.rs:103-106 | an early return between the marks leaves the job `TimedOut` with no sweep at work on it |
| `Jobs.StrandedForGood` | crates/node/src/jobs.rs:86-106 | such a job is found by no later sweep and stays as it is until a handler completes or fails it |
| `Jobs.SweepsLeaveOthersAlone` | crates/node/src/jobs.rs:82-108 | over every run with any number of sweeps, a job that none of them found is what the handlers alone make of it |
| `Jobs.CompletionSurvivesIff` | crates/node/src/jobs.rs:86-108 | a completed job stays completed exactly when no sweep marks it afterwards: surely if it is not pending in the sweep under way, and surely not if it is and that sweep comes to its end, when it is failed |
| `Jobs.CompletionLost` | crates/node/src/jobs.rs:86-108 | the race in five steps: found due, completed, then overwritten with `Failed` |
| `Jobs.InMemoryJobStore.PushJob` | crates/persistence/src/job.rs:169-173 | an id is recorded once, a second push changes nothing |
| `Jobs.InMemoryJobStore.MarkJob` | crates/persistence/src/job.rs:179-184 | sets the status of a known job, whatever it was |
| `Jobs.InMemoryJobStore.CompleteJob` | crates/persistence/src/job.rs:186-195 | sets status and metrics of a known job, whatever they were |
| `Jobs.InMemoryJobStore.Due` | crates/persistence/src/job.rs:197-206 | exactly the due jobs, each once |
| `Jobs.InMemoryJobStore.Sweep` | crates/node/src/jobs.rs:82-108 | undisturbed, a sweep fails exactly the due jobs, changes nothing else and leaves nothing due; the next two rows say what its specification means |
| `Jobs.SweptIsRun` | crates/node/src/jobs.rs:82-108 | for every order in which the due jobs are found, the lookup, the two marks on each of them and the return are a run of the interleaving machine above, and it ends in exactly the store that `Sweep` leaves |
| `Jobs.SweptSettles` | crates/node/src/jobs.rs:97-107 | the jobs that were due are `Failed` with all else kept, the others unchanged, nothing is due any more and no job is `TimedOut` that was not before |
| `Stream.SplitCuts` | sdk/src/session.ts:379-380 | `split` and `pop`: the text is its newline-terminated lines and the tail, none of which contains a newline |
| `Stream.LinesTerminated` | sdk/src/session.ts:379-380 | newline-terminated lines come back, with nothing left over |
| `Stream.SplitResumes` | sdk/src/session.ts:378-380 | splitting can stop at any point and go on from the buffered tail |
| `Stream.EventsUpToFirstStop` | sdk/src/session.ts:382-388 | what a list of lines yields is decided up to and with its first final line, by nothing after it |
| `Stream.JunkIsInvisible` | sdk/src/session.ts:382-391 | a line that is blank, has no `data:` in front (event stream) or does not parse can stand anywhere among any lines: the events are those without it, and so is where they stop |
| `Stream.JunkChangesNothing` | web/lib/daemon.ts:324-334 | the same for any number of such lines interleaved in any way |
| `Stream.ChunkReaction` | web/lib/daemon.ts:327-330 | a line that parses yields its token, if not empty, then its receipt, if there is one and the client looks at it, and ends the stream exactly if it is final |
| `Stream.TrimCuts` | web/lib/daemon.ts:393-396 | `trim` takes off white space at both ends, all of it and nothing else; a line is blank exactly if nothing is left |
| `Stream.Receive` | sdk/src/session.ts:369-392 | main result: whatever the pieces, the loop yields the events of the newline-terminated lines of the whole text up to the first final one, the unterminated tail dropped |
| `Stream.SplitAndPop` | web/lib/daemon.ts:321-322 | `split` and `pop` on the buffer: its complete lines, and the unfinished one |
| `Stream.HandleLines` | web/lib/daemon.ts:324-333 | the inner loop yields the events of its lines and stops exactly at a final one |
| `Stream.YieldedSoFar` | web/lib/daemon.ts:316-334 | events are never taken back: those of any received prefix begin those of the whole |
| `StreamServer.NdjsonBody` | crates/node/src/api/mod.rs:208-223 | the text is the concatenation, chunk by chunk, of the JSON and a newline (nothing where the encoder fails): the tokens in order, none final, then the final chunk with the receipt |
| `StreamServer.NdjsonDelivers` | web/lib/daemon.ts:312-335 | daemon to client: whatever the cuts, whatever blank or malformed lines stand among those of the answer and whatever follows it, the client yields the non-empty tokens in order and then the receipt |
| `StreamServer.NdjsonAnswerDelivers` | web/lib/daemon.ts:312-335 | in particular for the daemon's own text in any cut |
| `StreamServer.BrokenConnection` | web/lib/daemon.ts:312-335 | a connection that breaks off, with or without malformed lines, loses events at the end only |
| `StreamServer.SseBody` | crates/node/src/api/mod.rs:515-561 | by position: the text is `data:`, a blank, the JSON and two newlines for each of |tokens| + 2 chunks (nothing where the encoder fails), first the role, then the tokens in order, last the finish reason, and then `data: [DONE]` with two newlines |
| `StreamServer.SseDelivers` | web/lib/daemon.ts:380-407 | the same delivery over server-sent events, with comments, unknown fields and malformed data anywhere among the lines |
| `StreamServer.SseAnswerDelivers` | web/lib/daemon.ts:380-407 | in particular for the daemon's own text in any cut |
| `StreamCodec.NdjsonCodecExists` | crates/node/src/api/mod.rs:208-223 | the codec assumption of the line delivery can be met, by a codec with the escapes of JSON strings and by clients of both kinds |
| `StreamCodec.SseCodecExists` | crates/node/src/api/mod.rs:515-561 | the codec assumption of the event delivery can be met, with three different texts for role, token and stop chunk |
| `Nonce.InMemoryNonceStore.CheckAndSet` | crates/persistence/src/nonce.rs:51-64 | one call is one step of the history below |
| `Nonce.ReplayedIff` | crates/persistence/src/nonce.rs:51-64 | for any clock readings: a replay is reported exactly when an accepted call for the id has an expiry that neither this call nor any in between has read |
| `Nonce.ReplayedIffUnexpired` | crates/persistence/src/nonce.rs:51-64 | with a monotone clock: exactly when an earlier accepted call for the id is unexpired now; pruning is invisible |
| `Nonce.RememberedAtAllIff` | crates/persistence/src/nonce.rs:51-64 | after any history, the call accepted last is a replay when made again at once, if and only if its lifetime is positive and its expiry stays below 2^64 |
| `Nonce.ProtectedIff` | crates/persistence/src/nonce.rs:51-64 | after any monotone history, whatever follows in order, the id accepted last is refused for its whole lifetime if and only if that lifetime ends before 2^64 milliseconds |
| `Nonce.AcceptedAgainOnlyAfterLifetime` | crates/persistence/src/nonce.rs:51-64 | an id is accepted again only after the lifetime it was accepted with |
| `Nonce.LongestLifetimeForgets` | crates/persistence/src/nonce.rs:52-53 | the longest lifetime wraps around: an immediate second call is accepted |
| `Peers.InMemoryPeerStore.Upsert` | crates/persistence/src/peer.rs:74-77 | inserts or refreshes one entry |
| `Peers.InMemoryPeerStore.Get` | crates/persistence/src/peer.rs:79-85 | the live entry of a peer, if there is one |
| `Peers.InMemoryPeerStore.All` | crates/persistence/src/peer.rs:87-94 | exactly the live entries, each once |
| `Peers.InMemoryPeerStore.EvictExpired` | crates/persistence/src/peer.rs:96-100 | keeps exactly the live entries |
| `Peers.LookupsSeeLastAnnouncements` | crates/persistence/src/peer.rs:67-100 | after any history, lookups at or after the last eviction's clock show exactly the peers with a last announcement at t and `now < t + ttl` (for a ttl of zero none), with its content |
| `Peers.EvictionsAreInvisible` | crates/persistence/src/peer.rs:96-100 | leaving all evictions out of a history changes no lookup at or after their clock readings |
| `Throttle.BidDecisionEngine.RecordWin` | crates/inference/src/bid.rs:144-147 | appends the time of the win |
| `Throttle.BidDecisionEngine.ThrottleCheck` | crates/inference/src/bid.rs:209-222 | the pop-front loop drops up to the first recent win, and the answer compares what is left |
| `Throttle.CheckCountsLastMinute` | crates/inference/src/bid.rs:209-222 | in every history a check counts exactly the wins of the 60,000,000,000 nanoseconds before it and allows exactly below `concurrent_jobs * 4` as a u64 holds it, which is four for each concurrent job wherever that does not wrap |
| `Context.EstimateIsQuarter` | crates/context/src/session.rs:481-483 | with n the byte length as a u32 holds it: one token for n below 4, otherwise n / 4 rounded down |
| `Context.TokensAreQuarters` | crates/context/src/summariser.rs:112-182 | the totals in bytes, for messages below 2^32 bytes: four times the tokens of a suffix are at most its bytes (four more for each message, if some are below four bytes) and at least its bytes less three for each message |
| `Context.LongestIsUnique` | crates/context/src/summariser.rs:119-122 | there is one longest suffix within a budget |
| `Context.WalkStopsBehindLastOver` | crates/context/src/summariser.rs:127-139 | what the walk does for every budget, wrapping or not: it stops behind the last message from which on the 32-bit total is over the budget, with the 32-bit total of what it keeps |
| `Context.SplitDropsIff` | crates/context/src/summariser.rs:123-144 | something is dropped exactly when the 32-bit total of some suffix is over the budget |
| `Context.WalkFindsLongestIff` | crates/context/src/summariser.rs:127-139 | the backward walk keeps the longest suffix within the budget, with its exact count, exactly when the first message too many does not push the count past 2^32; otherwise it keeps more than fits |
| `Context.SmallBudgetsAreSafe` | crates/context/src/summariser.rs:127-139 | budgets up to three quarters of 2^32 are always safe |
| `Context.FiveLongKeptWhole` | crates/context/src/summariser.rs:127-139 | five messages of 2^32 - 1 bytes, largest budget: four fit, the count wraps and the walk keeps all five |
| `Context.SplitMessages` | crates/context/src/summariser.rs:123-144 | partitions the list in order, cut where the walk stops, at the longest suffix when safe |
| `Context.NeedsSummarisation` | crates/context/src/summariser.rs:112-117 | compares the u32 total |
| `Context.NeededIffSplitDrops` | crates/context/src/summariser.rs:112-144 | for totals within u32: summarisation is needed exactly when the split drops something |
| `Context.NeededIffSplitDropsIff` | crates/context/src/summariser.rs:112-144 | for every threshold the two agree exactly when the total counts as over it or no suffix does |
| `Context.NeededIffSplitDropsWhenSafe` | crates/context/src/summariser.rs:112-144 | for a safe threshold: exactly when the total does not wrap to something that is not over it |
| `Context.FiveLongDroppedUnsummarised` | crates/context/src/summariser.rs:112-144 | the same messages, largest safe threshold: the split drops two and no summary is needed |
| `Context.BuildContextWindow` | crates/context/src/session.rs:346-373 | for every session and model exactly the longest suffix within the budget, in order, with its exact total |
| `Context.BudgetReservesQuarterIff` | crates/context/src/session.rs:351-352 | a quarter is reserved exactly for windows from 683 up to where tripling wraps, 512 is the budget below that, and a quarter less of the wrapped product (but 512 at least) above; the budget is within the window exactly from 512 on |
| `Context.WindowFitsModelIff` | crates/context/src/session.rs:343-373 | every session's window fits the model exactly when the model takes at least 512 tokens |

## Left out

- JSON-RPC, HTTP, libp2p, Redis, Postgres (but for the `due` filter) and files, with everything that only wires them together.
- The inside of SHA-256, Keccak, Ed25519, secp256k1, X25519 and AES-GCM: collision freedom is never assumed, and binding results name the colliding inputs instead.
- The instruction-data encoders of the Solana adapter and the ABI encoders of the EVM one: concatenations of fixed-width words.
- The chain-backed branch of `PaymentChannel`: its failures are only logged.
- `registry.rs` and `anchor_merkle_root` of the on-chain program: field assignments behind one check.
- Escrow.RunConserves: the runtime's rent-exemption rule for wallets and lamports sent to an escrow account from outside are not modelled; "exactly the rent" and the success condition of a lock are up to them.
- The atomicity of Solana transactions, account data layout and bumps: a failing handler changes nothing by construction.
- `canonical_bytes` of a proof: it depends on the JSON escaping of a library that is not part of this model.
- Reputation.ScoreIsFraction: `compute_score` is modelled over the reals, so nothing is claimed about `f64` rounding; the time stamp and the success rate (verified over total) are not fields of the model.
- Reputation: ids are byte strings, where the code keys its index by their hexadecimal form; writing the store to a file is not modelled, rebuilding from it is.
- Eip1559.EnvelopeRoundTrip: r and s are the 32-byte strings that the code writes, not integers without leading zeros.
- Scheduler.DrainsCompletely: every `work` is assumed to return; a panic inside it, and a `submit` that is cancelled between its two locks, are not modelled.
- Scheduler: reading a stream is one step, its end; the tokens in between are those of `Stream`.
- Jobs: one sweeper at a time; a sweep that breaks off stands for a failing store call and for a restart with a durable store alike; peer, dispatch time and attempt count of a job record are not fields of the model, as no operation changes them after `push`.
- Context.BuildContextWindow: the system prompt and the summary, which the code copies into the window, are not fields of the model.
- Stream.Receive: a piece is text behind the decoder; how `TextDecoder` joins UTF-8 sequences across reads is not modelled. The loop is modelled as returning all its events at once; `Stream.YieldedSoFar` covers what a consumer has seen earlier.
- StreamServer.NdjsonDelivers: that the JSON library writes one line for a chunk and parses it back is a precondition, shown to be satisfiable by the codec of `StreamCodec`; the same holds for `StreamServer.SseDelivers`.
- Throttle: `Instant::now() - window` is taken to exist.
- Bid scoring, settlement selection, session blobs and their index, configuration, metrics and the user interfaces: easy or not algorithmic.
- A second `proof` that pads every level: the model stays with the code that is there.
