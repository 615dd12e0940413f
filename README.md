# Rocket Pool smartnode rewards bookkeeping, modelled in Dafny

This project models the decision procedures in `shared/services/rewards/utils.go` of the
Rocket Pool smartnode and proves what they promise:

- **Claim status** (`claim_status.dfy`, module `ClaimStatus`). This is `GetClaimStatus`. It
  reads the claimed-interval bitmap one 256-bit storage word per bucket. It splits the
  intervals `[0, currentIndex)` into an ascending `unclaimed` list and an ascending `claimed`
  list. The method keeps the source's nested loops and its mask test. It is proved equal to a
  recursive specification `Select`, and the partition properties are lemmas about `Select`.
- **Block search** (`block_locator.dfy`, module `BlockLocator`). This is `GetELBlockHeaderForTime`.
  It is a halving search by block number for the header nearest a target time, followed by a
  backward scan. The probing loop and the scan are methods. They are proved against a trace
  predicate, `IsProbeTrace`, that gives the number of every probe from the probes before it.
  `Closest` is the block the search keeps.
- **Interval information** (`intervals.dfy`, module `Intervals`). This is `GetIntervalInfo` and
  `GetRewardSnapshotEvent`. Each is a pure function that fills the `IntervalInfo` record branch
  by branch, and lemmas state each early-return case.
- **Rewards file download** (`rewards_download.dfy`, module `RewardsDownload`). This is the
  source-fallback loop of `DownloadRewardsFile`. The method keeps the loop and its error
  builder. It is proved equal to `Outcome`, a function of the three sources' outcomes.
- **Bond and fee at a block** (`minipool_bond.dfy`, module `MinipoolBond`). This is
  `getMinipoolBondAndNodeFee`, a pure case split.
- **`fmt.Errorf` without operands** (`go_fmt.dfy`, module `GoFmt`). `DownloadRewardsFile` passes
  its log of failures to `fmt.Errorf` as the format string. `Errorf` models what Go's `fmt`
  makes of a format with no operands: `%%` becomes `%`, a verb `v` becomes `%!v(MISSING)`, and
  a format that ends inside a directive gets `%!(NOVERB)`. Text without `%` is copied unchanged.

`go_ints.dfy` (module `GoInts`) holds the Go integer conversions the code applies to big
integers: `big.Int.Uint64` and the `uint64` to `int64` cast.
`wrappers.dfy` holds the `Option` and `Result` datatypes used for the Go `value, err` returns.

External services are parameters. These are the execution client (`HeaderSource`: block
number to timestamp or error), the storage reads (`WordSource`: bucket to word or error), the
event lookup, the file system (`TreeFile`), HTTP (`fetch`), the decompressor (`decompress`)
and the file write (`writeFile`).

Where the code and its design description disagree, the model follows the code:

- The block search keeps the **earlier** probed block on a tie of distances, because only a
  strictly smaller distance replaces the kept block (`utils.go:219`). It does not keep the
  later block.
- The first pivot is the first candidate's **block number** (`utils.go:208`), not the search
  radius. The search is optimal only among the blocks it probed.
- When a download succeeds, the failure lines collected from earlier sources are discarded.
  Only the all-failed error carries them (`utils.go:313-317`).
- The all-failed error is `fmt.Errorf(errBuilder.String())`, so the log is read as a format
  (`utils.go:317`). The error equals the log only when no failure text holds a `%`. The model
  keeps this behaviour; see "## Findings".

## Model

| member | source | states |
|---|---|---|
| ClaimStatus.GetClaimStatus | shared/services/rewards/utils.go:41-90 | A failed index query returns its error and reads nothing. An index of 0 gives two empty lists and reads no word. Otherwise the buckets `0..currentIndex/256` are read in order, each once, stopping at the first failed read. The lists are exactly the claimed and unclaimed intervals below the covered limit. |
| ClaimStatus.ClassifyBuckets | shared/services/rewards/utils.go:56-87 | The outer bucket loop reads each bucket's word once, in order, and stops at the first failed read. It keeps the lists built so far and returns that read's error. |
| ClaimStatus.ClassifyBucket | shared/services/rewards/utils.go:67-86 | The inner loop appends each index of the bucket below `currentIndex`, in ascending order, to `claimed` if its bit is set and to `unclaimed` otherwise. |
| ClaimStatus.MaskTest | shared/services/rewards/utils.go:74-79 | The test `bitmap AND (1 << j) == 1 << j` holds exactly when bit `j` of the word is set. |
| ClaimStatus.FirstFailedBucket | shared/services/rewards/utils.go:57-66 | Gives the first bucket whose storage read fails. Every earlier read succeeds. |
| ClaimStatus.SelectMembership | shared/services/rewards/utils.go:67-85 | Index `i` is in the list for `claimed` iff `i < n` and bit `i % 256` of the word of bucket `i / 256` says `claimed`. |
| ClaimStatus.SelectAscending | shared/services/rewards/utils.go:57-86 | Both lists are strictly ascending. |
| ClaimStatus.SelectPartition | shared/services/rewards/utils.go:56-86 | The two lists are disjoint, cover every index below `n`, and have lengths summing to `n`. |
| ClaimStatus.ClassifiedMembership | shared/services/rewards/utils.go:67-85 | The bucket-by-bucket, bit-by-bit enumeration holds exactly the indices below its bound whose bit matches. |
| ClaimStatus.ClassifiedAscending | shared/services/rewards/utils.go:57-86 | The enumeration is strictly ascending. |
| ClaimStatus.ClassifiedCount | shared/services/rewards/utils.go:57-86 | The claimed and unclaimed enumerations together have one entry per index below the bound. |
| BlockLocator.FirstCandidate | shared/services/rewards/utils.go:197-202 | The first probe is `latest - (latest - deploy)/2`. It lies between the deployment block and the latest block, at their midpoint rounded toward the latest block. |
| BlockLocator.HalfUp | shared/services/rewards/utils.go:238 | Halving the pivot rounds up. It never reaches 0 from a positive pivot and strictly shrinks any pivot above 1. |
| BlockLocator.Pivot | shared/services/rewards/utils.go:208-238 | The pivot after `k` halvings of the first pivot never grows and stays positive. |
| GoInts.U64 | shared/services/rewards/utils.go:208 | `big.Int.Uint64` is the low 64 bits of the magnitude, below 2^64. |
| GoInts.Int64 | shared/services/rewards/utils.go:241-244 | `int64(pivotSize)` wraps a `uint64` to a signed 64-bit value. |
| BlockLocator.ClampLimit | shared/services/rewards/utils.go:247-250 | `latest.Uint64() - 1` in `uint64` arithmetic: one below the latest block, wrapping to 2^64 - 1 at 0. |
| BlockLocator.ProbeWithinChain | shared/services/rewards/utils.go:197-252 | With the deployment block at or below the latest block, every probe lies between block 0 and the latest block. Every probe after the first lies at most at `latest - 1` after clamping. |
| BlockLocator.Closest | shared/services/rewards/utils.go:218-221 | The block the search keeps is one of the probes so far. |
| BlockLocator.ClosestIsFirstMinimum | shared/services/rewards/utils.go:218-221 | The kept probe is no farther from the target than any probe. It is strictly closer than every probe before it, so a tie keeps the earlier-visited block. |
| BlockLocator.ImprovesIffCloserThanAll | shared/services/rewards/utils.go:219-221 | A probe replaces the kept block iff it is strictly closer than every earlier probe, so the recorded minimum distance strictly decreases on each replacement. |
| BlockLocator.ClosestOfPrefix | shared/services/rewards/utils.go:218-221 | The block kept after `n` probes does not depend on later probes. |
| BlockLocator.ProbeTracePrefix | shared/services/rewards/utils.go:212-256 | Every prefix of the probe sequence is itself a run of the probing schedule. |
| BlockLocator.ProbeFetched | shared/services/rewards/utils.go:203-255 | Probe `k` was fetched at the number the schedule gives after the probes before it, and carries the timestamp the client returned. |
| BlockLocator.ContinuesOfPrefix | shared/services/rewards/utils.go:219-235 | Whether the loop goes on after probe `k` depends only on the probes up to `k`. |
| BlockLocator.WentOnIndexed | shared/services/rewards/utils.go:212-256 | The loop went on after every probe iff each probe improved or left the pivot above 1. |
| BlockLocator.StopIsFinal | shared/services/rewards/utils.go:222-235 | Once the loop stops, it does not go on after any later probe. |
| BlockLocator.Evaluate | shared/services/rewards/utils.go:214-235 | One round keeps the probe when it is strictly closer or is the first. Otherwise the round stops exactly when the pivot is 1. |
| BlockLocator.Advance | shared/services/rewards/utils.go:237-255 | A round that goes on halves the pivot, steps toward the target, clamps, and fetches the scheduled block, keeping the loop state. |
| BlockLocator.GoesOn | shared/services/rewards/utils.go:237-250 | When a round goes on, the next block it fetches is the one the schedule gives. |
| BlockLocator.ProbeSearch | shared/services/rewards/utils.go:197-256 | The probing loop fetches exactly the scheduled blocks. It ends either with the fetch error after rounds that all went on, or when the pivot is 1 and the last probe did not improve, returning the closest probe and the last probe. |
| BlockLocator.ScanBack | shared/services/rewards/utils.go:224-233 | Starting from a probe later than the target, it fetches the blocks before it one at a time. It returns the first one not later than the target, or the first fetch error. |
| BlockLocator.ScanEndsAtCrossing | shared/services/rewards/utils.go:224-233 | A successful scan returns a block not later than the target, whose successor is later than the target. |
| BlockLocator.GetELBlockHeaderForTime | shared/services/rewards/utils.go:181-257 | The search as written. Failed latest-header and deployment-block queries are returned as errors. Otherwise, when the last probe is not later than the target, the result is the closest probe. When it is later, the result is the scan back from that last probe. |
| BlockLocator.ReturnsBlockAfterTarget | shared/services/rewards/utils.go:219-234 | Finding (as written): with blocks 0 at time 0 and 1 at time 10, latest 1, deployment 0 and target 5, the search returns block 1, which is later than the target. |
| BlockLocator.GetELBlockHeaderBeforeTime | shared/services/rewards/utils.go:180-257 | Corrected search, with the scan starting from the kept block. Whenever it succeeds, its block is not later than the target and is the header the client returns for that number. |
| BlockLocator.CorrectedBeforeTarget | shared/services/rewards/utils.go:180-234 | Every successful outcome of the corrected search is a fetched block not later than the target. |
| BlockLocator.CorrectedReturnsBlockBeforeTarget | shared/services/rewards/utils.go:180-234 | On the finding's input, the corrected search returns block 0 at time 0. |
| Intervals.GetRewardSnapshotEvent | shared/services/rewards/utils.go:165-178 | Succeeds iff the lookup succeeded and found the event, which is then returned unchanged. A not-found event is the error "interval %d event not found". A lookup failure is wrapped with the interval. |
| Intervals.GetIntervalInfo | shared/services/rewards/utils.go:93-162 | The record carries the interval index and consistent flags: a node is found only in a valid file, a file is valid only if it exists, and amounts are present iff the node was found. The file exists iff the event was obtained and the file is not missing. A found node is in the file's map. |
| Intervals.PrehistoryIgnoresLookup | shared/services/rewards/utils.go:97-106 | For Prater intervals below 6, the event comes from the hard-coded table. The outcome of the event lookup plays no part, and no event error can arise. |
| Intervals.EventErrorStopsEarly | shared/services/rewards/utils.go:100-106 | Outside the table, a failed or not-found event is returned as an error, and the record holds only the index. |
| Intervals.MissingFileIsNoError | shared/services/rewards/utils.go:108-120 | A missing tree file gives no error. Only the index, CID, start and end times and path are set, and every flag is false. |
| Intervals.RootMismatchIsInvalid | shared/services/rewards/utils.go:136-141 | A file whose root differs from the event's root gives `MerkleRootValid = false` and `NodeExists = false`, no amounts, no proof and no error. |
| Intervals.ValidFileNodeLookup | shared/services/rewards/utils.go:142-159 | In a valid file, `NodeExists` is whether the node has an entry. An absent node gives no error. A present node's three amounts are copied unchanged, with its decoded proof or the proof-decoding error. |
| Intervals.NoErrorMeansChecked | shared/services/rewards/utils.go:93-162 | A result without error had an event whose fields it carries, a missing or decoded file, and a valid root exactly when the decoded file's root matches. |
| RewardsDownload.AttemptSpec | shared/services/rewards/utils.go:280-306 | One source succeeds iff its GET returned status 200, its body was read and, for a URL ending in the IPFS extension, it decompressed. Only such URLs are decompressed. A failure names its URL. |
| RewardsDownload.Download | shared/services/rewards/utils.go:280-306 | The per-URL steps give the source's outcome. A GET error gives a transport failure with its cause. A status other than 200 gives a status failure with the status text. A failed body read gives a read failure. For a URL ending in the IPFS extension, a failed decompression gives a decompression failure. Otherwise the result is the body, decompressed exactly when the URL has the extension. Every failure names its URL. |
| RewardsDownload.FirstDownload | shared/services/rewards/utils.go:279-314 | Gives the first source whose attempt succeeds. Every source before it failed. |
| RewardsDownload.TrySources | shared/services/rewards/utils.go:277-317 | The loop tries the URLs in order up to the first success and writes that source's bytes. A write error is returned at once without trying later sources. If none succeeds, every URL was tried and the error is what `fmt.Errorf` makes of the log of all failures in order, used as a format string. |
| RewardsDownload.DownloadRewardsFile | shared/services/rewards/utils.go:260-319 | A path-expansion failure is wrapped as "error expanding rewards tree path" and no URL is fetched. Otherwise the primary, secondary and GitHub URLs are tried in that order. The result is the outcome of the first success, or the all-failed error `fmt.Errorf` makes of the log. |
| RewardsDownload.OutcomeAtFirstDownload | shared/services/rewards/utils.go:298-313 | At the first source that succeeds, the result is the write of its bytes: saved, or the write error. |
| RewardsDownload.OutcomeAllFailed | shared/services/rewards/utils.go:317 | When no source succeeds, the error is `fmt.Errorf` applied to the log of every failure, with the log as the format string. |
| RewardsDownload.DownloadTriesInOrder | shared/services/rewards/utils.go:277-317 | The result is "all failed" iff every source failed. A saved file's bytes are those of the first source that succeeded. |
| RewardsDownload.AllFailedMessageInOrder | shared/services/rewards/utils.go:271-317 | When all three sources fail, the log is the primary's, the secondary's and GitHub's failure lines, in that order, each naming its URL. The error is `fmt.Errorf` of that log. When no failure field holds a `%`, the error is the log itself. |
| RewardsDownload.AllFailedLog | shared/services/rewards/utils.go:277-304 | When three URLs all fail, the log holds exactly their three failures in order, each naming its URL. Its text is the three lines one after the other. |
| RewardsDownload.TextAvoids | shared/services/rewards/utils.go:282-303 | When no field of a failure (URL, cause or status) holds a line break, its message holds none. The same holds for `%`. |
| RewardsDownload.PercentInCauseIsRewritten | shared/services/rewards/utils.go:317 | Finding (as written): the primary's GET fails with cause `bad %s` and all sources fail. The log then holds `bad %s`, but the error holds `bad %!s(MISSING)` in its place, so the error differs from the log. |
| RewardsDownload.IntendedMessageInOrder | shared/services/rewards/utils.go:271-317 | Corrected all-failed error: with the log as the error, three failed sources give exactly their three lines in order, whatever the failures hold. This agrees with the source's outcome when no failure holds a `%`. |
| GoFmt.Missing | shared/services/rewards/utils.go:317 | A verb with no operand writes `%!`, the verb, and `(MISSING)`. |
| GoFmt.Directive | shared/services/rewards/utils.go:317 | One directive after a `%` always consumes at least one character unless the format has ended. At the end of the format it writes `%!(NOVERB)`. `%%` writes `%`. A plain verb `v` writes `%!v(MISSING)`. |
| GoFmt.FormatCopiesText | shared/services/rewards/utils.go:317 | A stretch of the format without `%` is copied unchanged into the output. |
| GoFmt.ErrorfWithoutPercent | shared/services/rewards/utils.go:317 | A format string without `%` is its own `fmt.Errorf` message. |
| GoFmt.FirstDirective | shared/services/rewards/utils.go:317 | The output is the text before the first `%`, then what that directive writes, then the rest of the format from where the directive ended. |
| GoFmt.PlainVerbRewritten | shared/services/rewards/utils.go:317 | After a prefix without `%`, a plain verb `%v` is replaced by `%!v(MISSING)`, and formatting goes on right after the verb. |
| GoFmt.PlainVerbChangesText | shared/services/rewards/utils.go:317 | A format holding a plain verb (other than `!`) after its first `%` does not come out unchanged. |
| GoFmt.EscapedPercentExample | shared/services/rewards/utils.go:317 | `100%%` formats to `100%`. |
| GoFmt.MissingVerbExample | shared/services/rewards/utils.go:317 | `bad %v` formats to `bad %!v(MISSING)` for every plain verb `v`. |
| RewardsDownload.LineIsOneLine | shared/services/rewards/utils.go:282-303 | Each failure message whose fields hold no line break is exactly one newline-terminated line. |
| MinipoolBond.GetMinipoolBondAndNodeFee | shared/services/rewards/utils.go:377-405 | The bond is the current or the previous bond, and the fee the current or the previous fee. The fee is 0 only if the current fee is. A bond other than the current one is chosen only for a reduced minipool at a block before the reduction. |
| MinipoolBond.NeverReducedIsCurrent | shared/services/rewards/utils.go:388-391 | A reduction time of 0 gives the current bond and fee. |
| MinipoolBond.BeforeReductionIsPrevious | shared/services/rewards/utils.go:392-400 | A block strictly before the reduction gets the previous bond, and the previous fee, or the current fee when the previous fee is 0. |
| MinipoolBond.AtOrAfterReductionIsCurrent | shared/services/rewards/utils.go:393-404 | A block at the reduction time or later, including equal times, gets the current bond and fee. |
| MinipoolBond.CurrentStaysInForce | shared/services/rewards/utils.go:388-404 | Once the current bond and fee are in force at a block time, they stay in force at every later block time. |
| MinipoolBond.SameBeforeReduction | shared/services/rewards/utils.go:393-400 | All blocks before the reduction get the same bond and fee. |

## Findings

| source | as written | input that shows it | evidently intended | confidence | as-written member | corrected member |
|---|---|---|---|---|---|---|
| shared/services/rewards/utils.go:180-234 | The backward scan starts from the last probed block, but the returned header is the kept block. When the last probe is not later than the target but the kept block is, the kept block is returned although it was created after the target. | Blocks 0 at time 0 and 1 at time 10, latest block 1, deployment block 0, target time 5. Both probes are 5 seconds away, the first (block 1) is kept, and block 1 is returned. | The function's own comment promises "the latest EL block that was created before the given timestamp". Scanning back from the kept block returns block 0. | medium; not executed | BlockLocator.ReturnsBlockAfterTarget | BlockLocator.GetELBlockHeaderBeforeTime |
| shared/services/rewards/utils.go:317 | `fmt.Errorf(errBuilder.String())` passes the log of failures as the format string, with no operands. Go's printf check (`go vet`) reports this as a non-constant format string. Any `%` in a URL, a status or an error text is read as a directive. | All three sources fail, and the primary's GET fails with the cause `bad %s`. The log holds `bad %s`, but the error holds `bad %!s(MISSING)`. | The error is the log verbatim, as `errors.New(errBuilder.String())` or `fmt.Errorf("%s", errBuilder.String())` would give it. | high; not executed | RewardsDownload.PercentInCauseIsRewritten | RewardsDownload.IntendedMessageInOrder |

## Left out

- `GetCidForRewardsFile` and `decompressFile` (`utils.go:322-374`) wrap the zstd and IPFS DAG libraries, which are not part of this model. Decompression is a parameter, `decompress`, an arbitrary function that may fail.
- HTTP requests, `os.Stat`, `os.ReadFile`, `os.WriteFile`, JSON decoding, `homedir.Expand`, `filepath.Base`, `common.HexToHash`, proof decoding and Keccak storage-key hashing are parameters of the operations. They are not modelled.
- The rewards-index query and the latest-header and deployment-block queries are inputs, given as their `Result`.
- BlockLocator.GetELBlockHeaderForTime: timestamps are whole seconds compared exactly. The source's `float64` distances and `math.Inf` are replaced by `nat` distances and a "no distance yet" state.
- BlockLocator.GetELBlockHeaderForTime: requires that the client fails for negative block numbers. It also requires a first pivot other than 0, because with pivot 0 the Go loop never stops. Big-integer arithmetic below block 0 is not modelled further.
- BlockLocator.GetELBlockHeaderForTime: optimality is proved only among the probed blocks, not among all blocks between deployment and head. With non-monotonic timestamps, no stronger optimality holds.
- BlockLocator.HalfUp: models `uint64(math.Ceil(float64(pivotSize) / 2))` as `(p + 1) / 2`. The two agree only for pivots up to 2^53. Above that, `float64` rounding differs: for p = 2^53 + 1, Go gives 2^52 and the model gives 2^52 + 1. Pivots are bounded by the chain height.
- BlockLocator.ProbeWithinChain: the search does request negative block numbers. For example, with latest block 8, deployment block 0, a target at block 0's time and timestamps rising with the number, it probes 4, 2, 1, 0 and then -1. The model assumes the client fails for every negative number (`NoBlockBelowZero`), and "every probe lies at or above block 0" holds only under that assumption. The go-ethereum client sends -1 as the "pending" block and other small negatives as named blocks, so the Go program may go on where the model reports the fetch error.
- BlockLocator.GetELBlockHeaderForTime: a header is assumed to carry the number it was requested by. `utils.go:208` takes the first pivot from `candidateBlock.Number`, and the model uses the requested number.
- ClaimStatus.GetClaimStatus: requires the current index to be below 65536, which the source states as guaranteed by the contract. Words are unbounded naturals, as `big.Int` values are.
- MinipoolBond.GetMinipoolBondAndNodeFee: block time is whole Unix seconds. The overflow of `time.Time` for reduction times near 2^63 seconds is not modelled beyond the `Int64` conversion.
- GoFmt.Errorf: strings are sequences of characters, so invalid UTF-8 bytes in a failure text are not represented. Width, precision and argument-index syntax is modelled as Go parses it. Only the text written for operand-less directives is modelled, because the call has no operands.
- The lazily initialised global `zero` (`utils.go:37-38, 383-386`) is the constant 0.
- Logging, goroutines and the deferred `resp.Body.Close` have no counterpart.
- The remaining files of the repository (tree generation job, CLI commands, gas and fee helpers, addon configuration) are not part of this model.
