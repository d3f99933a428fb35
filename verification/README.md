# Verification of the harness's stateful cores

This project models the parts of the repository that hold protocol state, loop
invariants or exact arithmetic, and proves what they are for. Each core is a
few Dafny modules; `Prelude`, `Bytes` and `Runs` hold what they share. Check
everything with `dafny verify dfyconfig.toml`.

| core | modules |
|---|---|
| Streaming residue matcher of the artifact scanner | `Matcher`, `ScannerRules`, `Cutting`, `WideHomes`, `ScannerHost`, `ApprovedSpans`, `GoRecords`, `ScannerPolicy`, `ScannerFinds` |
| Symbolic-link check and tar framing of the scanner | `SymlinkResolver`, `EndlessLinks`, `TarPreflight` |
| Deterministic ZIP writer and CRC-32 | `ReleaseZip`, `Crc32` |
| Escaped paths and the packaged inventory | `SafePaths` |
| Session database: leases, ledger, indexed columns, journal | `SessionTables`, `SessionDb`, `TurnLeases`, `SessionLedger`, `SessionReads` |
| Attestation evidence across crashes | `TurnEvidence`, `EvidenceOrder`, `Attestation` |
| Per-session turn serializer | `SessionChains` |
| Model-call budget of a logical segment | `SegmentBudget` |
| Receipt folding and recovery check | `NativeReceipts`, `RecoveryTarget` |
| Event-stream consumer of the drive command | `DriveSse`, `SseBlocks` |

How the models are built:

- Objects that update fields are classes (`Matcher`, `SessionDb`,
  `AttestationWriter`, `Coordinator`, `SessionTurnChains`, `DriveSseManager`,
  `ReceiptList`, `ModelCallBudget`); each method's contract equates the new
  state with a step function of the old one, and the properties are lemmas
  about that function over whole runs. Loops are methods with invariants.
- Tables are maps and sequences, files are byte or line sequences. What the
  store, the clock, the network, the library codecs, a hash or a provider would
  answer is a parameter: an attempt oracle, a `Codec`, a `Parser`, a `Decoder`,
  a `Host`, a `Driver`. Interleavings, other writers and crashes are events of a
  run.
- Money is `real`, so rounding is not modelled. Fixed-width fields and shifts
  are: little-endian fields throw when too wide, CRC registers are `bv32`, the
  stored file mode keeps its low sixteen bits.

Where a promise turned out not to hold on all inputs, the model keeps the code
as it is, shows an input, and proves when the promise does hold:

- The UTF-16 home-root decision reads 4108 or 4110 bytes from its start, more
  than the 4097 that an undecided occurrence is sure to have. `Utf16HomeSplits`
  gives a 4100-byte input on which reading in two pieces misses a builder home.
  `HomeCuttingIff` is the exact condition for any input, read off the first and
  the last account that each occurrence can show; `PolicyCuttingIff` carries it to
  the whole list of patterns that a feed scans.
- A package with an undecodable byte in a file name is refused although nothing is
  wrong with it: the scanner hashes that byte, the release check what the runtime
  puts in its place (`ByteNamed`, `UndecodableRefused`). Both hash the same bytes
  exactly when the label holds no surrogate (`SameBytesIff`), and
  `ScannedInventoriesPair` says exactly which packages are accepted.
- A link can be flagged cyclic although its resolution ends (`CyclicMayEnd`).
  `CyclicIffRevisits` says exactly when it is flagged, `EndlessIff` exactly when
  it never ends, and what never ends is flagged (`EndlessIsCyclic`).
- `assertZipLimits` is necessary but does not cover name lengths or offsets
  (`LimitsNecessary`, `LimitsMissLongNames`). `Representable` is the exact
  condition for `buildZipBytes` to return.
- The lease of a bound write is checked before the retries, so the write can
  commit after another owner has acquired the turn (`LateWriteLands`).
  `DecidedWithoutLease` says exactly when: another writer's statement in between
  has taken the turn, which a rival's can only once the lease is due (`LossIff`).
- A boot repair can give a turn a second row (`BlindRepairDoubles`): exactly when
  it reads a record of the turn while the turn's row lies only in files that it
  cannot read (`SecondRowIff`, `BootKeepsOnceIff`).
- A summary without a price can be left out of a segment's price (`SummaryHidden`),
  contrary to the rule in `pricedTotal` that an unpriced part makes the total
  unknown: exactly when the drive behind it is priced and nothing later is
  unpriced (`SegmentPriceIff`).
- A pivot back can render events again (`ReturnReplays`): exactly when something
  of that session has been rendered before (`PivotSafeIff`).
- Cache tokens of a compaction are in its receipt but in no session total
  (`CompactionHidesCache`). The totals are the sums over the receipts exactly when
  no compaction since the session's creation reported any (`CacheTotalsIff`).

One result is conditional: the drive command renders blocks of workflow events, but
no server sends such blocks on this stream yet (`driveCommand.ts:841-847`). Once one
does, a reconnect will deliver a block again exactly when nothing known came behind
it (`ReconnectRedelivers`).

## Model

| member | source | states |
|---|---|---|
| Matcher.Next | scripts/fresh_install/scanner.py:73 | the searched index is the first occurrence at or behind the start, and there is none if nothing is found |
| Matcher.Matcher.ScanNeedle | scripts/fresh_install/scanner.py:70-83 | the inner loop adds the rule exactly when some occurrence it stops at is at or behind the context, below the cutoff, and decided |
| Matcher.Matcher.Feed | scripts/fresh_install/scanner.py:59-102 | one feed carries exactly the held-back window on and adds exactly the rules that its scans report |
| Matcher.ScanChunks | scripts/fresh_install/scanner.py:263-288 | the reading loop fails exactly when the expanded-byte limit, or while spooling the temporary-byte limit, is passed, finds what the stream finds in these pieces, and what one final feed finds if each pattern is independent of the cutting |
| Matcher.TailBounded | scripts/fresh_install/scanner.py:59-102 | for any patterns and any chunks the carried tail is the end of the input, never exceeds 4352 bytes, and the decided frontier never moves back |
| Matcher.ScanSound | scripts/fresh_install/scanner.py:70-99 | where the slice judges its occurrences as the whole input does, a rule reported from it has an occurrence that is decided on the whole input |
| Matcher.ScanCatches | scripts/fresh_install/scanner.py:70-99 | in such a slice a decided occurrence newly covered is reported, or one before the frontier already was |
| Matcher.ScanCovers | scripts/fresh_install/scanner.py:64-99 | a scan of such a slice moves the set of rules from those decided below the old frontier to those decided below the new one |
| Matcher.FeedCarries | scripts/fresh_install/scanner.py:100-102 | what is carried after a feed depends only on the input so far, not on how it was cut |
| Matcher.WholeFinds | scripts/fresh_install/scanner.py:59-102 | one final feed finds exactly the rules with a decided occurrence anywhere in the input, however far the decisions look |
| Matcher.ChunkingIrrelevant | scripts/fresh_install/scanner.py:54-102 | for every way of cutting an input on which the decisions fit the window, the same rules are found as by one final feed |
| Matcher.FindsApart | scripts/fresh_install/scanner.py:64-99 | a list of patterns finds, in any pieces, the union of what its patterns find one by one |
| Matcher.ListIndependent | scripts/fresh_install/scanner.py:64-102 | a list is independent of the cutting wherever each of its patterns is |
| Matcher.ListFinds | scripts/fresh_install/scanner.py:64-99 | in any pieces, a list finds a rule exactly when one of its patterns does |
| ScannerRules.HomeTame | scripts/fresh_install/scanner.py:84-99 | in a one-byte encoding a home root fits the window, and of two abutting roots the earlier one counts |
| ScannerRules.PrivateCheckoutTame | scripts/fresh_install/scanner.py:76-80 | the private-checkout decision fits the window for any decoder and character test |
| ApprovedSpans.SpanWindowed | scripts/fresh_install/scanner.py:104-209 | for any exceptions of at most 120 characters, what the approved-span decision says depends on nothing but the 256 bytes behind the occurrence and the 4097 from it on |
| ApprovedSpans.OperatorNamespaceTame | scripts/fresh_install/scanner.py:81-82 | so the rule on the operator's namespace fits the window on every input |
| ApprovedSpans.OneLength | scripts/fresh_install/scanner.py:150-174 | whatever lengths a Go import name is claimed to have, at most one is accepted: no length makes a boundary inside the path |
| ApprovedSpans.OneRecord | scripts/fresh_install/scanner.py:150-174 | a name is never accepted both behind a one-byte and behind a two-byte length |
| Cutting.StreamFindsIt | scripts/fresh_install/scanner.py:59-102 | a run that decides an occurrence for its rule, with no earlier one overlapping it, finds exactly that rule |
| Cutting.StreamFindsNothing | scripts/fresh_install/scanner.py:59-102 | a run in which every feed decides every occurrence against the rule finds nothing |
| Cutting.ChunkingMatters | scripts/fresh_install/scanner.py:59-102 | whatever a pattern decides and however often its needle occurs, every cut finds the same where some occurrence that no earlier one overlaps is decided for the rule in every window, or all are decided against it in every window; with one occurrence, nowhere else |
| Cutting.SilentCut | scripts/fresh_install/scanner.py:59-102 | patterns whose occurrences can each be decided against the rule by a feed that reaches no later one are all missed by one and the same cut |
| WideHomes.Utf16Inverts | scripts/fresh_install/scanner.py:78-93 | in either byte order the encoding of section 2.1 of RFC 2781 decodes to the character it is of |
| WideHomes.Utf16PassesOver | scripts/fresh_install/scanner.py:78-93 | and a surrogate without its partner, or an odd last byte, to nothing |
| WideHomes.Gradual | scripts/fresh_install/scanner.py:92 | one more byte of UTF-16 decodes, with errors ignored, to at most one more character behind the others |
| WideHomes.SureIff | scripts/fresh_install/scanner.py:91-98 | an account names a builder for every amount read exactly when it is there from the least amount on and cannot be the runner's in between |
| WideHomes.IdleIff | scripts/fresh_install/scanner.py:91-98 | an account names no builder for any amount read exactly when it never grows and is empty or the runner's |
| WideHomes.HomeCuttingIff | scripts/fresh_install/scanner.py:84-102 | for any input, with any number of occurrences, what a UTF-16 home root finds is independent of the cutting exactly when some occurrence is sure or all are idle |
| WideHomes.UnsureCut | scripts/fresh_install/scanner.py:84-102 | any number of UTF-16 home roots without a sure occurrence, whose occurrences share no byte, are all missed by one cut |
| WideHomes.EnoughSettles | scripts/fresh_install/scanner.py:91-97 | it is enough that every occurrence shows the end of its account, or more of it than the runner's name, in what every window shows |
| WideHomes.Utf16HomeSplits | scripts/fresh_install/scanner.py:84-102 | a concrete UTF-16 input whose builder home is found whole and missed in two pieces |
| ScannerPolicy.NeedleTame | scripts/fresh_install/scanner.py:67-83 | every needle of every rule fits the window in all three encodings, on every input |
| ScannerPolicy.PolicyWhole | scripts/fresh_install/scanner.py:64-99 | with the whole list of patterns of all encodings, one final feed finds exactly the rules with a decided occurrence |
| ScannerPolicy.PolicyCutting | scripts/fresh_install/scanner.py:54-102 | the whole list finds the same for every cut wherever the UTF-16 home roots are all settled, and wherever any other pattern finds a builder home |
| ScannerPolicy.PolicyCuttingIff | scripts/fresh_install/scanner.py:54-102 | and nowhere else, unless unsettled roots of opposite byte orders share a byte of the input |
| ScannerPolicy.PolicyCuttingEnough | scripts/fresh_install/scanner.py:54-102 | all of them are settled where each UTF-16 home occurrence shows enough of its account within 4097 bytes |
| ScannerFinds.PolicyFinds | scripts/fresh_install/scanner.py:59-99 | a rule is found exactly when a needle of it stands somewhere in some encoding and counts there, its neighbours and clearances written out, or, for builder-home, when a home root with an account that is not the runner's does |
| ScannerFinds.InTextMeans | scripts/fresh_install/scanner.py:176-209 | a name is approved in text exactly when an exception's text stands around it, with no letter, digit or one of `._/@-` in front, no letter, digit or one of `._-` behind, nor `@` behind github or `/` behind `@`, and no long binary length in front of a github.com text |
| ScannerFinds.NamespaceFound | scripts/fresh_install/scanner.py:82-209 | with one exception whose text stands around the only occurrence, the operator's namespace is found exactly when such a neighbour is there |
| ScannerFinds.CheckoutFound | scripts/fresh_install/scanner.py:77-82 | the only occurrence of a private checkout is found exactly when no letter or digit is in front of it and none, nor one of `._-`, behind it |
| ScannerFinds.SpanMeans | scripts/fresh_install/scanner.py:104-121 | the approved span is what is published as it stands, in UTF-8 what is compiled into a Go record, and in UTF-16 what is published in the other byte order one byte aside |
| GoRecords.RecordMeans | scripts/fresh_install/scanner.py:150-174 | a text is approved as an import name exactly when it begins one that is written out behind a zero byte and its canonical length, in path elements, with nothing behind it that continues the path |
| GoRecords.SymbolMeans | scripts/fresh_install/scanner.py:138-149 | and as an equality symbol exactly when it stands behind `type:.eq.` between two NULs, or the start and a NUL, with path elements, type names and perhaps a scope number |
| GoRecords.PathSuffixMeans | scripts/fresh_install/scanner.py:167 | what the path expression matches is slashes and words, again and again |
| SymlinkResolver.NormRefusesIff | scripts/fresh_install/scanner.py:45-51 | a name is refused exactly when it is empty, absolute, has a backslash or a drive letter, or climbs |
| SymlinkResolver.NoTargetIff | scripts/fresh_install/scanner.py:603-610 | a link has no target exactly when what it holds starts with a separator or the joined name is such a name |
| SymlinkResolver.ForeignTargets | scripts/fresh_install/scanner.py:45-51 | a backslash anywhere, or a drive letter in front of an absolute one, takes a link's target away |
| SymlinkResolver.TargetsMean | scripts/fresh_install/scanner.py:603-610 | of several links with one name the last that has a target decides |
| SymlinkResolver.NormClean | scripts/fresh_install/scanner.py:45-51 | a normalised name is relative, never empty, and has no empty or parent component |
| SymlinkResolver.NormRefusesClimbs | scripts/fresh_install/scanner.py:45-51 | a relative name is refused exactly when its walk climbs above its start at some point |
| SymlinkResolver.NormKeepsNormal | scripts/fresh_install/scanner.py:45-51 | a name that is already normal stays as it is |
| SymlinkResolver.DetoursCancel | scripts/fresh_install/scanner.py:48 | going into a directory and out again, or staying, changes nothing |
| SymlinkResolver.RelativeTarget | scripts/fresh_install/scanner.py:605 | a relative target is walked from the directory that holds the link, or from the root if the link's own name was refused |
| SymlinkResolver.LinkPrefixShortest | scripts/fresh_install/scanner.py:616-617 | the prefix taken is the shortest one that is a link |
| SymlinkResolver.ResolveLink | scripts/fresh_install/scanner.py:614-625 | the while loop ends, because it only adds links to the ones seen, and computes the resolution |
| SymlinkResolver.CyclicIffRevisits | scripts/fresh_install/scanner.py:614-625 | a link is flagged cyclic exactly when its resolution comes to replace a link it has already replaced |
| SymlinkResolver.EndsLinkFree | scripts/fresh_install/scanner.py:614-625 | an unflagged link ends at a path without links after finitely many substitutions |
| SymlinkResolver.EndlessIsCyclic | scripts/fresh_install/scanner.py:614-625 | substitution that never ends is always flagged |
| SymlinkResolver.StaysClean | scripts/fresh_install/scanner.py:614-625 | no path on the way is absolute, has an empty component, or climbs |
| SymlinkResolver.UnflaggedEnds | scripts/fresh_install/scanner.py:602-631 | a link that draws no complaint ends inside the root at a link-free path that is an entry or a directory of one |
| SymlinkResolver.CyclicMayEnd | scripts/fresh_install/scanner.py:618-620 | a concrete link that is flagged cyclic although its resolution ends |
| EndlessLinks.RecursEndless | scripts/fresh_install/scanner.py:614-625 | a link replaced again while everything behind its first occurrence is untouched makes the resolution endless |
| EndlessLinks.EndlessIff | scripts/fresh_install/scanner.py:614-625 | a resolution never ends exactly when some link is replaced again in that way |
| SymlinkResolver.EscapesMeans | scripts/fresh_install/scanner.py:604-610 | a path is found escaping exactly when one of its links has no target inside the root |
| SymlinkResolver.EveryLinkJudged | scripts/fresh_install/scanner.py:611-631 | a path is complained about or listed exactly when one of its links earns it |
| SymlinkResolver.ReportsMean | scripts/fresh_install/scanner.py:611-631 | a path is cyclic exactly when one of its links comes to replace a link again, broken exactly when one ends, without that, at a path that is no entry and has none below, and listed exactly when one ends so at a file |
| SymlinkResolver.ValidateLinks | scripts/fresh_install/scanner.py:602-631 | both loops report exactly these paths, the complaints in the order of the links |
| TarPreflight.OnlyZeros | scripts/fresh_install/scanner.py:475-481 | reading the tail in pieces decides whether all of it is zero |
| TarPreflight.Preflight | scripts/fresh_install/scanner.py:457-518 | the walk ends, and accepts exactly the streams that are padded members and then at least 1024 zero bytes, within the limits, reporting their number and foreign owners; any other is refused for its first fault |
| TarPreflight.WalkFrames | scripts/fresh_install/scanner.py:464-517 | an accepted stream splits into the members counted and a zero tail |
| TarPreflight.FramedWalks | scripts/fresh_install/scanner.py:464-517 | every framed stream within the limits is accepted |
| TarPreflight.WalkBreaks | scripts/fresh_install/scanner.py:464-518 | a refused stream has members within the limit and then the fault it is refused for, read off the first block there and the length |
| TarPreflight.BreaksWalk | scripts/fresh_install/scanner.py:464-518 | and one that has is refused for it |
| Crc32.BuildTable | scripts/release-zip.ts:57-61 | entry n of the table is n shifted eight times through the reflected polynomial |
| Crc32.ShiftLinear | scripts/release-zip.ts:59 | one shift is linear over exclusive or |
| Crc32.TableStepDivides | scripts/release-zip.ts:65 | one table step equals eight single-bit division steps of that byte |
| Crc32.TableFoldDivides | scripts/release-zip.ts:63-67 | folding the table step over a message equals dividing it bit by bit |
| Crc32.Checksum | scripts/release-zip.ts:63-67 | the loop returns the bit-serial CRC-32 of every byte sequence |
| Crc32.DetectsBursts | scripts/release-zip.ts:57-67 | two messages that differ only within 32 consecutive bits have different checksums |
| Crc32.StoredDetectsBursts | scripts/release-zip.ts:57-67 | so does the number that the headers store |
| ReleaseZip.WriteUInt | scripts/release-zip.ts:123-133 | a field write succeeds exactly when the value fits, reads back as the value, and leaves the fields before it alone |
| ReleaseZip.LocalHeader | scripts/release-zip.ts:121-135 | every field of the local header and its name, or a throw exactly when a field does not fit |
| ReleaseZip.CentralHeader | scripts/release-zip.ts:137-157 | every field of the directory record, its mode and local offset, or a throw exactly when a field does not fit |
| ReleaseZip.EndOfCentralDirectory | scripts/release-zip.ts:159-170 | every field of the end record, or a throw exactly when a count or offset does not fit |
| ReleaseZip.StoredMode | scripts/release-zip.ts:154 | the stored mode is the low sixteen bits of the mode with the regular-file bit set |
| ReleaseZip.RunningOffsets | scripts/release-zip.ts:176-179 | the reduce yields the prefix sums of the local record lengths |
| ReleaseZip.BuildLocals | scripts/release-zip.ts:174-175 | one local record per entry, or a throw exactly when some entry does not fit |
| ReleaseZip.BuildCentrals | scripts/release-zip.ts:180 | one directory record per entry at its own local offset |
| ReleaseZip.BuildZipBytes | scripts/release-zip.ts:173-188 | it returns exactly when the archive is representable; locals, directory and end record tile the buffer, and the strict reader recovers the entries in order |
| ReleaseZip.PartsTile | scripts/release-zip.ts:181-187 | the concatenated parts lie end to end where the offsets say |
| ReleaseZip.TiledReads | scripts/release-zip.ts:173-188 | a tiled archive reads back as its entries with no byte left over |
| ReleaseZip.OneArchive | scripts/release-zip.ts:172-188 | the archive is deterministic: the entries fix every byte of it |
| ReleaseZip.AssertZipLimits | scripts/release-zip.ts:89-103 | it accepts exactly the entry lists within both limits and names the first oversized entry |
| ReleaseZip.LimitsNecessary | scripts/release-zip.ts:88-103 | nothing that the guard refuses could have been written |
| ReleaseZip.LimitsMissLongNames | scripts/release-zip.ts:88-103 | an entry with a 65536-byte name passes the guard and cannot be written |
| SafePaths.Undoes | scripts/release-scan.ts:120-139 | originalPath undoes unicode_escape on every sequence of code points, as UTF-16 code units |
| SafePaths.OriginalPathUndoesSafe | scripts/fresh_install/scanner.py:35-42 | the release check reads back every path that the scanner neither redacted nor cut |
| SafePaths.ShortMeans | scripts/release-scan.ts:115-124 | a short escape is a backslash for itself, or one of `abtnvfr` for BEL to CR |
| SafePaths.DigitsMean | scripts/release-scan.ts:126-131 | a digit is read in either case, and printed in lower case |
| SafePaths.UnitsRead | scripts/release-scan.ts:130 | a code point beyond 0xffff becomes a high and a low surrogate with ten bits of it each, any other itself |
| SafePaths.SurrogateIff | scripts/release-scan.ts:149-151 | what the runtime replaces when it stands alone are the units that such pairs are made of |
| SafePaths.EscapedByteIff | scripts/fresh_install/scanner.py:261 | a byte that is not ASCII is escaped behind U+DC00, and the scanner hashes that byte again |
| SafePaths.Utf8Reads | scripts/fresh_install/scanner.py:261 | the bytes hashed for a code point are the shortest that read back to it by section 3 of RFC 3629 |
| SafePaths.Entries | scripts/release-scan.ts:140-165 | the loop yields the table or the first error of the specification |
| SafePaths.CollectTabulates | scripts/release-scan.ts:140-165 | the loop accepts exactly the inventories whose members are named, verified and unique, and its map holds exactly those members |
| SafePaths.FirstFault | scripts/release-scan.ts:140-165 | the loop refuses for the first entry at fault, with the first of its faults: outside the package, ambiguous, an escape out of range, unverified |
| SafePaths.OneRefusal | scripts/release-scan.ts:140-165 | and it is refused for a reason exactly when its first entry at fault has that one |
| SafePaths.IdentityTells | scripts/release-scan.ts:158-162 | identities are equal exactly when kind, hash, size and target are, and, but for Windows, the mode |
| SafePaths.VerifyPackagedInventory | scripts/release-scan.ts:110-173 | acceptance is equivalent to both receipts being clean and their non-directory members pairing off by path with equal identities and no duplicates; a refusal names the first reason |
| SafePaths.ComparedMeans | scripts/release-scan.ts:166-172 | equal sizes and equal entries mean exactly that the two inventories pair off |
| SafePaths.EscapeInjective | scripts/fresh_install/scanner.py:42 | different labels print differently |
| SafePaths.SameBytesIff | scripts/release-scan.ts:151-154 | the scanner's bytes of a label and the runtime's are the same exactly when the label holds no surrogate |
| SafePaths.ScannedInventoriesPair | scripts/fresh_install/scanner.py:255-261 | two clean receipts that the scanner wrote without redacting or cutting a label are accepted exactly when stage and archive have distinct labels without surrogates and the same members, label by label and identity by identity |
| SafePaths.UndecodableRefused | scripts/release-scan.ts:151-156 | a member whose label holds a surrogate is read back without loss and refused as unverified |
| SafePaths.ByteNamed | scripts/fresh_install/scanner.py:261 | the file name FF: one side hashes that byte, the other EF BF BD |
| SessionDb.SessionDb.WriteWithRetry | src/agent/sessionDb.ts:1341-1362 | a statement runs at most once however often the store is busy, on the tables that other writers have left by then, gives up after 15 busy attempts, and truncates the log every 50 counted writes |
| SessionDb.SessionDb.CreateLogicalTurn | src/agent/sessionDb.ts:347-355 | creating succeeds exactly when the store is reached and the turn is new |
| SessionDb.SessionDb.SaveLogicalTurn | src/agent/sessionDb.ts:368-392 | saving succeeds exactly for the lease owner; the query behind a failed update tells a missing turn from a lost lease, by what is there when it runs |
| SessionDb.SessionDb.AcquireLogicalTurnLease | src/agent/sessionDb.ts:404-415 | acquiring succeeds exactly when the turn exists and its lease is free, the caller's, or due, and leaves the turn with this owner and no other |
| SessionDb.SessionDb.RenewLogicalTurnLease | src/agent/sessionDb.ts:417-437 | renewing succeeds exactly for the owner of a lease that is not due, and a read-path renewal counts no write |
| SessionDb.SessionDb.ReleaseLogicalTurnLease | src/agent/sessionDb.ts:439-447 | releasing takes effect only as the owner's statement |
| SessionDb.SessionDb.ReplaceMessageContent | src/agent/sessionDb.ts:856-874 | a bound writer needs its lease when it asks; a replacement that names a turn commits only if nobody holds it when it is decided |
| SessionDb.SessionDb.SaveToolExecution | src/agent/sessionDb.ts:906-923 | past the lease check the upsert succeeds exactly when session and message are there, changes one key, and leaves a completed receipt against anything but a completed one |
| SessionDb.SessionDb.TruncateMessages | src/agent/sessionDb.ts:937-951 | past the lease check the truncation succeeds exactly when the store is reached, and is one statement |
| SessionDb.SessionDb.RecordUsageEstimate | src/agent/sessionDb.ts:1050-1093 | past the lease check totals and receipt are written together, exactly when the session is there when it is decided |
| SessionDb.SessionDb.RecordCompactionUsage | src/agent/sessionDb.ts:1105-1160 | past the lease check the compaction lane's totals and receipt are written together, with the receipt's or the supplied price |
| SessionDb.MayWriteIff | packages/sdk/src/agent/logicalTurn.ts:288-295 | a caller bound to no turn may write the transcript always, a bound one exactly while it holds its lease |
| SessionDb.LegacyCounts | src/agent/sessionDb.ts:1108-1124 | a price without a receipt counts exactly when it is finite and at least nothing, and as that |
| SessionDb.SessionDb.DeleteSession | src/agent/sessionDb.ts:600-624 | it reports whether the session existed and is one atomic delete |
| SessionDb.LossIff | src/agent/sessionDb.ts:404-447 | a statement takes a held turn from its owner exactly when it is a rival's acquisition of a due lease, the owner's release, or a delete or sweep of its session |
| SessionDb.DecidedWithoutLease | src/agent/sessionDb.ts:1341-1362 | a write that passed its lease check is decided without the lease exactly when a statement of another writer in between has taken the turn |
| SessionDb.LateWriteLands | src/agent/sessionDb.ts:856-874 | the store is busy until the lease is due, a rival acquires the turn, and the old owner's replacement still commits |
| TurnLeases.Exclusion | src/agent/sessionDb.ts:404-447 | from a successful acquire or renewal anywhere in a run until its lease runs out or is given up, over every interleaving, the turn stays held and no other owner acquires |
| TurnLeases.StaysFenced | src/agent/sessionDb.ts:368-447 | once an owner has lost the turn, in whatever way, nothing it saves, renews or releases takes effect until it acquires again |
| TurnLeases.Fencing | src/agent/sessionDb.ts:368-447 | from another owner's successful acquisition anywhere in a run on, the same holds for the old owner |
| TurnLeases.ReplaceOnlyWhenFree | src/agent/sessionDb.ts:856-874 | a replacement that names a turn commits exactly when the message exists and no owner holds the turn, and changes nothing else |
| SessionReads.StoredReadsBack | src/agent/sessionDb.ts:347-382 | a record that was created, or saved by the lease's owner, reads back with its columns until it is saved again or a delete or sweep takes turns away |
| SessionReads.OtherTurnsStay | src/agent/sessionDb.ts:347-447 | no other statement takes a turn away or changes a record that it does not name |
| SessionReads.LeaseTerms | src/agent/sessionDb.ts:404-437 | a successful acquire or renewal sets this owner and just this expiry, and leaves the record |
| SessionReads.ReleaseFrees | src/agent/sessionDb.ts:439-447 | a release keeps the turn and its record, clears both lease columns and nothing else, and whoever asks next acquires it whatever the clock says |
| SessionReads.MessageReadsBack | src/agent/sessionDb.ts:830-874 | a message that was saved or replaced reads back until it is replaced or a delete, sweep or truncation takes messages away |
| SessionReads.OneMoreMessage | src/agent/sessionDb.ts:827-850 | a saved message is one row more and one id further |
| SessionReads.OneMoreChild | src/agent/sessionDb.ts:1162-1173 | a lineage row is reported exactly when it is new |
| SessionReads.LanesAdd | src/agent/sessionDb.ts:1050-1160 | over every run a session's chat totals are what its usage records say, and its compaction totals what its compactions say, lane by lane, since its creation |
| SessionReads.ReceiptReadsBack | src/agent/sessionDb.ts:1050-1160 | each accepted post leaves its receipt last and the others as they were; a compaction's price that does not count is not kept |
| SessionReads.PhantomIff | src/agent/sessionDb.ts:458-477 | a session is a phantom exactly when no usage record since its creation gave it a token and no message is its |
| SessionReads.FewerSessions | src/agent/sessionDb.ts:458-562 | a sweep reports as many rows as there are sessions fewer |
| SessionReads.UpsertTells | src/agent/sessionDb.ts:906-920 | an upsert into the journal reports no row exactly when a completed row stands against one that is not, and then changes nothing; otherwise its row reads back and no other changes |
| SessionLedger.BackfillAgrees | src/agent/sessionDb.ts:78-91 | the migration makes the indexed columns agree with every readable record and touches nothing else |
| SessionLedger.StepKeepsColumns | src/agent/sessionDb.ts:347-382 | every statement keeps the indexed columns equal to the stored record's fields |
| SessionLedger.DeleteTurns | src/agent/sessionDb.ts:575-586 | a delete removes exactly the logical turns whose readable record names the session or a direct compacted child |
| SessionLedger.SweepTurns | src/agent/sessionDb.ts:535-586 | a sweep by kind removes exactly the turns whose readable record names a stale session or a direct compacted child of one |
| SessionLedger.CompactedChildGoes | src/agent/sessionDb.ts:575-586 | recording a compaction makes the parent's deletion take the child's turns along, and an ordinary child's turns stay |
| SessionLedger.DeleteLeavesNothing | src/agent/sessionDb.ts:588-624 | no row and no parent pointer is left that names the session, and every other session keeps its row but for that pointer, its messages, its receipts in order and its journal rows |
| SessionLedger.SweepLeavesNothing | src/agent/sessionDb.ts:535-562 | a sweep by kind leaves no row that names a stale session, brings nothing in, and leaves every other session as it was, even a parent pointer to a stale one |
| SessionLedger.PhantomLeavesNothing | src/agent/sessionDb.ts:458-477 | the sweep of phantom reviews deletes session rows only, yet leaves no row that names one and every other session as it was; it fails as a whole exactly when a lineage row names one |
| SessionLedger.StepBalances | src/agent/sessionDb.ts:1050-1160 | every statement keeps each session's totals equal to the sums over its receipts |
| SessionLedger.LedgerAllAlong | src/agent/sessionDb.ts:1050-1160 | from an empty database the ledger balances and the columns agree after every run of statements |
| SessionLedger.CompleteIff | src/agent/sessionDb.ts:1052-1056 | the cost counts as complete exactly when every receipt of the session is known |
| SessionLedger.CacheGap | src/agent/sessionDb.ts:1050-1160 | from an empty database, receipts exceed a session's cache totals by a gap that is nothing exactly when no compaction since its creation reported cache tokens |
| SessionLedger.CacheTotalsIff | src/agent/sessionDb.ts:1050-1160 | over every run, a session's cache totals are the sums over its receipts exactly when no compaction since its creation reported cache tokens |
| SessionLedger.CompactionHidesCache | src/agent/sessionDb.ts:1105-1160 | one compaction that reports a cached token puts agreeing totals one short of the receipts |
| SessionLedger.TruncateKeepsFirst | src/agent/sessionDb.ts:937-951 | a truncation keeps exactly the session's first messages up to the limit, each before any it drops, and everyone else's |
| SessionLedger.ReferencesAllAlong | src/agent/sessionDb.ts:106-113 | over every run journal rows refer to sessions and messages that are there, messages to sessions, and the ids in use have been given out |
| SessionLedger.BackedAllAlong | src/agent/sessionDb.ts:133-213 | over every run lineage rows and receipts name sessions that are there |
| SessionLedger.IdsRise | src/agent/sessionDb.ts:159-162 | an accepted message gets an id below every later one, whatever is deleted or truncated in between |
| SessionLedger.SpentStays | src/agent/sessionDb.ts:159-162 | an id that was given out and whose message is gone is never in use again |
| SessionLedger.StepKeepsCompleted | src/agent/sessionDb.ts:906-951 | a completed receipt leaves exactly when its session or its message does, that is by a delete or sweep of one of their sessions or a truncation that cuts the message off |
| SessionLedger.CompletedForGood | src/agent/sessionDb.ts:906-951 | over every run a completed receipt is never lost or reopened exactly when its session and its message are there all along |
| TurnEvidence.SettledOnce | src/attestation/turnEvidence.ts:96-165 | over every run with crashes and repairs anywhere, none of them blind to a row, no turn is ever given two rows |
| TurnEvidence.StepKeepsOnce | src/attestation/turnEvidence.ts:106-162 | each begin, sink, end, sweep, record, drain, close, crash and boot keeps every turn at one row at most |
| TurnEvidence.NeverMisattributed | src/attestation/turnEvidence.ts:106-162 | over every run, whatever is lost or cannot be read, no row names a session and turn that were not begun or recorded together |
| TurnEvidence.SettleCounts | src/attestation/turnEvidence.ts:114-131 | settling moves a turn's one row from pending to the queue, or drops it once the writer is closed |
| TurnEvidence.OrphansCount | src/attestation/repair.ts:94-108 | a repair names each recorded turn once, and none that has a row |
| TurnEvidence.RepairCompletes | src/attestation/repair.ts:76-118 | once a repair has drained, a turn of which it read a record has exactly one row, or two if it was blind to that turn's row |
| TurnEvidence.SecondRepairAddsNothing | src/attestation/repair.ts:76-118 | after a repair that read a record of every recorded turn, a second one finds nothing exactly when it is not blind to a row itself |
| TurnEvidence.RepairSurvives | src/attestation/repair.ts:19-26 | turns that begin before the repair has drained do not disturb it: a turn of which the boot read a record keeps its one row, on disk or in the queue |
| TurnEvidence.SecondRowIff | src/attestation/repair.ts:59-118 | a repair gives a recorded turn a second row exactly when a record of it is read while its row lies only in files that cannot be read |
| TurnEvidence.BootKeepsOnceIff | src/attestation/repair.ts:59-118 | a boot keeps every turn at one row exactly when there is no such turn |
| TurnEvidence.BlindRepairDoubles | src/attestation/repair.ts:59-66 | a concrete directory, with the record readable and the io file not, whose repair gives the turn a second row |
| TurnEvidence.GracefulShutdown | src/attestation/turnEvidence.ts:132-137 | after any run without a failed append, sweep, close and drain leave exactly one row for every turn minted |
| TurnEvidence.DrainsWrite | src/attestation/writer.ts:332-349 | queued lines reach the disk first in, first out |
| EvidenceOrder.RecordOwed | src/attestation/writer.ts:225-236 | a record handed to an open writer is owed to the disk, last among the records and behind at most one new snapshot |
| EvidenceOrder.RecordsInOrder | src/attestation/writer.ts:225-349 | over every run without a crash or a failed append the records owed are those at its start and then those handed over before the close, in order |
| EvidenceOrder.RecordsReachDisk | src/attestation/writer.ts:225-349 | after a boot and such a run, sweep, close and drain leave on disk the records that the boot found and then those handed over since, in order |
| EvidenceOrder.SnapshotsInOrder | src/attestation/writer.ts:259-290 | in one life of the writer no manifest hash is written twice, and those noted are those written or queued |
| EvidenceOrder.SettledOwed | src/attestation/turnEvidence.ts:114-162 | when a pending turn's sink or end comes, its entry leaves the map and its own row is queued; one that is not pending changes nothing |
| EvidenceOrder.UnknownIgnored | src/attestation/turnEvidence.ts:114-162 | an end or a sink of a turn that is not pending changes nothing |
| EvidenceOrder.BegunPending | src/attestation/turnEvidence.ts:106-113 | a turn that begins is pending behind those that are, and queues nothing |
| EvidenceOrder.ClosedTakesNothing | src/attestation/writer.ts:225-300 | once closed the writer owes nothing more, whatever comes, and stays closed |
| EvidenceOrder.SweptOwed | src/attestation/turnEvidence.ts:132-137 | a sweep leaves none pending and owes the row of each in order |
| EvidenceOrder.CrashAndBoot | src/attestation/repair.ts:68-118 | a crash loses what was queued and pending and nothing on disk, and a boot starts open with the rows of its repair |
| EvidenceOrder.FilesJoin | src/attestation/repair.ts:68-118 | a repair reads the files of a kind one after the other, and none of one that cannot be read |
| EvidenceOrder.LinesJoin | src/attestation/repair.ts:68-118 | and in a file the keys of the lines that have any, in order |
| EvidenceOrder.OrphansMean | src/attestation/repair.ts:97-112 | a repair adds a row for exactly the first record of each turn that no row covers, under its session |
| EvidenceOrder.FailuresAddUp | src/attestation/writer.ts:259-367 | over every run without a crash the failure count is the number of appends that failed and of manifests that could not be built for a hash not noted yet |
| Attestation.AttestationWriter.Record | src/attestation/writer.ts:225-236 | a record is queued behind its manifest snapshot, and dropped once closed |
| Attestation.AttestationWriter.SnapshotManifest | src/attestation/writer.ts:259-290 | one snapshot per live manifest hash, named by the manifest's own hash |
| Attestation.AttestationWriter.RecordIo | src/attestation/writer.ts:243-252 | an io row is queued, and dropped once closed |
| Attestation.AttestationWriter.DrainOne | src/attestation/writer.ts:332-349 | each link of the chain appends its line or counts a failure, never both |
| Attestation.Coordinator.BeginTurn | src/attestation/turnEvidence.ts:106-112 | a minted turn becomes pending |
| Attestation.Coordinator.EndTurn | src/attestation/turnEvidence.ts:114-131 | a pending turn is settled once, an unknown one not at all |
| Attestation.Coordinator.EvidenceSink | src/attestation/turnEvidence.ts:141-162 | an event settles its turn if that is pending, and an unattributable one does nothing |
| Attestation.Coordinator.SettleAll | src/attestation/turnEvidence.ts:132-137 | settling a snapshot of the keys one by one queues one row for each pending turn in order |
| Attestation.RepairOrphanTurnEvidence | src/attestation/repair.ts:76-118 | the nested loops queue one row for each recorded turn that no readable io row covers, in order of first record, and return their number |
| Attestation.BootIsRepair | src/attestation/repair.ts:68-118 | the state machine's boot step is this repair on a fresh writer, whichever files can be read and whether or not the directory can be listed |
| SessionChains.SoundAllAlong | src/channels/pipeline.ts:84-105 | order, chaining and map stay consistent over every interleaving |
| SessionChains.NeverOverlap | src/channels/pipeline.ts:90-105 | at most one task of a session runs at any time |
| SessionChains.SubmissionOrder | src/channels/pipeline.ts:91-95 | a task starts only after every earlier task of its session has settled, also after a failure |
| SessionChains.CallsMove | src/channels/pipeline.ts:84-105 | a submission waits behind the others, and a start or an end moves its own call only |
| SessionChains.EntryLifetime | src/channels/pipeline.ts:98-103 | a map entry stays while a task of its session is unfinished and is gone once all tasks and cleanups are through |
| SessionChains.NeverWedged | src/channels/pipeline.ts:91-95 | while a session has unfinished tasks, the earliest is running or can start |
| SessionChains.CleanupReclaims | src/channels/pipeline.ts:98-103 | the cleanup of a session's latest call takes its entry away and no other, and that of an earlier call takes nothing |
| SessionChains.AlwaysDrains | src/channels/pipeline.ts:84-105 | from every reachable state the tasks that are left can all run to their ends, and the map is then empty |
| SessionChains.SessionTurnChains.SerializePerSession | src/channels/pipeline.ts:90-95 | a submission chains behind the session's latest promise and replaces it in the map |
| SessionChains.SessionTurnChains.CleanUp | src/channels/pipeline.ts:98-103 | cleanup removes the map entry only if it is still its own |
| SegmentBudget.SumTokenUsage | src/cli/sdkRunCommand.ts:2347-2369 | the nested loops compute the field-wise sum, and a field nobody reported stays absent |
| SegmentBudget.PricedTotal | src/cli/sdkRunCommand.ts:2371-2383 | the total is known exactly when something is priced and nothing that used tokens is unpriced, and is then the sum of the known prices |
| SegmentBudget.PricesMean | src/cli/sdkRunCommand.ts:2371-2383 | combining prices one by one is unpriced exactly when some part is, nothing exactly when no part has tokens or a price, and otherwise the sum |
| SegmentBudget.RunSegment | src/cli/sdkRunCommand.ts:1657-1730 | calls reported equal calls spent on summary, drive, compaction and retry and never exceed what remained; tokens, tool calls and tool names are the sums over all attempts, the price is the one booked for them, no drive starts without a call to make, and the result overflows as the last drive did |
| SegmentBudget.SegmentList | src/cli/sdkRunCommand.ts:1657-1730 | the attempts one by one: the opening summary; the drive, if a call is left; behind an overflow that can be reduced, with a call left, the compaction; and with a further call left the retry on what remains |
| SegmentBudget.OverflowsIff | src/cli/sdkRunCommand.ts:1657-1730 | a segment ends in an overflow exactly when one of its drives did and none came behind it |
| SegmentBudget.Recover | src/cli/sdkRunCommand.ts:1697-1728 | after an overflow the compaction and the retry stay within the calls that are left, and are counted and priced with what went before |
| SegmentBudget.RecoveryPrice | src/cli/sdkRunCommand.ts:2280-2338 | after a recovery the result is priced as all its attempts together |
| SegmentBudget.LeadingSummaryPrice | src/cli/sdkRunCommand.ts:2306-2315 | a leading summary is priced in the same way exactly unless it is unpriced and the drive is priced |
| SegmentBudget.SegmentPriceIff | src/cli/sdkRunCommand.ts:2280-2338 | the price a segment reports is that of all its attempts together exactly unless its leading summary is unpriced, the drive behind it priced and nothing later unpriced; it is then the sum of the known prices |
| SegmentBudget.SummaryHidden | src/cli/sdkRunCommand.ts:2306-2315 | an unpriced summary before a drive priced at 1 leaves the price at 1, where the total is unknown |
| NativeReceipts.CallCounts | packages/sdk/src/core/usageAccumulator.ts:69-118 | a whole call adds its usage field by field to what has been counted |
| NativeReceipts.LastSeen | packages/sdk/src/core/usageAccumulator.ts:106-118 | within a call the last value reported of each field counts, one left out later is not lost, and the totals wait for the call to end |
| NativeReceipts.EndsOnce | packages/sdk/src/core/usageAccumulator.ts:69-76 | a call counts once, however often its end is announced |
| NativeReceipts.NativeTurnMetrics | src/cli/nativeTurnMetrics.ts:42-91 | the loop and the expressions over its components compute the digest of the receipts: usage, price, completeness, state and origin |
| NativeReceipts.MetricsMean | src/cli/nativeTurnMetrics.ts:60-90 | the aggregate has an estimate if any receipt has; complete with their sum if each is priced in full; a subscription's if all are, else unknown, free or paid; and the first one's origin |
| NativeReceipts.UsageMeans | src/cli/nativeTurnMetrics.ts:45-58 | and a token field exactly when some receipt has it, with their sum |
| NativeReceipts.FoldShape | src/cli/nativeTurnMetrics.ts:93-103 | up to 64 receipts are kept as they are; beyond, the newest 33 to 63 behind one aggregate |
| NativeReceipts.AggregateStands | src/cli/nativeTurnMetrics.ts:97-102 | the aggregate of some receipts, as a receipt, has the digest of those receipts |
| NativeReceipts.ReceiptList.AppendNativeReceipt | src/cli/nativeTurnMetrics.ts:94-103 | push, and beyond 64 the first 32 give way to their aggregate |
| NativeReceipts.FoldKeepsMetrics | src/cli/nativeTurnMetrics.ts:93-103 | however many receipts are appended at most 64 are kept, and they amount to all of them |
| RecoveryTarget.CollectIntents | src/cli/nativeRunOutcome.ts:34-38 | the keys collected are exactly the stored tool_use intents |
| RecoveryTarget.CanonicalRun | src/cli/nativeRunOutcome.ts:57-64 | the inner loop collects exactly the tool_results of the user rows right behind an assistant row, and where they end, reading each of their blocks once |
| RecoveryTarget.ByKeySize | src/cli/nativeRunOutcome.ts:48-53 | the receipt map is as large as the list exactly when the keys are unique |
| RecoveryTarget.AllResolved | src/cli/nativeRunOutcome.ts:54-80 | the jumping pass decides whether every row is resolved and reads no content block twice |
| RecoveryTarget.HasNativeRecoveryTarget | src/cli/nativeRunOutcome.ts:24-84 | it returns true exactly when the session exists and is recoverable, and false when the store throws |
| DriveSse.CursorAndRendering | src/cli/driveCommand.ts:245-403 | over every run whose pivots go to sessions of which nothing has been rendered, the cursor is the last number rendered from the active bus, and every session's known events are rendered in order, none twice and none skipped; what a superseded connection still receives leaves the cursor alone or clears it with a pivot |
| DriveSse.BusesHold | src/cli/driveCommand.ts:826-852 | a session's bus holds what was published to it, in order |
| DriveSse.StepKeeps | src/cli/driveCommand.ts:297-403 | publish, connect, deliver, disconnect and such a pivot each keep cursor, log and connection consistent |
| DriveSse.ReturnReplays | src/cli/driveCommand.ts:297-306 | behind a pivot to a session of which something has been rendered, a run renders that session's first known event once more |
| DriveSse.PivotSafeIff | src/cli/driveCommand.ts:297-306 | a pivot to another session keeps everything that follows free of repeats exactly when nothing of that session has been rendered |
| DriveSse.ReconnectRedelivers | src/cli/driveCommand.ts:836-849 | a reconnect to the active session delivers a received event again exactly when the parser knows neither it nor anything received behind it |
| DriveSse.DriveSseManager.PivotTo | src/cli/driveCommand.ts:297-306 | a pivot to another session moves it, clears the cursor and ends the connection, and any other pivot does nothing |
| DriveSse.DriveSseManager.IngestEvent | src/cli/driveCommand.ts:343-362 | the cursor first and only on the active session's connection, then the rendering, then the pivot |
| DriveSse.DriveSseManager.Open | src/cli/driveCommand.ts:364-387 | each turn of the loop follows the session then active from behind its cursor |
| DriveSse.DriveSseManager.Receive | src/cli/driveCommand.ts:836-849 | the drain loop hands a known event on and renders a workflow event |
| SseBlocks.SplitContinues | src/cli/driveCommand.ts:831-851 | text that arrives later only continues the buffer that was left |
| SseBlocks.SplitJoins | src/cli/driveCommand.ts:831-851 | splitting loses nothing and leaves no blank line in a block or in the buffer |
| SseBlocks.DrainSseStream | src/cli/driveCommand.ts:826-852 | whatever the reads, the blocks handed on and the buffer left are those of the whole stream |

## Left out

- The text of the policy file: rules, needles and exceptions are a parameter. `SoundPolicy` asks for needles of at most 1000 characters, exceptions of at most 120, and, for the two rules with a decision, case-sensitive needles whose first character comes once.
- ScannerPolicy.PolicyCuttingIff: where unsettled roots of opposite byte orders share a byte of the input, their windows depend on each other and the condition is only sufficient (`PolicyCutting`).
- Hosts whose UTF-8 decoder is not ASCII-transparent, or whose encoders give a character no byte or more than four.
- The order and truncation of the scanner's diagnostics list, ZIP member and gzip metadata checks, and directory walks.
- Tar header parsing and PAX record syntax: a `Parser` gives the size, kind and owner of a header block and whether an extension body names a foreign owner.
- Truncation to 1024 characters and marker replacement in `_safe`: the round trip and `ScannedInventoriesPair` are stated for labels that neither changes. Paths that are not ASCII and hold lone surrogates: the scanner prints ASCII only.
- SafePaths.ScannedInventoriesPair: the digest is any function that gives the two sides' bytes of a member's label different values where they differ.
- Deflate, SHA-256 and JSON text: functions, assumed inverse only where a round trip needs it.
- Full-text search, `tasks`, `skill_continuity`, and timestamps of the session database: which sessions a sweep finds stale is a parameter of it.
- SessionDb.SessionDb.WriteWithRetry: a sleep shows only as the statements that other writers run meanwhile, and a busy or failed attempt is taken to have no effect.
- Redaction, file modes, path containment and torn partial lines of the attestation files: a line is its join keys, and an append is atomic.
- Records-only attestation, which mints identifiers and writes no rows.
- Promise scheduling order: `SessionChains` allows every interleaving of starts, finishes and cleanups, which includes the event loop's.
- The supervisor around a segment, and what makes a drive overflow or a history reducible: parameters of `RunSegment`.
- `costEstimate`, `usageComplete`, terminal reason and session id of a segment's result.
- The receipt's component list and the constant fields of an aggregate estimate.
- Server-side replay policy and HTTP of the event stream: the server is taken to send exactly the events behind the cursor, and all of them without one.
- Decoding of event blocks: an event is plain, a compaction or a workflow event.
