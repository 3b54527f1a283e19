# Blindfold: verified model

Blindfold moves text across trust boundaries: it takes secrets out of process output, prompts, tool
calls and event streams, puts opaque references in their place, and gives the plaintext back only
where that was allowed. This project models the parts of it that are easy to get wrong — stream
transducers, span algebra, parsers and printers, durable state machines, an interruptible protocol —
and proves what they promise, for every input and every run.

The program's stateful objects are classes here and its loops are loops, each proved against a
specification function or predicate; the promises are lemmas about those. Three things the program does
step by step are values or functions instead: the patch parser's builders are parts of one parser state,
the pattern substitution in the SDK's `restore` is a recursive function, and so is the choice of the rule
with the least identifier.

| file | what it holds |
|---|---|
| `StreamingRedactor.dfy`, `Leaks.dfy` | streaming redaction of exact values refines one leftmost-longest rewrite; when a replaced value can still be read |
| `TraceStore.dfy`, `TraceRuns.dfy` | the rotating trace log, and what it holds after every run with operations cut off at any byte |
| `Findings.dfy`, `Splicing.dfy` | choosing among overlapping findings; cutting them out of a text |
| `SafeRefs.dfy`, `Vault.dfy`, `Tokens.dfy`, `Masking.dfy` | references, the vault over whole histories, reversible masking |
| `Boundary.dfy`, `BoundaryLeaks.dfy` | the Python SDK's registry, `protect` and `restore`, and when a registered value shows in protected text |
| `Json.dfy`, `JsonSanitizer.dfy`, `Sse.dfy`, `SseDispatch.dfy`, `Mcp.dfy` | JSON leaves and pointers, sanitizing, event streams and what clients dispatch, tool calls |
| `Patch.dfy`, `PatchScan.dfy`, `PatchHeaders.dfy`, `PatchPrinting.dfy`, `PatchPlain.dfy`, `PatchForms.dfy` | the unified-patch parser, its scanner, the headers its hunks answer to, a printer it undoes, patches without Git's section lines, and other ways to write the same patch |
| `Container.dfy` | the locked container run with an interrupt or failure at any await |
| `Scanner.dfy`, `ScannerLinks.dfy`, `Traversal.dfy` | the budgeted directory scan as a refinement of a recursive walk, and what following links misses |
| `Policy.dfy` | rule-list policy evaluation |
| `Proxy.dfy` | the WebSocket bridge and the proxy hop marker |
| `Seqs.dfy`, `Decimal.dfy` | sequences, sorting, splitting, numerals |

What lies outside the program is a parameter: detectors, sanitizers and clocks are functions or
arguments, JSON encoding and record serialization enter only through stated contracts (decoding undoes
encoding, an encoding has no line break, neither part of an encoding nor several on one line decode), random draws are a finite list, Docker and the file system
are scripts of answers, and a step budget says where a crash cuts an operation off.

## Findings

- A trace append that is cut off inside its line, or writes behind a line that never got its newline, makes
  the whole log unreadable. The damage lasts until the file is removed: by the rotation that drops its
  generation, or by a clear that reaches it. `TraceRuns.EveryRun` and `TraceRuns.ReadableExactly` say exactly
  when; `TornRunIsUnreadable` and `GluedRunIsUnreadable` give runs, `ClearRecovers` the way back.
- An interrupted `clear` of the trace store removes newest records first. What is left is still in order, but
  the most recent records are missing exactly when it removed a record and left one (`CutClearExactly`), and
  after any run exactly when a record from before such a gap is still held (`SuffixExactly`);
  `CutClearReadsOlder` is such a run.
- A registered value can survive redaction at the edge of a marker. Values that neither overlap the marker nor
  contain or lie within it never do (`ClearNeverLeaks`); for any single value `OneValueExactly` says exactly
  when it does, for values without brackets it does exactly when one is part of `REDACTED` (`NoLeakExactly`),
  and a value that is part of the marker always does (`LeakOf`).
- The same holds of the Python SDK's references and redaction labels: `OneRegisteredExactly` says when a
  registered value can be read in protected text, and a credential `SECRET` can, in its own reference
  (`SecretShows`).
- Cleanup of a locked run believes "not found" if the daemon answers afterwards. A clean cleanup proves that
  nothing is left exactly when no "not found" came from a daemon that was down (`CleanupGoneExactly`);
  `RestartHidesVolume` runs a cleanup that succeeds and leaves the volume.
- Re-framing an event stream turns an event the stream breaks off in into a complete one. A client that
  follows sections 9.2.5 and 9.2.6 of the WHATWG HTML Standard, which discard such an event, dispatches the
  same events exactly when the one broken off has no data (`DispatchIsKeptExactly`) and is left with the same
  last event id and reconnection time exactly when it sets no other (`ClientIsKeptExactly`). The stream
  `data: [DONE]` dispatches nothing before and one event after (`BrokenOffIsDispatched`).
- With links followed, the scanner marks a directory as visited before it checks the depth, so a link that
  leads to it too deep keeps it from being looked into where it lies. A file is not missed unless that
  happened on the way to it (`NotMissedUnlessCut`); `FollowingMissesAFile` gives a tree.
- `parse_patch` is documented for ordinary unified patches as well. Without `diff --git` lines it reads back
  exactly those of at most one file (`OrdinaryExactly`); a second file after hunks is taken for removed and
  added lines and the patch is refused (`SeveralFilesAreRefused`).
- `a/` and `b/` are taken off a header path before its quotes, so a path that Git quotes keeps the side it
  begins with (`QuotedPathReadsBack`), while an unquoted one does not (`GitPathReadsBack`).

## Model

| member | source | states |
|---|---|---|
| Redaction.StreamingRedactor.constructor | crates/blindfold-exec/src/redactor.rs:13-26 | from any list of non-empty patterns, in any order and with duplicates, a redactor for the set of them with nothing pushed |
| Redaction.StreamingRedactor.MatchLength | crates/blindfold-exec/src/redactor.rs:69-74 | the first listed pattern at an offset is the longest pattern of the set there |
| Redaction.StreamingRedactor.Advance | crates/blindfold-exec/src/redactor.rs:51-65 | one turn of the loop keeps: what was emitted plus the rewrite of what is pending is the rewrite of the input, for every continuation |
| Redaction.StreamingRedactor.Process | crates/blindfold-exec/src/redactor.rs:46-67 | holding back the tail keeps that for every continuation; at the end exactly the whole rewrite was emitted |
| Redaction.StreamingRedactor.Push | crates/blindfold-exec/src/redactor.rs:28-34 | a chunk extends the input and keeps the invariant |
| Redaction.StreamingRedactor.Finish | crates/blindfold-exec/src/redactor.rs:36-44 | output, truncation flag, redaction and byte counts are those of one rewrite of everything pushed |
| Redaction.BoundedOutput.Push | crates/blindfold-exec/src/redactor.rs:99-105 | the retained bytes are the first `limit` of all bytes pushed; truncated exactly when there were more |
| Redaction.Dedup | crates/blindfold-exec/src/redactor.rs:13-19 | dropping equal neighbours keeps the order by length and the set of patterns |
| Redaction.FeedAll | crates/blindfold-exec/src/lib.rs:747-754 | the read loop feeds exactly the bytes delivered before the first empty read |
| Redaction.CuttingsAgree | crates/blindfold-exec/src/lib.rs:747-754 | however the same bytes are cut into non-empty reads, the same bytes are delivered: all of them |
| Redaction.CaptureStream | crates/blindfold-exec/src/lib.rs:741-756 | for every pattern set, every input and every chunking the summary equals that of one leftmost-longest rewrite of everything read before the first empty read, cut to the limit |
| Redaction.NoLeakExactly | crates/blindfold-exec/src/redactor.rs:46-74 | for bracket-free patterns: no pattern ever occurs in retained output, for any input and limit, if and only if none is part of the marker's word |
| Redaction.LeakOf | crates/blindfold-exec/src/redactor.rs:55-58 | a registered value that occurs in the marker, brackets included, occurs in its own redacted output, whatever else is registered |
| Redaction.ClearNeverLeaks | crates/blindfold-exec/src/redactor.rs:46-74 | values with or without brackets that do not overlap, contain or lie within the marker never occur in retained output, for any input and limit |
| Redaction.OneValueExactly | crates/blindfold-exec/src/redactor.rs:46-74 | any single value never occurs in retained output if and only if it cannot start inside a marker and no beginning of it can stand, unmatched, before a marker it runs into |
| Leaks.ClearNeverOccurs | crates/blindfold-exec/src/redactor.rs:46-67 | values clear of every mark never occur in the result of a leftmost-longest replacement |
| Leaks.OneExactly | crates/blindfold-exec/src/redactor.rs:46-67 | for one value and any mark: exactly when it can occur in the result |
| TraceStore.Store.Rename | crates/blindfold-trace/src/lib.rs:576-587 | moves one file and requires that its target does not exist: no live generation is overwritten |
| TraceStore.Store.Rotate | crates/blindfold-trace/src/lib.rs:565-588 | cut off after any number of steps the directory is that of the shifted generations |
| TraceStore.Store.Write | crates/blindfold-trace/src/lib.rs:478-491 | what creating the file, each byte of the line and its newline, and the sync leave, wherever it is cut off |
| TraceStore.Store.Append | crates/blindfold-trace/src/lib.rs:458-491 | directory and outcome of an append cut off at any step or byte, with rejection of oversized and invalid records |
| TraceStore.AppendThatFitsDropsNothing | crates/blindfold-trace/src/lib.rs:458-491 | cut off anywhere, an append for which there is room changes no file but the active one and drops nothing; uncut it adds line and newline at its end |
| TraceStore.AppendThatDoesNotFitRotates | crates/blindfold-trace/src/lib.rs:458-491 | one for which there is no room moves every file on by one and starts a new one with its line |
| TraceStore.Store.ReadPath | crates/blindfold-trace/src/lib.rs:532-563 | one file's records, or failure on its size or on a malformed line |
| TraceStore.Store.ReadAll | crates/blindfold-trace/src/lib.rs:498-506 | all files oldest first, failing as a whole |
| TraceStore.Store.Clear | crates/blindfold-trace/src/lib.rs:513-530 | removes the active file first and then older ones, cut off anywhere, and counts the files removed |
| TraceRuns.TraceReads | crates/blindfold-trace/src/lib.rs:552-562 | a file reads exactly when it holds no torn and no glued line, and then gives its records |
| TraceRuns.RotationDropsOldest | crates/blindfold-trace/src/lib.rs:565-588 | wherever rotation stops, what is gone is nothing or the oldest generation |
| TraceRuns.ClearDropsNewest | crates/blindfold-trace/src/lib.rs:513-530 | what a cut clear leaves is the older part |
| TraceRuns.TraceFollowsFiles | crates/blindfold-trace/src/lib.rs:458-491 | the pieces followed per file are what the bytes of the files are made of, for an append cut off at any byte |
| TraceRuns.AppendAdvances | crates/blindfold-trace/src/lib.rs:458-491 | an append drops whole oldest generations and adds at most its own record at the end |
| TraceRuns.EveryRun | crates/blindfold-trace/src/lib.rs:458-588 | over every run of appends and clears, each cut off anywhere: no file exceeds `max_bytes`, the whole records held are an in-order subsequence of those whose line was written, and `read_all` returns exactly them unless a retained file holds a torn or glued line |
| TraceRuns.EveryRunKeepsASuffix | crates/blindfold-trace/src/lib.rs:458-588 | unless a cut clear removed a record and left an older one, the whole records held are the most recent ones written, without a gap |
| TraceRuns.CutClearExactly | crates/blindfold-trace/src/lib.rs:513-530 | for distinct records a cut clear keeps that property if and only if it removed no record or left none |
| TraceRuns.SuffixExactly | crates/blindfold-trace/src/lib.rs:458-588 | after every run that wrote distinct records, those held are the most recent ones if and only if none of them is older than the last clear that was cut off between records |
| TraceRuns.CutClearReadsOlder | crates/blindfold-trace/src/lib.rs:513-530 | a run whose cut clear leaves the older of two records to be read |
| TraceRuns.DamageExactly | crates/blindfold-trace/src/lib.rs:458-588 | after an operation no file is damaged if and only if it removed every damaged file and did no damage itself |
| TraceRuns.ReadableExactly | crates/blindfold-trace/src/lib.rs:458-588 | after every run the next operation leaves a readable log if and only if the same holds |
| TraceRuns.OpenLineShows | crates/blindfold-trace/src/lib.rs:478-491 | a line is open exactly when the file does not end with a newline |
| TraceRuns.AcceptedIsNewest | crates/blindfold-trace/src/lib.rs:458-506 | an append that reports success is the newest record of a read that succeeds |
| TraceRuns.TornRunIsUnreadable | crates/blindfold-trace/src/lib.rs:478-563 | an append cut off inside its line leaves an unreadable log |
| TraceRuns.GluedRunIsUnreadable | crates/blindfold-trace/src/lib.rs:478-563 | so do two appends, the first cut off before its newline |
| TraceRuns.ClearRecovers | crates/blindfold-trace/src/lib.rs:513-530 | a complete clear leaves a readable log after any run |
| Findings.SelectGreedily | crates/blindfold-detectors/src/overlap.rs:19-27 | the greedy loop keeps a pairwise disjoint selection in which every finding overlaps a kept one of equal or higher rank |
| Findings.ResolveOverlaps | crates/blindfold-detectors/src/overlap.rs:10-31 | a sorted, pairwise disjoint sub-collection in which every finding overlaps a kept one that outranks or equals it |
| Findings.KeptByBoth | crates/blindfold-detectors/src/overlap.rs:10-31 | any two such selections keep the same findings |
| Findings.ResolutionIsUnique | crates/blindfold-detectors/src/overlap.rs:10-31 | there is only one such selection, so input order and sort stability do not matter |
| Splicing.ValidateFindingSpans | crates/blindfold-cli/src/commands.rs:1007-1026 | accepts exactly the spans that can be cut out one after the other on character boundaries |
| Splicing.RefillIsIdentity | crates/blindfold-detectors/src/redaction.rs:195-235 | gaps refilled with what was cut out are the input: nothing uncovered is lost or moved |
| Splicing.SpliceLength | crates/blindfold-detectors/src/redaction.rs:195-235 | the output's length is the input's less what was covered plus the replacements |
| Splicing.Redact | crates/blindfold-detectors/src/redaction.rs:195-235 | which error when; otherwise every gap kept and each finding replaced by what the mode's own writer makes of the text it covers |
| Splicing.DisjointIsSpliceable | crates/blindfold-detectors/src/redaction.rs:209-228 | disjoint findings with aligned spans can always be cut out |
| Splicing.DetectAndRedact | crates/blindfold-detectors/src/redaction.rs:195-235 | the same after overlap resolution, and aligned detector spans never lead to an invalid-span error |
| SafeRefs.ParsePrint | crates/blindfold-core/src/safe_ref.rs:73-110 | every printed reference parses to itself |
| SafeRefs.ParsedIsPrinted | crates/blindfold-core/src/safe_ref.rs:90-110 | whatever parses is a printed reference with a valid identifier |
| SafeRefs.LengthCheckNeverFires | crates/blindfold-core/src/safe_ref.rs:90-110 | once kind and identifier are accepted the final length comparison cannot fail |
| Vaults.ReferenceIdOfPrinted | crates/blindfold-vault/src/vault.rs:440-446 | the identifier is read back from a printed reference |
| Vaults.EncodeHexInjective | crates/blindfold-vault/src/vault.rs:448-456 | different draws give different identifiers |
| Vaults.Vault.Store | crates/blindfold-vault/src/vault.rs:170-225 | a fresh identifier for exactly the live records, the record stored with its expiry, each error exactly when, nothing changed on error |
| Vaults.Vault.Resolve | crates/blindfold-vault/src/vault.rs:227-248 | the value of a live record of that scope and kind, or the error |
| Vaults.Vault.List | crates/blindfold-vault/src/vault.rs:250-272 | exactly the live references of the scope, an error exactly when one of them cannot be rebuilt |
| Vaults.Vault.Clear | crates/blindfold-vault/src/vault.rs:274-291 | removes exactly the records of the scope and counts them |
| Vaults.Vault.PurgeExpired | crates/blindfold-vault/src/vault.rs:293-304 | removes exactly the expired records and counts them |
| Vaults.StandingIsHeld | crates/blindfold-vault/src/vault.rs:170-304 | in every run a store that is unexpired and not cleared since is held unchanged |
| Vaults.HeldIsStanding | crates/blindfold-vault/src/vault.rs:170-304 | in every run a live record stems from such a store |
| Vaults.StandingIsLatest | crates/blindfold-vault/src/vault.rs:170-225 | no later store returned the same reference while it stands |
| Vaults.ResolveFollowsHistory | crates/blindfold-vault/src/vault.rs:170-304 | over every run with a non-decreasing clock, resolve returns a value if and only if a store of it for that reference and scope still stands |
| Vaults.RunListsWithoutError | crates/blindfold-vault/src/vault.rs:250-272 | in every run each held record's reference can be rebuilt, so listing never fails |
| Vaults.ListedIsResolvable | crates/blindfold-vault/src/vault.rs:227-272 | a reference is listed if and only if it resolves |
| Tokens.NoPrefixInGap | sdk/python/src/blindfold/boundary.py:294-321 | a reference prefix cannot straddle a copied run and a following token |
| Tokens.SubstituteInterleaved | crates/blindfold-cli/src/commands.rs:1028-1074 | scanning woven text finds exactly the tokens woven in |
| Masking.Reference | crates/blindfold-cli/src/commands.rs:1046-1058 | an entry of the same kind and text is reused, else a new reference is stored and kept resolvable beside the old ones; nothing is returned exactly when the vault refuses |
| Masking.KeptAfterStore | crates/blindfold-vault/src/vault.rs:170-225 | a later store neither expires nor replaces a reference handed out before |
| Masking.MaskFindings | crates/blindfold-cli/src/commands.rs:1028-1085 | the output is the gaps woven with one reference per finding, the stored list has one reference per distinct pair; it fails only for spans that cannot be cut out or a store the vault refuses; and substituting what resolve returns gives back the input; contact data counts as personal, a PEM block as private key, all else as secret |
| Masking.SharedExactlyWhenEqual | crates/blindfold-cli/src/commands.rs:1046-1058 | two findings share a reference exactly when kind and raw text agree |
| Masking.MaskRoundTrip | crates/blindfold-cli/src/commands.rs:1028-1074 | replacing each reference by what resolve returns gives back the input when no gap contains the prefix |
| SdkBoundary.Boundary.CreateSafeRef | sdk/python/src/blindfold/boundary.py:534-544 | a well-formed reference that is neither registered nor contained in the source or a registered value; none exactly when every draw collides |
| SdkBoundary.Boundary.Register | sdk/python/src/blindfold/boundary.py:136-158 | each error exactly when, running out of draws included; the two registries stay mutually inverse |
| SdkBoundary.Boundary.FirstMatch | sdk/python/src/blindfold/boundary.py:218-225 | the first listed value at an offset is the longest registered one |
| SdkBoundary.Boundary.ReplaceMatches | sdk/python/src/blindfold/boundary.py:214-239 | the registered values are taken out of the text, leftmost and longest first; what stands between them is copied and each gives way to its own reference, or when redacting to the literal label of its kind; the count is that of the values |
| SdkBoundary.Boundary.Protect | sdk/python/src/blindfold/boundary.py:190-239 | the same for mask and redact mode; block mode refuses exactly the texts in which a registered value occurs and returns others as they are; a closed boundary refuses |
| SdkBoundary.CutWeaves | sdk/python/src/blindfold/boundary.py:190-239 | substitution weaves the copied runs with the replacements of the matched values |
| SdkBoundary.CutRejoins | sdk/python/src/blindfold/boundary.py:190-239 | runs and matched values rejoin to the text |
| SdkBoundary.CutIsLeftmostLongest | sdk/python/src/blindfold/boundary.py:214-239 | no registered value begins at a copied character, and each one taken out is the longest that begins there |
| SdkBoundary.Boundary.ValidateSafeRefs | sdk/python/src/blindfold/boundary.py:517-532 | accepts exactly the texts whose every prefix starts a registered reference of its own kind |
| SdkBoundary.MetAreKnown | sdk/python/src/blindfold/boundary.py:517-532 | in accepted text every reference met is registered |
| SdkBoundary.KnownInterleaved | sdk/python/src/blindfold/boundary.py:517-532 | registered references woven between plain runs are accepted and are exactly the ones met |
| SdkBoundary.Boundary.Restore | sdk/python/src/blindfold/boundary.py:294-321 | restored text, or the refusal, without changing the registries |
| SdkBoundary.OnlyPiiIsRestored | sdk/python/src/blindfold/boundary.py:294-321 | restoring succeeds only if every reference is personal data, and changes text only for the end user |
| SdkBoundary.ProtectThenRestore | sdk/python/src/blindfold/boundary.py:190-321 | restoring protected text gives it back when the matched values are personal data and the copied runs hold no prefix |
| SdkBoundary.PlainTextRoundTrips | sdk/python/src/blindfold/boundary.py:190-321 | the same for every text without the prefix |
| SdkLeaks.ProtectedReplaces | sdk/python/src/blindfold/boundary.py:214-239 | masking and redacting are the leftmost-longest replacement of every registered value |
| SdkLeaks.BlockedNeverShows | sdk/python/src/blindfold/boundary.py:207-212 | a text that block mode lets through shows no registered value |
| SdkLeaks.ClearNeverShows | sdk/python/src/blindfold/boundary.py:190-239 | registered values clear of every replacement can be read in no protected text |
| SdkLeaks.OneRegisteredExactly | sdk/python/src/blindfold/boundary.py:190-239 | a single registered value can be read in no protected text if and only if it cannot start inside its replacement and no beginning of it can stand, unmatched, before one it runs into |
| SdkLeaks.OwnReplacementShows | sdk/python/src/blindfold/boundary.py:190-239 | a value that is part of its own replacement shows, whatever else is registered |
| SdkLeaks.SecretShows | sdk/python/src/blindfold/boundary.py:534-544 | a credential `SECRET` is read in its own reference |
| SdkBoundary.Boundary.Close | sdk/python/src/blindfold/boundary.py:323-329 | forgets every value and closes the boundary for good |
| Json.MappedLeaves | crates/blindfold-proxy/src/sanitize.rs:106-147 | rewriting strings maps each string leaf at its own path, in order |
| Json.MappedShape | crates/blindfold-proxy/src/sanitize.rs:106-147 | rewriting strings keeps the tree's shape: containers, member names, numbers and everything else that is no string |
| Json.MappedExactly | crates/blindfold-proxy/src/sanitize.rs:106-147 | the rewritten document is the one of the same shape with the mapped strings, and no other |
| Json.FixedTextsExactly | crates/blindfold-proxy/src/sanitize.rs:106-147 | what must not change is exactly every member name and every number, at every depth |
| Json.UnescapeEscape | crates/blindfold-mcp/src/lib.rs:298-300 | pointer escaping is undone by section 4 of RFC 6901 and leaves no slash |
| Json.TokensOfPointer | crates/blindfold-proxy/src/sanitize.rs:106-147 | a built pointer parses, by section 3 of RFC 6901, into the steps it was built from |
| Json.PointerResolves | crates/blindfold-proxy/src/sanitize.rs:106-147 | a leaf's pointer resolves to precisely that leaf |
| Json.LeavesAreDistinct | crates/blindfold-proxy/src/sanitize.rs:106-147 | no two leaves lie at the same path |
| Json.PointersAreDistinct | crates/blindfold-proxy/src/sanitize.rs:106-147 | distinct leaves get distinct pointers |
| JsonSanitizing.SanitizeTextualLeaves | crates/blindfold-proxy/src/sanitize.rs:106-163 | fails exactly when a key or number would change; otherwise every string leaf is mapped and observed at its own pointer |
| JsonSanitizing.SanitizeJson | crates/blindfold-proxy/src/sanitize.rs:81-95 | the same for a whole document |
| JsonSanitizing.ObservationsResolve | crates/blindfold-proxy/src/sanitize.rs:149-163 | every observation's pointer resolves to a leaf in which the sanitizer traced that category |
| JsonSanitizing.EveryCategoryIsObserved | crates/blindfold-proxy/src/sanitize.rs:149-163 | every category traced in a string is observed at that string's pointer |
| Sse.SseEvent.Push | crates/blindfold-proxy/src/sanitize.rs:198-213 | one line's effect on the event under construction |
| Sse.SseEvent.WriteSanitized | crates/blindfold-proxy/src/sanitize.rs:215-263 | refuses exactly an event with a field that sanitizing breaks, changes or cannot decode; otherwise appends one whose name, id and data are what the sanitizer makes of them, with the observations of each, and takes the event |
| Sse.WriteTextField | crates/blindfold-proxy/src/sanitize.rs:266-288 | a sanitized single-line field, or failure when sanitizing breaks the line |
| Sse.SanitizeSse | crates/blindfold-proxy/src/sanitize.rs:165-188 | refuses exactly when one of the events is refused; otherwise the stream written has, in order, for each event one with name and id sanitized, retry as it was and as data nothing, the end marker, or one line encoding a document of the same shape whose every string is the sanitized one; the observations are those of all events |
| Sse.EventIsSent | crates/blindfold-proxy/src/sanitize.rs:215-288 | the same for one event: refused exactly when, and field by field what is sent and observed |
| Sse.JoinSplits | crates/blindfold-proxy/src/sanitize.rs:248-250 | the payload of an event is its data lines, joined by line feeds |
| Sse.ParseWritten | crates/blindfold-proxy/src/sanitize.rs:165-288 | parsing written events by the proxy's own event rules gives them back |
| Sse.ReframingIsFaithful | crates/blindfold-proxy/src/sanitize.rs:165-288 | parsed by the same rules the sanitized stream gives, in order, exactly one such event for each non-empty event of the input |
| SseDispatch.ProxyReadsOneMore | crates/blindfold-proxy/src/sanitize.rs:177-185 | the proxy reads the events the standard does and, in addition, the one a stream breaks off in |
| SseDispatch.StandardReadsWritten | crates/blindfold-proxy/src/sanitize.rs:215-288 | by the standard every written event is complete |
| SseDispatch.DispatchIsKeptExactly | crates/blindfold-proxy/src/sanitize.rs:165-288 | a client that follows sections 9.2.5 and 9.2.6 of the WHATWG HTML Standard dispatches the same events, each part sanitized, if and only if the stream does not break off in an event with data; otherwise exactly that one more |
| SseDispatch.BrokenOffIsDispatched | crates/blindfold-proxy/src/sanitize.rs:184-187 | the accepted stream `data: [DONE]`, which breaks off, dispatches nothing and, once re-framed, one event |
| SseDispatch.ClientIsKeptExactly | crates/blindfold-proxy/src/sanitize.rs:165-288 | the client's last event id and reconnection time are kept, sanitized, if and only if the event the stream breaks off in sets no other id and its unended last line no other time |
| Mcp.RestoreString | crates/blindfold-mcp/src/lib.rs:180-209 | what becomes of one argument string and of the counters |
| Mcp.NamesAreNormalized | crates/blindfold-mcp/src/lib.rs:234-239 | a member name is judged by its letters and digits alone, whatever their case |
| Mcp.RestoreValue | crates/blindfold-mcp/src/lib.rs:170-232 | the in-place walk judges leaves in order, stops at the first rejection and otherwise rewrites each leaf |
| Mcp.ScanAccepts | crates/blindfold-mcp/src/lib.rs:170-232 | accepted exactly when no leaf is rejected, with exact restored and sanitized counts |
| Mcp.ScanRejects | crates/blindfold-mcp/src/lib.rs:170-232 | a rejection is that of the first rejected leaf, with exact counts of what came before |
| Mcp.AcceptedArguments | crates/blindfold-mcp/src/lib.rs:170-253 | in an accepted call plaintext stands exactly where an allowed reference stood, every other string is sanitized and none non-empty survives below a credential-named key |
| Mcp.OnlyArgumentsChange | crates/blindfold-mcp/src/lib.rs:140-168 | everything outside `/params/arguments` is unchanged |
| Mcp.HasReference | crates/blindfold-mcp/src/lib.rs:255-275 | found exactly when some string parses as a reference |
| Mcp.RestoreServerMessage | crates/blindfold-mcp/src/lib.rs:140-168 | not a tool call: passed on exactly when no string is a reference; malformed call: refused; call: accepted exactly when every argument string that is a reference is allowed for this server, tool and pointer and resolves, and no other is non-empty below a credential-named key; then each reference has become its value, every other string its sanitized form, all else is unchanged and the counts are exact; otherwise the first such string names the error and what came before is counted |
| Patches.ParsePatch | crates/blindfold-diff/src/patch.rs:279-339 | the line loop computes the parse whose properties the rows below state |
| PatchScan.StepKeepsNumbers | crates/blindfold-diff/src/patch.rs:226-257 | every line keeps the numbering of all hunks read so far |
| PatchScan.AcceptedIsNumbered | crates/blindfold-diff/src/patch.rs:226-339 | in every accepted patch the j-th old-side and new-side lines are numbered start plus j |
| PatchHeaders.AcceptedMeetsHeaders | crates/blindfold-diff/src/patch.rs:226-383 | in every accepted patch the hunks of all files correspond, one to one and in order, to the header lines of the text, with the announced starts and with line totals equal to the announced counts |
| PatchScan.ScanHunk | crates/blindfold-diff/src/scan.rs:416-455 | one hunk's findings and count of scanned lines |
| PatchScan.ScanWith | crates/blindfold-diff/src/scan.rs:402-471 | findings, counts and outcome of a scan in terms of the lines handed to the detector |
| PatchScan.EveryAdditionIsScanned | crates/blindfold-diff/src/scan.rs:416-433 | each added line is handed over exactly once, in order, with its path, content and number |
| PatchScan.InputsAreAdditions | crates/blindfold-diff/src/scan.rs:402-433 | the lines handed over are exactly as many as the added lines of non-binary files with a new path |
| PatchScan.EveryAdditionAtItsPlace | crates/blindfold-diff/src/scan.rs:402-433 | every added line of every hunk of every text file is handed over at the place its position among all of them gives it, with path, content and number |
| PatchScan.EveryDetectionIsReported | crates/blindfold-diff/src/scan.rs:436-450 | every detection in every line handed over is one finding, in order, with its rule, path, line, column from one, context, risk and raised severity, and there are no others |
| PatchScan.ContextIsNearby | crates/blindfold-diff/src/scan.rs:416-435 | the context handed over is the two lines on either side that the new version has |
| PatchPrinting.StepHunkLine | crates/blindfold-diff/src/patch.rs:226-257 | a hunk line is taken as content whatever file header it looks like |
| PatchPrinting.HeaderReadsBack | crates/blindfold-diff/src/patch.rs:359-383 | a printed hunk header parses to its ranges |
| PatchPrinting.GitPathReadsBack | crates/blindfold-diff/src/patch.rs:393-415 | a printed path parses back, in section lines and in side lines |
| PatchPrinting.ParsePrint | crates/blindfold-diff/src/patch.rs:226-415 | parsing undoes printing for every list of files with plain paths and plain content lines |
| PatchPlain.SeveralFilesAreRefused | crates/blindfold-diff/src/patch.rs:279-339 | a patch of two or more files without section lines whose first has hunks is refused for its counts |
| PatchPlain.OrdinaryExactly | crates/blindfold-diff/src/patch.rs:279-339 | a patch without section lines is read back if and only if it is of at most one file |
| PatchForms.LineEndsDoNotMatter | crates/blindfold-diff/src/patch.rs:279-339 | a patch whose lines end in LF or CR LF, mixed at will, the last one perhaps in neither, gives the same files or the same error as one with LF throughout |
| PatchForms.MarkerIsIgnored | crates/blindfold-diff/src/patch.rs:279-339 | the marker of a missing newline changes nothing wherever it stands |
| PatchForms.ShortHeaderReadsBack | crates/blindfold-diff/src/patch.rs:359-383 | a range without a count has one line, whatever heading follows the header |
| PatchForms.StampIsIgnored | crates/blindfold-diff/src/patch.rs:393-396 | what follows a tab is no part of a header path |
| PatchForms.QuotedPathReadsBack | crates/blindfold-diff/src/patch.rs:398-415 | quoting a path is undone for every path, but what a quoted path begins with stays, `a/` and `b/` included |
| Containers.World.Await | crates/blindfold-cli/src/container_runner.rs:165-171 | one await with or without the interrupt; polling it again after it completed is an error |
| Containers.CheckedResourceExists | crates/blindfold-cli/src/container_runner.rs:497-514 | inspects, checks the daemon after a "not found", and reports absence only if that succeeded |
| Containers.SweepGateway | crates/blindfold-cli/src/container_runner.rs:477-483 | stop, look again, remove, each only after the answer that calls for it; success exactly when every step succeeded |
| Containers.CleanupSession | crates/blindfold-cli/src/container_runner.rs:462-495 | issues exactly the commands the answers call for, in order, succeeds exactly when every step did, and otherwise says whether Docker was unavailable |
| Containers.CleanupLogSweeps | crates/blindfold-cli/src/container_runner.rs:462-514 | a cleanup creates nothing, follows every "not found" by a daemon check, and if all went well concludes agent, gateway and volume exactly once each |
| Containers.CleanupTriesAll | crates/blindfold-cli/src/container_runner.rs:462-495 | unless it is left open whether something exists, agent, gateway and volume are each removed or found absent in that order, whichever removal fails |
| Containers.GoneStaysGone | crates/blindfold-cli/src/container_runner.rs:462-514 | with an honest Docker what is removed, or not found by a daemon that is up, is gone for the rest of the run |
| Containers.CleanIsGone | crates/blindfold-cli/src/container_runner.rs:462-514 | after a clean cleanup without false absence and with no agent process left an honest Docker holds nothing of the session |
| Containers.CleanupGoneExactly | crates/blindfold-cli/src/container_runner.rs:462-514 | the answers of a clean cleanup prove that everything is gone, whatever existed, if and only if no "not found" came from a daemon that was down |
| Containers.RestartHidesVolume | crates/blindfold-cli/src/container_runner.rs:497-514 | such a cleanup, run: it succeeds, Docker is honest, and the volume is left |
| Containers.StopAgentAfterInterrupt | crates/blindfold-cli/src/container_runner.rs:342-358 | looks whether the process has ended and removes the agent, in turn, until it has or looking fails, and which of the two |
| Containers.RunAfterVolumeCreated | crates/blindfold-cli/src/container_runner.rs:283-340 | the agent starts only after the gateway started without an interrupt and the result is that of the step that ended the run; success exactly when the agent ran to its end uninterrupted |
| Containers.WatchedIsWellPolled | crates/blindfold-cli/src/container_runner.rs:154-219 | in the log of a run nothing polls the interrupt after it completed |
| Containers.RunLocked | crates/blindfold-cli/src/container_runner.rs:154-219 | on every path: each command is issued in its place and only because of how the one before it went, the result is the one the last of them calls for unless a failed cleanup or a late interrupt takes its place, the interrupt is never polled after completion, a full cleanup runs once volume creation was attempted, `Ok` exactly for an uninterrupted completed agent and a clean cleanup, and nothing is left if Docker is honest and gave no false absence |
| Containers.NothingStartsUnprepared | crates/blindfold-cli/src/container_runner.rs:154-340 | in every run the agent starts only after a gateway that started, the gateway and the agent only after a volume that was created, and none of them without passed preflight checks and a session volume that was looked for and not found, all uninterrupted |
| Containers.ExistingVolumeIsRefused | crates/blindfold-cli/src/container_runner.rs:175-177 | a session volume that exists ends the run there as a collision, neither used nor removed |
| Traversal.PendingPush | crates/blindfold-detectors/src/scanner.rs:288-298 | children pushed in reverse come off the stack in order |
| Traversal.PendingStep | crates/blindfold-detectors/src/scanner.rs:247-303 | taking an entry off and pushing what lies below it leaves the rest of the preorder walk |
| Scanner.ScanFile | crates/blindfold-detectors/src/scanner.rs:306-371 | what becomes of a file, within both budgets even if it grew after the stat |
| Scanner.VisitEntry | crates/blindfold-detectors/src/scanner.rs:251-302 | one entry's effect on the report, on the stack and on the directories not to be entered again, links followed or not |
| Scanner.StepLowersLoad | crates/blindfold-detectors/src/scanner.rs:247-303 | every turn lowers the work left, links followed or not |
| Scanner.Scan | crates/blindfold-detectors/src/scanner.rs:240-304 | ends for every file system within both budgets; links followed or not, the report is exactly the account of what the walk meets, up to the first visit that exceeds a budget |
| Scanner.WalkMeets | crates/blindfold-detectors/src/scanner.rs:240-304 | a file is considered if and only if it is a regular file at depth at most `max_depth` reached over listed, unignored paths |
| Scanner.WalkDistinct | crates/blindfold-detectors/src/scanner.rs:240-304 | no file is considered twice |
| Scanner.EnoughBudget | crates/blindfold-detectors/src/scanner.rs:306-347 | no limit is reported when the budgets cover the files and what each can take |
| Scanner.ReportExactly | crates/blindfold-detectors/src/scanner.rs:240-371 | over the visits alone: bytes read are the sum of the contents of the files read, text or not, and never more than allowed; files, findings, binary, too large, ignored, linked and failed entries are counted one by one; the limit is reported exactly at the first file that exceeds the file or byte budget |
| Scanner.TooMuchIsReported | crates/blindfold-detectors/src/scanner.rs:306-347 | files that hold more than the byte budget, or are more than allowed, make the report say so |
| Scanner.EveryFileExactlyOnce | crates/blindfold-detectors/src/scanner.rs:240-371 | if no limit was hit every reachable file was considered exactly once and the report is the full account of the walk: findings, bytes and every kind of skipped entry |
| Scanner.ScanWithoutLinks | crates/blindfold-detectors/src/scanner.rs:240-304 | without following links the scan meets what the recursive walk of the tree does |
| ScannerLinks.Explore | crates/blindfold-detectors/src/scanner.rs:247-303 | with links followed, all that lies in a directory that was entered and not cut is taken off the stack, files are considered and directories entered |
| ScannerLinks.NotMissedUnlessCut | crates/blindfold-detectors/src/scanner.rs:240-304 | with links followed, a file reachable without them is considered unless a directory on the way was entered too deep |
| ScannerLinks.FollowingMissesAFile | crates/blindfold-detectors/src/scanner.rs:268-283 | a tree in which following a link misses a file that the scan without following considers |
| Policies.ValidateRules | crates/blindfold-policy/src/lib.rs:693-719 | accepts exactly the valid rule lists, and each error names a violation that is there |
| Policies.New | crates/blindfold-policy/src/lib.rs:574-582 | a policy blocks as invalid exactly when its rules are |
| Policies.LeastByIsLeast | crates/blindfold-policy/src/lib.rs:623-645 | a rule is selected exactly when one matches, and it has the least identifier |
| Policies.Precedence | crates/blindfold-policy/src/lib.rs:604-665 | hard invariant, invalid policy, deny, active allow, preset, each exactly when none before applies, and the action each decides, with the requests the invariant lets through spelled out; an explicit decision names a matching rule |
| Policies.ValidityPermuted | crates/blindfold-policy/src/lib.rs:693-719 | validity does not depend on the order of either list |
| Policies.OrderDoesNotMatter | crates/blindfold-policy/src/lib.rs:609-665 | the whole decision is invariant under permuting either list, for invalid policies too |
| Policies.DenyOnlyTightens | crates/blindfold-policy/src/lib.rs:609-665 | a deny rule added anywhere yields the same action or a block |
| Policies.RestoreExactly | crates/blindfold-policy/src/lib.rs:609-665 | restoring is decided exactly for a valid policy, an active matching allow rule, no matching deny rule and a trusted destination |
| Policies.TimeOnlyTightens | crates/blindfold-policy/src/lib.rs:392-394 | moving the clock forward never makes an action more permissive |
| WebSockets.Forward | crates/blindfold-proxy/src/proxy.rs:397-454 | what is sent for a message of either side, or a refusal |
| WebSockets.HandledExactly | crates/blindfold-proxy/src/proxy.rs:397-454 | an arrival is forwarded exactly when it has such an image and the send works, and is counted with the sizes and observations of its cleaning |
| WebSockets.BridgeWebSockets | crates/blindfold-proxy/src/proxy.rs:359-395 | for every interleaving, what is sent each way and what the trace counts are those of the run up to the first refusal |
| WebSockets.SentIsImageOfPrefix | crates/blindfold-proxy/src/proxy.rs:359-454 | each direction carries, message by message, for a prefix of what was received that way: text within its side's limit as cleaned, empty pings and pongs, closes without reason |
| WebSockets.RunEndsAtFirstRefusal | crates/blindfold-proxy/src/proxy.rs:359-395 | everything before the first refused message, failed send or end is forwarded and nothing after |
| WebSockets.TotalsAreSums | crates/blindfold-proxy/src/proxy.rs:370-392 | byte totals are the sums over forwarded messages of that direction, cut at the largest count |
| WebSockets.ObservationsAreCounted | crates/blindfold-proxy/src/proxy.rs:888-895 | every observation of a forwarded message is counted, and no other |
| ProxyHops.RewriteHeaders | crates/blindfold-proxy/src/proxy.rs:510-523 | the header loop drops hop-by-hop, encoding and replaced credential headers and adds credential and marker |
| ProxyHops.OutboundValues | crates/blindfold-proxy/src/proxy.rs:510-523 | a forwarded request carries one marker whatever it carried; other headers pass in order or are dropped |
| ProxyHops.CredentialsAreReplaced | crates/blindfold-proxy/src/proxy.rs:510-523 | with a gateway credential the client's own stay behind and the gateway's goes out once; without one they pass unchanged |
| ProxyHops.AtMostTwoHops | crates/blindfold-proxy/src/proxy.rs:649-666 | in any network a request without a marker is forwarded at most twice, and twice exactly if neither proxy refuses it and the second upstream is trusted |

## Left out

- Regular-expression detectors, entropy, URL and phone parsing: a detector is an arbitrary function to spans.
- Encryption, hashing, JSON, TOML and YAML codecs: only the contracts named above.
- Symbolic-link checks, permissions, lock files, atomic writes: operations under the lock are serial and a rename is one step.
- Redaction.CaptureStream: a reader's I/O error ends the capture without a summary and is not modelled.
- TraceStore.Store.Append: a file of 2^64 bytes or more, where the size sum saturates, is not modelled.
- Vaults.Vault.List: the listing is a set of references, so its order and the creation and expiry times beside them are not stated; failures of the storage below are not modelled.
- Vaults.Vault.Store: draws are a finite list; the source draws until an identifier is unused.
- SdkBoundary.Boundary.CreateSafeRef: draws are a finite list, as above; locking between threads is left out.
- Splicing.Redact: the replacement text of each mode is an arbitrary writer; placeholders, surrogates and dotenv names are not spelled out.
- Sse.SanitizeSse: a body that is not UTF-8 fails before the model starts.
- Mcp.RestoreServerMessage: the direction towards the agent, size limits and encoding in `transform` are left out.
- Patches.ParsePatch: line numbers do not wrap around at 2^64.
- PatchScan.ScanWith: path classification and the built-in detector are arbitrary functions; a finding's category, message and remediation, and report printing, are left out.
- Containers.RunLocked: the preflight checks are one await with one error, the session name never fails to be drawn, command-line arguments are left out, and a run is a finite script after whose end nothing answers.
- Workspace validation before a locked run.
- Scanner.Scan: the file system does not change during a scan except that files grow.
- ScannerLinks.NotMissedUnlessCut: the condition is sufficient; a file below a directory that was cut may still be met over a link of its own.
- Policies.OrderDoesNotMatter: the preset tables are an arbitrary function that never restores; the explanation's copies of the request are left out.
- WebSockets.BridgeWebSockets: a failed send counts as not sent; the JSON cleaning is an arbitrary function.
- ProxyHops.AtMostTwoHops: a proxy's other refusals are one flag; parties other than these proxies neither add nor remove the marker on the way.
- The Python SDK's payload walking and client proxies, the TypeScript SDK, the audit log, the CLI, sockets and TLS.
