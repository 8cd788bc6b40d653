# ReSchema in Dafny

ReSchema is a judge. It records ground truth from an original binary, takes an
untrusted claim about a model of it, and decides whether to accept. This project
models how it decides and proves what a decision means, for every trace, claim,
case list and byte buffer.

- `Canonical`, `Canonicalizer`, `AlphaEquivalence`: the canonicalisation pass,
  as a pure walk and as the loop over mutable memos that refines it, and the law
  that it forgets names and nothing else.
- `OpenFlags`, `PathTokens`: which flags, numbers and texts it takes for opens for
  writing, addresses and paths.
- `FdWalks`, `DepSlice`, `Observation`: the second walk that rebuilds the
  descriptor table from canonical events, the slices it anchors, and what of a
  trace can be observed at all.
- `HiddenInputs`, `Compare`, `ProgramReplay`, `ReplayedLines`: the program gate
  from nominated cases and hidden suite to the decision on arbitrary job output,
  and the same read off the lines a job printed.
- `FunctionSpec`, `Round`, `FunctionGate`, `Worker`, `FunctionFuzz`,
  `OutputBound`: the function gate as a protocol between host and worker, first
  for every worker output, then for the honest worker.
- `CallDriver`, `Batch`, `CallBatch`: stack layout, marshalling and readback of
  one call; whole case lists on a shared machine, with the edge recorder; both
  together.
- `Pkfmt`, `PkfmtInverse`: the packed-record seed program and the generator that
  targets it; its accumulators undone.
- `Regrade`: recorded checks replayed with their recorded seeds.
- `Fingerprint`, `Manifest`: the source fingerprint's scanner and the corpus
  manifest.

`dafny verify dfyconfig.toml` checks everything.

How the program's world is represented:

- A memo dictionary that numbers keys by first sighting is the duplicate-free
  sequence of its keys; `Canonicalizer` ties the mutable dictionary to it.
- Foreign computation is an arbitrary function: the recorder by input and by
  first or second recording, the original and the model by case, a job by what
  is sent to it, the callee by registers and memory, a checker by the replies it
  has had. A checker run is bounded by a measure it carries. Random draws are
  arbitrary streams, or any value of the drawn range.
- JSON is a datatype. Structural equality stands for Python's `==`: the trusted
  side of every comparison holds strings, null and integers of checked type, so
  that `1 == True` matters only for the timeout marker, where it is modelled.
- Text classes are ASCII: path components, `int(text, 16)`, `bytes.fromhex`.
- 32-bit arithmetic is integers with the wrap written out.

Where the code and its documentation disagree, the code is followed. The module
comment of `src/reschema/exec/canonical.py` (lines 3-8) says descriptors 0, 1
and 2 stay literal; nothing in the code exempts them (`FdWalks.FdTableIff`).

Properties the code does not have in general, each with its exact condition:
re-walking the canonical trace (`WalksCanDisagree`, `WalksAgreeIff`), observing
a run after other allocations and lookups (`LargeResultsLeak`,
`AllocationUnseenIff`, `PathArgumentsLeak`, `LookupUnseenIff`), idempotence of
the fingerprint (`SpacedSlashes`, `IdempotentIff`), rebuilding a claimed
candidate (`RepeatedFileSlips`, `RebuiltIff`), giving a verdict at all
(`MinusOneRaises`, `CheckFunction`), keeping the return trap clear of the buffers
(`SentinelClearIff`), sharing one machine between cases (`CountingLeaks`,
`SnapshotFaithfulIff`), merging into a manifest with a foreign id (`Build`,
`UnreadableIsStuck`).

## Model

| member | source | states |
|---|---|---|
| `Canonical.LexRoundTrip` | src/reschema/exec/canonical.py:21-73 | splitting an argument into ordinary characters and absolute paths loses nothing |
| `Canonical.NotNumeral` | src/reschema/exec/canonical.py:42-45 | text with a character no hexadecimal numeral has never yields flags |
| `OpenFlags.HexTextParses` | src/reschema/exec/canonical.py:43 | the text hex() prints for a number reads as that number |
| `OpenFlags.FlagsDecide` | src/reschema/exec/canonical.py:39-69 | for every flags word and for openat and open alike: after the open returns a descriptor, a read, write, writev or close of it shows FD_0 if and only if bit 0, 1 or 6 of the flags is set, and the descriptor itself otherwise |
| `OpenFlags.FlaglessOpens` | src/reschema/exec/canonical.py:39-46 | a file made by creat always counts as opened for writing; an openat or open whose flags are missing or no numeral never does |
| `OpenFlags.AddressIffLarge` | src/reschema/exec/canonical.py:20 | a printed number is taken for an address exactly from 0x100000 on |
| `PathTokens.PathIsWhole` | src/reschema/exec/canonical.py:21 | two or more components that nothing continues are taken for a path as a whole |
| `PathTokens.PathSpells` | src/reschema/exec/canonical.py:21 | whatever is taken for a path is two or more components |
| `PathTokens.PathLexes` | src/reschema/exec/canonical.py:73 | such a path in front of an argument becomes one piece and the scan goes on after it |
| `Canonicalizer.BasenameIs` | src/reschema/exec/canonical.py:85 | the name of a binary is what follows its last slash |
| `Canonical.OpenStep` | src/reschema/exec/canonical.py:59-65 | the descriptor table only grows and never lists a literal twice |
| `Canonicalizer.TableFacts` | src/reschema/exec/canonical.py:28-36 | a memo over distinct keys holds exactly them and names each by its ordinal of first sighting |
| `Canonicalizer.Mapper.constructor` | src/reschema/exec/canonical.py:28-29 | a new memo is empty |
| `Canonicalizer.Mapper.Name` | src/reschema/exec/canonical.py:31-34 | naming a key sights it, adds at most that key to the memo, and returns prefix and ordinal |
| `Canonicalizer.SubstitutePaths` | src/reschema/exec/canonical.py:73 | every absolute path is replaced by its ordinal, left to right, everything else is kept |
| `Canonicalizer.SubstituteArg` | src/reschema/exec/canonical.py:71-73 | an address-shaped argument becomes its address ordinal; any other only has its paths replaced |
| `Canonicalizer.SubstituteArgs` | src/reschema/exec/canonical.py:70-75 | arguments are replaced in order with the tables carried from one to the next |
| `Canonicalizer.Memo.constructor` | src/reschema/exec/canonical.py:50-54 | the pass starts with empty tables and no open pending |
| `Canonicalizer.Memo.TrackOpen` | src/reschema/exec/canonical.py:59-65 | the stored descriptor dictionary and pending flag follow the open bookkeeping, and the dictionary stays the memo of first sightings |
| `Canonicalizer.Memo.Step` | src/reschema/exec/canonical.py:57-82 | one loop iteration over mutable memos computes the canonical event and the next tables |
| `Canonicalizer.CanonicalizeEvents` | src/reschema/exec/canonical.py:49-82 | the loop over mutable memos refines the pure walk on every event list |
| `Canonicalizer.Canonicalize` | src/reschema/exec/canonical.py:49-86 | the whole pass: canonical events, first argument cut to its basename, everything else untouched |
| `AlphaEquivalence.CanonForgetsOnlyNames` | src/reschema/exec/canonical.py:28-86 | canonical event lists are equal if and only if one raw list is the other under a bijection of addresses and a bijection of paths, for traces whose open flags and results are not address-shaped and that hold no text posing as an ordinal |
| `AlphaEquivalence.PiecesBack` | src/reschema/exec/canonical.py:28-36 | equal substituted texts come from pieces that correspond path by path, and the path tables stay level |
| `AlphaEquivalence.EventBack` | src/reschema/exec/canonical.py:57-82 | equal canonical events come from events that correspond name by name, and all tables stay in step |
| `AlphaEquivalence.EventForth` | src/reschema/exec/canonical.py:57-82 | events that correspond under the renaming have equal canonical forms, and the tables keep tracking the renaming |
| `AlphaEquivalence.ShapeParses` | src/reschema/exec/canonical.py:39-46 | flags texts alike outside paths read as the same number, and are the same text when they hold no path |
| `FdWalks.FdTableIff` | src/reschema/validate/program.py:64-78 | the descriptor table holds a literal if and only if some open for writing returned it with no open event between entry and exit; 0, 1 and 2 are no exception |
| `FdWalks.FdWalkGrows` | src/reschema/validate/program.py:64-78 | the table of a prefix is a prefix of the table |
| `FdWalks.CanonTable` | src/reschema/exec/canonical.py:53-65 | the table the canonicaliser builds is the walk of the raw events |
| `FdWalks.CanonWalkIsVisible` | src/reschema/validate/program.py:64-78 | for every trace, re-walking the canonical events gives exactly the raw walk that passes over opens with address-shaped flags or results |
| `FdWalks.ShownTableIff` | src/reschema/validate/program.py:64-78 | the rebuilt table holds a literal if and only if some open for writing with flags and result below the address shape returned it |
| `FdWalks.TableOrder` | src/reschema/validate/program.py:64-78 | the table lists literals in the order of their first opens |
| `FdWalks.WalksAgreeIff` | src/reschema/validate/program.py:64-78 | for every trace, the rebuilt table equals the canonicaliser's if and only if every descriptor opened for writing was also opened visibly and first visible opens come in the order of first opens |
| `FdWalks.FdWalksAgree` | src/reschema/validate/program.py:64-78 | with open flags and results below six hex digits the two walks agree, table and pending flag |
| `FdWalks.WalksCanDisagree` | src/reschema/validate/program.py:75-76 | a created file whose descriptor literal is address-shaped is tabled on the raw trace and lost on the canonical one |
| `FdWalks.AddrFlagsHide` | src/reschema/exec/canonical.py:39-46 | an address-shaped flags word never shows write intent after canonicalisation |
| `DepSlice.FdTable` | src/reschema/validate/program.py:64-78 | the loop computes the walk of the whole event list |
| `DepSlice.BuildChain` | src/reschema/validate/program.py:81-104 | the loops collect the last owning open and every write on the descriptor, cut to the last six, or nothing |
| `DepSlice.OpenerIsLast` | src/reschema/validate/program.py:88-98 | the collected opener is the last exit returning the literal whose latest entered open meant to write |
| `DepSlice.LiteralOfName` | src/reschema/validate/program.py:117-118 | inverting the table recovers the literal behind every ordinal |
| `DepSlice.CanonWriteHead` | src/reschema/exec/canonical.py:66-69 | a write through a tabled descriptor carries that descriptor's ordinal in the canonical trace |
| `DepSlice.StdoutIsRenamed` | src/reschema/exec/canonical.py:59-69 | once an open for writing returns descriptor 1, a write to it shows FD_0 |
| `DepSlice.WritesStand` | src/reschema/validate/program.py:99-103 | the writes of a slice are exactly the write and writev events whose first argument is the descriptor, in order |
| `DepSlice.SliceIsAnchored` | src/reschema/validate/program.py:107-119 | a slice focused on a write through an opened descriptor ends at the focus and is the last six of the last owning open followed by the writes, all of them while at most four writes reach the focus |
| `DepSlice.NoFilesSlice` | src/reschema/validate/program.py:122-132 | there is no slice for a files mismatch exactly when nothing was opened for writing |
| `DepSlice.FilesSlice` | src/reschema/validate/program.py:122-132 | otherwise it is the last six of the last owning open of the descriptor opened last and the writes that carry its ordinal |
| `Observation.ObservationInvariance` | src/reschema/validate/program.py:46-54 | the observable events of the canonical trace are unchanged by any renaming of addresses, any injective renaming of opened descriptors that fixes those shown literally, and any insertion of events that are neither observable nor opens for writing nor inside an open |
| `Observation.ObservedEvent` | src/reschema/validate/program.py:46-54 | one observable event looks the same before and after the renaming whatever the address and path tables hold |
| `Observation.EventsBehind` | src/reschema/validate/program.py:46-54 | for every run, names sighted before it change what is observed if and only if the run shows an address ordinal in an observable result or a path ordinal in an observable argument |
| `Observation.AllocationUnseenIff` | src/reschema/validate/program.py:46-54 | an allocation before the run goes unseen if and only if no observable result of the run is address-shaped |
| `Observation.LookupUnseenIff` | src/reschema/validate/program.py:46-54 | a path looked up before the run goes unseen if and only if no observable argument leaves a path standing |
| `Observation.LargeResultsLeak` | src/reschema/validate/program.py:52 | the smallest such run for results: one silent allocation changes what is observed of a write whose count is address-shaped |
| `Observation.PathArgumentsLeak` | src/reschema/validate/program.py:52 | the smallest such run for paths: one silent lookup changes what is observed of a path argument |
| `HiddenInputs.HiddenFact` | src/reschema/validate/program.py:286-300 | every hidden case is a usable draw whose key was not known |
| `HiddenInputs.HiddenDistinct` | src/reschema/validate/program.py:293-296 | hidden cases have pairwise distinct keys |
| `HiddenInputs.HiddenExhausts` | src/reschema/validate/program.py:286-300 | when the suite is short, every usable draw with a new key made it into the suite |
| `HiddenInputs.SameKeySameInput` | src/reschema/validate/program.py:293 | the key determines the input |
| `HiddenInputs.HiddenSuiteIsFresh` | src/reschema/validate/program.py:274-301 | at most eight stable, non-crashing cases, pairwise distinct and disjoint from the recorded ones; a short suite means every one of the eighty draws was known, repeated or unusable |
| `HiddenInputs.DrawHidden` | src/reschema/validate/program.py:281-301 | the loop with its break and its known set computes that suite |
| `HiddenInputs.DrawFresh` | src/reschema/validate/program.py:285-301 | the drawing loop itself, for any key |
| `Compare.IndexIsExact` | src/reschema/validate/program.py:185 | the index list names, for each i, the position of the i-th observable event in the full stream |
| `Compare.DescribedDisagrees` | src/reschema/validate/program.py:151-195 | no report can describe a pair that agrees |
| `Compare.CompareEvents` | src/reschema/validate/program.py:173-195 | same exactly when the observable events are equal; otherwise the first difference with its slice, or the two lengths of which one list prefixes the other |
| `Compare.ComparePair` | src/reschema/validate/program.py:150-195 | same exactly when output, exit code, files and observable events all agree; otherwise a truthful report in the order io, files, events |
| `Compare.CompareAll` | src/reschema/validate/program.py:145-196 | same exactly when all pairs agree; otherwise the report describes the least pair that does not |
| `ProgramReplay.RecordStable` | src/reschema/validate/program.py:268-271 | ground truth carries the very input it was recorded from |
| `ProgramReplay.ParseCases` | src/reschema/checks/program_replay.py:66-97 | accepted exactly when the list and every case are well-formed; the result is the cases deduplicated in order of first appearance |
| `ProgramReplay.RecordNominated` | src/reschema/checks/program_replay.py:183-188 | the recordings of all nominated cases in order, or nothing when one is unstable |
| `ProgramReplay.JudgeClaims` | src/reschema/checks/program_replay.py:231-254 | passes exactly when the suite is full and everything agrees; starvation exactly when the nominated cases agree and the suite is short; otherwise the least diverging case and whether it was nominated or hidden |
| `ProgramReplay.CompileIsNoTrace` | src/reschema/checks/program_replay.py:217-219 | a compiler report is never mistaken for a well-formed trace list |
| `ProgramReplay.Judge` | src/reschema/checks/program_replay.py:207-254 | for every job outcome the decision, its reason and its stage |
| `ProgramReplay.Check` | src/reschema/checks/program_replay.py:160-254 | for every candidate, recorder, draw and job: passed if and only if the candidate is well-formed, every nominated case is stable, the hidden suite has eight cases, the job is well-formed and every claimed trace agrees; every rejection has the reason and stage its cause calls for |
| `ReplayedLines.LineIff` | src/reschema/checks/program_replay.py:110-128 | a well-formed line agrees with a recording if and only if it spells, field by field, its stdout, stderr, exit code, files, and the syscall, phase, arguments up to address ordinals and every other key of each write, writev and exit_group event |
| `ReplayedLines.AcceptableIff` | src/reschema/checks/program_replay.py:191-254 | for every job, acceptance in terms of the lines it printed: each well-formed and spelling the recording of its own case |
| `ReplayedLines.HonestPassIff` | src/reschema/checks/program_replay.py:43-56 | an honest job passes if and only if the model, run on the very inputs of the nominated and hidden cases, reproduces each recording |
| `ReplayedLines.StableIff` | src/reschema/validate/program.py:268-271 | an input is stable exactly when its two recordings agree on every channel and on the canonical events, and its truth is then the first recording, canonically |
| `ReplayedLines.StableUpToNames` | src/reschema/validate/program.py:268-271 | on plain recordings: exactly when the two differ in nothing but the names of addresses and paths |
| `ReplayedLines.TruthsIff` | src/reschema/checks/program_replay.py:183-188 | the recordings of the nominated cases are the truths of their inputs, in order |
| `ReplayedLines.CaseIff` | src/reschema/checks/program_replay.py:74-96 | a case object is accepted exactly when it spells at most 16 arguments of 256 characters without a NUL and at most 4096 bytes of hex, and it is read as that case |
| `ReplayedLines.CaseListIff` | src/reschema/checks/program_replay.py:72-73 | a nomination is a list of at most sixteen such objects |
| `ReplayedLines.WellFormedMeans` | src/reschema/checks/program_replay.py:110-128 | what a well-formed line guarantees the comparison |
| `ProgramReplay.PassMeansFreshEvidence` | src/reschema/checks/program_replay.py:189-254 | a pass rests on eight hidden inputs, pairwise distinct and disjoint from the nominated ones |
| `Pkfmt.ParseEncoded` | src/reschema/corpus/seeds/pkfmt.c:46-57 | parsing an encoded record list gives it back |
| `Pkfmt.ParsedEncodes` | src/reschema/corpus/seeds/pkfmt.c:46-57 | whatever parses is the encoding of what it parsed to |
| `Pkfmt.ParserIsExact` | src/reschema/corpus/seeds/pkfmt.c:46-57 | parsing returns a record list if and only if the bytes are its encoding and nothing else |
| `Pkfmt.VersionOk` | src/reschema/corpus/seeds/pkfmt.c:27-31 | non-zero exactly on versions 2 to 4, and then sixteen times the version |
| `Pkfmt.Runner.constructor` | src/reschema/corpus/seeds/pkfmt.c:33 | the error number starts at zero |
| `Pkfmt.Runner.Extract` | src/reschema/corpus/seeds/pkfmt.c:35-59 | result and error number for every buffer, size and tag; no index at or past the size is read |
| `PkfmtInverse.MixInverse` | src/reschema/corpus/seeds/pkfmt.c:53 | one step of the fold, undone: taking the length off modulo 2^32 and exclusive-oring the byte again gives the accumulator before it |
| `PkfmtInverse.PayloadUnfolds` | src/reschema/corpus/seeds/pkfmt.c:53 | unfolding a payload from the right recovers the accumulator that entered it |
| `PkfmtInverse.FnvInverse` | src/reschema/corpus/seeds/pkfmt.c:66-69 | one step of the hash, undone through the inverse of 16777619 modulo 2^32 |
| `PkfmtInverse.HashUnwinds` | src/reschema/corpus/seeds/pkfmt.c:65-70 | every hash unwinds to 2166136261 |
| `PkfmtInverse.SummaryUnwinds` | src/reschema/corpus/seeds/pkfmt.c:84-91 | the numbers of every summary, by where they unwind to over the records of their tag and the bytes after the header |
| `PkfmtInverse.ErrnoIs` | src/reschema/corpus/seeds/pkfmt.c:37-57 | each error number, and exactly when it is set, in plain numbers; the result is zero whenever there is one |
| `PkfmtInverse.ReportsAre` | src/reschema/corpus/seeds/pkfmt.c:77-91 | each report, and exactly the inputs that get it |
| `Prelude.XorBits` | src/reschema/corpus/seeds/pkfmt.c:53 | a bit of an exclusive or is set exactly when it is set in one operand and not in the other |
| `Pkfmt.Runner.Checksum` | src/reschema/corpus/seeds/pkfmt.c:61-71 | the wrapping FNV-1a hash of the bytes after the header, or error 1 and zero |
| `Pkfmt.Runner.Decide` | src/reschema/corpus/seeds/pkfmt.c:73-92 | the entry point's report on every input, oversized ones included |
| `Pkfmt.FoldBuffer` | src/reschema/corpus/seeds/pkfmt.c:44-58 | the record loop keeps every offset within 32 bits and the buffer, succeeds exactly when the bytes parse, and then returns the fold of the matching payloads |
| `Pkfmt.FoldRecord` | src/reschema/corpus/seeds/pkfmt.c:47-55 | one turn of the record loop: stopped exactly when no whole record stands here, otherwise the next offset and the fold of this record |
| `Pkfmt.FoldPayload` | src/reschema/corpus/seeds/pkfmt.c:53 | the payload loop computes the wrapping fold |
| `Pkfmt.ExtractIsExact` | src/reschema/corpus/seeds/pkfmt.c:35-59 | error number 0 if and only if the bytes are a header and exactly the announced records, and then the result is the fold over those records |
| `Pkfmt.ExtractRoundTrip` | src/reschema/corpus/seeds/pkfmt.c:35-59 | encoding any admissible record list behind any header and extracting recovers its fold |
| `Pkfmt.SameErrno` | src/reschema/corpus/seeds/pkfmt.c:84-88 | the two extractions set the same error number on every buffer and size |
| `Pkfmt.ReportIff` | src/reschema/corpus/seeds/pkfmt.c:73-92 | a summary if and only if magic, version and records are all right, and then with exactly the folds and the hash of those records |
| `Pkfmt.GrammarPacket` | src/reschema/validate/program.py:206-230 | the generator's loop builds the packet its choices stand for |
| `Pkfmt.HonestDraws` | src/reschema/validate/program.py:219-227 | records that claim their own length are an encoding |
| `Pkfmt.OverclaimFails` | src/reschema/validate/program.py:222-225 | a last record that claims more than is left never parses, whatever precedes it |
| `Pkfmt.GeneratorMeetsParser` | src/reschema/validate/program.py:206-230 | every generated packet is reported bad magic iff flipped, else bad version iff 5, else truncate iff the last record overclaims, else a summary of the generated records |
| `Fingerprint.ScanCovers` | src/reschema/domain.py:26-37 | the tokens spell the source |
| `Fingerprint.NormOfSeparated` | src/reschema/domain.py:32-37 | for any token list whose neighbours are not run together, the fingerprint is its literals and plain characters in order |
| `Fingerprint.ScanIsSeparated` | src/reschema/domain.py:26-29 | the tokens of every scan are such a list |
| `Fingerprint.FingerprintInvariance` | src/reschema/domain.py:32-37 | changing, adding or removing comments and whitespace leaves the fingerprint unchanged as long as the surviving tokens are not run together |
| `Fingerprint.IdempotentIff` | src/reschema/domain.py:32-37 | fingerprinting twice changes nothing if and only if no surviving slash meets a slash or star |
| `Fingerprint.SpacedSlashes` | src/reschema/domain.py:32-37 | two slashes a space apart are not a fixed point |
| `Fingerprint.WhitespaceGone` | src/reschema/domain.py:27 | space, tab, newline, vertical tab, form feed and carriage return vanish wherever the scanner stands |
| `Fingerprint.WhitespaceBetween` | src/reschema/domain.py:27 | a space, tab, newline or carriage return added between two tokens keeps the fingerprint as long as neither is read differently for it |
| `Fingerprint.PrintableKept` | src/reschema/domain.py:27 | any other printable ASCII character but a quote stands for itself |
| `Fingerprint.LineCommentGone` | src/reschema/domain.py:27 | a line comment goes, its newline included |
| `Fingerprint.BlockCommentGone` | src/reschema/domain.py:27 | a block comment goes, up to the first terminator |
| `Fingerprint.LiteralKept` | src/reschema/domain.py:27 | a string or character literal stays verbatim, whatever comment openers it holds |
| `Fingerprint.EscapeKept` | src/reschema/domain.py:27 | an escaped quote does not end a literal |
| `Regrade.ReplayFidelity` | src/reschema/regrade.py:61-73 | for every checker, replaying with the recorded seeds gives the recorded verdict and uses every seed |
| `Regrade.UnreplayableIff` | src/reschema/regrade.py:68-73 | a replay is unreplayable if and only if the checker would draw past the recorded seeds; otherwise its verdict is that of a run starting with them |
| `Regrade.ReplayContext.constructor` | src/reschema/regrade.py:64-66 | a replay starts with no seed handed out |
| `Regrade.ReplayContext.DrawSeed` | src/reschema/regrade.py:68-73 | hands out the next recorded seed or none, and never anything else |
| `Regrade.ReplayContext.Check` | src/reschema/regrade.py:171-178 | running a checker under this context is the replay, for every checker and every number of draws |
| `Regrade.Rebuild` | src/reschema/regrade.py:97-105 | succeeds exactly when every captured file matches the claim, reads back, and the counts agree |
| `Regrade.RebuiltIsClaimed` | src/reschema/regrade.py:97-105 | with distinct captured files the rebuilt candidate is exactly the claimed files minus notes, byte for byte |
| `Regrade.CompleteIff` | src/reschema/regrade.py:97-105 | among matching captures, every claimed file was captured if and only if none was captured twice |
| `Regrade.RebuiltIff` | src/reschema/regrade.py:97-105 | the rebuilt candidate is the claimed one minus notes if and only if every claimed file but the notes was captured |
| `Regrade.RepeatedFileSlips` | src/reschema/regrade.py:97-105 | one file captured under two names can stand in for a claimed file that is missing |
| `Regrade.CollectInputs` | src/reschema/regrade.py:82-94 | refused if and only if some input is unexpected or does not read back; otherwise the target is the last submission record and each channel holds exactly the named files with the bytes of the last input of that name |
| `Regrade.GatherEvidence` | src/reschema/regrade.py:80-121 | intact, without verdict or refused, each if and only if: grounded in a last record that matches the captures and fully recorded; grounded and no verdict; not grounded, or a verdict without its seeds or jobs |
| `Regrade.EvidenceFinds` | src/reschema/regrade.py:80-121 | the same of the specification every row is proved against, with what intact evidence holds |
| `Regrade.FileAfter` | src/reschema/regrade.py:99 | the file of a captured name is what follows /candidate/ |
| `Regrade.GradeRow` | src/reschema/regrade.py:143-182 | each key of a row if and only if: refused when not grounded or a verdict lacks its seeds or jobs; unreplayable, with its cause, when grounded without a verdict, an infrastructure failure, without a current checker, under another image, or when the checker's own run with the recorded seeds first draws past them; holds or flipped as that run's answer is or is not the recorded status |
| `Regrade.RegradeAll` | src/reschema/regrade.py:135-183 | one row per completed check of the run and submission asked for, each of them and in order |
| `Regrade.EveryRowIsClassified` | src/reschema/regrade.py:195-204 | every row of every report is exactly one of refused, unreplayable, holds, flipped, and is counted as that |
| `Regrade.UnchangedJudgeHolds` | src/reschema/regrade.py:124-183 | a recorded judgement under an unchanged checker and image holds; it never flips and is never unreplayable |
| `FunctionSpec.ParamsOkIff` | src/reschema/checks/function_fuzz.py:73-93 | testing names against the two sets of scalars and sizing parameters is the declared rule |
| `FunctionSpec.CheckParams` | src/reschema/checks/function_fuzz.py:72-93 | true exactly when names are distinct identifiers, ranges are ordered 32-bit pairs, lengths name scalars and sizing ranges are capped |
| `FunctionSpec.ParamRoundTrip` | src/reschema/driver/spec.py:19-39 | a parameter sent in its wire shape is read back as itself |
| `FunctionSpec.ParsesIff` | src/reschema/driver/spec.py:19-35 | an object parses to a parameter if and only if it names it, its kind, its length parameter, its range or -100 to 100, and is void exactly when "ret" is "void" |
| `FunctionSpec.ParsesAllIff` | src/reschema/checks/function_fuzz.py:71 | a list parses if and only if each object declares its own parameter, in order |
| `FunctionSpec.VoidIff` | src/reschema/validate/function.py:111 | the function counts as void exactly when the first object says "ret" is "void" |
| `FunctionSpec.ParseParams` | src/reschema/checks/function_fuzz.py:65-94 | accepted exactly when every object parses and the rules hold, and then each parameter is the one its object declares |
| `FunctionSpec.WireRoundTrip` | src/reschema/validate/function.py:47-52 | a value sent and read back at its kind is the value |
| `FunctionSpec.WireInjective` | src/reschema/validate/function.py:175-182 | serialised cases coincide exactly when the cases do |
| `Round.DrawCells` | src/reschema/driver/calling.py:76 | as many cells as the length says, none when it is negative, each in range |
| `Round.DrawText` | src/reschema/driver/calling.py:69-70 | up to sixteen lower-case letters and a terminator |
| `Round.DrawScalars` | src/reschema/driver/calling.py:59-62 | exactly the scalars, each in its range |
| `Round.DrawCase` | src/reschema/driver/calling.py:57-76 | a case assigns every parameter a value the declaration admits, and every buffer with a length parameter has that many cells |
| `Round.GenInputs` | src/reschema/driver/calling.py:54-78 | n declared cases |
| `Round.ScoutCase` | src/reschema/validate/scout.py:74-89 | the reading everywhere it fits, and every sizing parameter snapped to the one cell there is |
| `Round.ScoutIs` | src/reschema/validate/scout.py:76-89 | what a scout assigns, kind by kind: one for a sizing parameter and the reading for any other scalar, the reading alone in a buffer, the immediate's little-endian bytes and a NUL in a string |
| `Round.ReadingsAre` | src/reschema/validate/scout.py:72 | the readings of an immediate: itself, and its two's-complement value exactly when the top bit is set |
| `Round.ScoutInputs` | src/reschema/validate/scout.py:64-92 | one coherent scout per reading in order, none for an empty declaration |
| `Round.DrawRound` | src/reschema/validate/scout.py:95-108 | exactly n coherent cases; the first min(16, n/4, scouts) are the first readings; the rest is the uniform draw unchanged and is declared |
| `Round.ScoutPackableIff` | src/reschema/validate/scout.py:71-82 | a scout fits signed 32-bit cells if and only if no buffer is declared or the reading is below 2^31 |
| `Round.DeclaredPacks` | src/reschema/driver/calling.py:71-76 | a declared draw always fits signed 32-bit cells |
| `Round.RoundPacksIff` | src/reschema/validate/scout.py:95-108 | a merged round holds a case that cannot be packed if and only if a buffer is declared and a reading of 2^31 or more made it into the slice |
| `FunctionGate.VariedIff` | src/reschema/validate/function.py:175-183 | two distinct serialised survivors exist if and only if two different declared inputs survived |
| `FunctionGate.RunOriginals` | src/reschema/driver/calling.py:81-91 | the original runs on every case, or the driver raises exactly when some case has a cell that cannot be packed |
| `FunctionGate.Floors` | src/reschema/validate/function.py:132-201 | the stage that refuses the round once the original has run, or none exactly when all floors pass |
| `FunctionGate.CompareResults` | src/reschema/validate/function.py:231-269 | the comparison loop with its counter and early exits |
| `FunctionGate.CompareIs` | src/reschema/validate/function.py:231-269 | all entries agree and the count is theirs, or the report names the least entry that does not, with its field |
| `FunctionGate.ValidateFunction` | src/reschema/validate/function.py:70-269 | no verdict but a raise exactly when the declaration gets past its floors and some case cannot be packed; otherwise the gate's verdict, for every original and every model reply |
| `FunctionGate.JudgeRound` | src/reschema/validate/function.py:130-269 | the stages after the original has run |
| `FunctionGate.AcceptedIff` | src/reschema/validate/function.py:84-269 | for every reply: accepted if and only if the floors pass and the reply agrees on every survivor; compared plus skipped is then the round |
| `FunctionGate.ClaimLength` | src/reschema/checks/function_fuzz.py:137-144 | a claim past the shape check has full length or ends in a crash |
| `FunctionGate.ClaimedValues` | src/reschema/checks/function_fuzz.py:97-145 | a full claim without a crash is one well-shaped value per case, decoded in order |
| `FunctionGate.AcceptanceIsEarned` | src/reschema/checks/function_fuzz.py:97-184 | however the worker's output was forged, acceptance means a completed job with one well-shaped value per survivor equal to the original's behaviour, two different declared survivors, no declared memory fault and a channel to compare |
| `FunctionGate.AcceptedSpells` | src/reschema/validate/function.py:231-269 | on the wire: for each survivor in order the result object holds the original's return value unless the first parameter is declared void, and every buffer and string it left |
| `FunctionGate.FloorsMean` | src/reschema/validate/function.py:84-201 | the floors in the declaration's own terms |
| `FunctionGate.MemKindsIff` | src/reschema/checks/function_fuzz.py:136 | the memory channels are the buffers and strings, each with its kind |
| `FunctionGate.FieldIs` | src/reschema/validate/function.py:234-256 | the reported field is the crash, else the memory when it differs, else the return value |
| `FunctionFuzz.CheckFunction` | src/reschema/checks/function_fuzz.py:194-229 | from declaration to outcome: an ill-formed declaration is refused; a raise and no verdict if and only if a declared buffer meets a reading of 2^31 or more among the scouts taken; otherwise the gate's verdict on a coherent round, and an acceptance is earned |
| `FunctionFuzz.MinusOneRaises` | src/reschema/driver/calling.py:87-90 | a comparison with minus one in the original leaves a submission that declares one buffer without a verdict |
| `Worker.RunCases` | src/reschema/driver/native_worker.py:139-144 | the loop calls in order and stops at the first crash |
| `Worker.StopAtCrash` | src/reschema/driver/native_worker.py:139-144 | results are the calls in order, only the last can be a crash, and a short list ends in one |
| `Worker.OutputPasses` | src/reschema/checks/function_fuzz.py:124-145 | the worker's printed result list comes through the shape check unchanged, crash included |
| `Worker.WorkerSeesCase` | src/reschema/driver/native_worker.py:132-138 | the worker decodes exactly the case the host drew |
| `Worker.HonestReply` | src/reschema/driver/native_worker.py:123-144 | below the output cap an honest worker's reply is its call results on the survivors |
| `Worker.HonestVerdict` | src/reschema/validate/function.py:202-269 | once the floors pass on a drawn round of at most 64 cases, an honest worker is never cut off and is accepted exactly when the model agrees on every survivor; otherwise the least survivor on which it crashes or differs is reported with its field |
| `Worker.FittingVerdict` | src/reschema/validate/function.py:202-269 | the same for any cases whose printed results stay below the job's output cap |
| `CallDriver.PackRoundTrip` | src/reschema/driver/calling.py:89 | packing signed 32-bit cells little-endian and unpacking gives them back |
| `CallDriver.UnpackFaithful` | src/reschema/driver/calling.py:177 | unpacking and packing gives the bytes back |
| `CallDriver.CellIsLittleEndian` | src/reschema/driver/calling.py:89 | a cell's bytes stand, little-endian, for its value modulo 2^32 |
| `CallDriver.RegionsDisjoint` | src/reschema/driver/calling.py:122-126 | marshalled regions lie below the stack top and clear of each other |
| `CallDriver.RegionsTight` | src/reschema/driver/calling.py:122-126 | fewer than sixteen bytes are left between one region and the next |
| `CallDriver.RegistersHold` | src/reschema/driver/calling.py:128-135 | each argument register holds its scalar or the address of its region |
| `CallDriver.EntryAlignment` | src/reschema/driver/calling.py:139 | the entry stack pointer is 8 mod 16 and at or below every region |
| `CallDriver.SentinelClearIff` | src/reschema/driver/calling.py:139-141 | the return trap stays below the lowest buffer if and only if the stack top is in the lower half of its sixteen bytes |
| `CallDriver.SentinelIs` | src/reschema/driver/calling.py:141 | the eight bytes planted at rsp stand, little-endian, for 0x1000000 |
| `CallDriver.TrapPlanted` | src/reschema/driver/calling.py:139-141 | those bytes are in memory at rsp when the callee starts |
| `CallDriver.EnteredHolds` | src/reschema/driver/calling.py:120-141 | every buffer and string is intact in memory when the callee starts |
| `CallDriver.CanMarshalIff` | src/reschema/driver/calling.py:81-91 | a well-shaped case can be marshalled exactly when every cell of every buffer fits 32 bits |
| `CallDriver.ReadBackIff` | src/reschema/driver/calling.py:173-182 | readback reports the value that went in if and only if its bytes are still there |
| `CallDriver.ReadAllIs` | src/reschema/driver/calling.py:173-182 | readback raises if and only if a watched byte is no longer mapped, and otherwise reports each parameter's own region |
| `CallDriver.StoredIsRead` | src/reschema/driver/calling.py:173-182 | what the callee stores into a buffer or string is what is read back |
| `CallDriver.MarshalRoundTrip` | src/reschema/driver/calling.py:117-182 | after a callee that writes only below its stack pointer every buffer and string reads back exactly |
| `CallDriver.Vm.constructor` | src/reschema/driver/calling.py:94-105 | a machine with its stack top and memory |
| `CallDriver.Vm.Marshal` | src/reschema/driver/calling.py:117-135 | the downward layout, the bytes written and the register values |
| `CallDriver.Vm.Enter` | src/reschema/driver/calling.py:117-141 | memory, registers and stack pointer at the moment the callee is entered |
| `CallDriver.Vm.ReadBackAll` | src/reschema/driver/calling.py:173-182 | the readback loop over recorded pointers, stopping at the first unmapped byte |
| `CallDriver.Vm.RunCase` | src/reschema/driver/calling.py:108-183 | one whole call on the machine, for every callee: fault, timeout, result, or a raise, the one on packing exactly when a cell does not fit |
| `CallDriver.OutcomeIs` | src/reschema/driver/calling.py:142-182 | every outcome of a call, and exactly when it is reached |
| `CallDriver.CallRoundTrip` | src/reschema/driver/calling.py:108-183 | a callee that keeps to its frame returns with every buffer and string as it went in |
| `Batch.Recorder.constructor` | tools/coverage_spike.py:31-38 | a recorder starts empty |
| `Batch.Recorder.BeforeCase` | tools/coverage_spike.py:45-48 | the previous block is forgotten, the totals are not |
| `Batch.Recorder.Block` | tools/coverage_spike.py:50-55 | one block sets the bin of its edge and counts one hit |
| `Batch.Recorder.Observe` | tools/coverage_spike.py:50-55 | a run adds exactly the bins of its edges and its number of blocks |
| `Batch.EdgeBits` | tools/coverage_spike.py:53 | bit k of an edge's bin is set if and only if k is below 15 and exactly one of bit k of the address and bit k+1 of the previous one is |
| `Batch.EdgesIff` | tools/coverage_spike.py:50-55 | a case hits exactly the bins of its consecutive blocks |
| `Batch.RunHooked` | src/reschema/driver/calling.py:261-262 | one case under the recorder starts from no previous block |
| `Batch.FreshRoute` | src/reschema/driver/calling.py:246-254 | one machine per case gives the fresh results and adds the union of edges and the sum of hits |
| `Batch.SnapshotRoute` | src/reschema/driver/calling.py:255-265 | one machine restored before each case gives the same, on every list where runs are steady |
| `Batch.BatchCall` | src/reschema/driver/calling.py:206-265 | on both routes the results are those of fresh machines, the mode records the route, and the recorder gains the union of the cases' edges and the sum of their hits; only the shared route relies on the callee |
| `Batch.InsulatedIsSteady` | src/reschema/driver/calling.py:217-224 | a callee insulated from what it does outside the snapshot is steady on every case list |
| `Batch.PureOrBlindIsInsulated` | src/reschema/driver/calling.py:217-224 | a callee that leaves the outside world alone, or never looks at it, is insulated |
| `Batch.SnapshotFaithfulIff` | src/reschema/driver/calling.py:255-265 | the shared machine shows on every case list what fresh machines show if and only if some set of worlds holds the first, is closed under runs, and looks the same to every run |
| `Batch.CountingLeaks` | src/reschema/driver/calling.py:222-224 | a callee that counts its calls outside the snapshot shows different results on a shared machine |
| `CallBatch.ConfinedIsInsulated` | src/reschema/driver/calling.py:217-224 | for real calls that set of worlds can be given in terms of the callee alone |
| `CallBatch.BatchOfCalls` | src/reschema/driver/calling.py:206-265 | a batch of calls gives, case by case and on both routes, the outcome of the call alone, so a case that faults, stalls or scribbles over memory changes no other |
| `CallBatch.BatchRoundTrip` | src/reschema/driver/calling.py:206-265 | behind a callee that keeps to its frame every buffer and string of every case of a batch comes back as it went in, shared machine or not |
| `Manifest.SplitJoins` | src/reschema/corpus/generate.py:51 | joining the parts of a split gives the text back |
| `Manifest.IndicesSpell` | src/reschema/corpus/generate.py:50-56 | three parts that are all found in their lists spell the slot name of the indices found |
| `Manifest.SortKeyInjective` | src/reschema/corpus/generate.py:49-57 | two ids with one key are one id |
| `Manifest.TaskIdRoundTrip` | src/reschema/corpus/generate.py:49-57 | every slot of the matrix is recovered from its own id |
| `Manifest.LessIff` | src/reschema/corpus/generate.py:49-57 | ids are ordered by seed first, then by compiler, level and variant |
| `Manifest.TextLessIff` | src/reschema/corpus/generate.py:160 | seeds are ordered by their first difference, a proper prefix first |
| `Manifest.ListingUnique` | src/reschema/corpus/generate.py:160 | a set of ids has one sorted listing only |
| `Manifest.Sorted` | src/reschema/corpus/generate.py:160 | sorting lists the set in strictly increasing key order |
| `Manifest.Plan` | src/reschema/corpus/generate.py:91-112 | the nested loops plan exactly the matrix slots of present seeds that pass the filters |
| `Manifest.Build` | src/reschema/corpus/generate.py:91-162 | the manifest after one build, id by id: built, preserved or absent; a build that plans nothing changes nothing; a targeted build raises and writes nothing exactly when a preserved id has no key |
| `Manifest.OutOfScopeKept` | src/reschema/corpus/generate.py:147-155 | a targeted build preserves every entry outside its scope |
| `Manifest.FullBuildPrunes` | src/reschema/corpus/generate.py:147-157 | an unfiltered build leaves exactly the planned slots |
| `Manifest.UnreadableIsStuck` | src/reschema/corpus/generate.py:146-162 | a manifest with an id that has no key is never changed by any targeted build |
| `Manifest.RunResult` | src/reschema/corpus/generate.py:146-157 | after any sequence of targeted builds on readable entries a covered id has its built entry and any other is as at the start |
| `Manifest.ManifestConfluence` | src/reschema/corpus/generate.py:146-157 | targeted builds covering the matrix, in any order, end at the full-build manifest |
| `Manifest.ConfluentFiles` | src/reschema/corpus/generate.py:146-162 | and the file they write is the full build's, entries and order |
| `Manifest.WriteManifest` | src/reschema/corpus/generate.py:158-162 | the file lists exactly the entries in the one order their keys allow |
| `OutputBound.ResultsFitTheCap` | src/reschema/checks/function_fuzz.py:46-50 | for every accepted declaration of at most six parameters and every round of at most 64 cases, cut short by a crash or not, the worker prints less than 256 KiB |

## Left out

- Qiling and unicorn emulation, fork and waitpid, dlopen, podman, the toolchain image: foreign code and I/O; runs are arbitrary functions.
- Wall-clock timeouts and timing ratios: a timeout is one of the outcomes a run or job may have.
- Random number generation and seeding: draws are arbitrary; the mix of grammar packets and raw bytes in the hidden input stream is not modelled.
- Error messages, previews and the shrinking of oversized feedback (`_cap`, `_capped`): presentation; reasons and stages are modelled.
- Facts attached to an accepted submission, and its digest form when it is large.
- Reading candidate files and raw JSON, UTF-8 or hex bytes into values: libraries; their failures are the `None` inputs of the gates.
- The names of recorded check inputs: taken as already split into channels.
- The ledger's own integrity checks: an operation carries whether it verified.
- Disassembly, immediate scraping and the syscall scan: immediates and the scan's answer are arbitrary inputs.
- Compile, link and symbol stages of the worker: a worker that reports a stage is refused, whatever the stage says.
- The coverage hook's error path and its removal on exit.
- The rot13, check, calc and filewrite seeds, the campaign and task commands, TOML writing: easy beside what is here.
- CallDriver.Vm.Marshal: the stack below its top is taken as mapped; registers take any integer.
- FunctionGate.RunOriginals: the original is a function of the case, so the raise when it has unmapped its own arguments (`CallDriver.ReadAllIs`) is not an outcome of the gate.
- CallDriver.MarshalRoundTrip: assumes a stack top in the lower half of its sixteen bytes, which section 3.4.1 of the System V AMD64 psABI gives at process entry.
- Observation.ObservationInvariance: one renaming of descriptors for the whole run, not one that changes over time.
- OutputBound.ResultsFitTheCap: counts the characters of the printed results, which are all ASCII, so characters are bytes.
- Manifest.WriteManifest: called on readable ids only; `Manifest.Build` says when the ids are not.
- FunctionFuzz.CheckFunction: checks on which files a candidate holds come before it; a missing declaration is one that is not JSON.
