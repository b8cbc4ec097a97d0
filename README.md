# signalbackup-tools: exporting attachments (`dumpMedia`)

This project is a Dafny model of `SignalBackup::dumpMedia`, the routine of
signalbackup-tools that writes every attachment of a decrypted Signal backup
into a directory. It is modelled attachment by attachment:

- **Query.** The routine builds a metadata query. This is the minimal query, or the joined one when the backup has the message, thread, group and recipient tables.
- **Thread filter.** It adds an `IN` clause for the selected threads.
- **Date filter.** It adds a disjunction of `BETWEEN` conditions for the selected date ranges.
- **Row count.** It decides from the number of rows whether to skip the attachment, report it, or export it.
- **File name.** It takes the stored file name, or synthesizes one from the timestamp, the display order and the mimetype's extension.
- **Folder.** For a full backup it files the attachment under a per-conversation directory with `sent` and `received` subdirectories. That directory name comes from a registry of thread ids and names, which is the same for the whole run and keeps the names distinct.

Modules, in dependency order:

| module | file | content |
|---|---|---|
| `Wrappers` | wrappers.dfy | `Option` |
| `Text` | text.dfy | the decimal rendering `bepaald::toString`, its parse-back, and character counting |
| `Filters` | filters.dfy | the thread clause, date pairing, range acceptance and the date clause (as written and corrected) |
| `Metadata` | metadata.dfy | the metadata row and the row-count decision |
| `FileNames` | filenames.dfy | the datum, truncating division, and the stored or synthesized file name |
| `Conversations` | conversations.dfy | the registry as a value (`Assign`), the class `ConversationRegistry` with its two parallel lists, the `sent`/`received` directory, and the 32-bit variant as written |
| `DumpMedia` | dumpmedia.dfy | one attachment (`Step`, `ProcessAttachment`), the whole loop (`Run`, `ExportAll`), and what holds across a run |

Everything the routine asks of the outside world is a field of the `Env` value:
- the schema checks;
- the query engine, as a function from query and ids to an optional list of rows;
- the date parser;
- `sanitizeFilename`;
- the local-time formatter;
- the mimetype table;
- `Types::isOutgoing`;
- `isDir`, `createDir` and `makeFilenameUnique`.

The model proves properties of how these are used, whatever they do.

### Two details of the date filter

- **Widening.** When the date parser reports that the end bound needs rounding, the code adds 999 ms to it (lines 114-115). The comment there says this is for `YYYY-MM-DD HH:MM:SS` input, so the widened range takes in the whole final *second* (`Filters.AcceptBounds`, `Filters.WideningCoversFinalSecond`). What a date-only string parses to is up to `dateToMSecsSinceEpoch`, which is not part of this model.
- **Closing parenthesis.** The first accepted range opens ` AND (` (line 120), but the `)` is written only inside the loop, at its last index (lines 121-122). A rejected last pair is skipped by the `continue` at line 108, so the clause stays open. See Findings.

## Model

| member | source | states |
|---|---|---|
| `Filters.AppendThreadClause` | signalbackup/dumpmedia.cc:82-87 | the query after the loop is the old query followed by `ThreadClause(threads)` |
| `Filters.ThreadClauseRoundTrip` | signalbackup/dumpmedia.cc:82-87 | the thread ids can be read back from the clause, so every id is in it, in order |
| `Filters.ThreadClauseShape` | signalbackup/dumpmedia.cc:82-87 | the clause is empty iff no threads are given; otherwise it starts with ` AND thread._id IN (`, has one `(`, one `)` and `\|threads\|-1` commas |
| `Filters.PairUp` | signalbackup/dumpmedia.cc:93-95 | on an even-length list there are `\|list\|/2` pairs, and pair k is (element 2k, element 2k+1) |
| `Filters.PairDateRanges` | signalbackup/dumpmedia.cc:92-95 | the loop yields exactly `Pairs(list)`: the pairing of an even-length list, nothing for an odd one |
| `Filters.OddDateListAddsNothing` | signalbackup/dumpmedia.cc:93 | a list of odd length adds no date clause to the query |
| `Filters.AcceptBounds` | signalbackup/dumpmedia.cc:101-118 | a pair is accepted iff both bounds parse (not -1) and end >= start; the start is kept and the end is widened by exactly 999 iff rounding was requested |
| `Filters.WideningCoversFinalSecond` | signalbackup/dumpmedia.cc:114-115 | with rounding, every time from the end bound to end+999 is inside the range and end+1000 is not |
| `Filters.Disjunction` | signalbackup/dumpmedia.cc:120 | the disjunction is empty iff no range was accepted |
| `Filters.RangeConditions` | signalbackup/dumpmedia.cc:99-123 | the loop, which skips rejected pairs, yields the disjunction of the accepted ranges' `BETWEEN` conditions |
| `Filters.AcceptedConcat` | signalbackup/dumpmedia.cc:99-109 | the ranges accepted from a concatenation are those accepted from each part, in order |
| `Filters.RejectedPairContributesNothing` | signalbackup/dumpmedia.cc:104-109 | removing a rejected pair, at any position, leaves the list of accepted ranges unchanged |
| `Filters.RejectedPairLeavesDisjunction` | signalbackup/dumpmedia.cc:104-109 | removing a rejected pair, at any position, leaves the disjunction of range conditions unchanged, and so the corrected `DateClause`; the as-written clause is not covered, since a rejected last pair drops its `)` |
| `Filters.AcceptedMembers` | signalbackup/dumpmedia.cc:99-118 | a range is in the accepted list iff some pair is accepted as that range |
| `Filters.AcceptedRangesOrdered` | signalbackup/dumpmedia.cc:104 | every accepted range has start <= end |
| `Filters.DisjunctionPunctuation` | signalbackup/dumpmedia.cc:120 | the disjunction holds exactly one `(` and no `)` when non-empty |
| `Filters.DisjunctionOpens` | signalbackup/dumpmedia.cc:120 | a non-empty disjunction starts with ` AND (` |
| `Filters.AppendDateClause` | signalbackup/dumpmedia.cc:89-126 | the query after the date step is the old query followed by the corrected `DateClause` |
| `Filters.DateClauseShape` | signalbackup/dumpmedia.cc:89-126 | the corrected clause is empty iff no range is accepted; otherwise it starts with ` AND (`, ends with `)`, and its parentheses balance |
| `Filters.RangeConditionsAsWritten` | signalbackup/dumpmedia.cc:99-123 | the loop as written yields the disjunction followed by `)` only when the last pair is accepted |
| `Filters.AppendDateClauseAsWritten` | signalbackup/dumpmedia.cc:89-126 | the query as written is the old query followed by `DateClauseAsWritten` |
| `Filters.LastAcceptedIsListed` | signalbackup/dumpmedia.cc:121-122 | an accepted last pair contributes the last accepted range |
| `Filters.AsWrittenAgreesUnlessLastRejected` | signalbackup/dumpmedia.cc:121-122 | when there are no pairs or the last pair is accepted, the as-written clause equals the corrected one |
| `Filters.AsWrittenUnclosedWhenLastRejected` | signalbackup/dumpmedia.cc:121-122 | when some range is accepted but the last pair is rejected, the as-written clause has one `(` and no `)` |
| `Filters.UnclosedDateClauseExample` | signalbackup/dumpmedia.cc:121-122 | for the list `2023-01-01, 2023-01-31, 2023-02-10, 2023-02-01`, under any date parser that reads the January dates in order and puts 2023-02-10 after 2023-02-01, the as-written clause has one `(` and no `)`, and the corrected one has its `)` |
| `Metadata.Decide` | signalbackup/dumpmedia.cc:136-143 | proceed iff exactly one row; skip silently iff no row while a thread or date filter was given; report and skip otherwise |
| `FileNames.TruncDivRemainder` | signalbackup/dumpmedia.cc:158 | the `/ 1000` truncates toward zero: the remainder has the dividend's sign and is below the divisor |
| `FileNames.DatumChoice` | signalbackup/dumpmedia.cc:146-149 | the datum is `date_received` when the backup is full and it is set, otherwise the attachment id |
| `FileNames.Extension` | signalbackup/dumpmedia.cc:164-170 | the extension is never empty: the mimetype table's answer, or `attach` when it has none |
| `FileNames.StoredNameUsed` | signalbackup/dumpmedia.cc:152-153 | a stored name that survives sanitizing is the file name |
| `FileNames.SynthesizedWithoutStoredName` | signalbackup/dumpmedia.cc:155-174 | otherwise the name is date string + `_order` (non-zero order only) + `.` + extension; it starts with the date string and ends with `.`+extension |
| `FileNames.DistinctOrdersDistinctNames` | signalbackup/dumpmedia.cc:173 | synthesized names with different display orders differ |
| `Conversations.IndexOf` | signalbackup/dumpmedia.cc:187 | the lookup gives the first index holding the thread id, or -1 iff it is absent |
| `Conversations.SuffixCountFrom` | signalbackup/dumpmedia.cc:199-201 | the number of `(2)` suffixes is the first count at which the name is free; every smaller count is taken |
| `Conversations.FreshNameProperties` | signalbackup/dumpmedia.cc:189-201 | the chosen name is not yet registered; it is the base when that is free, otherwise base + `(2)`… with every shorter candidate taken |
| `Conversations.Assign` | signalbackup/dumpmedia.cc:178-206 | registration keeps ids and names distinct and the lists equally long, only appends, and gives an index holding the thread id |
| `Conversations.AssignKnownThread` | signalbackup/dumpmedia.cc:186-206 | a known thread leaves the registry unchanged and reuses its name |
| `Conversations.AssignNewThread` | signalbackup/dumpmedia.cc:183-205 | a new thread is appended with `Contact <tid>` for an empty partner name, and with the base name made fresh by `(2)` suffixes |
| `Conversations.AssignSameThreadTwice` | signalbackup/dumpmedia.cc:186-206 | the same thread registered twice, under any partner names, gets the same index and name the second time |
| `Conversations.DistinctThreadsDistinctNames` | signalbackup/dumpmedia.cc:38-40 | registered threads with different ids have different names |
| `Conversations.SameChatPartnerTwoThreads` | signalbackup/dumpmedia.cc:196-204 | two new threads with the same partner name get different names, the second starting with the first + `(2)` |
| `Conversations.FreshNameTwice` | signalbackup/dumpmedia.cc:196-201 | the fresh name chosen after the first fresh name is registered differs from it and starts with it + `(2)` |
| `Conversations.TargetDirInjective` | signalbackup/dumpmedia.cc:221 | directory + `/` + name + `/sent` or `/received` determines the name and the direction |
| `Conversations.DistinctThreadsDistinctDirs` | signalbackup/dumpmedia.cc:209-221 | different registered threads never share a target directory path |
| `Conversations.NameOfStable` | signalbackup/dumpmedia.cc:192-204 | appending to the registry never changes a registered thread's name |
| `Conversations.ConversationRegistry.constructor` | signalbackup/dumpmedia.cc:38 | the registry starts with both lists empty |
| `Conversations.ConversationRegistry.DirectoryFor` | signalbackup/dumpmedia.cc:181-206 | the lists become `Assign` of the old lists; the returned index holds the thread id; the invariant is kept |
| `Conversations.AssignAsWritten` | signalbackup/dumpmedia.cc:186-205 | registration as written, with ids pushed narrowed to 32 bits and looked up at full width, keeps the two lists equally long and gives a valid index |
| `Conversations.AsWrittenWideThreadIds` | signalbackup/dumpmedia.cc:186-205 | with the `int` id list as written, id 2^31 registered twice gets a second, suffixed name, and id 5 after 2^32+5 reuses that thread's entry |
| `DumpMedia.Place` | signalbackup/dumpmedia.cc:177-233 | choosing the directory keeps the registry invariant and only appends to the registry |
| `DumpMedia.Step` | signalbackup/dumpmedia.cc:59-240 | one attachment, looked up with the query whose date clause is closed, keeps the registry invariant and only appends to the registry |
| `DumpMedia.Run` | signalbackup/dumpmedia.cc:43-132 | the run keeps the registry invariant and gives at most one outcome per attachment, exactly one each when it completes |
| `DumpMedia.BuildQuery` | signalbackup/dumpmedia.cc:61-126 | the query is the base query, then the thread clause, then the date clause with its parenthesis closed (`Query`) |
| `DumpMedia.QueryAsWrittenAgreement` | signalbackup/dumpmedia.cc:61-126 | the query with the loop's date clause equals `Query`, except when some range is accepted and the last pair is rejected; then it is `Query` without its final `)` |
| `DumpMedia.PlaceAttachment` | signalbackup/dumpmedia.cc:177-233 | the registry and the chosen directory, or the failed path, are those of `Place` |
| `DumpMedia.ProcessAttachment` | signalbackup/dumpmedia.cc:59-240 | the registry and the attachment's result are those of `Step`: abort on a failed query, otherwise one outcome |
| `DumpMedia.ExportAll` | signalbackup/dumpmedia.cc:22-288 | the result after the prechecks and the loop is `Export`, with the closed date clause in each lookup: false with no outcomes when refused, false on a failed query, true after all attachments |
| `DumpMedia.RunAbortPersists` | signalbackup/dumpmedia.cc:131-132 | after a failed query the run ends with false, and there are no further outcomes |
| `DumpMedia.RunPrefix` | signalbackup/dumpmedia.cc:43-48 | a prefix's outcomes are a prefix of the run's; its registry grows into the final one; a completed run completes every prefix |
| `DumpMedia.RunSnoc` | signalbackup/dumpmedia.cc:43-48 | a completed run is the completed run over all but the last attachment, followed by a non-aborting `Step` of the last one |
| `DumpMedia.RunStepAt` | signalbackup/dumpmedia.cc:43-48 | on a completed run, outcome i is `Step` of attachment i on the registry built from the attachments before it |
| `DumpMedia.RunCoversEveryAttachment` | signalbackup/dumpmedia.cc:27-132 | a completed export has one outcome per attachment; a refused one has none |
| `DumpMedia.StepRowCount` | signalbackup/dumpmedia.cc:136-143 | a row count other than one leaves the registry unchanged; no row under an active filter is deselected, and anything else is reported |
| `DumpMedia.SavedPlacement` | signalbackup/dumpmedia.cc:145-240 | a saved attachment has the datum as its time and the unique form of its name. Outside a conversation it goes in the export directory and the registry is unchanged. Inside one it goes under the registered name's `sent` or `received` directory |
| `DumpMedia.SavedIntoFinalConversation` | signalbackup/dumpmedia.cc:178-221 | on a completed run, a saved conversation attachment lies under its thread's name in the final registry |
| `DumpMedia.ConversationDirectoriesAcrossRun` | signalbackup/dumpmedia.cc:178-221 | within one run, attachments of the same thread and direction share a directory path, and attachments of different threads never share a directory path |

## Left out

- SQLite and the schema checks are left out. Table and column presence (lines 27, 65-66) are booleans, and the joined query text (69-79), with its schema-dependent column names, is one opaque string.
- Query results are lists of rows, and column values are `Option`s. Reading a null `ct` as a string is not modelled; the row's `ct` is always a string.
- The file system is left out. `prepareOutputDirectory`, `bepaald::isDir`, `bepaald::createDir` and `makeFilenameUnique` are pure functions of their arguments. The model does not capture that `createDir` changes what a later `isDir` returns, or that earlier files change what `makeFilenameUnique` returns.
- Writing the attachment's data (lines 264-279) is left out: the file stream, the write failure and `clearData`. An attachment is `Saved` once its unique name is found.
- `setFileTimeStamp` (line 281) is left out; the outcome records the datum it would be given.
- `std::localtime` and `std::put_time` (158-160) are left out: they are one formatter applied to the datum's whole seconds.
- `MimeTypes` lookup, `sanitizeFilename`, `dateToMSecsSinceEpoch` and `Types::isOutgoing` are parameters whose behaviour is not modelled.
- The logging and the progress counter (lines 25, 43-51, 106-112, 128-129, the error messages) are left out.
- The commented-out numbering loop (lines 241-263) is left out: it is not compiled.
- `Filters.AcceptBounds`: does not model `long long` overflow of `endrange += 999`; integers are unbounded.
- `DumpMedia.Step`: `display_order` is read with `getValueAs<long long>` (line 150) and is treated as a present integer. What the code reads for a null `display_order` is not modelled.
- `DumpMedia.BuildQuery`: the routine (`Query`, `Step`, `ProcessAttachment`, `Run`, `ExportAll`) is modelled with the corrected date clause, which is closed whenever it is opened. It is not the clause lines 99-125 build, which lacks the `)` when the last pair is rejected. `DumpMedia.QueryAsWrittenAgreement` states exactly where the two queries differ, and `Filters.AppendDateClauseAsWritten` models the loop as written.
- `Conversations.ConversationRegistry.DirectoryFor`: models the registry with ids as wide as the source's `long long` thread id, not the `int` list the code declares. The as-written truncation is modelled separately (see Findings).
- `bepaald::findIdxOf` is not part of this model. It is taken to return the first index whose element equals the id, or -1.
- `Text.IntToString`: `bepaald::toString` is not part of this model. It is taken to be the decimal rendering, with a leading `-` for negative numbers.
- Directory identity is modelled as string equality of paths. On a file system that folds case or normalises Unicode, two conversations whose names differ only in that way (`Bob` and `bob`) end up in one directory: `isDir` (line 209) finds the other thread's folder. The source targets Windows too (see the device-name comment at line 156). `Conversations.DistinctThreadsDistinctDirs` and `DumpMedia.ConversationDirectoriesAcrossRun` state distinct path strings only.

## Findings

| source | as written | input that shows it | evidently intended | confidence | as-written member | corrected member |
|---|---|---|---|---|---|---|
| signalbackup/dumpmedia.cc:121-122 | the closing `)` of the date clause is appended only when the loop index is the last pair and that pair was accepted; a rejected last pair is skipped by `continue` first | date list `2023-01-01, 2023-01-31, 2023-02-10, 2023-02-01`: the second pair ends before it starts, so line 104 rejects it; the query gets ` AND (date_received BETWEEN … AND …` with no `)`. That query is passed to the database at line 131, and a failure there ends the export at line 132 | close the parenthesis once after the loop whenever at least one range was accepted | high for the logic; not executed | `Filters.AppendDateClauseAsWritten`, `Filters.UnclosedDateClauseExample` | `Filters.AppendDateClause`, `Filters.DateClauseShape` |
| signalbackup/dumpmedia.cc:186-205 | the registry's id list is `std::vector<int>` while thread ids are `long long`; `push_back(tid)` truncates to 32 bits | a thread id 2^31 met twice: the lookup does not find the stored -2^31, so it registers a second, `(2)`-suffixed name. Thread 5 after thread 2^32+5 is taken for that thread | store thread ids at their full width, so one thread maps to one name | low (depends on how `findIdxOf` compares, which is not modelled); not executed | `Conversations.AssignAsWritten`, `Conversations.AsWrittenWideThreadIds` | `Conversations.AssignSameThreadTwice`, `Conversations.ConversationRegistry.DirectoryFor` |
