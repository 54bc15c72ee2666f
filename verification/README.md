# Models of the device utility cores

This project models nine self-contained cores of a C library of device utilities and
proves what they guarantee over every input and every run. Each core is written in the
form its source has: objects and buffers that are changed in place are classes and
arrays, loops are loops, and each method is proved against a specification whose own
properties are proved as lemmas. What the outside world contributes (answers of a
server, success of `realloc`, the certificates a selector offers, the directory tree)
is a parameter, so a statement about all parameters is a statement about all runs.

- `ChunkDownload.dfy`, `ResumeSafety.dfy`, `DecimalText.dfy`: the resumable download. A
  run is any sequence of rounds; a round is whatever the curl library and the server do
  in one turn of the loop. "Running" means the loop would ask for one more round. The
  server assumption (`ServerContract`) binds only the rounds whose bytes are built upon:
  in an interrupted or completed round a body sent for `N-` (section 2.1 of RFC 7233)
  starts at byte N, and a completed one reaches the end (section 4.1 of RFC 7233). Failed
  rounds may write any bytes. The place is an `int`: `atoi` is `strtol` cut to 32 bits, and
  what `ftell` returns is cut the same way, so the remote of the run theorems is shorter
  than 2^31 bytes; the start text is `N-` in fewer than 32 characters, and the file
  already holds the first N bytes.
- `MemorySink.dfy`: the growing buffers for header and body.
- `Dump.dfy`, `DumpProofs.dfy`: the hex and text dump with its index modulo 2^64.
- `StringOrder.dfy`, `StringSort.dfy`, `StringDedup.dfy`: `strcmp`, the in-place
  quicksort, duplicate removal and membership.
- `PathSearch.dfy`, `DirectorySearch.dfy`: the three directory searches. In the second,
  entries are looked up through the working directory, as `lstat` does.
- `JsonJoin.dfy`, `JsonJoinProofs.dfy`: joining the values of matching names.
- `DeviceProperties.dfy`, `DevicePropertyProofs.dfy`: the property file merge.
- `HttpUpgrade.dfy`: turning `http://` into `https://` in place.
- `CertRotation.dfy`: the metadata POST with certificate rotation.
- `Common.dfy`: shared small notions.

Where the code falls short of what its documentation or its purpose suggests, the code
is modelled as it is, the exact condition is proved, and a lemma gives an input that
fails it:

- The comment on the download promises the number of bytes downloaded. The code returns
  the bytes written, so a retried round counts twice: `Completion` gives the exact sum,
  and `RetriedBytesCountTwice` a run for every remote that returns twice its size.
- The loop accepts HTTP 200, with which a server may ignore the range (section 3.1 of
  RFC 7233). `FullBodyHarmlessIff` says when the file is still right, and
  `FullBodyHarmlessIffFromZero`, with an input for every other place, that place 0 is the
  only one safe for every remote.
- Timeouts without data are retried for ever (`StallsNeverStop`). `RunningIff` says exactly
  when the loop goes on, and `RequestBound` counts such timeouts on top of the bound.
- `findFile` does not go back up when `lstat` fails, and goes up exactly once otherwise, so
  after a vanished file it looks names up in the wrong directory. `SearchRestoresIff` says
  when the working directory is restored. `RightIff` says when the answer is right;
  `VanishedHidesName` has a tree with a wrong one. Only when the name is in the very entry
  the process strays into can the answer be right by accident (`FoundAstray`).
- `findPFileAll` stores one result even when the list is already full (`CapKeptIff`;
  `CapExceeded` is such a list).
- `strRmDuplicate` answers 1 for no strings, and counts distinct strings exactly when
  equal ones are adjacent (`RunsCountDistinctIff`, with `CountedTwice`).
- The join's comment promises that a length of at least the buffer size shows truncation.
  One case escapes: only a trailing separator is missing (`OnlySeparatorMissing` in the
  contract of `GetJsonValContaining`; `TruncationUnreported` has two such values). The
  length is the number of characters copied exactly as `LengthIsCopiedIff` says, and
  `LengthPastCopy` has the value for which it is not.
- A property line of 1024 bytes or more is read in several records (`RecordsAreLinesIff`),
  and its rest can set a property (`LongLineSetsProperty`, with the line of
  `LongLineExample`).
- The rotation's header comment says HTTP 200; the code accepts every code from 200 to 299
  and no other (`OneOfferIff`).

## Model

| member | source | states |
|---|---|---|
| DecimalText.PrintedRangeReadsBack | dwnlutils/urlHelper.c:693-698 | the range printed with `%d-` is read back by the server as the same number, and by `atoi` exactly when it is below 2^31 |
| DecimalText.RangeStartIsAtoi | dwnlutils/urlHelper.c:693-695 | on a start text of the form `N-`, the place and the requested range are the same number exactly when N is below 2^31 |
| DecimalText.AtoiReads | dwnlutils/urlHelper.c:693 | a number below 2^31 is read behind blanks and a sign, up to the first character that is no digit |
| DecimalText.AtoiWraps | dwnlutils/urlHelper.c:693 | a number from 2^31 to 2^32 is read as that many less 2^32, one from 2^63 as -1 |
| ChunkDownload.DownloadFunc | dwnlutils/urlHelper.c:280-299 | the callback stores nothing under force_stop, else the items that fit, at the cursor; datasize grows by exactly the bytes stored |
| ResumeSafety.DeliveryAdds | dwnlutils/urlHelper.c:280-299 | one more delivery adds the front of its bytes that there is room for, or nothing when force_stop is 1 |
| ChunkDownload.ChunkRound | dwnlutils/urlHelper.c:696-750 | one turn of the loop, with all its ways out, equals the step of the abstract machine |
| ResumeSafety.CodesDecide | dwnlutils/urlHelper.c:721-746 | exactly 18, 28 and 56 go on with the budget untouched, at the place behind the bytes written and the range printed for it; exactly 33, 36 and a 200 or 206 with code 0 stop; all others cost one of the budget |
| ResumeSafety.ErrorsDecide | dwnlutils/urlHelper.c:698-732 | a rejected option returns its code and changes nothing; a negative place, a failed seek and a failed tell report code 33 and HTTP 0 and return 0 |
| ResumeSafety.CallStarts | dwnlutils/urlHelper.c:619-695 | the first range is the start text in at most 31 characters, the place what `atoi` reads, the budget 2 |
| ChunkDownload.ChunkLoop | dwnlutils/urlHelper.c:692-767 | the loop from a start position equals a run of the machine on every sequence of rounds: file, place, range, budget, codes and returned value |
| ChunkDownload.UrlHelperDownloadFile | dwnlutils/urlHelper.c:614-768 | the whole call: NULL arguments, files that do not open and rejected options return early with the codes untouched; without a start position the emptied file gets one answer; with one it is a run of the machine, for every sequence of rounds: contents, returned value and codes |
| ResumeSafety.CallFailsEarly | dwnlutils/urlHelper.c:629-684 | a call that fails in its preparations returns 0 or the code of the first rejected option and leaves the codes alone; the file is emptied if it opened without a start position |
| ResumeSafety.FullDownloadIs | dwnlutils/urlHelper.c:750-767 | without a start position the file holds the bytes written and nothing else, their number is returned, and the codes are those of the answer; with nothing stopped or full these are all bytes delivered |
| ResumeSafety.ResumeSafetyIff | dwnlutils/urlHelper.c:696-750 | the file's first seek_place bytes are the remote's, and range and place agree, at all loop heads exactly when every resumed round honoured its range |
| ResumeSafety.ResumeSafety | dwnlutils/urlHelper.c:692-750 | under the server contract every loop head is safe and the right prefix is never lost, whatever failed before |
| ResumeSafety.BudgetCountsFailures | dwnlutils/urlHelper.c:622-750 | the retry budget left plus the rounds that went on with a code other than 18, 28 and 56 is always the budget at the start |
| ResumeSafety.RunningIff | dwnlutils/urlHelper.c:696-750 | for every state and every sequence of rounds: the loop asks for one more exactly when each round had its range accepted, its seek and tell succeed, no code 33 or 36 and no success, no place wrapped below zero, and fewer than the budget were not interrupted; each of them then sent a request |
| ResumeSafety.RequestBound | dwnlutils/urlHelper.c:696-750 | at most budget plus missing bytes plus empty interrupted rounds requests are made, and a run that long has stopped |
| ResumeSafety.StallsNeverStop | dwnlutils/urlHelper.c:723-735 | the empty rounds have to be counted: n empty timeouts lead to n requests and a loop still running, for every n |
| ResumeSafety.DatasizeIsTotal | dwnlutils/urlHelper.c:294-298 | the returned count is the sum of the bytes written in all rounds |
| ResumeSafety.BytesAccounted | dwnlutils/urlHelper.c:692-750 | at every loop head the bytes counted are the bytes gained plus those of failed rounds |
| ResumeSafety.HighWaterAtLeast | dwnlutils/urlHelper.c:692-750 | the final file length is the furthest place any write, old or new, reached |
| ResumeSafety.Completion | dwnlutils/urlHelper.c:692-767 | a run that made a request and reports success has the whole remote at the front of the file and returns missing plus wasted bytes; the file is exactly the remote iff no write went past its end |
| ResumeSafety.DownloadIsCorrect | dwnlutils/urlHelper.c:692-767 | all of this for a call with start `N-`: safety, at most two failures, at most size - N + 2 requests plus the empty ones, exactly when it goes on, completion, and the count equal to size - N iff nothing was wasted |
| ResumeSafety.ResumedDownloadIs | dwnlutils/urlHelper.c:614-768 | the same seen by the caller of the whole function: when it returns, and what a success leaves in the file and returns |
| ResumeSafety.RetriedBytesCountTwice | dwnlutils/urlHelper.c:739-750 | for every non-empty remote there is a successful call that leaves the right file and returns twice its size |
| ResumeSafety.FullBodySafeIff | dwnlutils/urlHelper.c:739-741 | a whole body accepted with 200 at place N leaves the file right exactly when the remote repeats with period N |
| ResumeSafety.FullBodyHarmlessIff | dwnlutils/urlHelper.c:692-741 | a call with start `N-` that is answered by 200 and everything leaves the remote in front exactly when it repeats with period N |
| ResumeSafety.FullBodyHarmlessIffFromZero | dwnlutils/urlHelper.c:692-741 | such an answer is harmless for every remote and every file that holds the first N bytes exactly when N is 0 |
| MemorySink.AllocDownloadDataMem | dwnlutils/urlHelper.c:892-916 | answers 0 exactly when there is an object and malloc succeeds; the buffer is then empty and terminated with the given capacity, else empty without memory |
| MemorySink.WriteMemoryCB | dwnlutils/urlHelper.c:301-335 | keeps datasize < memsize and the terminator; an accepted chunk is appended and the capacity grows to the exact need; a refused one changes nothing and answers 0 |
| MemorySink.DownloadToMem | dwnlutils/urlHelper.c:778-835 | after the reset each buffer holds what its own chunks, in order, leave in an empty buffer of its old capacity, or nothing when the body callback is rejected; the length is that of the body; 0 and no change when a pointer is missing |
| MemorySink.RunHoldsAcceptedChunks | dwnlutils/urlHelper.c:301-335 | over any run the data is the concatenation of the accepted chunks and the capacity the larger of the old one and the need |
| MemorySink.NothingLostIff | dwnlutils/urlHelper.c:307-323 | no chunk is lost exactly when each one for which realloc fails fits anyway |
| MemorySink.SecondDownloadHoldsSecondBody | dwnlutils/urlHelper.c:785-786 | a second download holds the chunks of the second body that are accepted, all of them exactly when each can grow the buffer or fits, and the capacity never shrinks |
| MemorySink.SinksShareTraffic | dwnlutils/urlHelper.c:301-335 | the traffic can be put together again from what the two buffers were offered; together they hold at most its bytes, and all of them exactly when each chunk could grow its buffer or fitted |
| Dump.WrapIsModulo | dwnlutils/curl_debug.c:33-71 | index arithmetic is arithmetic modulo 2^64 |
| Dump.JumpLands | dwnlutils/curl_debug.c:45-71 | setting the index back below zero modulo 2^64 and the loop's increment together move it by the bytes used |
| Dump.TextColumn | dwnlutils/curl_debug.c:58-73 | the inner loop prints the line up to the next CRLF or the width, and leaves the index so that the outer increment reaches the start of the next line |
| Dump.Dump | dwnlutils/curl_debug.c:29-77 | terminates, and prints the specified lines in both modes |
| DumpProofs.EveryByteShownOnce | dwnlutils/curl_debug.c:58-74 | in text mode the text columns joined are the data without its 0D 0A pairs, every byte once and in order, those from 32 to 127 as they are and a dot for the others |
| DumpProofs.TextLinesIff | dwnlutils/curl_debug.c:45-75 | the lines are the only ones that show the bytes at their printed offset (32 to 127 as they are, else a dot), hold no 0D 0A, and end at one (skipped, with no extra line at the width), at 64 bytes or with the data |
| DumpProofs.HexLinesIff | dwnlutils/curl_debug.c:45-75 | in hex mode the lines are the only ones that follow each other by 16 bytes, hold a cell for each byte and a blank behind the data, and show the bytes beside them |
| DumpProofs.EveryLineDisplays | dwnlutils/curl_debug.c:58-66 | in both modes every line shows the bytes at its printed offset, at most 64 or 16 of them |
| DumpProofs.HexShowsData | dwnlutils/curl_debug.c:49-66 | in hex mode both columns give back the whole data |
| StringOrder.StrcmpTransitive | utils/system_utils.c:1094 | strcmp is transitive, strictly if one step is |
| StringOrder.StrcmpEqual | utils/system_utils.c:681 | strcmp gives 0 exactly on equal strings |
| StringOrder.StrcmpPositiveIff | utils/system_utils.c:1094 | strcmp is positive exactly when behind a common front the first string goes on with a greater byte or the second ends |
| StringSort.PartitionInPlace | utils/system_utils.c:1093-1098 | the loop and the last swap leave the specified partition in the range, nothing else changed, with one comparison for each string |
| StringSort.QsString | utils/system_utils.c:1086-1103 | terminates with the range replaced by its quicksort, everything outside untouched, and exactly the specified number of comparisons |
| StringSort.SortedIsPermutation | utils/system_utils.c:1086-1103 | the result has the strings of the input, with their numbers |
| StringSort.SortedIsDescending | utils/system_utils.c:1086-1103 | the result is in non-increasing strcmp order |
| StringSort.ComparisonBound | utils/system_utils.c:1093-1102 | at most n(n+1)/2 - 1 comparisons for n > 0 strings |
| StringSort.SortedInputIsTheWorst | utils/system_utils.c:1093-1102 | the bound is reached by every strictly descending input |
| StringDedup.StrRmDuplicate | utils/system_utils.c:1119-1132 | the first count cells hold one string for each run of equal ones, the cells behind are unchanged; 1 and no change for no strings |
| StringDedup.RunsAreFixed | utils/system_utils.c:1119-1132 | what is left has no equal neighbours, and a list without such is left as it is |
| StringDedup.RunsCollapse | utils/system_utils.c:1119-1132 | a string twice in a row counts like one, anywhere in any list |
| StringDedup.IsDataInList | utils/system_utils.c:666-689 | answers 1 exactly when list and string are there and the string is among the first count |
| StringDedup.SortThenDedup | utils/system_utils.c:1086-1132 | sorting then dedup gives a strictly descending list of the original's strings, one for each distinct one |
| StringDedup.SortDedupFind | utils/system_utils.c:1086-1132 | the three calls in a row: the count is that of the distinct strings of the original array, these come first in strictly descending order, and the look-up answers 1 exactly for the members of the original |
| StringDedup.RunsCountDistinctIff | utils/system_utils.c:1119-1132 | dedup alone counts the distinct strings exactly when equal ones are adjacent |
| StringDedup.CountedTwice | utils/system_utils.c:1119-1132 | a string that comes back after another one is counted twice |
| PathSearch.FindPFile | utils/system_utils.c:521-579 | answers 1 exactly when there is a match, and leaves the first matching path in the buffer if its path can be built, else leaves it alone; 0 and no change when a pointer is missing |
| PathSearch.FindPFileAll | utils/system_utils.c:591-655 | slots, count and answer are those of offering the matching paths of the depth-first walk one by one; 0 and no change when a pointer is missing |
| PathSearch.MatchesIff | utils/system_utils.c:546-575 | a path is listed exactly when it is the full path of a wanted file reached through readable directories |
| PathSearch.MatchesOfOne | utils/system_utils.c:546-575 | a wanted file gives path, slash and name, a directory what is in it under that path if it can be read and the path be built, `.` and `..` nothing |
| PathSearch.MatchesInOrder | utils/system_utils.c:546-575 | the entries of a directory are walked in order, each directory in its place |
| PathSearch.FoundBelow | utils/system_utils.c:497-575 | every path found starts with the searched path and a slash |
| PathSearch.CanTakeIff | utils/system_utils.c:637-645 | no slot outside the list is looked at exactly when nothing matches, or there is a slot at the count and then either a missing buffer or slots for all results up to the cap |
| PathSearch.CollectStoresPrefix | utils/system_utils.c:637-645 | closed form for every slot list and cap: a prefix of the matches in consecutive slots, nothing else changed, and when the answer is 1 |
| PathSearch.CappedSearch | utils/system_utils.c:591-655 | below the cap, with all buffers there and slots for what is stored, exactly the first missing results are stored and the answer is 1 iff the cap is reached |
| PathSearch.CapKeptIff | utils/system_utils.c:637-645 | the cap is kept exactly when the search starts below it or has nothing to store |
| PathSearch.CapExceeded | utils/system_utils.c:637-645 | a full list of two ends with three results |
| PathSearch.FirstOfAll | utils/system_utils.c:521-579 | what findPFile finds is what findPFileAll stores first, in any list with a free slot |
| DirectorySearch.Process.FindFile | utils/system_utils.c:436-490 | on every tree, answer and working directory are exactly those of the search that looks each name up where the process then is, also after it strayed, and so what `Answered` says; 0 and no move when an argument is missing |
| DirectorySearch.SearchAnswers | utils/system_utils.c:436-490 | on every tree: if no vanished entry is listed before the name, the process ends at the parent of the searched directory and the answer is 1 exactly when the name is listed; otherwise it ends at or below that directory; 1 always means the name is there, and among the entries walked up to the one with the vanished file |
| DirectorySearch.ListedIff | utils/system_utils.c:448-487 | the listing these statements are about holds exactly the entries of the directories that are reached through readable and enterable ones |
| DirectorySearch.RightIff | utils/system_utils.c:460-487 | if the name is not among the entries walked up to a vanished one, the answer is right exactly when nothing vanished before the name or the name is nowhere |
| DirectorySearch.AbsoluteFromAnywhere | utils/system_utils.c:452-455 | a search of a path from the root has the same answer wherever the process is, and ends in the same place if it can be entered |
| DirectorySearch.SearchRestoresIff | utils/system_utils.c:455-487 | a call on a relative path that can be entered restores the working directory exactly when the path is one name and no vanished entry is listed before the searched name |
| DirectorySearch.WalkIff | utils/system_utils.c:460-482 | the depth-first walk ends at a vanished entry exactly when the listing of all reachable entries has one with no entry of that name before it, and at the name exactly when it comes before any vanished entry |
| DirectorySearch.LookupChild | utils/system_utils.c:460-461 | a listed name looked up in the directory it was listed for leads to that entry |
| DirectorySearch.WalkDecides | utils/system_utils.c:460-482 | if every reachable entry can be examined, the walk finds the name exactly when some reachable entry has it |
| DirectorySearch.VanishedHidesName | utils/system_utils.c:460-487 | on the tree of a vanished file in a subdirectory and the name listed after it, the search answers 0 although the name is there |
| DirectorySearch.FoundAstray | utils/system_utils.c:460-487 | with another file of that name behind the vanished one it answers 1 although the walk met the vanished entry first |
| DirectorySearch.RestoredIff | utils/system_utils.c:455-487 | the one step up restores the working directory exactly when the searched directory was directly below it |
| JsonJoin.JsonItem.ConvertInvalidChars | parsejson/json_parse.c:103-119 | rewrites the name in place to its sanitised form |
| JsonJoin.TrimInPlace | parsejson/json_parse.c:138-155 | leaves the trimmed text, terminated, in the buffer |
| JsonJoin.GetItemVal | parsejson/json_parse.c:121-166 | writes the value's text, cut to the room and terminated, returns its full length, and touches nothing else |
| JsonJoin.GetJsonValContaining | parsejson/json_parse.c:480-544 | the buffer is terminated and holds the ideal join cut to the room; the length is the ideal's if that fits, else at least maxlen - 1, and below maxlen exactly when only a trailing separator is missing; names are at most sanitised |
| JsonJoinProofs.MatchIff | parsejson/json_parse.c:494-502 | an item gives a text exactly when it is valid, has a name, and the searched text stands anywhere in that name with each character outside 0-9A-Za-z_ read as an underscore |
| JsonJoinProofs.MatchedText | parsejson/json_parse.c:121-166 | the text is the string, `true` or `false`, the same number without trailing zeros, or nothing |
| JsonJoinProofs.MatchesInOrder | parsejson/json_parse.c:494-526 | the texts come in the order of the items |
| JsonJoinProofs.CopyIsFront | parsejson/json_parse.c:503-521 | the copy is the join, or its first maxlen - 1 characters if it is longer |
| JsonJoinProofs.SanitisedIsStable | parsejson/json_parse.c:103-119 | sanitised names are valid, sanitising is idempotent, and changes exactly the invalid names |
| JsonJoinProofs.RepeatFindsTheSame | parsejson/json_parse.c:496-526 | whichever names a first call rewrote, the next finds the same texts |
| JsonJoinProofs.CallTwice | parsejson/json_parse.c:480-544 | two calls in a row give the same text and the same length |
| JsonJoinProofs.JoinThenSplit | parsejson/json_parse.c:506-516 | splitting the ideal join at its commas gives back the non-empty values exactly when none of them holds a comma |
| JsonJoinProofs.TruncationUnreported | parsejson/json_parse.c:503-540 | "ab" and an empty value in three characters lose the separator and report a length of two |
| JsonJoinProofs.LengthIsCopiedIff | parsejson/json_parse.c:503-544 | the returned length is the number of characters in the buffer exactly when the ideal join fits or only a trailing separator is missing |
| JsonJoinProofs.LengthGrows | parsejson/json_parse.c:503-521 | a value that meets room adds its whole length and one for a separator that fits; behind a full buffer nothing is added |
| JsonJoinProofs.LengthPastCopy | parsejson/json_parse.c:503-544 | one value at least as long as the buffer is returned with its own length, which is more than was copied |
| JsonJoinProofs.TrimKeepsValue | parsejson/json_parse.c:138-154 | a trimmed `%f` text denotes the same number, keeps every digit before the point, and has no trailing fractional zero or point |
| JsonJoinProofs.NonFiniteUntouched | parsejson/json_parse.c:138-155 | an infinity or no number, as `%f` prints them, are left as they are |
| DeviceProperties.ReadBuild | utils/rdk_fwdl_utils.c:89-127 | the copy loop and the searches give the build type of the text, over a zero-filled buffer |
| DevicePropertyProofs.BuildIff | utils/rdk_fwdl_utils.c:96-123 | the build type is ePROD exactly when PROD stands in the first nine characters in any case, else eVBN for VBN, else eDEV for DEV or QA, else unknown |
| DeviceProperties.ApplyRecord | utils/rdk_fwdl_utils.c:170-210 | the key loop on one record fills exactly the empty members for which the record says something |
| DeviceProperties.GetDeviceProperties | utils/rdk_fwdl_utils.c:133-237 | after one pass each member holds what a separate lookup of its key over all records of both files gives; -1 exactly without a struct |
| DevicePropertyProofs.MemberFromItsKey | utils/rdk_fwdl_utils.c:31-71 | each member of the struct, by its name, holds the lookup of its own key, by its spelling |
| DevicePropertyProofs.ProductionLine | utils/rdk_fwdl_utils.c:96-200 | when the first line for the build type starts with "prod" in any case, the struct ends with ePROD |
| DevicePropertyProofs.KeyThenText | utils/rdk_fwdl_utils.c:179-205 | a record that starts with a key gives the text behind it up to a newline or the end, in at most 31 characters |
| DeviceProperties.PropNamesAreKeys | utils/rdk_fwdl_utils.c:31-43 | the ten keys are distinct and have their only `=` at the end |
| DeviceProperties.OneKeyPerRecord | utils/rdk_fwdl_utils.c:176-184 | a record starts with at most one key |
| DevicePropertyProofs.LookupIsFirst | utils/rdk_fwdl_utils.c:154-218 | a lookup gives a value exactly when it is that of the first record with a non-empty one for the key |
| DevicePropertyProofs.LookupBuildIsFirst | utils/rdk_fwdl_utils.c:154-218 | the same for the build type: it is that of the first record whose build is known |
| DevicePropertyProofs.EarlierFileWins | utils/rdk_fwdl_utils.c:24-28 | records of the first file come before those of the second, for the texts and the build type |
| DevicePropertyProofs.FilesInOrder | utils/rdk_fwdl_utils.c:154-158 | the records are those of the first file and then those of the second, and a missing file has none |
| DevicePropertyProofs.SkippingIsHarmless | utils/rdk_fwdl_utils.c:160-169 | leaving out comment and blank lines never changes a result |
| DevicePropertyProofs.BuildFromFirstNine | utils/rdk_fwdl_utils.c:96-123 | the build type depends on the first nine characters regardless of case, and QA is never reported as such |
| DevicePropertyProofs.RecordsJoinToFile | utils/rdk_fwdl_utils.c:158 | the records joined are the file, none empty or longer than the buffer allows |
| DevicePropertyProofs.RecordsAreLinesIff | utils/rdk_fwdl_utils.c:158 | every record starts a line exactly when every line fits the buffer |
| DevicePropertyProofs.LongLineSetsProperty | utils/rdk_fwdl_utils.c:158-218 | if 1023 characters without a newline say nothing for a key, what follows them in the same line sets its property |
| DevicePropertyProofs.LongLineExample | utils/rdk_fwdl_utils.c:158-218 | such a line exists for the model number and every text that fits its field |
| HttpUpgrade.InsertS | utils/common_device_api.c:753-760 | the shift loop inserts one `s`, moves the rest with its terminator, and changes nothing behind |
| HttpUpgrade.MakeHttpHttps | utils/common_device_api.c:731-775 | with room the buffer holds the text with its first `http://` upgraded, terminated, the rest untouched, and the new length is returned; without room nothing changes |
| HttpUpgrade.UpgradedIff | utils/common_device_api.c:751-762 | the text changes exactly when it contains `http://` |
| HttpUpgrade.UpgradeLowersCount | utils/common_device_api.c:751-762 | one call lowers the number of `http://` by exactly one, and changes nothing iff there is none |
| HttpUpgrade.AllUpgraded | utils/common_device_api.c:751-762 | after n calls min(n, count) occurrences are gone and the text is longer by as many |
| CertRotation.GetCertificateForUpload | uploadutils/mtls_upload.c:50-115 | succeeds exactly when a usable certificate is offered, which then fills the credential; a failure frees the selector |
| CertRotation.PerformMetadataPost | uploadutils/mtls_upload.c:141-217 | the loop, for every selector and server, gives the specified outcome, and leaves all outputs alone when an argument is missing |
| CertRotation.RotationIsRight | uploadutils/mtls_upload.c:187-216 | one fetch for each POST and at most one failing; 0 exactly when the last POST succeeded, then with its credential; the reported code is the last POST's |
| CertRotation.CredentialHandedOut | uploadutils/mtls_upload.c:81-110 | after success the credential is that of the last certificate: path without a leading `file://` in 63 characters, password in 64, type P12, engine in 31 or empty |
| CertRotation.EndIsUnique | uploadutils/mtls_upload.c:187-213 | the number of POSTs is the one place where the rotation can end |
| CertRotation.SucceedsIff | uploadutils/mtls_upload.c:187-208 | the call succeeds exactly when some usable certificate succeeds after usable ones that failed and were rotated |
| CertRotation.OneOfferIff | uploadutils/mtls_upload.c:61-208 | with one offer and one answer the call succeeds exactly when the selector answers ok with a path and a password, curl has no error, and the code is from 200 to 299 |
| CertRotation.SchemeIsOptional | uploadutils/mtls_upload.c:81-106 | `file://` makes no difference to the credential, and every text fits its field |

## Left out

- DownloadIsCorrect: asks for a start text `N-`; a start such as "0" without a dash, which is not a range, runs in the model but has no promised start at the server. Its success clause speaks of runs that made a request: when the first range option is rejected the codes are still the caller's.
- libcurl options, the progress and header files, and what `curl_easy_perform` does beyond its codes and the delivered bytes.
- AllocDownloadDataMem: asks that memory is only found for a positive size, because for size 0 the code writes a byte it did not allocate, and a negative size becomes one larger than any object.
- DownloadToMem: asks for allocated buffers, because the code writes through the pointers before looking at them, and for header events only when both header options were accepted.
- WriteMemoryCB: `datasize + numBytes` does not overflow, because buffer and chunk are two live blocks of one address space.
- Dump.Dump: asks for fewer than 2^63 bytes, the most one object can hold.
- FindPFileAll: asks for the slots the search looks at (`CanTake`), because the code reads them unchecked, and takes every buffer as long enough for its path.
- GetJsonValContaining: texts hold no NUL, printed numbers fit the 50-byte buffer, and lengths stay below 2^31, which the `int` counters hold.
- MakeHttpHttps: the buffer is smaller than 2^31, which the `int` counter holds.
- The header line of the dump and the `printf` formatting of offsets and hex cells; the dump's lines are records.
- Aliasing of the sorted `char *` pointers: strings are values.
- SortDedupFind: asks for at least one string, because `strRmDuplicate` answers 1 for none.
- `fnmatch` is any predicate on names.
- RightIff: says nothing when the name is among the entries walked up to the vanished one; the answer then depends on the names the directory strayed into shares with those still to come, which `Search` follows step by step.
- In `findFile`, `.` and `..` inside the path argument, symbolic links, and failures of `chdir("..")`.
- cJSON parsing and the printing of `%f`: the printed text is a parameter.
- The code judges `eBuildType` empty by its first byte; the model compares the whole value, which is the same on a little-endian machine.
- `getbuild` reads a buffer that is partly uninitialised for short texts; the model zero-fills it.
- The build of the rotation without L2UPLOADENABLED, which frees the selector while it is still used, and the OCSP and URL buffer set-up before the loop.
- URL encoding, `GetJson`, `SetJsonVars`, sockets, processes and the other operating-system wrappers.
