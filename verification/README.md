# Configuration manager: a verified model of its state, string and protocol logic

The repository serves network device configurations and ships the tools around them. This
project models the parts of it whose correctness is not plain from one function body, and
proves what they promise for every input, every run and every interleaving.

| module | what it models |
|---|---|
| `Partitions`, `Store`, `PartitionLaws`, `PartitionHistory` | the UFM mock's PKey partition store: one call as a function on states, the store object updated in place, laws about calls and whole runs, and what a client can tell from requests and responses alone |
| `LockSteps` | the same store under threads: each call split into taking the lock, one step per assignment or loop pass, and giving the lock back |
| `Pagination`, `SafePaths`, `UniquePaths`, `Downloads` | the config downloader: the paging loop, file names made safe, fresh names, one whole run |
| `Flattening`, `ServerUrls`, `UrlConfluence` | the Go client runtime: parameter flattening and server URL templates, both over maps that Go visits in no particular order, and exactly which inputs make that order visible |
| `LicenseHeaders`, `HeaderPositions`, `HeaderRuns`, `Descriptors` | the licence-header script: one text, where the header goes in it, whole runs over a repository, and the descriptor walk |
| `CacheTestCodec` | the Go client's `anyOf` response: three strict record decoders and their encoder |
| `OperationIds` | the checks an OpenAPI document passes before clients are generated |
| `Dicts`, `Sequences`, `Decimals`, `Json`, `Options` | Python dictionaries, sequence and text functions, printed numbers, parsed JSON |

Objects that the sources update in place are classes (`Store.PartitionStore`,
`UniquePaths.UsedPaths`, `Downloads.Download`, `Flattening.ParameterSink`,
`HeaderRuns.OpenFile`, `HeaderRuns.Repository`, `Descriptors.Kernel`,
`CacheTestCodec.LookupResponse`), and loops are loops. Each of their methods is tied to a
specification function, and the results are lemmas about those functions. HTTPException,
RuntimeError, Go errors and failing system calls are values. Iteration over a Go map, thread
scheduling, the API's responses and the points at which system calls fail are arbitrary, so
every statement holds for all of them.

Where the sources do not do all that one might expect, the exact boundary is proved:

- `safe_config_path` is idempotent exactly on file names without a `..` segment
  (`SafePaths.SafeNamesIdempotentWhen`).
- The map keys that can make a parameter's flattening depend on the map order are exactly
  those that contain `][`, where one bracketed name ends and the next begins: values without
  such a key never depend on it, and for each such key there is a value, with no other such
  key in it, that two orders flatten differently from any sink and in any mode
  (`Flattening.ConfluentExactlyWithoutJoints`, `Flattening.JointsBreakConfluence`). A lone
  bracket in a key is harmless.
- A server URL is independent of the map order whenever, after all declared placeholders are
  filled at once, no `}` comes after a `{` outside the placeholders that are left
  (`ServerUrls.SubstitutionIsConfluent`). Over all servers with brace-free names and values,
  the URLs that are safe are exactly those in which no `}` comes after a `{` outside the
  innermost pairs of braces; `{{a}}` is not one of them
  (`UrlConfluence.UrlConfluentExactlyWhenCalm`, `UrlConfluence.NestedPlaceholderBreaks`). Over
  all servers whose URLs have alternating braces, the sets of values that are safe are exactly
  those in which not both `{` and `}` occur (`UrlConfluence.ValuesConfluentExactlyWhen`).
- `"use client"` stays in front of an inserted header exactly when no newline comes before
  it (`LicenseHeaders.DirectiveStaysFirstWhen`); `content.strip()` also accepts leading blank
  lines, and then the header goes above the directive (`LicenseHeaders.DirectiveAfterEmptyLine`).
- PUT keeps the place of an existing partition in the listing, which dropping and creating it
  again would move to the end (`PartitionLaws.SetIsDropCreateAdd`).
- The cache-test decoders take a null `found` and refuse unknown keys, while
  docs/api-specs/config-store.openapi.json declares `found` a plain boolean and forbids no
  extra keys; the model follows the Go code (`CacheTestCodec.AcceptsExactlyTheSchemas`).

## Model

| member | source | states |
|---|---|---|
| Partitions.ApplyValid | development/ufm_mock/mock_server.py:135-225 | every call leaves well-formed dictionaries: keys listed once each, in insertion order |
| Store.PKeyState.Assign | development/ufm_mock/mock_server.py:196-201 | the add loop leaves the members with every pair written and counts exactly the new GUIDs |
| Store.PKeyState.Discard | development/ufm_mock/mock_server.py:218-221 | the removal loop leaves the set difference and counts exactly the GUIDs it dropped |
| Store.PartitionStore.Reset | development/ufm_mock/mock_server.py:139-141 | the object then holds no partition, as the specification says |
| Store.PartitionStore.Snapshot | development/ufm_mock/mock_server.py:143-145 | the comprehension yields every partition's detail, in order |
| Store.PartitionStore.ListSummaries | development/ufm_mock/mock_server.py:147-149 | the comprehension yields every partition's summary, in order |
| Store.PartitionStore.Create | development/ufm_mock/mock_server.py:151-155 | state and response are the specification's; 409 for a key that exists, with nothing changed |
| Store.PartitionStore.Get | development/ufm_mock/mock_server.py:157-162 | summary, detail or 404 as the specification says |
| Store.PartitionStore.SetMembers | development/ufm_mock/mock_server.py:164-188 | updating the partition object in place gives the specification's state and count |
| Store.PartitionStore.AddMembers | development/ufm_mock/mock_server.py:190-201 | updating the partition object in place gives the specification's state and count, or 404 |
| Store.PartitionStore.RemoveMembers | development/ufm_mock/mock_server.py:203-225 | updating in place and deleting on empty gives the specification's state, count and flag |
| Store.PartitionStore.ContentsValid | development/ufm_mock/mock_server.py:106-137 | a valid store object holds a well-formed state, so every law about states holds of it |
| LockSteps.MicroOwes | development/ufm_mock/mock_server.py:135-225 | no step of a call under the lock changes the final state and response that the call is going to have |
| LockSteps.MicroAdvances | development/ufm_mock/mock_server.py:135-225 | every step brings the call nearer to giving the lock back |
| LockSteps.RunKeepsInvariant | development/ufm_mock/mock_server.py:135-225 | in every reachable state of any interleaving: mutual exclusion, a store that a serial run explains, and program order per thread |
| LockSteps.Linearizable | development/ufm_mock/mock_server.py:135-225 | whenever the lock is free, the store and every thread's responses are those of the serial run in lock order, which respects each thread's order |
| LockSteps.LogsGrow | development/ufm_mock/mock_server.py:135-225 | the order in which calls took the lock, and the replies, are only ever extended |
| LockSteps.RealTimeOrder | development/ufm_mock/mock_server.py:135-225 | a call answered before another one starts comes before it in the serial order, so that order respects real time |
| LockSteps.FinishedRunsEverything | development/ufm_mock/mock_server.py:135-225 | a thread that has finished has had each of its calls run exactly once, in order |
| LockSteps.ReaderSeesSerialState | development/ufm_mock/mock_server.py:143-188 | a reader at any of its steps looks at a state between whole calls, never at a half-done set_members |
| LockSteps.NoDeadlock | development/ufm_mock/mock_server.py:135-225 | while some thread has work left, some step is possible |
| Dicts.MembersInFirstOccurrenceOrder | development/ufm_mock/mock_server.py:178-187 | PUT lists members in the order of their first occurrence in the request |
| Dicts.LastMembershipWins | development/ufm_mock/mock_server.py:187-200 | a repeated GUID gets the membership of its last occurrence |
| Dicts.AddedMembersFollow | development/ufm_mock/mock_server.py:196-201 | POST keeps old members in place; new ones follow in first-occurrence order |
| Dicts.UnnamedMembersKept | development/ufm_mock/mock_server.py:196-201 | POST does not touch a member it does not name |
| PartitionLaws.SetIsDropCreateAdd | development/ufm_mock/mock_server.py:164-201 | PUT equals drop, create and add of the same pairs: members, flag, count and all other partitions; only an existing partition's place in the listing differs |
| PartitionLaws.EndpointsNeverTruncate | development/ufm_mock/mock_server.py:89-103 | both endpoints hand over equal-length lists or answer 400; each non-blank GUID is paired with the single membership (POST) or the one at its own index (PUT) |
| PartitionLaws.PairAt | development/ufm_mock/mock_server.py:178-178 | a non-blank GUID with a membership at its index is always among the pairs |
| PartitionLaws.EmptyingRemovalDeletes | development/ufm_mock/mock_server.py:203-225 | a removal deletes the partition if and only if it had members and the request names them all |
| PartitionLaws.RemovalIsDifference | development/ufm_mock/mock_server.py:203-225 | otherwise exactly the unnamed members stay, in order; the count is the drop in size; a no-op removal changes nothing |
| PartitionLaws.RemovalIgnoresOrderAndDuplicates | development/ufm_mock/mock_server.py:203-225 | two lists naming the same GUIDs have the same outcome |
| PartitionLaws.RouteIsCall | development/ufm_mock/mock_server.py:286-293 | the route on comma-joined GUIDs is the call on the list, and splitting restores the list |
| PartitionLaws.CaseFoldBisimulation | development/ufm_mock/mock_server.py:164-225 | recasing GUIDs anywhere in a run changes no state and no response at any step |
| PartitionLaws.LowerIsCaseFold | development/ufm_mock/mock_server.py:178-178 | lower-casing makes two GUIDs equal exactly when they are equal letter by letter up to casing |
| PartitionLaws.LowerAt | development/ufm_mock/mock_server.py:178-178 | the lower-case form has no capital letter and is the GUID up to casing |
| PartitionLaws.ApplyKeepsReachable | development/ufm_mock/mock_server.py:109-225 | every call keeps: member keys non-blank and without capital letters, each partition under its own pkey |
| PartitionLaws.RunsStayReachable | development/ufm_mock/mock_server.py:109-225 | the same in every state that any run of calls reaches |
| PartitionLaws.EntryIsRight | development/ufm_mock/mock_server.py:151-225 | one response tells by how much a partition's size has changed, or that it is gone |
| PartitionLaws.LedgerBalances | development/ufm_mock/mock_server.py:151-225 | after every run, the ledger kept from requests and responses alone knows which partitions exist and their exact sizes |
| PartitionLaws.AllBlankMeansNoPairs | development/ufm_mock/mock_server.py:178-191 | a request adds nothing exactly when every paired GUID is blank |
| PartitionLaws.EmptyExactlyWhenNeverFilled | development/ufm_mock/mock_server.py:203-225 | after every run, a present partition is empty if and only if no non-blank GUID was given since its last create or set |
| PartitionHistory.RefusedExactlyWhen | development/ufm_mock/mock_server.py:151-217 | refused, with nothing changed, exactly when creating what is there (409) or needing what is not (404) |
| PartitionHistory.PutStores | development/ufm_mock/mock_server.py:94-188 | after a PUT every GUID, in any casing, has the membership at its last place in the plural list, or the single one without such a list; no other GUID is a member |
| PartitionHistory.PostStores | development/ufm_mock/mock_server.py:89-201 | after a POST every GUID named, in any casing, has the single membership, and the others are as before |
| PartitionHistory.RememberIsRight | development/ufm_mock/mock_server.py:151-225 | one request and its response tell what becomes of the membership of any GUID, in any casing |
| PartitionHistory.GetAnswersFromHistory | development/ufm_mock/mock_server.py:106-225 | after every run, get answers what requests and responses say: 404, or name, flag of the last create or set, and for every GUID in any casing the membership last given and not removed |
| PartitionHistory.ListingsAgreeWithGet | development/ufm_mock/mock_server.py:143-162 | the two listings have every partition, in order, with what get answers for it |
| PartitionHistory.NewPartitionsComeLast | development/ufm_mock/mock_server.py:151-183 | a new partition comes last in the listings, an existing one keeps its place |
| Sequences.SplitOfJoin | development/ufm_mock/mock_server.py:291-291 | splitting undoes joining when no part holds the separator |
| Sequences.JoinOfSplit | scripts/add_spdx_headers.py:330-343 | joining undoes splitting |
| Sequences.FirstOccurrencesDiffer | scripts/download_config_store_configs.py:267-273 | the listing holds no UUID twice |
| Sequences.FirstOccurrencesInOrder | scripts/download_config_store_configs.py:267-273 | UUIDs are listed in the order in which they first appear |
| Pagination.PageIsValidWhen | scripts/download_config_store_configs.py:242-270 | the loop gets through a response exactly when it is a list of objects with a non-empty string as uuid, and reads those |
| Pagination.ReadPage | scripts/download_config_store_configs.py:264-273 | the row loop extends the listing by the page's new UUIDs, or raises at the first row without one |
| Pagination.UuidsOfValid | scripts/download_config_store_configs.py:267-273 | the UUIDs of valid rows are read one for one |
| Pagination.ListDeviceUuids | scripts/download_config_store_configs.py:251-278 | against any responses: requests at multiples of the page size, past full valid pages only, ending at the first other page, failing only on an invalid one |
| Pagination.ListedOnce | scripts/download_config_store_configs.py:251-278 | whatever the responses, the listing is duplicate-free and holds exactly the UUIDs on the pages read |
| Pagination.SeenOfServed | scripts/download_config_store_configs.py:257-276 | the first n pages of a fixed list are its first n * page_size rows, none skipped or repeated |
| Pagination.ServedPages | scripts/download_config_store_configs.py:257-276 | page k of a fixed list is not the last exactly when k < n / page_size |
| Pagination.FixedPages | scripts/download_config_store_configs.py:257-276 | of the pages of a fixed list exactly number n / page_size ends the listing, and together they hold all rows |
| Pagination.ListFixedStore | scripts/download_config_store_configs.py:251-278 | a fixed list of n valid rows is listed in exactly n / page_size + 1 requests, each UUID once, in first-occurrence order |
| SafePaths.SanitizedIsClean | scripts/download_config_store_configs.py:294-299 | whatever the value, nothing or a clean name is left: no separators or whitespace, no `.`, `_` or `-` at the ends |
| SafePaths.SafePathComponentIsClean | scripts/download_config_store_configs.py:294-299 | with a clean fallback: the result is clean, the clean names are exactly the fixed points, and twice is once |
| SafePaths.SafePathComponentCleanWhen | scripts/download_config_store_configs.py:294-299 | with any fallback: clean exactly when something is left or the fallback is clean |
| SafePaths.SanitizedKeepsAlphanumerics | scripts/download_config_store_configs.py:294-299 | every ASCII letter and digit is kept, in order |
| SafePaths.FallbackExactlyWhenNothingLeft | scripts/download_config_store_configs.py:299-299 | the fallback is used exactly when the value has no ASCII letter or digit |
| SafePaths.CollapseRun | scripts/download_config_store_configs.py:296-298 | each maximal run of matching characters becomes one underscore |
| SafePaths.StripCuts | scripts/download_config_store_configs.py:296-298 | stripping takes off matching ends and nothing else |
| SafePaths.SeparatorBecomesUnderscore | scripts/download_config_store_configs.py:294-299 | slashes, blanks, or characters outside the allowed set between two clean names become one underscore |
| SafePaths.SafeConfigPath | scripts/download_config_store_configs.py:302-313 | the loop returns the relative path with the specified components |
| SafePaths.SafeNamesAreSafe | scripts/download_config_store_configs.py:302-313 | the path is non-empty, with clean names or `_` only, never `.` or `..`; `_` stands exactly for a `..` |
| SafePaths.SafeNamesFollowParts | scripts/download_config_store_configs.py:302-313 | one name for each part of the file name that is not empty, `.` or the root, in order, with the part's letters and digits; `file` where there are none, `config.txt` without a part |
| SafePaths.CleanPathsAreKept | scripts/download_config_store_configs.py:302-313 | a relative path of clean names is kept, whichever slashes it has |
| SafePaths.LeadingSlashes | scripts/download_config_store_configs.py:305-308 | leading slashes disappear, except that exactly two of them leave the name `file` |
| SafePaths.SafeNamesIdempotentWhen | scripts/download_config_store_configs.py:302-313 | a second pass changes nothing if and only if the file name has no `..` segment |
| Decimals.ValueOfDecimal | scripts/download_config_store_configs.py:332-332 | a printed counter can be read back, so different counters print differently |
| UniquePaths.CandidatesDiffer | scripts/download_config_store_configs.py:327-333 | no two rounds try the same path |
| UniquePaths.NumberGoesBeforeExtension | scripts/download_config_store_configs.py:332-332 | the counter stands between stem and extension |
| UniquePaths.NumberGoesLast | scripts/download_config_store_configs.py:332-332 | without an extension the counter comes last; a leading or final dot begins none |
| UniquePaths.CandidatesInDirectory | scripts/download_config_store_configs.py:327-333 | the path itself comes first, then the numbers from 2 on, in the same directory |
| UniquePaths.FailedRounds | scripts/download_config_store_configs.py:331-333 | pigeonhole: no more rounds can fail than there are used paths |
| UniquePaths.UniquePath | scripts/download_config_store_configs.py:327-335 | terminates within used + 1 tests, returns the first unused candidate, and grows the set by exactly that path |
| Downloads.Download.WriteConfigFile | scripts/download_config_store_configs.py:338-370 | one more result, at a fresh path; every earlier result's file keeps its content |
| Downloads.Download.DownloadConfigs | scripts/download_config_store_configs.py:407-419 | configs are written in order up to the first without filename or content |
| Downloads.Download.DownloadDevice | scripts/download_config_store_configs.py:397-424 | types in order; a RuntimeError stops the device and leaves what was written |
| Downloads.DownloadAll | scripts/download_config_store_configs.py:380-433 | results, paths, skipped and failed devices of a whole run are those specified, for all responses and errors, and every listed device is accounted for |
| Downloads.PlacedDiffer | scripts/download_config_store_configs.py:360-360 | all result paths of a run are pairwise distinct |
| Downloads.TargetUnderOutput | scripts/download_config_store_configs.py:355-360 | the target is output, type, device and safe path, one after the other |
| Downloads.CandidateUnderOutput | scripts/download_config_store_configs.py:327-360 | numbered or not, the file is under the output and its type's directory, without `..` |
| Downloads.RunStaysUnderOutput | scripts/download_config_store_configs.py:380-433 | with clean UUIDs, every path of a whole run is under the output directory |
| Downloads.TypesNeverCollide | scripts/download_config_store_configs.py:357-360 | with a directory per type, files of different types never share a path |
| Downloads.TypesPlacedAlone | scripts/download_config_store_configs.py:357-360 | in a run over several types, the files of one type get the very paths they would get in a run of that type alone |
| Downloads.RunWritesFor | scripts/download_config_store_configs.py:394-419 | the results of a listed device are those of the work on it, and no other device has any |
| Downloads.RunGoesInOrder | scripts/download_config_store_configs.py:394-431 | results and reports follow the order of the devices |
| Downloads.ConfigIsItem | scripts/download_config_store_configs.py:316-352 | what is read from an item is the non-empty string under "filename", the string under "content" and the name under "device" that is more than white space |
| Downloads.DeviceNameIsFirst | scripts/download_config_store_configs.py:316-324 | the device's name is that of the first item with a usable one, or the UUID |
| Downloads.EveryDeviceOnce | scripts/download_config_store_configs.py:394-431 | every listed device is exactly one of failed, skipped with nothing returned and no result, and written in full with at least one result; results from before a failure are kept |
| Downloads.PlanConfigsComplete | scripts/download_config_store_configs.py:347-352 | a device's configs of a type fail if and only if one lacks filename or content, else all are written |
| Downloads.DeviceWritten | scripts/download_config_store_configs.py:397-421 | the writes are the items the API answered, one for one, each with its own filename and content, up to the first incomplete one |
| Downloads.FailsExactlyWhen | scripts/download_config_store_configs.py:242-352 | a device fails exactly when an answer is no list of objects or an item lacks a non-empty string filename or a string content |
| Downloads.NotFailedIsComplete | scripts/download_config_store_configs.py:394-431 | a device that did not fail has had every item of every answer written, one for one, with its type, name, filename and content |
| Flattening.SiblingsDisjoint | bindings/go/config-store/client.go:193-202 | the key families of two sibling map entries have nothing in common |
| Flattening.EmitsAt | bindings/go/config-store/client.go:153-240 | in any visiting order of every map, the values under a key are those that the names in its brackets lead to |
| Flattening.SingleEmits | bindings/go/config-store/client.go:156-159 | a scalar is emitted as printed, a missing value as null |
| Flattening.ListEmits | bindings/go/config-store/client.go:177-191 | a list of scalars is emitted in order, under the key, or in deepObject mode under the key with the index in brackets |
| Flattening.MapEmits | bindings/go/config-store/client.go:193-202 | a map of scalars is emitted with each name in brackets behind the key |
| Flattening.CsvJoins | bindings/go/config-store/client.go:230-231 | in csv mode the values of a new key are joined by commas |
| Flattening.HeaderKeepsLast | bindings/go/config-store/client.go:236-237 | of several values for one header the last one stays |
| Flattening.AssignAllSlot | bindings/go/config-store/client.go:228-239 | a slot of the sink depends only on the values emitted under its key, for query, csv and headers |
| Flattening.FlatteningIsConfluent | bindings/go/config-store/client.go:153-240 | without `][` in keys, any two visiting orders leave the same sink, in form, deepObject and csv modes |
| Flattening.ParameterSink.Add | bindings/go/config-store/client.go:153-240 | the recursion emits what some visiting order emits, and the sink is the result of those assignments |
| Flattening.ParameterSink.AddItems | bindings/go/config-store/client.go:177-191 | list items are emitted in order, with their index in deepObject mode |
| Flattening.ParameterSink.AddFields | bindings/go/config-store/client.go:193-202 | map entries are emitted once each, in an arbitrary order |
| Flattening.ParameterSink.AddParameter | bindings/go/config-store/client.go:153-240 | the sink is the result of some visiting order; without csv a query gains one value per leaf; without `][` in keys each key ends with what it had plus the parameter's values for it |
| Flattening.EmissionsAreLeaves | bindings/go/config-store/client.go:153-240 | one value is emitted per leaf, in any order and with any keys |
| Flattening.QueryGrowsByEmissions | bindings/go/config-store/client.go:229-234 | without csv, the total number of values in a query grows by exactly the number of emissions |
| Flattening.QueryKeepsEveryValue | bindings/go/config-store/client.go:229-234 | without csv, a query key grows by exactly the values emitted for it |
| Flattening.JointsBreakConfluence | bindings/go/config-store/client.go:199-202 | for every key with `][` there is a value that two orders flatten differently, from any sink and in any mode |
| Flattening.ConfluentExactlyWithoutJoints | bindings/go/config-store/client.go:153-240 | values whose keys are free of `][`, or among some given names, are all independent of the order if and only if none of those names contains `][` |
| ServerUrls.ReplaceIsFill | bindings/go/config-store/configuration.go:131-133 | replacing a placeholder in the text fills exactly that hole of the template |
| ServerUrls.ReadIsTemplate | bindings/go/config-store/configuration.go:116-116 | every URL is the text of the template read from it, whose placeholders are its innermost pairs of braces |
| ServerUrls.Allowed | bindings/go/config-store/configuration.go:121-126 | the loop finds exactly the values of the enum; an empty enum allows every value |
| ServerUrls.URL | bindings/go/config-store/configuration.go:111-136 | fails if and only if the index is out of range or a supplied value is outside its non-empty enum; else each declared placeholder is filled with the supplied value, or the default without one, whatever the order, unless braces get in the way |
| ServerUrls.ReplaceInOrderIsFillAll | bindings/go/config-store/configuration.go:118-135 | replacing some variables one by one is substituting them all at once, as long as no placeholder arises outside the holes |
| ServerUrls.CalmIsIndependent | bindings/go/config-store/configuration.go:131-133 | if the simultaneous substitution leaves no `}` after a `{` outside placeholders, no placeholder arises on the way |
| ServerUrls.SubstitutionIsConfluent | bindings/go/config-store/configuration.go:118-135 | under that condition every visiting order gives the simultaneous substitution of all declared variables |
| ServerUrls.UrlIsFilled | bindings/go/config-store/configuration.go:118-135 | under that condition the URL is, piece by piece, the template with each declared placeholder become its supplied value or, without one, its default |
| ServerUrls.SuppliedHidesDefault | bindings/go/config-store/configuration.go:119-133 | the default of a supplied variable has no influence on the URL |
| ServerUrls.DeclaredPlaceholdersGone | bindings/go/config-store/configuration.go:118-135 | under that condition no declared placeholder occurs anywhere in the result |
| UrlConfluence.BothBracesBreak | bindings/go/config-store/configuration.go:131-133 | any value with `{` and any value with `}` make some server with an alternating URL depend on the order |
| UrlConfluence.ValuesConfluentExactlyWhen | bindings/go/config-store/configuration.go:118-135 | all servers with alternating URLs and brace-free names are independent of the order, whichever of some texts their values are, if and only if not both braces occur in those texts |
| UrlConfluence.UncalmUrlBreaks | bindings/go/config-store/configuration.go:131-133 | a URL with a `}` after a `{` outside its innermost pairs of braces depends on the order for some brace-free names and values |
| UrlConfluence.UrlConfluentExactlyWhenCalm | bindings/go/config-store/configuration.go:118-135 | all servers with a given URL and brace-free names and values are independent of the order if and only if no `}` comes after a `{` outside the URL's innermost pairs of braces |
| UrlConfluence.NestedPlaceholderBreaks | bindings/go/config-store/configuration.go:131-133 | at the URL `{{a}}` with values b and x one order gives x and the other {b} |
| LicenseHeaders.HasIsContains | scripts/add_spdx_headers.py:144-151 | `in` on texts is having the pattern somewhere in the middle |
| LicenseHeaders.CountLeadingTagLines | scripts/add_spdx_headers.py:331-336 | the loop counts the maximal leading run of build-tag and empty lines |
| LicenseHeaders.AnyHeaderIsFull | scripts/add_spdx_headers.py:144-145 | any text around a header counts as having the full header, whatever the header's unmarked lines say |
| LicenseHeaders.AddedPreservesText | scripts/add_spdx_headers.py:169-348 | the result is prefix + header + suffix, and the original is prefix + suffix, or prefix + short header + suffix, or the prefix without its last newline |
| LicenseHeaders.AddedIsFull | scripts/add_spdx_headers.py:144-348 | after a header was added, every language's function skips the file |
| LicenseHeaders.HeaderIsComment | scripts/add_spdx_headers.py:24-81 | the header is one comment that holds the licence lines and nothing else |
| HeaderPositions.FoundExactlyWhenMatching | scripts/add_spdx_headers.py:124-174 | the scanners find a short header exactly when the text matches its language's pattern |
| HeaderPositions.MatchIsReplaced | scripts/add_spdx_headers.py:169-174 | a text that matches gets the header in place of the short one, and there is only one way to match |
| HeaderPositions.MarkedText | scripts/add_spdx_headers.py:144-256 | a text with both marks is skipped; with the first alone its short header is replaced if it matches, and otherwise the file fails |
| HeaderPositions.OpensIsHasPreamble | scripts/add_spdx_headers.py:272-326 | a text has a preamble exactly when it begins with a shebang, a build tag, or white space and a directive |
| HeaderPositions.HeaderComesFirst | scripts/add_spdx_headers.py:280-346 | an unmarked text without a preamble: the header, then the whole text |
| HeaderPositions.HeaderAfterFirstLine | scripts/add_spdx_headers.py:272-306 | an unmarked text with a shebang or directive: the header right after the first line |
| HeaderPositions.HeaderAfterTags | scripts/add_spdx_headers.py:326-344 | an unmarked Go text with build tags: the header right before the first line that is neither tag nor empty |
| LicenseHeaders.FailsExactlyWhenMisplaced | scripts/add_spdx_headers.py:169-256 | a file fails if and only if it has a short header that is not right after the preamble |
| LicenseHeaders.ShebangStaysFirst | scripts/add_spdx_headers.py:259-282 | a shebang line stays first, with the header right after it |
| LicenseHeaders.DirectiveStaysFirstWhen | scripts/add_spdx_headers.py:299-306 | a directive stays in front of an inserted header if and only if no newline precedes it |
| LicenseHeaders.DirectiveAfterEmptyLine | scripts/add_spdx_headers.py:299-306 | in a file of an empty line and a directive the header goes between the two |
| LicenseHeaders.BuildTagsInLines | scripts/add_spdx_headers.py:133-136 | the pattern's build-tag run is a maximal run of whole leading lines |
| LicenseHeaders.TagsStayFirst | scripts/add_spdx_headers.py:314-348 | all leading build-tag lines of a Go file stay in front of the header, inserted or replaced |
| HeaderRuns.OpenFile.Replace | scripts/add_spdx_headers.py:237-241 | seek, write and truncate leave exactly the new content, whatever was there and wherever the file stood |
| HeaderRuns.AddHeaderTo | scripts/add_spdx_headers.py:244-348 | on an open file: the specified outcome, and the file changed only when a header was added |
| HeaderRuns.Repository.VisitPath | scripts/add_spdx_headers.py:259-348 | a file that cannot be opened or read counts as failed and stays as it is |
| HeaderRuns.VisitTells | scripts/add_spdx_headers.py:259-348 | what a visit counts as and which file it leaves, case by case |
| HeaderRuns.SkipsExactly | scripts/add_spdx_headers.py:139-141 | a path is left out exactly when one of the six names occurs in it |
| HeaderRuns.VisitsAre | scripts/add_spdx_headers.py:375-377 | the files visited are those listed, in order, less those in a skipped place |
| HeaderRuns.Repository.ProcessDirectory | scripts/add_spdx_headers.py:351-389 | the counters are the numbers of visits with each outcome, and the files are as those visits leave them |
| HeaderRuns.Repository.ProcessAll | scripts/add_spdx_headers.py:392-439 | the totals are those of all visits of the run; the exit code is 1 exactly when one failed |
| HeaderRuns.SettledStays | scripts/add_spdx_headers.py:259-348 | what a visit would do stays settled whatever else the run visits |
| HeaderRuns.AllSettled | scripts/add_spdx_headers.py:392-439 | after a run, each of its visits would fail as before or skip |
| HeaderRuns.SecondRunChangesNothing | scripts/add_spdx_headers.py:392-439 | a second run modifies nothing, skips modified + skipped of the first, and fails on the same visits |
| HeaderRuns.FailedFilesUntouched | scripts/add_spdx_headers.py:244-256 | a file that no visit modified is left as it was |
| HeaderRuns.FileAfterRun | scripts/add_spdx_headers.py:351-439 | however often a run visits a file, it ends as adding the header once makes it; other files stay |
| HeaderRuns.TotalsTell | scripts/add_spdx_headers.py:371-389 | the totals count every visit once, and the failures are positive exactly when a visit failed |
| HeaderRuns.LanguageFits | scripts/add_spdx_headers.py:406-432 | a path is never processed as two languages |
| HeaderRuns.MainConverges | scripts/add_spdx_headers.py:392-439 | so every run of main, on any file set, is followed by a run that changes nothing |
| Descriptors.SafeAtEveryMoment | scripts/add_spdx_headers.py:213-234 | at every moment: all earlier descriptors untouched, and at most two more open |
| Descriptors.NeverClosedTwice | scripts/add_spdx_headers.py:222-234 | between two closes of a number it was opened again |
| Descriptors.OpenTextFileWithin | scripts/add_spdx_headers.py:206-234 | for any depth and any failing calls: the open descriptors at the end are those at the start, and the body gets exactly the named file, if and only if no open and no check failed |
| Descriptors.Descend | scripts/add_spdx_headers.py:217-220 | the loop holds exactly one directory, the one that the components so far lead to |
| Descriptors.HandOver | scripts/add_spdx_headers.py:222-230 | after the hand-off to the with statement, which closes the file however the body ends, no file is left for the finally block; before it, a file that is not regular is |
| Descriptors.Finally | scripts/add_spdx_headers.py:231-234 | on every way out the finally block closes exactly what is still open, the file only if it was not handed off |
| CacheTestCodec.CheckRequired | bindings/go/config-store/model_cache_test_found_response.go:232-236 | in any visiting order, passes exactly when every required property is given and not wrongly null |
| CacheTestCodec.ReadError | bindings/go/config-store/model_cache_test_error_response.go:115-150 | accepts exactly the objects that conform to the record's schema, and returns their values |
| CacheTestCodec.ReadFound | bindings/go/config-store/model_cache_test_found_response.go:214-252 | accepts exactly the objects that conform to the record's schema, and returns their values |
| CacheTestCodec.ReadNotFound | bindings/go/config-store/model_cache_test_not_found_response.go:156-192 | accepts exactly the objects that conform to the record's schema, and returns their values |
| CacheTestCodec.LookupResponse.UnmarshalJSON | bindings/go/config-store/model_response_test_cache_lookup_v1_admin_cache_test__device_uuid__get.go:26-76 | whatever was held before, exactly the decoded variant is held afterwards, or nothing on error |
| CacheTestCodec.LookupResponse.MarshalJSON | bindings/go/config-store/model_response_test_cache_lookup_v1_admin_cache_test__device_uuid__get.go:79-93 | the first variant held is written; an error exactly when none is |
| CacheTestCodec.AtMostOneAccepts | bindings/go/config-store/model_response_test_cache_lookup_v1_admin_cache_test__device_uuid__get.go:36-73 | no JSON value is accepted by two record decoders |
| CacheTestCodec.TrialOrderDoesNotMatter | bindings/go/config-store/model_response_test_cache_lookup_v1_admin_cache_test__device_uuid__get.go:36-73 | trying the decoders in any order decodes the same |
| CacheTestCodec.DecodeOfEncode | bindings/go/config-store/model_response_test_cache_lookup_v1_admin_cache_test__device_uuid__get.go:26-93 | decoding an encoded value gives the same variant and values, an unset platform becoming set to null |
| CacheTestCodec.EncodeOfDecode | bindings/go/config-store/model_response_test_cache_lookup_v1_admin_cache_test__device_uuid__get.go:26-93 | encoding a decoded value restores the JSON object, except that a null found goes |
| CacheTestCodec.FieldsHaveTheirKeys | bindings/go/config-store/model_response_test_cache_lookup_v1_admin_cache_test__device_uuid__get.go:79-93 | each value is written under its own key |
| CacheTestCodec.NeverEmptyObject | bindings/go/config-store/model_response_test_cache_lookup_v1_admin_cache_test__device_uuid__get.go:39-41 | the test for an empty struct never discards a record |
| CacheTestCodec.AcceptsExactlyTheSchemas | bindings/go/config-store/model_response_test_cache_lookup_v1_admin_cache_test__device_uuid__get.go:26-76 | accepted are exactly the objects that conform to one of three schemas |
| OperationIds.OwnerIsUnique | scripts/generate_openapi.py:138-138 | an owner text names one method and path |
| OperationIds.OwnerReads | scripts/generate_openapi.py:138-138 | the owner text is the method in capitals, a blank and the path |
| OperationIds.ValidateUniqueOperationIds | scripts/generate_openapi.py:128-151 | the nested loops find the problems of the operations in order, and accept when there are none |
| OperationIds.EntriesMembers | scripts/generate_openapi.py:134-137 | the operations visited are exactly those of the document under an HTTP method |
| OperationIds.ProblemsAre | scripts/generate_openapi.py:139-148 | each complaint is about an operation without an ID or with a used one, and names the first owner |
| OperationIds.ComplaintsName | scripts/generate_openapi.py:140-148 | an operation without an ID is reported; one with a used ID is reported with that ID and the first operation that has it |
| OperationIds.ProblemsAndIdsAddUp | scripts/generate_openapi.py:139-148 | problems plus distinct valid IDs are the operations |
| OperationIds.OwnersDiffer | scripts/generate_openapi.py:134-138 | no two operations of a document have the same owner text |
| OperationIds.AcceptsExactlyWhenIdsIdentify | scripts/generate_openapi.py:128-151 | accepts if and only if every operation has a non-empty string ID and (method, path) -> ID is injective |
| OperationIds.ValidateUniqueOperationTags | scripts/generate_openapi.py:110-125 | reports the operations that repeat a tag, and accepts if and only if there are none |
| OperationIds.SetSizeTellsDuplicates | scripts/generate_openapi.py:119-120 | a list is as long as its set exactly when it has no duplicates |

## Left out

- FastAPI routing and pydantic parsing, gzip and fixture loading of the UFM mock. The DELETE route is modelled from its path segment on.
- Partitions.Lower: `str.lower()` on ASCII letters only. GUIDs are hexadecimal; other letters are left as they are.
- Partition details are not turned into the JSON list of GUID objects; a detail holds the ordered member map.
- HTTP sessions, OIDC login, argument parsing, printing, and the two address resolvers `target_from_hostname` and `target_from_url`.
- Downloads.DownloadAll: RuntimeErrors only, as in the source's own handler; an exception that aborts the run, file system errors among them, is not modelled. The disk is a map from paths to texts, so `mkdir` and clashes between a file and a directory of the same name do not arise.
- Downloads.DownloadAll: the skipped and failed lists hold device UUIDs; the text of the error after the UUID is left out.
- UniquePaths.UniquePath: stem and suffix as in Python up to 3.13, where a name that ends in a dot has no suffix.
- ServerUrls.SubstitutionIsConfluent: variable names without braces only; a name with a brace in it is no template variable.
- Flattening.ParameterSink.Add: a value is a tree of nulls, printed scalars, lists and string-keyed maps. How Go prints floats, times and structs, and what it does with nil slices and pointers, is left out.
- `ServerURLWithContext` and its lookups: a plain selection of index and variables before `URL`.
- LicenseHeaders.AddedPreservesText: texts as read; the conversion of line ends between disk and text is left out, and so are the symbolic links and checks in `resolve_path_within`.
- HeaderRuns.MainConverges: the listing of a directory is a parameter that is the same in both runs.
- Descriptors.OpenTextFileWithin: `os.close` and `os.fdopen` do not fail.
- JSON lexing, duplicate and case-insensitive keys of Go's decoder: the codec starts from parsed values with exact-case keys.
- The generated request builders, the other generated models, and the copies of the Go client under dhcp, render and temporal, which repeat the same logic.
- `validate_bearer_auth` and the document generation around the two checks.
- User interface, screenshots, migrations, and everything that only wires services together.
