# Trustie admin dashboard: a Dafny model of its core logic

This project models the business logic of the Trustie admin dashboard. The
dashboard is a server-rendered web application for a consumer finance and
social app. Admins search users and posts, create and publish "flash" posts
that fan out to every user's feed, and manage a knowledge base of resources
tagged from a fixed list.

The model covers these parts:

- **Post lifecycle**:
  - `CreateAdminPost`: image uploads, the draft record and its put.
  - `PublishAdminPost`: the status update and the owner check. Then the chat record, the author's counter update and the hand-off of the feed update.
  - `UpdateAllUsersFeed`: the paginated user scan, and batch writes of 25 feed pointers.
- **Knowledge resources**:
  - `SideHustle` and `S3Actions`: `addResource`, and `updateResource` with its generated update expression.
  - `S3Actions` also covers the signed image URL and the knowledge-file upload.
- **Small utilities**:
  - picture ordering, in `ObjectUtils` and in the front-end page `HubPage`;
  - the GraphQL field extractor `GraphqlUtils`.
- **Admin front end, as state machines over its React state and the URL's query pairs**:
  - the post picker `SelectPost`;
  - the user picker `SelectUser` and its avatar card `UserBasicInfo`;
  - the tag picker `MultiSelect`;
  - the access check `Middleware`;
  - the sign-out routine `ClearAuth`.

A few pieces are shared:

- `Records`: the document store and the bucket, as one `Store` class. Each SDK command becomes a method that changes one part of the store.
- `QueryParams`: `URLSearchParams` as an ordered sequence of pairs. It follows the `set`, `delete` and `get` algorithms of section 6.2 of the WHATWG URL Standard.
- `Text`: the string operations of JavaScript the code relies on.
- `StableSort`: the stable insertion sort that stands for `Array.prototype.sort`.

The environment enters as parameters:

- clocks, UUIDs and the resized image widths;
- whether an SDK call or a lambda throws;
- what a search lambda answers;
- the signer's output.

A workflow step that writes to the store is a method on `Store`. It is proved against a function describing the whole run, and the properties the code promises are lemmas about that function.

## Model

| member | source | states |
|---|---|---|
| Text.NatToString | src/actions/createAdminPost.ts:48-50 | The decimal rendering of a timestamp is a non-empty digit string without a leading zero. |
| Text.DecimalValueOfNatToString | src/actions/createAdminPost.ts:48-50 | Reading the decimal digits of a rendered number gives the number back. |
| Text.TrimStart | apps/hustle-hub/src/app/page.tsx:23-24 | The result is never longer than the input and does not start with white space. An input that starts with white space gets shorter. |
| Text.TrimEnd | src/utils/graphql-utils.ts:5 | The result is never longer than the input and does not end with white space. |
| Text.TrimOfPadded | src/utils/graphql-utils.ts:5 | `trim` of a text padded with white space gives the text back, when the text starts and ends with a non-space character. |
| Text.IndexOf | src/actions/publishAdminPost.ts:10 | `indexOf` is -1 exactly when the character is absent. Otherwise it is a position holding the character, with none before it. |
| Text.Split | apps/admin-app/src/utils/clearAuth.ts:8 | `split` with a one-character separator gives at least one piece, and no piece holds the separator. |
| Text.JoinSplit | apps/admin-app/src/utils/clearAuth.ts:8 | Joining the pieces of a split with the separator gives back the string. |
| Text.SplitLength | apps/admin-app/src/utils/clearAuth.ts:8 | A string with n separators splits into n + 1 pieces. |
| Text.IncludesPrefix | apps/admin-app/src/middleware.ts:37-41 | `includes` holds for every prefix of a string. |
| StableSort.SortByKeyPermutes | apps/hustle-hub/src/app/page.tsx:22 | The sort outputs a permutation of its input. |
| StableSort.SortByKeySorts | apps/hustle-hub/src/app/page.tsx:22-26 | The output is in non-decreasing key order. |
| StableSort.SortByKeyIsStable | src/utils/objectUtils.ts:8 | Elements with equal keys come out in their input order. |
| StableSort.StableSortIsUnique | src/utils/objectUtils.ts:8 | Any ordered and stable permutation equals the sort's output, so the result does not depend on how the sort is implemented. |
| StableSort.SortByKeyOfSorted | apps/hustle-hub/src/app/page.tsx:22-26 | An already ordered sequence is left as it is. |
| StableSort.SortByKeyIdempotent | apps/hustle-hub/src/app/page.tsx:22-26 | Sorting twice gives the same result as sorting once. |
| StableSort.InsertInPlace | apps/hustle-hub/src/app/page.tsx:22 | One step of the in-place sort: the array becomes the functional insertion of `a[i]` into the sorted prefix, and the rest of the array is unchanged. |
| StableSort.SortInPlace | apps/hustle-hub/src/app/page.tsx:22-26 | The array is sorted in place. It ends up equal to the stable sort of its old contents. |
| ObjectUtils.ParseEntry | src/utils/objectUtils.ts:3-6 | An entry parses exactly when it matches `^(\d+)#(.+)$`. The parse gives the digits' value and the text after the first `'#'`. Otherwise the result is `null`. |
| ObjectUtils.DigitsHaveNoHash | src/utils/objectUtils.ts:4 | The digit group always ends at the first `'#'`. |
| ObjectUtils.ParseEntryOfMatch | src/utils/objectUtils.ts:4-5 | A digit run, a `'#'` and a one-line name parse to the run's value and that name. |
| ObjectUtils.ParseEntryOfParts | src/utils/objectUtils.ts:4-5 | `digits#name`, with a non-empty one-line name, parses to the digits' decimal value and that name. |
| ObjectUtils.ParseEntryLeadingZero | src/utils/objectUtils.ts:5 | `"02#x"` gets index 2: leading zeros do not change the index. |
| ObjectUtils.OneParsedEntry | src/utils/objectUtils.ts:1-10 | A one-entry list whose entry parses gives back exactly that entry's name. |
| ObjectUtils.TwoEntriesSameIndex | src/utils/objectUtils.ts:7-9 | Two parsed entries with equal indices come out as their two names, in input order. |
| ObjectUtils.OutputLength | src/utils/objectUtils.ts:7 | The output has one name per well-formed entry, so it is never longer than the input. |
| ObjectUtils.OutputIsPermutation | src/utils/objectUtils.ts:7-9 | The output is a permutation of the names of the well-formed entries. |
| ObjectUtils.OutputOrderedByIndex | src/utils/objectUtils.ts:8 | The output names come in non-decreasing index order. |
| ObjectUtils.EqualIndexKeepsInputOrder | src/utils/objectUtils.ts:8 | Entries with the same index keep their input order. |
| ObjectUtils.ExampleExtraHash | src/utils/objectUtils.ts:4 | Further `'#'` characters stay in the name. |
| ObjectUtils.ExampleEqualKeys | src/utils/objectUtils.ts:5-8 | `"2#y"` and `"02#x"` have equal indices and keep their input order. |
| ObjectUtils.ExampleMalformedDropped | src/utils/objectUtils.ts:4-7 | These entries are dropped: one without digits, one without a name, one whose name holds a line break. |
| HubPage.GetOrderedPictures | apps/hustle-hub/src/app/page.tsx:21-27 | The function returns the argument array itself, sorted in place by the `parseInt(...) \|\| 0` key of each entry's text before its first `'#'`. |
| HubPage.SplitHead | apps/hustle-hub/src/app/page.tsx:23 | `split('#')[0]` is the text before the first `'#'`, or the whole string. |
| HubPage.ParseIntDecimal | apps/hustle-hub/src/app/page.tsx:23-24 | White space, a decimal digit run, then a character that does not continue the number: `parseInt` gives the run's value. |
| HubPage.ParseIntNegativeDecimal | apps/hustle-hub/src/app/page.tsx:23-24 | After a minus sign the parsed value is negated. |
| HubPage.OrderKeyOfHead | apps/hustle-hub/src/app/page.tsx:23 | The key of `head#rest` depends on `head` alone. |
| HubPage.OrderKeyOfDigits | apps/hustle-hub/src/app/page.tsx:23-24 | `"<digits>#<rest>"` has the digits' value as its key. |
| HubPage.NoLeadingNumberGivesZero | apps/hustle-hub/src/app/page.tsx:23-24 | When the head, after white space and an optional sign, does not go on with a digit, it parses to NaN and the key is 0. This includes the empty head and heads such as `#x`, ` x#y` and `-x#y`. A head that does go on with a digit, other than before `0x`, parses to a number. |
| HubPage.OrderKeyAgreesWithParsedIndex | apps/hustle-hub/src/app/page.tsx:23-24 | On a well-formed `"<digits>#<name>"` entry, the page's key equals the index `ObjectUtils` parses. |
| HubPage.TrailingJunkIgnored | apps/hustle-hub/src/app/page.tsx:23 | `"12ab#x"` has key 12. |
| HubPage.MinusSignNegates | apps/hustle-hub/src/app/page.tsx:23 | `"-3#x"` has key -3. |
| HubPage.LeadingSpaceSkipped | apps/hustle-hub/src/app/page.tsx:23 | Leading white space before the digits is skipped. |
| HubPage.HexPrefixReadsHex | apps/hustle-hub/src/app/page.tsx:23 | `"0x1A#x"` has key 26. |
| HubPage.SortedPictures | apps/hustle-hub/src/app/page.tsx:22-26 | The sorted array holds the same entries, ordered by key, with ties in input order. |
| HubPage.PageExample | apps/hustle-hub/src/app/page.tsx:30 | The page's call on `["1#picA.jpg", "2#picB.jpg"]` leaves the order as it is. |
| GraphqlUtils.RunLenIsMaximal | src/utils/graphql-utils.ts:2 | The run the class `[\w\s]+` consumes is maximal. |
| GraphqlUtils.FirstMatchFromIsLeftmost | src/utils/graphql-utils.ts:3 | `match` finds the leftmost position where the expression matches, or no match exists. |
| GraphqlUtils.MatchHereIff | src/utils/graphql-utils.ts:2 | The direct test holds exactly when the regular expression, with its backtracking `\s*` parts, matches at that position. |
| GraphqlUtils.SplitWs | src/utils/graphql-utils.ts:5 | `split(/\s+/)` gives at least one piece, and no piece holds white space. |
| GraphqlUtils.JoinSplitWs | src/utils/graphql-utils.ts:5 | The pieces joined by single spaces are the text with its white-space runs collapsed, so the pieces come in source order. |
| GraphqlUtils.SplitWsOfJoin | src/utils/graphql-utils.ts:5 | Splitting words joined by white-space runs gives the words back. |
| GraphqlUtils.TrimCaptured | src/utils/graphql-utils.ts:2-5 | After `trim`, the captured group equals the trimmed maximal run. |
| GraphqlUtils.EmptyIffNoMatch | src/utils/graphql-utils.ts:3-7 | The result is `[]` exactly when the expression matches nowhere. |
| GraphqlUtils.FieldsOfLeftmostMatch | src/utils/graphql-utils.ts:3-5 | On a match, the fields are the white-space pieces of the trimmed run after the leftmost qualifying `'{'`. |
| GraphqlUtils.FieldsAreWords | src/utils/graphql-utils.ts:2-5 | Every field is a non-empty run of `[A-Za-z0-9_]`, except the single `""` that a blank group gives. |
| GraphqlUtils.BlankGroupGivesEmptyField | src/utils/graphql-utils.ts:4-5 | `"{   }"` gives `[""]`. |
| GraphqlUtils.EmptyBracesGiveNothing | src/utils/graphql-utils.ts:7 | `"{}"` gives `[]`. |
| GraphqlUtils.SkipPrefix | src/utils/graphql-utils.ts:3 | A prefix in which the expression matches nowhere does not change the result. |
| GraphqlUtils.SkipBlockedBrace | src/utils/graphql-utils.ts:2-3 | A `'{'` whose run is stopped by a character other than `'}'` is passed over. |
| GraphqlUtils.FieldsOfGroup | src/utils/graphql-utils.ts:2-5 | `"{" + g + "}"` with a non-empty `[\w\s]` run g gives the words of g. |
| GraphqlUtils.FieldsOfNestedQuery | src/utils/graphql-utils.ts:2-5 | In a query shaped `A{B{G}C`, where the run after the first `'{'` is blocked, the fields are the words of G. |
| GraphqlUtils.FieldsOfSearchUserShape | src/utils/graphql-utils.ts:1-8 | For any field list laid out like the `searchUser` query, the fields returned are that list. |
| GraphqlUtils.SearchUserFieldsExtracted | src/utils/graphql-utils.ts:1-8 | `extractFieldsFromQuery(searchUser)` is the resolver's field list. |
| Records.KeyItem | src/actions/publishAdminPost.ts:19-31 | The item an update creates for a missing key carries that key (`HasKey`) and holds no other attribute. |
| Records.WithGet | src/actions/publishAdminPost.ts:38-60 | An object field reads back as written, or as `undefined`. Other fields are unchanged. |
| Records.SpreadGet | src/actions/publishAdminPost.ts:54-59 | After a spread, a spread field reads as in its source object and any other field as before. |
| Records.UpdatedGet | src/actions/publishAdminPost.ts:19-31 | After an update, a set attribute reads as set. Any other attribute reads as stored before, or from the key when the item was created. |
| Records.PostItemHasKey | src/actions/createAdminPost.ts:80-105 | A post stored under its event id and type carries that key. |
| Records.Store.Put | src/actions/createAdminPost.ts:100-105 | `PutCommand` replaces the item under its key. Nothing else changes. |
| Records.Store.SetAttributes | src/actions/publishAdminPost.ts:19-31 | `UpdateCommand` with `ReturnValues: "ALL_NEW"` stores and returns the updated item. Nothing else changes. |
| Records.Store.PutObject | src/actions/createAdminPost.ts:22-28 | `PutObjectCommand` appends one upload. Nothing else changes. |
| Records.Store.LogFeed | apps/admin-app/src/actions/updateAllUsersFeed.ts:31-54 | A scan or batch-write call is appended to the call log. Nothing else changes. |
| Records.Store.HandOff | src/actions/publishAdminPost.ts:99-110 | Handing off the background feed update appends its parameters to the hand-offs. Nothing else changes. |
| CreateAdminPost.ProcessAndUploadImage | src/actions/createAdminPost.ts:33-60 | Both uploads are attempted: the low-resolution file at width 100 and the high-resolution file at width 800, under the admin folder's keys. The file names and the preview are returned. The call fails if either upload fails, and no item is written. |
| CreateAdminPost.Create | src/actions/createAdminPost.ts:62-115 | The uploads, the items and the outcome are those of the run function. The feed log and the hand-offs are untouched. |
| CreateAdminPost.FileNamesNeverCollide | src/actions/createAdminPost.ts:49-50 | The two file names share the user id and the timestamp and never coincide, whatever the timestamp. |
| CreateAdminPost.TimestampReadBack | src/actions/createAdminPost.ts:48-50 | The timestamp can be read back from the file name. |
| CreateAdminPost.KeyFolderIsPicturePath | src/actions/createAdminPost.ts:21 | The key's folder is the record's `picturePath`, and the returned URL ends with the key. See also lines 30 and 89. |
| CreateAdminPost.CreatedRecord | src/actions/createAdminPost.ts:78-110 | On success, the only item written is the new draft, under `flash_<uuid>` and `post_detail`. Its `lastStatus` is `created`, its privacy `public`, and it is not secret. It has zero comments and likes. `created` is the date and `updated` is `flash_active_created_<date>`. The title, description and data-URL preview are copied. It points at the high-resolution file in the admin folder. Both uploads were made, and the outcome returns the draft's key. |
| CreateAdminPost.LowResNeverReferenced | src/actions/createAdminPost.ts:49 | The low-resolution file is uploaded, but the record never refers to it. See also lines 74 and 90. |
| CreateAdminPost.FailuresLeaveStoreUnchanged | src/actions/createAdminPost.ts:100-114 | A failed step stores no item. Only a failing put yields `{error}`; a failing upload throws. |
| CreateAdminPost.OrderedPicturesOfNewPost | src/actions/createAdminPost.ts:90 | Ordering the new record's `pictures` gives back the high-resolution file name. |
| PublishAdminPost.Publish | src/actions/publishAdminPost.ts:8-117 | The items, the hand-offs and the outcome are those of the run function. Uploads and the feed log are untouched. |
| PublishAdminPost.SplitIdWithoutUnderscore | src/actions/publishAdminPost.ts:10-12 | Without a `'_'`, the prefix is empty and the suffix is the whole id. |
| PublishAdminPost.SplitIdRoundTrip | src/actions/publishAdminPost.ts:10-12 | With a `'_'`, the prefix holds none, and prefix + `'_'` + suffix gives back the id. |
| PublishAdminPost.SplitIdOfJoin | src/actions/publishAdminPost.ts:10-12 | A prefix without `'_'` is split off again, so the suffix may hold further `'_'`s. |
| PublishAdminPost.CreatedPostSplits | src/actions/publishAdminPost.ts:10-12 | A post made by `createAdminPost` splits into `"flash"` and its UUID, so publishing it bumps `written`. |
| PublishAdminPost.PostStaysPublished | src/actions/publishAdminPost.ts:19-35 | Unless the first update throws, the post is marked published with the prefixed status token, even when the owner check then fails. |
| PublishAdminPost.OwnerMismatchFails | src/actions/publishAdminPost.ts:33-35 | A caller who is not the owner gets `{success: false}`. Only the post has changed, and no fan-out starts. See also lines 113-116. |
| PublishAdminPost.ChatIdentity | src/actions/publishAdminPost.ts:39-44 | The chat has key `chat_<suffix>` and type `chat_detail`, and its creation fields come from the new date. |
| PublishAdminPost.ChatStatusFields | src/actions/publishAdminPost.ts:51-53 | The chat starts published, with no comments and no likes. |
| PublishAdminPost.ChatCopiedFields | src/actions/publishAdminPost.ts:41-50 | The chat copies these fields from the updated post. A field that is `undefined` on the post is absent from the chat. |
| PublishAdminPost.GoalExtrasOnlyForGoals | src/actions/publishAdminPost.ts:54-59 | Only a goal gets `balance` 0, `nbContribution` 0 and the post's `value`. |
| PublishAdminPost.SecondPieceBetweenHashes | src/actions/publishAdminPost.ts:83 | The picture name is the text between the first and the second `'#'`. |
| PublishAdminPost.SecondPieceAfterOnlyHash | src/actions/publishAdminPost.ts:83 | With a single `'#'`, the picture name is the text after it. |
| PublishAdminPost.SecondPieceWithoutHash | src/actions/publishAdminPost.ts:83 | Without a `'#'`, the picture name is `""`. |
| PublishAdminPost.EmptyPicturesThrowAfterChat | src/actions/publishAdminPost.ts:63-83 | An empty `pictures` array is truthy, so the picture step throws after the chat was put. Neither the counter nor the fan-out happens. |
| PublishAdminPost.CounterAttrsBump | src/actions/publishAdminPost.ts:74-87 | The counter update adds one to the existing counter and sets the date. The other counter is left out. |
| PublishAdminPost.CounterAttrsPicture | src/actions/publishAdminPost.ts:70-87 | With a picture, the update also sets `picture`, `preview` and `picturePath` from the post. |
| PublishAdminPost.CounterStepBumps | src/actions/publishAdminPost.ts:89-96 | A successful counter step bumps the counter of the item under the owner's `post_status` key. |
| PublishAdminPost.CounterStepKeeps | src/actions/publishAdminPost.ts:89-96 | The counter step writes only the owner's status item. |
| PublishAdminPost.OneCounterBumped | src/actions/publishAdminPost.ts:74-77 | Success bumps exactly one counter: `published` for a goal, `written` otherwise. |
| PublishAdminPost.HandoffOnlyOnSuccess | src/actions/publishAdminPost.ts:99-112 | The fan-out is handed off exactly when the call succeeds. It gets the new date, the chat's event id and the owner. |
| PublishAdminPost.ReturnedChatIsHandedOff | src/actions/publishAdminPost.ts:101-112 | The returned chat carries the event id the fan-out is given. |
| PublishAdminPost.CounterStepHandoff | src/actions/publishAdminPost.ts:96-112 | The counter step hands off exactly when it succeeds, and returns the chat. |
| UpdateAllUsersFeed.ChunkSizes | apps/admin-app/src/actions/updateAllUsersFeed.ts:46-47 | Every batch holds 1 to 25 puts. |
| UpdateAllUsersFeed.ChunkCount | apps/admin-app/src/actions/updateAllUsersFeed.ts:46 | A page of n users gives ceil(n / 25) batches. |
| UpdateAllUsersFeed.FlattenChunks | apps/admin-app/src/actions/updateAllUsersFeed.ts:46-47 | The batches, concatenated, are the page's puts. |
| UpdateAllUsersFeed.ChunkAt | apps/admin-app/src/actions/updateAllUsersFeed.ts:46-47 | Batch j exists exactly when 25 j is below the length, and it is the slice taken at i = 25 j. |
| UpdateAllUsersFeed.ChunksOf53 | apps/admin-app/src/actions/updateAllUsersFeed.ts:18 | 53 users give batches of 25, 25 and 3. See also lines 46-47. |
| UpdateAllUsersFeed.SendBatches | apps/admin-app/src/actions/updateAllUsersFeed.ts:46-55 | One batch write is sent per chunk, in order, until one throws. The result says whether one threw. |
| UpdateAllUsersFeed.ScanPage | apps/admin-app/src/actions/updateAllUsersFeed.ts:21-55 | One iteration appends its scan, then its batch writes, and says whether a batch threw. |
| UpdateAllUsersFeed.Run | apps/admin-app/src/actions/updateAllUsersFeed.ts:12-57 | The calls made are the run function's. The run fails exactly when the failing batch is among those sent. |
| UpdateAllUsersFeed.BatchesWellFormed | apps/admin-app/src/actions/updateAllUsersFeed.ts:35-47 | Every batch write carries 1 to 25 puts. Each put has the `feed_<date>_<chat id>` sort key and the post owner as friend. |
| UpdateAllUsersFeed.CompleteRunPuts | apps/admin-app/src/actions/updateAllUsersFeed.ts:20-56 | Without a failure, the batches in call order hold one put per scanned user, in scan order. |
| UpdateAllUsersFeed.CompleteRunScans | apps/admin-app/src/actions/updateAllUsersFeed.ts:28-32 | Without a failure there is one scan per page. The first starts from no key, and each later one from the previous page's continuation key. See also line 56. |
| UpdateAllUsersFeed.FailureTruncates | apps/admin-app/src/actions/updateAllUsersFeed.ts:54 | When batch write f throws, the calls made are the failure-free run cut just before that write. |
| UpdateAllUsersFeed.LateFailureHarmless | apps/admin-app/src/actions/updateAllUsersFeed.ts:54 | A failure numbered past the last batch write changes nothing. |
| UpdateAllUsersFeed.ScansUseWrittenFilter | apps/admin-app/src/actions/updateAllUsersFeed.ts:24-26 | Every scan filters on `"basic_profile"`, which is not the `"profile_basic"` sort key the profile reads use. |
| UpdateAllUsersFeed.TwoPagesExample | apps/admin-app/src/actions/updateAllUsersFeed.ts:46-56 | Pages of 30 and 23 users give batches of 25, 5 and 23: chunking restarts on every page. |
| UpdateAllUsersFeed.EmptyPageContinues | apps/admin-app/src/actions/updateAllUsersFeed.ts:32-56 | A page without users sends no batch, and its continuation key is still followed. |
| SideHustle.NewResourceFields | apps/admin-app/src/actions/side-hustle.ts:20-27 | The generated fields override the caller's. The id becomes `resourceId` and `PK`; the timestamp becomes `SK`, `dateAdded` and `lastModified`. Every other field is the caller's. |
| SideHustle.NewResourceHasKey | apps/admin-app/src/actions/side-hustle.ts:20-32 | The new record carries the key it is put under. |
| SideHustle.AddResource | apps/admin-app/src/actions/side-hustle.ts:14-41 | On success, the record put is the record returned. On failure the outcome is the fixed error and the store is unchanged. |
| SideHustle.BuildUpdate | apps/admin-app/src/actions/side-hustle.ts:62-86 | The command has one clause per kept entry, then `lastModified`. It maps the names and values, and `:lastModified` is the new date. |
| SideHustle.KeptKeysMembers | apps/admin-app/src/actions/side-hustle.ts:66-67 | The kept keys are exactly the entry keys other than `resourceId`. |
| SideHustle.ClausesInOrder | apps/admin-app/src/actions/side-hustle.ts:68-79 | There is one `#k = :k` clause per kept key, in entry order. |
| SideHustle.NamesOfMembers | apps/admin-app/src/actions/side-hustle.ts:70 | `#k` is mapped, to `k`, exactly for the kept keys. |
| SideHustle.ValuesOfMembers | apps/admin-app/src/actions/side-hustle.ts:66-71 | The `forEach` maps `:k` exactly for the kept keys. |
| SideHustle.CommandValuesMembers | apps/admin-app/src/actions/side-hustle.ts:69-83 | The command's values map `:k` exactly for the kept keys and for `lastModified`. `:lastModified` always holds the fresh date. |
| SideHustle.ValuesOfEntry | apps/admin-app/src/actions/side-hustle.ts:69 | With distinct keys, `:k` maps to the value of the entry for `k`. |
| SideHustle.ResourceIdNeverSet | apps/admin-app/src/actions/side-hustle.ts:67 | `resourceId` gets neither a name mapping nor a value mapping. |
| SideHustle.CallerLastModifiedReplaced | apps/admin-app/src/actions/side-hustle.ts:80-83 | A caller's `lastModified` value is overridden by the new date. |
| SideHustle.ResourceIdEntryIgnored | apps/admin-app/src/actions/side-hustle.ts:66-72 | A `resourceId` entry changes nothing in the command. |
| SideHustle.EmptyUpdateExpression | apps/admin-app/src/actions/side-hustle.ts:77-79 | With nothing to set, the expression is `"SET , lastModified = :lastModified"`. |
| SideHustle.SingleUpdateExpression | apps/admin-app/src/actions/side-hustle.ts:77-79 | One attribute gives one clause before the fixed one. |
| SideHustle.CommandDenotesAssignments | apps/admin-app/src/actions/side-hustle.ts:66-86 | The command denotes the assignments: each kept key gets the entry's value, and `lastModified` gets the date. |
| SideHustle.UpdateResource | apps/admin-app/src/actions/side-hustle.ts:57-95 | A command the store refuses (`StoreRejects`), or a send that throws, returns the fixed error and leaves the store unchanged. Otherwise the item under `(SK, PK)` is the old item, or a fresh one from the key, with the assignments applied, and that item is returned. |
| SideHustle.KeptKeysDistinct | apps/admin-app/src/actions/side-hustle.ts:66-67 | Entries with distinct keys give kept keys without a repeat. |
| SideHustle.StoreRejectsEntries | apps/admin-app/src/actions/side-hustle.ts:76-94 | For an object's entries, the store refuses the update exactly when every entry is `resourceId`, or some entry is `lastModified`, `PK` or `SK`. |
| S3Actions.GetS3ImageUrl | apps/admin-app/src/actions/s3Actions.ts:15-35 | The signer is asked for a `GetObject` of the literal key `"protected/" + picturePath + "/" + pictureName`, valid for 3600 seconds. Its URL is returned, or `"Failed to generate image URL"` when it fails. `S3Actions.ImageKeyOfCreatedPost` is its partner. |
| S3Actions.ImageKeyOfCreatedPost | apps/admin-app/src/actions/s3Actions.ts:19 | The picture of a post made by `createAdminPost` is signed under the key its upload wrote: `getS3ImageUrl` on it succeeds exactly when signing that key does, and returns that URL. |
| S3Actions.UploadIgnoresStatus | apps/admin-app/src/actions/s3Actions.ts:142-151 | Every HTTP status of the `PUT` gives the same URL. Only a throw is an error. |
| S3Actions.KeyAndUrlShareFileName | apps/admin-app/src/actions/s3Actions.ts:130-151 | The upload key and the returned URL end in the same file name. |
| S3Actions.KnowledgeFileNameReadBack | apps/admin-app/src/actions/s3Actions.ts:130 | The digits before the file name's first `'-'` are the timestamp, and the rest is the original name. |
| S3Actions.AddResource | apps/admin-app/src/actions/s3Actions.ts:45-72 | The record and outcome are the same as those of the side-hustle `addResource`. |
| S3Actions.BuildUpdate | apps/admin-app/src/actions/s3Actions.ts:93-117 | The command is the same as the side-hustle one. |
| S3Actions.UpdateResource | apps/admin-app/src/actions/s3Actions.ts:88-126 | The store effect and outcome are the same as those of the side-hustle `updateResource`, including the refused commands. |
| QueryParams.WithoutParamRemoves | apps/admin-app/src/components/SelectPost.tsx:70-71 | After `delete`, no pair has the name, and a pair is in the result exactly when it was in the input under another name. |
| QueryParams.WithoutParamAppend | apps/admin-app/src/components/SelectPost.tsx:70-71 | `delete` works pair by pair, in order. It distributes over concatenation, and it drops a single pair exactly when the pair has the name. So the other pairs keep their order and their multiplicity. |
| QueryParams.WithoutParamOtherValue | apps/admin-app/src/components/SelectUser.tsx:39 | `delete` does not change what any other name reads. |
| QueryParams.WithParamValue | apps/admin-app/src/components/SelectPost.tsx:62-67 | After `set`, exactly one pair has the name, and it reads as the value set. |
| QueryParams.WithParamOtherValue | apps/admin-app/src/components/SelectUser.tsx:36 | `set` does not change what any other name reads. |
| QueryParams.WithoutParamIdempotent | apps/admin-app/src/components/SelectUser.tsx:71 | Deleting twice is the same as deleting once. |
| QueryParams.WithoutParamCommutes | apps/admin-app/src/components/SelectPost.tsx:102-103 | Deletes of two names commute. |
| QueryParams.WithParamKeepsOthers | apps/admin-app/src/components/SelectUser.tsx:69 | All other pairs, in order, are the same after `set` as before. |
| QueryParams.WithoutParamOfWithParam | apps/admin-app/src/components/SelectPost.tsx:99-100 | A `set` of one name and a `delete` of another commute. |
| QueryParams.SearchParams.constructor | apps/admin-app/src/components/SelectPost.tsx:59 | `new URLSearchParams(searchParams)` copies the current pairs. |
| QueryParams.SearchParams.Set | apps/admin-app/src/components/SelectPost.tsx:62 | The pairs become the `set` of the old pairs. |
| QueryParams.SearchParams.Delete | apps/admin-app/src/components/SelectPost.tsx:70 | The pairs become the `delete` of the old pairs. |
| SelectPost.SelectPost.constructor | apps/admin-app/src/components/SelectPost.tsx:36-40 | The initial state: no options, no selection, search incomplete, page 1 of 1. |
| SelectPost.SelectPost.StartSearch | apps/admin-app/src/components/SelectPost.tsx:87-90 | A search starts exactly when the search term and the user id are both truthy. It marks the search incomplete and sends the request. Otherwise nothing changes. |
| SelectPost.SelectPost.FinishSearch | apps/admin-app/src/components/SelectPost.tsx:49-85 | An answer sets the pairs, selection, options, completion and page count from the spec functions. A throw only completes the search. Either way the parent is notified. |
| SelectPost.SelectPost.ApplyCount | apps/admin-app/src/components/SelectPost.tsx:61-75 | The `if` chain on the result's length and the `replace` give the spec functions' pairs and selection. |
| SelectPost.SelectPost.HandleRowClick | apps/admin-app/src/components/SelectPost.tsx:93-106 | The clicked id becomes the selection. Both parameters are set for a truthy id and deleted otherwise. |
| SelectPost.SelectPost.HandlePageChange | apps/admin-app/src/components/SelectPost.tsx:108-110 | Only the current page changes. |
| SelectPost.NoResultsWriteNull | apps/admin-app/src/components/SelectPost.tsx:61-64 | No posts: both parameters read as the string `"null"`, and nothing is selected. |
| SelectPost.OneResultSelectsUserId | apps/admin-app/src/components/SelectPost.tsx:65-68 | One post: the `eventId` parameter and the selection are the post's `userId`, and `eventType` is `post_detail`. |
| SelectPost.SeveralResultsClear | apps/admin-app/src/components/SelectPost.tsx:69-73 | Several posts: both parameters are removed, and nothing is selected. |
| SelectPost.UndefinedResultChangesNothing | apps/admin-app/src/components/SelectPost.tsx:61-78 | An `undefined` answer keeps the pairs and the selection. Its page count is NaN, which hides the pager. |
| SelectPost.SearchKeepsOtherParams | apps/admin-app/src/components/SelectPost.tsx:59-75 | Whatever comes back, every other pair is kept, in order. |
| SelectPost.PageCountIsCeiling | apps/admin-app/src/components/SelectPost.tsx:41 | The page count is the number of posts divided by two, rounded up. See also line 78. |
| SelectPost.PagerIffMoreThanOnePage | apps/admin-app/src/components/SelectPost.tsx:183 | The pager appears exactly when more than two posts came back. |
| SelectPost.RowClickParams | apps/admin-app/src/components/SelectPost.tsx:97-104 | A row with an id sets both parameters. A row without one removes both. Other pairs are kept. |
| SelectPost.ViewAfterSearch | apps/admin-app/src/components/SelectPost.tsx:114-183 | A finished search renders the no-posts message exactly when nothing came back. Otherwise it renders every row, whatever the page, and the pager only for more than one page. |
| SelectPost.NothingWhileSearching | apps/admin-app/src/components/SelectPost.tsx:88 | Between a started search and its answer, nothing is rendered. See also line 114. |
| UserBasicInfo.ToUpper | apps/admin-app/src/components/userBasicInfo.tsx:14-16 | Upper-casing keeps the length and maps each character. |
| UserBasicInfo.InitialsShape | apps/admin-app/src/components/userBasicInfo.tsx:14-16 | There is one initial per non-empty name, so at most two. Each initial is the upper-cased first character of its name, and none is a lower-case ASCII letter. |
| UserBasicInfo.InitialsDependOnFirstChars | apps/admin-app/src/components/userBasicInfo.tsx:14-16 | Names with the same first characters give the same initials. |
| UserBasicInfo.AvatarChoice | apps/admin-app/src/components/userBasicInfo.tsx:11 | A null profile renders nothing. Otherwise the initials are shown exactly when the preview is falsy, and the picture otherwise. See also lines 23-41. |
| UserBasicInfo.MissingNamePrintsUndefined | apps/admin-app/src/components/userBasicInfo.tsx:45 | A missing given name is printed as the word `undefined`. |
| SelectUser.FindUser | apps/admin-app/src/components/SelectUser.tsx:89 | `find` returns the first listed user with the id: no earlier user has it. It returns nothing exactly when no listed user has the id. See also line 126. |
| SelectUser.SelectUser.constructor | apps/admin-app/src/components/SelectUser.tsx:20-22 | The initial state: no options, no selection, loading. |
| SelectUser.SelectUser.StartSearch | apps/admin-app/src/components/SelectUser.tsx:28-53 | Every search term, even an empty one, starts loading and sends the request. |
| SelectUser.SelectUser.FinishSearch | apps/admin-app/src/components/SelectUser.tsx:31-49 | An answer sets the pairs and the selection from the spec functions, and the options to the array or `[]`. A throw changes neither. Loading ends either way. |
| SelectUser.SelectUser.HandleChange | apps/admin-app/src/components/SelectUser.tsx:60-74 | The option's value, or null, becomes the selection. `userId` is set for a truthy value and deleted otherwise. |
| SelectUser.OneMatchSelects | apps/admin-app/src/components/SelectUser.tsx:35-37 | A single match sets the parameter and the selection to its id. |
| SelectUser.OtherCountsClear | apps/admin-app/src/components/SelectUser.tsx:38-41 | Any other answer removes the parameter and clears the selection. |
| SelectUser.SearchKeepsOtherParams | apps/admin-app/src/components/SelectUser.tsx:33-43 | A search keeps every other pair, in order. |
| SelectUser.ChangeParams | apps/admin-app/src/components/SelectUser.tsx:67-73 | Picking an option sets the parameter to its value, and clearing removes it. Nothing else changes. |
| SelectUser.DisabledAfterSearch | apps/admin-app/src/components/SelectUser.tsx:44 | After an answer, the picker is disabled exactly when no user came back. See also line 94. |
| SelectUser.DetailCardOnlyForListedUser | apps/admin-app/src/components/SelectUser.tsx:125-128 | The card shows a user exactly when one is selected, the card is enabled and the user is listed. The card shows that user. |
| SelectUser.SingleMatchShowsCard | apps/admin-app/src/components/SelectUser.tsx:35-37 | After a single match, the card shows that user. See also lines 125-128. |
| MultiSelect.Without | apps/admin-app/src/components/ui/multi-select.tsx:44-67 | The filter never lengthens the selection. |
| MultiSelect.WithoutMembers | apps/admin-app/src/components/ui/multi-select.tsx:44-67 | The filter drops exactly the entries with the id. |
| MultiSelect.WithoutHas | apps/admin-app/src/components/ui/multi-select.tsx:44-67 | After the filter the id is absent. Any other id is present exactly when it was before. |
| MultiSelect.WithoutAbsent | apps/admin-app/src/components/ui/multi-select.tsx:67 | Filtering out an absent id changes nothing. |
| MultiSelect.ToggleAbsentAppends | apps/admin-app/src/components/ui/multi-select.tsx:66-68 | An absent tag is appended at the end. |
| MultiSelect.TogglePresentRemovesAll | apps/admin-app/src/components/ui/multi-select.tsx:66-67 | A present tag is removed, every copy of it. |
| MultiSelect.ToggleFlipsOnlyThatTag | apps/admin-app/src/components/ui/multi-select.tsx:64-78 | A toggle flips whether the id is selected, and so flips its check mark. Every other entry stays as it was, in order. |
| MultiSelect.ToggleTwiceRestores | apps/admin-app/src/components/ui/multi-select.tsx:64-69 | Toggling an absent tag twice restores the selection. |
| MultiSelect.EditsKeepDistinct | apps/admin-app/src/components/ui/multi-select.tsx:44-69 | Toggles and badge removals keep the ids distinct. |
| MultiSelect.BadgeRemovesOnlyItsTag | apps/admin-app/src/components/ui/multi-select.tsx:42-45 | A badge click removes that id and only that id. |
| MultiSelect.DefaultTagsDistinct | apps/admin-app/src/components/ui/multi-select.tsx:61 | The seven menu tags have distinct ids. The list is `DEFAULT_TAGS` of `apps/admin-app/src/app/(auth)/side-hustle/knowledge.types.ts`, lines 82-90. |
| Middleware.HostedUiAllowsFirst | apps/admin-app/src/middleware.ts:17-26 | A referer from the hosted sign-in page lets the request through, whatever its cookies and session. |
| Middleware.MarkedNameSubsumesExactNames | apps/admin-app/src/middleware.ts:30-41 | The cookie check holds exactly when some cookie name contains the Cognito marker. |
| Middleware.CookieValuesIgnored | apps/admin-app/src/middleware.ts:29-41 | Cookie values are never read. Requests whose cookie names agree are decided alike. |
| Middleware.LookupOnlyWhenNeeded | apps/admin-app/src/middleware.ts:21-49 | When a shortcut applies, the request passes whatever the session lookup would give. |
| Middleware.LookupDecides | apps/admin-app/src/middleware.ts:53-68 | Otherwise the request passes exactly when the lookup yields a non-empty user id, and is redirected to `/login?origin=<path>` if not. |
| Middleware.ErrorRedirects | apps/admin-app/src/middleware.ts:69-72 | A thrown lookup redirects to login. |
| Middleware.QueryStringDropped | apps/admin-app/src/middleware.ts:9-10 | The query string does not affect the answer, and the origin is the path alone. See also line 68. |
| Middleware.UnmatchedPathsPass | apps/admin-app/src/middleware.ts:89-95 | Requests for `/knowledge` and `/login` are never checked. |
| Middleware.MatchedPathsChecked | apps/admin-app/src/middleware.ts:89-95 | Each of the five matched paths is checked. |
| ClearAuth.StripLeadingSpacesShape | apps/admin-app/src/utils/clearAuth.ts:10 | Only a prefix of spaces is removed, and the rest does not start with a space. |
| ClearAuth.SpacesStripped | apps/admin-app/src/utils/clearAuth.ts:10 | Any run of spaces before a fragment is dropped. |
| ClearAuth.TabKept | apps/admin-app/src/utils/clearAuth.ts:10 | A leading tab is kept. |
| ClearAuth.LineEnd | apps/admin-app/src/utils/clearAuth.ts:11 | `.*` stops at the first line terminator, or at the end. |
| ClearAuth.NoEqualsUnchanged | apps/admin-app/src/utils/clearAuth.ts:11 | A fragment without `'='` is written back without an expiry. |
| ClearAuth.NameKeptValueExpired | apps/admin-app/src/utils/clearAuth.ts:9-11 | A one-line `name=value` keeps its name and gets `=;expires=<date>;path=/` in place of the value. |
| ClearAuth.LineBreakSurvives | apps/admin-app/src/utils/clearAuth.ts:11 | Whatever follows a line break in the value survives the rewrite. |
| ClearAuth.Assignments | apps/admin-app/src/utils/clearAuth.ts:8-12 | There is one assignment per fragment. |
| ClearAuth.AssignmentAt | apps/admin-app/src/utils/clearAuth.ts:8-12 | The i-th assignment rewrites the i-th fragment with the clock's i-th reading. |
| ClearAuth.OneAssignmentPerFragment | apps/admin-app/src/utils/clearAuth.ts:8 | There is one more assignment than there are `';'`s in the cookie string. |
| ClearAuth.EmptyCookieOneAssignment | apps/admin-app/src/utils/clearAuth.ts:8-12 | An empty cookie string still assigns the empty string once. |
| ClearAuth.Browser.ClearAuthState | apps/admin-app/src/utils/clearAuth.ts:3-22 | Local storage is emptied. The effects are the clear, the assignments of every fragment in order, and the sign-out call. A caught sign-out error changes nothing else. |
| ClearAuth.Browser.AssignCookies | apps/admin-app/src/utils/clearAuth.ts:8-12 | The `forEach` appends the assignments, in order, and changes nothing else. |

## Left out

- The AWS SDK, the Amplify client and the lambda invocation are foreign.
  - Each command becomes a `Store` method.
  - A thrown error becomes a fault flag or an outcome parameter, with one exception below.
  - What a lambda or a signer answers becomes a parameter.
- Concurrency is not modelled.
  - `Promise.all` over the two uploads is modelled as two sequential, independent attempts.
  - The fire-and-forget feed update is recorded as a hand-off; its execution is modelled separately by `UpdateAllUsersFeed.Run`.
  - The React effects are modelled as a start step and a finish step. A later search overtaking an earlier one is not modelled.
- Image processing is reduced to the requested widths. `sharp` resizing and the base64 encoding are opaque.
- `console` output, `revalidatePath` and the `new Date()`, `Date.now()` and `randomUUID()` readings are not modelled. The readings are parameters.
- URL serialisation is not modelled.
  - The model keeps the query pairs. `replace` assigns them, and `toString` and the path are left out.
  - Cookie-jar updates on `document.cookie` assignment are left out. The model records the strings assigned.
- The Next.js route matcher is modelled as exact string equality on the five listed paths.
- `Middleware`: `fetchUserFromServer` and its session lookup are not part of this model. Their answer is a parameter.
- `ClearAuth.Browser.ClearAuthState`: `signOut` is modelled as one effect, `SignOutCalled`. It is followed by the signed-in flag being cleared when the call does not throw.
- `UserBasicInfo.ToUpper`: upper-cases ASCII letters only. Full Unicode case mapping, such as `'ß'` to `"SS"`, is not modelled. The rendered avatar sizes and class names are left out.
- Table rendering details are not modelled: images, dates formatted with `toLocaleDateString`, and the pager's buttons. `SelectPost` keeps the pager's visibility and the rows that are rendered.
- `getResources` and the other read-only actions are thin wrappers over a query and are left out.
- `UpdateAllUsersFeed.Run`: a throwing `ScanCommand` is not modelled. The fault parameter numbers batch writes only, so a run that stops at a later scan after some batches were written is not represented.
- `SideHustle.StoreRejects`: the store's other checks on an update expression are not modelled. These are the placeholder syntax that `#k` and `:k` must follow for an arbitrary key, and the attribute-name rules. `StoreRejects` covers the cases that follow from the code's own shape: no kept key, an assignment to `lastModified`, `PK` or `SK`, and one key assigned twice.
- `MultiSelect.DefaultTagsDistinct`: `multi-select.tsx` imports `DEFAULT_TAGS` from `apps/admin-app/src/app/(auth)/knowledge/knowledge.types`, which is not part of this model. The list modelled is the copy in `apps/admin-app/src/app/(auth)/side-hustle/knowledge.types.ts`.
- Strings are sequences of Unicode scalar values, whereas JavaScript indexes UTF-16 code units.
  - `UserBasicInfo.FirstChar`: `name?.[0]` of a name that starts outside the Basic Multilingual Plane is a lone surrogate in JavaScript. The model takes the whole character.
  - Lengths and indices of such strings elsewhere in the model count characters, not code units.
- Floating point is not modelled. Counters and timestamps are unbounded integers, and `Math.ceil` of the posts' count over 2 is exact.
  - `HubPage.OrderKey`: the page's `parseInt` returns a double, so digit runs longer than about 16 digits round. Two different large indices can then compare equal and keep their input order. The model's key is an exact integer, so the model's order separates them.

## Behaviour as written

The model follows the code where the surrounding names or comments suggest a different intent. Several lemmas pin these behaviours down.

- `SelectPost.OneResultSelectsUserId`: a single post selects the post's `userId` as `eventId`, not its `eventId`.
- `SelectPost.NoResultsWriteNull`: no posts writes the literal string `"null"` into both parameters.
- `SelectPost.UndefinedResultChangesNothing`: an `undefined` answer keeps the old parameters. It yields a NaN page count, modelled as `None`.
- `SelectPost.ViewAfterSearch`: every row is rendered regardless of the current page.
  - The page is also never sent to the lambda. `searchEvent` receives `currentPage` as its `limit` and drops the fifth argument.
- `SelectUser.SelectUser.StartSearch`: the user search runs on every search term, including the empty one.
- `UserBasicInfo.MissingNamePrintsUndefined`: a missing name renders as `undefined`.
- `Middleware.MarkedNameSubsumesExactNames`: the two exact cookie names are redundant.
- `Middleware.UnmatchedPathsPass`: `/knowledge` is not protected.
- `ClearAuth.LineBreakSurvives`: `.*` stops at a line break in a cookie value. `ClearAuth.TabKept`: only spaces are stripped.
- `PublishAdminPost.PostStaysPublished`: the post is marked published before the ownership check, so a rejected caller still changes it.
- `PublishAdminPost.EmptyPicturesThrowAfterChat`: an empty `pictures` array throws after the chat was written.
- `CreateAdminPost.LowResNeverReferenced`: the low-resolution upload is never referenced.
- `UpdateAllUsersFeed.ScansUseWrittenFilter`: the feed scan filters on `"basic_profile"`, while profiles are read under `"profile_basic"`.
- `UpdateAllUsersFeed.FailureTruncates`: a failing batch stops the whole fan-out.
- `HubPage.TrailingJunkIgnored`, `HubPage.HexPrefixReadsHex`, `HubPage.MinusSignNegates`: the page's `parseInt`-based sort accepts hexadecimal, negative and junk-suffixed indices.
- `ObjectUtils.ExampleMalformedDropped`: `ObjectUtils` drops such entries instead.
- `GraphqlUtils.BlankGroupGivesEmptyField`: a blank field group yields `[""]`.
- `SideHustle.EmptyUpdateExpression`: an empty update yields the malformed expression `"SET , lastModified = :lastModified"`. The store refuses it, so `updateResource` reports failure (`SideHustle.StoreRejectsEntries`). A caller's `lastModified`, `PK` or `SK` entry is refused too.
