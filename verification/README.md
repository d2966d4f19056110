# A model of the S3-to-IPFS bridge

The bridge answers a part of the S3 protocol. It stores every object's bytes in an IPFS node, which
pins the content and shows it in a mutable file tree, and keeps one row per object in an SQLite
table. Nothing is counted incrementally: whether content may be unpinned, and whether a directory
may be removed, is asked of the table every time. This project models that store, the aws-chunked
decoder, the Signature Version 4 canonicalisers and multipart uploads, and proves what they promise.

How the modules fit together:

- `Splitting`, `Paths`, `SqlLike`, `ByteOrder`: cutting strings at separators, keys as paths,
  SQLite's LIKE with its backtracking matcher, sorting by bytes.
- `IpfsNode`, `Database`, `Slots`: the node, the table and the bounded slot map. Each is a class
  whose methods change its fields, specified by functions on values.
- `Bridge`: one request or one spawned task as one step on values, with every backend answer an
  argument. `Server` is the object with the handlers, and every handler is proved to take the model
  from its old state to the one that `Bridge` prescribes.
- `Pins`, `S3Refinement`, `Tree`, `Mirror`, `DeleteMany`, `Multipart`: properties of all runs.
  `NormalKeys` says what trims do for keys in normal form.
- `TreeLimits`: where the file tree sets limits, each reached from the empty bridge without a failure.
- `AwaitSteps`, `AwaitLeaks`, `AwaitTree`: every `.await` as a step of its own, any number of requests
  interleaved; what stays pinned, what is forgotten, and what keeps its file.
- `Chunked`, `ChunkReader`: the chunk decoder on a whole body, and on a buffered reader over frames.
- `Canonical`, `SigningOrder`: the canonical query string and the canonical headers; `QuerySpelling` and
  `HeaderLines` say what they consist of, byte by byte.

## What turned out

- *Interleavings.* A row's content stays pinned in every interleaving, under any failures, as long as
  the time between adding a content and storing its row never overlaps the time between counting no
  rows for that content and unpinning it. This hypothesis is needed: from every reachable overlap, the
  requests involved store a row without a pin in at most three more steps, and a collection of
  unpinned blocks then takes the object, unless the put is bound to fail at the file tree. Put,
  delete and put again of one body under one key reaches it.
- *Lost updates.* A move forgets a pin in two ways only. A request ends although its content is pinned
  and nobody names it; or it replaces or removes the last row of a content other than the one it read.
  So two puts of different bodies under one key that both read before either stores leave the first
  body pinned, unless the row they read, another row or another request names that body too. The pin
  stays until the same body is stored and removed again.
- *Linked files.* Between linking a file and storing its row no query sees an object. A delete or a trim
  that unlinks in that time leaves the object live without its file. If none is after the file then, and
  no delete stops half-way, interleaved requests on compatible keys leave each live object its file until
  a delete is about to remove its row.
- *Trims and paths.* A trim walks the ancestors of a key as text and removes what they resolve to. It
  reaches a live object exactly if the topmost ancestor under which the query finds nothing resolves to
  the object's file or above. Among keys in normal form that are not on each other's path this never
  happens, whatever characters they hold. It does happen outside of normal form: deleting `n/../a`
  while `n/y` is live removes the bucket's own directory, and deleting the plain key `a/b` while
  `./a/x` is live removes the directory `a` that holds it.
- *Late trims.* A trim that is still pending when its key is put again removes the live file from the
  tree if nothing is found under the key: the query starts at the key itself, as `ancestors()` includes
  the path it is called on. If something is found under it the trim does nothing.
- *Undeletable objects.* A delete of an object whose path is missing from the tree stops at the unlink
  and leaves everything as it is, however often it is tried, until something is put at that path or
  below. Besides trims, these lead there too: a delete that unlinks, or whose unlink takes effect
  without an answer, and then fails before it removes the row; the delete of another key that resolves
  to the same path, as `a//b` and `a/b` do; and the delete of an object that has lost its file and whose
  path has since become a directory, which takes all files below.
- *Wildcards.* `_` and `%` in a key can keep an empty directory in place: exactly if the directory's
  name, read as a pattern, matches a live key that is not below it.
- *Keys on each other's path.* The content is pinned before it is linked, so a put that cannot be
  linked leaves a pin that nothing accounts for, unless a row or a pending check names the content.
- *Chunk sizes.* A body cut inside a size line ends silently as if complete exactly if the piece that
  arrived, without its last byte, reads as zero. Such a cut exists exactly if some size line has a
  leading zero that is not its last digit. A buffer above 2^63 - 1 bytes cannot be allocated, so the round trip holds up to there and
  not for every size that 64 bits can name.
- *Part numbers.* A part number outside a signed byte is not refused: the request is read as a plain
  put of the whole object. S3 allows numbers up to 10000.
- *Signing order.* The bridge sorts `name=value` strings where the standard sorts by name and then by
  value. The two agree exactly if no encoded name is continued in another by a byte below `=`.
- *Delete errors.* A delete that answers with an error leaves the object alone, except when only the
  orphan check failed: then the object is gone.

## Model

| member | source | states |
|---|---|---|
| AwaitSteps.PinSafety | src/s3/put_object.rs:52-124 | after every interleaving of puts, deletes, orphan checks, trims and collections, with any backend answers, every row's content is pinned, present, unchanged and of the recorded size, provided that in no earlier state the add-to-store window of a content overlapped its count-to-unpin window |
| AwaitSteps.ApplyKeepsInv | src/s3/mod.rs:39-65 | one move keeps: rows pinned, contents awaiting their row pinned, contents about to be unpinned named by no row |
| AwaitSteps.OverlapIsFatal | src/s3/put_object.rs:80-110 | from any state with overlapping windows, at most three healthy moves of the two processes and one collection leave a row whose GET finds no content, unless the put cannot be linked |
| AwaitSteps.RaceReachesOverlap | src/s3/delete_object.rs:66-76 | for every accepted key and every body, put, delete and half a put reach an overlap from the empty bridge without any failure |
| AwaitSteps.RaceLosesTheObject | src/s3/put_object.rs:52-124 | for every accepted key and every body there is a failure-free history after which the object's row is stored, its pin is gone, and after a collection GET finds no content |
| AwaitLeaks.MoveForgetsIff | src/s3/put_object.rs:80-124 | from any state in which every pin is named by a row or looked after by a process, for every move and every answer of the backends: a pin is forgotten exactly if the process gives up with its content pinned and unnamed, or replaces or removes the last row of a pinned content that it does not remember, and in either case nobody else looks after the content |
| AwaitLeaks.PlayForgetsIff | src/s3/delete_object.rs:42-76 | an interleaving from the empty bridge forgets no pin at any point exactly if each of its moves avoids that |
| AwaitLeaks.SettledPins | src/s3/mod.rs:43-62 | when such an interleaving has settled, the pins are rows' contents, and exactly those if the windows of `PinSafety` stayed apart too |
| AwaitLeaks.OrderlyForgetsNoPin | src/s3/put_object.rs:54-124 | it is enough that nothing fails, that no content is left behind by a refused link, and that no two requests are between reading and replacing or removing the row of one key |
| AwaitLeaks.LostUpdateForgetsAPin | src/s3/put_object.rs:54-124 | for every accepted key and two different bodies, two healthy puts on an empty bridge that both read before either stores leave the first body pinned with no row and no process that looks after it |
| AwaitTree.LiveObjectsKeepTheirFiles | src/s3/delete_object.rs:66-106 | in every interleaving of puts, deletes and trims of pairwise compatible keys in which no process is after a file that is linked but whose row is not stored, and no delete stops half-way, each live object has its file or a delete of it removes its row next; anything else may fail |
| AwaitTree.ApplyKeepsHeld | src/database.rs:184-212 | one such move keeps that, and keeps live objects out of reach of every trim query under way |
| AwaitTree.RiskStrands | src/s3/put_object.rs:80-97 | from any state in which a process unlinks next at or above a file that is linked but not stored, at most three healthy moves leave the object live and without its file |
| AwaitTree.PutAndDeleteStrand | src/s3/delete_object.rs:42-76 | for every accepted key a put, and then a delete and a put of that key at once, reach it from the empty bridge without a failure |
| AwaitSteps.UndisturbedPut | src/s3/put_object.rs:54-124 | the four awaits of a put with nothing in between give the table, node and spawned orphan check of the one-step put, for all failures |
| AwaitSteps.UndisturbedDelete | src/s3/delete_object.rs:42-107 | all awaits of a delete with nothing in between, orphan check included, give table and node of the one-step delete, and the process goes on to look for a directory from the deleted key upwards exactly if the delete answers 204 and trimming is configured, which is exactly when the one-step delete leaves that trim behind |
| AwaitSteps.UndisturbedTrim | src/s3/delete_object.rs:91-101 | the queries of a trim one at a time, with a failure at any of them, reach the removal that the one-step query schedules, or none |
| S3Refinement.GetIsLastPut | src/s3/get_object.rs:75-95 | after every run of requests, tasks, failures and collections, GET of any key returns the body and size of the last successful put or completion of that key not deleted since, and as content type the one the client sent, else the guess if guessing is on, else `application/octet-stream`; otherwise it reports that there is none |
| S3Refinement.PutAnswers | src/s3/put_object.rs:52-137 | under any faults: 200 exactly if every call succeeds and the path can be linked, 400 exactly for a key that is refused, else 500; before the first call to the node nothing is changed |
| S3Refinement.DeleteAnswers | src/s3/delete_object.rs:41-118 | under any faults: 404 exactly for a key that is not live, 204 exactly if every step succeeds, where the unpin is not needed if another row names the content, else 500 |
| S3Refinement.RemoveEffect | src/s3/delete_object.rs:41-76 | a successful delete removes exactly its row; an error leaves the table alone unless every step up to the row removal went well and the orphan check failed |
| Pins.RunIsPinSafe | src/s3/mod.rs:39-65 | in every run, whatever fails, each row's content is pinned, its block is intact and its size is right |
| Pins.StepKeepsPins | src/s3/put_object.rs:80-124 | every single step keeps that, orphan checks and collections included |
| Pins.HealthyPutLeaksIff | src/s3/put_object.rs:72-124 | a healthy put leaves no unaccounted pin exactly if its key is refused, its path can be linked, or a row or a pending check names its content; for all keys |
| Pins.StepLeaksIff | src/s3/mod.rs:43-62 | of all healthy events, only a put or completion that fails this condition leaves an unaccounted pin, and each one that fails it does |
| Pins.CleanRunLeaksNothing | src/s3/mod.rs:43-62 | in healthy runs whose puts and completions meet this condition every pin is named by a row or a pending check; with no check pending the pins are exactly the rows' contents |
| Pins.ChecksRunOut | src/s3/put_object.rs:112-124 | after every such run the pending checks can be run until none is left, and then the pins are exactly the rows' contents |
| Pins.OrphanTaskClears | src/s3/mod.rs:43-62 | a pending check is used up whatever fails; if nothing fails it unpins its content unless a row names it, and nothing else |
| Tree.TargetIff | src/s3/delete_object.rs:91-101 | for every table and all keys: a trim sets out to remove a path or something above it exactly if the topmost ancestor of its key under which nothing is found is accepted and resolves there |
| Tree.CarefulRunIsAnchored | src/s3/delete_object.rs:41-107 | in every run whose puts name keys compatible with the live and pending ones and whose deletes do not stop half-way, with any other failures, all live objects are in the tree, stay compatible, and no pending trim is after one of them; for all accepted keys |
| Tree.CarefulRunStrandsNothing | src/s3/delete_object.rs:66-107 | so in such runs each live object's file exists and a healthy delete of it succeeds |
| Tree.TrimKeepsAnchored | src/s3/delete_object.rs:87-106 | for all accepted keys: a trim in either phase with any failures leaves every row and every live file as it was, and its answer threatens no live object either |
| Tree.FoundDirectoryIsSafe | src/database.rs:184-212 | if every ancestor of the deleted key that resolves to a live file or above counts that object, then so long as the object is live the query never answers a directory holding it |
| Tree.LooksEmptyIsSafe | src/database.rs:188-206 | a count of zero for any name means no live key lies literally below it, wildcards included |
| Tree.DeleteKeepsAnchoredIff | src/s3/delete_object.rs:66-76 | a delete under any faults keeps all live objects in the tree exactly if it does not stop between unlinking a live file and removing its row |
| Tree.DeletableIff | src/s3/delete_object.rs:66-76 | a healthy delete of a live accepted key answers 204 if its path is in the tree, as a file or a directory, and otherwise 500 without effect |
| Tree.UndeletableIff | src/s3/delete_object.rs:66-74 | stopping there is also exactly what makes the next healthy delete of the key answer 500 without effect |
| Tree.StaysUndeletable | src/s3/delete_object.rs:66-76 | whatever events follow and whatever fails, an object whose path is missing stays live and every healthy delete of it answers 500 without effect, until something is put at its path or below |
| Tree.DeleteKeepsAnchored | src/s3/delete_object.rs:41-107 | a healthy delete succeeds if and only if the key is live, removes exactly that row, and keeps every other live file; for all accepted keys |
| Tree.StoreKeepsAnchored | src/s3/put_object.rs:80-110 | a put of a key compatible with all live and pending ones keeps live objects in the tree and out of reach of trims, whatever fails; for all accepted keys |
| NormalKeys.AnswerPath | src/database.rs:184-212 | for a normal key the target is the bucket followed by the shortest run of components under which nothing is found; all longer runs look empty, all shorter ones do not |
| NormalKeys.NormalCompatibleIff | src/database.rs:184-212 | normal keys are compatible exactly if neither is on the other's path |
| NormalKeys.StrandsIff | src/s3/delete_object.rs:91-101 | with normal buckets and any keys: a trim's target takes a live object's file exactly if both share the bucket and the topmost empty ancestor resolves to a prefix of the live key's components |
| NormalKeys.NormalStrandsIff | src/s3/delete_object.rs:91-101 | for normal keys: exactly if the live key is on the deleted key's path and no live key of the bucket matches its pattern |
| NormalKeys.ClearsIff | src/database.rs:184-212 | a trim for a normal key targets the directory of a component prefix, or one above it, exactly if no live key of the bucket matches that directory's pattern |
| Database.EarlyExitIsExact | src/database.rs:184-210 | leaving the ancestor loop at the first hit answers what testing every ancestor and taking the shallowest empty one answers, for arbitrary paths and tables |
| Database.WalkFailsIff | src/database.rs:184-203 | a failing query costs the answer exactly if it is one of those made: one for each ancestor up to the first that is not empty |
| Database.LooksEmptyMeans | src/database.rs:188-206 | the count over the matcher is zero exactly if no key of the bucket satisfies LIKE for the directory's pattern |
| Database.MetadataDb.FindShallowestRemovableDirectory | src/database.rs:174-213 | the loop answers the shallowest empty ancestor whenever it answers, and answers whenever no query fails |
| Database.AnswerIff | src/database.rs:184-212 | for every path and table: an ancestor is the answer exactly if nothing is found under it and something is found one level up, or there is no level up |
| Database.AnswerAboveIff | src/database.rs:184-212 | for every path and table: an ancestor looks empty exactly if it or something above it is the answer |
| Database.MetadataDb.CidCount | src/database.rs:162-170 | the number of keys whose row names the content; it is zero exactly if none does |
| SqlLike.CompareDecidesLike | src/database.rs:191-194 | the backtracking matcher with its early termination decides the declarative meaning of LIKE, and its strongest verdict rules out all suffixes |
| SqlLike.PlainMatchesCasings | src/database.rs:191-194 | a pattern without wildcards matches exactly the texts that agree with it character by character, ASCII letters in either case |
| Database.PlainLooksEmptyIff | src/database.rs:188-206 | a name without wildcards looks empty exactly if no live key of the bucket lies below it under any ASCII casing of the name |
| SqlLike.LiteralMatchesBelow | src/database.rs:188 | for names without wildcards and ASCII capitals the pattern means lying below the directory, in both directions |
| Mirror.TreeMirrorsTable | src/s3/delete_object.rs:81-107 | after every tidy run the files are exactly the images of the rows with their identifiers, and in a bucket with no pending trim every directory below the bucket holds a live object |
| Mirror.StepMirrors | src/database.rs:174-213 | every tidy step keeps files equal to rows and every directory accounted for by a live object or a pending trim, and never answers with a server error |
| Mirror.QueryAccounts | src/database.rs:184-212 | each directory on the way to a deleted literal key holds a live object or lies in the directory the query answers |
| Mirror.TidyRunIsClean | src/s3/put_object.rs:83-124 | in tidy runs every put can be linked, so the pins are accounted for as well |
| TreeLimits.KeyOnAPathLeaks | src/ipfs.rs:66-83 | two accepted keys whose paths are prefixes of one another, in either order and including keys that resolve to the bucket itself, leave an unaccounted pin |
| TreeLimits.StrandedIff | src/s3/delete_object.rs:87-106 | for any two accepted keys not on each other's path: put both, delete one, let its trim run; the other loses its file exactly if the deleted key's topmost ancestor that does not count it resolves at or above its file, and it is undeletable then |
| TreeLimits.LateQuery | src/database.rs:184-212 | for every table: a trim of a key that is live again targets exactly that object's file if nothing is found under the key, and nothing otherwise |
| TreeLimits.LateTrimStrands | src/s3/delete_object.rs:87-106 | for every accepted key there is a healthy history of put, delete, put and the late trim after which the live file is gone and a delete answers 500 without effect |
| TreeLimits.PutBelowStrandsIt | src/s3/delete_object.rs:66-76 | that history goes on, for every key below: putting it makes the stranded key deletable, and that delete takes the new file and strands the new key |
| TreeLimits.DeleteTakesFileIff | src/s3/delete_object.rs:66-69 | a healthy delete of a key whose path is in the tree, as a file or a directory, takes the file of another live object exactly if its key resolves to the same path or above |
| TreeLimits.AliasStrands | src/s3/delete_object.rs:66-69 | for any two accepted keys with one path: put both and delete one, and the other is live, without its file and undeletable |
| TreeLimits.DotDotTrimsTheBucketIff | src/s3/delete_object.rs:91-101 | for every table, a trim after `n/../a` targets the bucket's own directory exactly if something is found under `n` and nothing under `n/..` |
| TreeLimits.DotDotStrands | src/s3/delete_object.rs:87-106 | from the empty bridge, storing `n/y` and `n/../a` and deleting the latter ends with nothing of the bucket in the tree and `n/y` undeletable |
| TreeLimits.LeadingDotStrands | src/s3/delete_object.rs:87-106 | from the empty bridge, storing `./a/x` and `a/b` and deleting the latter ends with `./a/x` live, without its file and undeletable |
| TreeLimits.EmptyDirectoryStaysIff | src/database.rs:188 | for any two normal keys not on each other's path: after both are put, one is deleted and its trim has run, an empty directory stays exactly if its pattern matches the live key although the live key is not below it |
| TreeLimits.WildcardKeepsDirectory | src/database.rs:188 | a directory whose name read as a pattern matches the name of the live key's directory stays in the tree, empty, with no trim pending |
| DeleteMany.DeleteObjectsOutcome | src/s3/post_bucket.rs:148-169 | on a healthy node, for compatible accepted keys and with trims of earlier entries anywhere in between, `deleted` is the first occurrences of the keys live at the start, `error` is all else, both in request order, together they are the request, and the rows lose exactly the deleted keys |
| DeleteMany.DeleteObjectsAfterRun | src/s3/post_bucket.rs:148-169 | the same after every careful run from the empty bridge |
| DeleteMany.DeletedOnce | src/s3/post_bucket.rs:165-168 | a key is deleted exactly if it was requested and live, and no key is reported deleted twice |
| DeleteMany.ListsTellTheTruth | src/s3/post_bucket.rs:148-169 | under any faults and any trims: a key reported deleted was live at the start and is gone, none is reported twice, and no row but those of requested keys is touched |
| DeleteMany.TurnLists | src/s3/post_bucket.rs:165-168 | an entry is listed as deleted exactly if its delete answers 204 and as an error otherwise |
| DeleteMany.PartitionIsComplete | src/s3/post_bucket.rs:150-169 | every requested entry lands in exactly one of the two lists |
| Multipart.CompleteIsOnePut | src/s3/post_object.rs:56-74 | in every run, completing an open session is one plain put without content type of each part's latest accepted body in ascending part order, and the session is gone even if that put fails |
| Multipart.SessionHoldsLastParts | src/s3/put_object.rs:41-50 | what a session holds for a part is the last body accepted for it since its creation, as read off the history |
| Multipart.UsedAtMostOnce | src/s3/post_object.rs:58 | a session is ended at most as often as it was granted, one less while it is open |
| Multipart.EndedSessionIsRefused | src/s3/post_object.rs:94-96 | a completion after a completion or an abort of the session, with anything but a new grant in between, answers 400 and changes nothing |
| Multipart.ClosedSessionIsRefused | src/s3/post_object.rs:56-98 | so does a completion of a session that was never granted; open or not is read off the history of requests and answers |
| Multipart.PartAnswers | src/s3/put_object.rs:41-50 | a part goes to its session if that is open and is refused with 400 without effect if not; no object is touched |
| Multipart.AbortAnswers | src/s3/delete_object.rs:24-39 | an abort answers 204 whether the session is open or not, and closes that session only |
| Multipart.SessionsAreBounded | src/limited_slots.rs:24-35 | in every run the open sessions fit the capacity |
| Multipart.CreateRefusedIffFull | src/s3/post_object.rs:33-53 | a create answers 503 exactly if every slot is taken |
| Multipart.EndingMakesRoom | src/s3/delete_object.rs:24-39 | after an abort or a completion of an open session, a create succeeds |
| Multipart.PartNumberRange | src/s3/put_object.rs:20-50 | a part number within a signed byte goes to the session and leaves all objects alone; any other replaces the object under the key and leaves the session alone |
| Slots.LimitedSlotsMap.Insert | src/limited_slots.rs:24-35 | refused exactly if the map is full; otherwise it binds the key and returns what was bound before |
| Slots.EnumerationDoesNotMatter | src/s3/post_object.rs:60-64 | in whatever order the map yields the parts, sorting and gluing them gives the bodies by ascending part number |
| Slots.CollectBody | src/s3/post_object.rs:60-65 | draining, sorting and gluing ends with that body |
| Server.App.StoreObjectAt | src/s3/put_object.rs:52-137 | the handler's sequence of calls takes the modelled state to that of the one-step put, for all failures |
| Server.App.PutObjectAt | src/s3/put_object.rs:34-137 | the same with the part upload branch; no other session changes |
| Server.App.RemoveObjectAt | src/s3/delete_object.rs:41-118 | the delete handler takes the modelled state to that of the one-step delete, for all failures |
| Server.App.DeleteObjectAt | src/s3/delete_object.rs:20-118 | the same with the abort branch, which answers 204 for unknown sessions too |
| Server.App.CompleteUploadAt | src/s3/post_object.rs:56-98 | removal of the session, assembly and the re-entered put together are the one-step completion |
| Server.App.RunTrimTask | src/s3/delete_object.rs:87-106 | the spawned trim in its two phases, its errors dropped |
| Server.App.ModifyBucket | src/s3/post_bucket.rs:137-179 | the loop leaves the state and the two lists that deleting the entries one by one prescribes |
| Paths.PushAndNormalize | src/s3/mod.rs:21-31 | pushing three parts and normalising once is resolving each part by itself and gluing the results |
| Paths.PathStaysUnderBucket | src/s3/mod.rs:21-31 | every accepted key's path has its normalised prefix and bucket as a component prefix, and normalising it again changes nothing |
| Paths.AcceptedIff | src/s3/mod.rs:26-29 | a path exists exactly if none of prefix, bucket and key starts with a separator, and in none there are, read from the front, ever more `..` than names |
| Paths.ParentSkipsDots | src/database.rs:184-187 | a dot in front of the last name does not change which directory comes next |
| Paths.NormalPathsAreInjective | src/s3/mod.rs:21-31 | on normal buckets and keys, different objects have different paths |
| Chunked.AwsRoundTrip | src/s3/authorization.rs:389-422 | every list of chunks of 1 to 2^63 - 1 bytes, under any 64-byte signatures and followed by any bytes, decodes to exactly those chunks |
| Chunked.ParseSizeIff | src/s3/authorization.rs:398-399 | a size line is read as a number exactly if, behind an optional plus, it writes it in base sixteen with digits of either case and it fits 64 bits |
| Chunked.OversizedChunkFails | src/s3/authorization.rs:413 | a chunk of 2^63 bytes or more breaks the stream off |
| Chunked.RoundTrip | src/s3/authorization.rs:395-421 | the same for any size lines the integer parser reads as the right size |
| Chunked.CutFinishesIff | src/s3/authorization.rs:396-418 | a stream cut anywhere before its end finishes without an error exactly at the silent cuts, and passes on a prefix of the chunks |
| Chunked.NoSilentTruncation | src/s3/authorization.rs:396-418 | with canonical sizes no cut before the final semicolon ends in success |
| Chunked.SilentlyTruncatableIff | src/s3/authorization.rs:396-403 | a stream has a cut before its end that ends in success exactly if some size line, or the last one, starts behind an optional plus with a zero that is not its last digit |
| Chunked.LeadingZeroTruncatesSilently | src/s3/authorization.rs:397-403 | one leading zero in the first size line is enough to lose every chunk without an error |
| ChunkReader.Reader.ReadUntilSemicolon | src/s3/authorization.rs:396-397 | reads up to and including the first semicolon of what remains, across frames, or all of it |
| ChunkReader.Reader.ReadExact | src/s3/authorization.rs:410-418 | succeeds exactly if enough bytes remain, and then takes exactly those |
| ChunkReader.Reader.NextChunk | src/s3/authorization.rs:395-420 | one turn on the frames is one turn on their concatenation |
| ChunkReader.Reader.StreamingChunkBody | src/s3/authorization.rs:389-422 | the buffered decoder passes on the chunks, and ends as, the flat decoder does on the concatenation |
| ChunkReader.DecodeTwoDeliveries | src/s3/authorization.rs:389-422 | two deliveries of the same bytes decode alike, whatever their frames |
| Canonical.CanonicalIffSameParameters | src/s3/authorization.rs:136-151 | two queries have the same canonical string exactly if they carry the same parameters, signature aside, up to order |
| Canonical.OrderDoesNotMatter | src/s3/authorization.rs:149-150 | permuting the segments of a query leaves the canonical string as it is |
| QuerySpelling.SegmentMattersIff | src/s3/authorization.rs:137-150 | a segment of the query at any place makes no difference to the canonical string exactly if it is empty or spells a parameter named x-amz-signature in any letter case |
| QuerySpelling.CanonicalPieces | src/s3/authorization.rs:136-151 | of segments that spell given parameters in any of the ways a form has, the canonical string is the sorted pieces of exactly those parameters, each name and value in the standard's encoding |
| Canonical.CanonicalTwice | src/s3/authorization.rs:136-151 | canonicalising a canonical string again changes nothing |
| QuerySpelling.DecodeIff | src/s3/authorization.rs:139 | decoding gives exactly the bytes that are spelled: plus for space, escapes with digits of either case, all else literally |
| QuerySpelling.EncodeIff | src/s3/authorization.rs:115-121 | encoding keeps letters, digits and the four marks and writes every other byte as an escape with capital digits |
| Canonical.DecodeEncode | src/s3/authorization.rs:117-121 | form decoding inverts percent-encoding |
| SigningOrder.QueryFollowsStandardIff | src/s3/authorization.rs:147-150 | the canonical query string is the one of the standard, sorted by name and then value, exactly if no encoded name is continued in another by a byte below `=` |
| SigningOrder.HeadersFollowStandardIff | src/s3/authorization.rs:153-170 | the analogous statement for the canonical headers and the colon, for header names |
| SigningOrder.HeaderOrderDoesNotMatter | src/s3/authorization.rs:153-170 | the order in which the client lists the signed headers does not matter |
| HeaderLines.CanonicalHeaderLines | src/s3/authorization.rs:153-170 | the string is the sorted lines of the signed names, one for each: the name in lower case, a colon, and the header's value without surrounding blanks, or nothing if there is no such header |
| HeaderLines.SameHeadersIff | src/s3/authorization.rs:153-170 | two header maps have the same canonical headers exactly if they give every signed name the same such line |

## Left out

- HTTP plumbing: routing, CORS, headers, XML, tracing, compression, the command line and the health check; no property of the store depends on them.
- HMAC, SHA-256, hex and `is_valid`, `from_authorization_header`, `from_query_params`, `canonicalize_uri`: single expressions over uninterpreted functions, or easier relatives of the query string.
- `head_object`, `get_bucket` and the choice of the GET mode: GET appears as the observation of the refinement, answering with the content directly.
- SQLite: the table is a map and each query one atomic step that either answers or fails without effect; timestamps, the connection pool and the length limit of LIKE patterns are absent. The size column's cast to 64 bits is the identity for bodies that fit in memory.
- Kubo: its state is the pin set, the blocks, the file tree and collection of unpinned blocks. `add` pins; `files cp` with parents and force replaces a file but neither a directory nor a file on the way; `files rm` and `pin rm` report what is not there. Pins alone shield a block from collection here, while Kubo also keeps what its file tree references: the safety results do not lean on that, and in the loss histories of `AwaitSteps` what is lost on such a node is the pin, the content only once its file is gone as well. Content pinned by others is outside the state.
- typed_path: paths are modelled by component; further bytes its checks may reject, such as NUL, are accepted here. An absolute key is refused by the push, so it never reaches the ancestor query.
- Restarts: runs start from an empty table and node; a restart, which drops the open sessions and the spawned tasks, is not a step.
- Await-level multipart: at await level only puts, deletes and spawned tasks interleave; a completion re-enters the put.
- AwaitTree.LiveObjectsKeepTheirFiles: a trim that has not finished its queries counts as being after a file if they might not find the object; whether the remaining queries spare it after all is not followed.
- Slots.LimitedSlotsMap.Insert: the capacity is fixed and each call is atomic, so the sharding and growth of the concurrent map, and the gap between its capacity check and its insertion, are not captured. Upload identifiers are drawn by the environment and may repeat; then a session is replaced, as in the code.
- MIME guessing: a function in the configuration.
- Canonical.CanonicalIffSameParameters: works on the query's bytes, so the URL parser's own clean-up before the query, and the replacement of invalid UTF-8, are not captured.
- SigningOrder.HeaderOrderDoesNotMatter: header names are lowered in ASCII and the header map holds the first, visible-ASCII values.
- SigningOrder.HeadersFollowStandardIff: for lists of header names, which hold neither a colon nor a line feed, and values without a line feed, as HTTP has them.
- ChunkReader.Reader.StreamingChunkBody: a transport error inside a frame is not captured; a panic, a size that is no UTF-8 and a size that is no number are one failure. `usize` has 64 bits.
- Chunked.AwsRoundTrip: holds up to 2^63 - 1 bytes a chunk, the largest buffer the language allocates, and not up to 2^64.
- Mirror.TreeMirrorsTable: for healthy runs, and for normal keys without `%`, `_` and ASCII capitals, no key on the path of another, each put apart from what trims are pending for; `Tree` and `TreeLimits` say what holds outside of that.
- Pins.CleanRunLeaksNothing: a put that cannot be linked can leave a pin, exactly as `Pins.HealthyPutLeaksIff` says; runs with such a put are excluded, although a later put of the same content may account for the pin again.
- Tree.CarefulRunIsAnchored: compatibility of keys is sufficient in every run; that it fails does not mean that a given run strands an object, which `Tree.TargetIff` decides trim by trim and `TreeLimits.StrandedIff` for two keys.
- DeleteMany.DeleteObjectsOutcome: the loop's awaits are not interleaved with other requests, only with trims.
