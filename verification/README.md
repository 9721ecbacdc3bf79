# bindfs, verified

bindfs shows a directory tree somewhere else with altered owners, groups and
permissions. Most of it forwards system calls; this project is about the algorithms
in between. It is a Dafny model of them, in the form the C code has (loops, arrays,
linked lists, mutable objects), together with proofs of what they promise.
`dafny verify dfyconfig.toml` checks all of it.

| file | what it models |
|---|---|
| `Text.dfy` | cutting strings at separators, shared by the parsers |
| `PermRules.dfy` | permission rules on values: what a rule and a chain do to a mode |
| `PermSpec.dfy` | the language of permission specifications |
| `Permchain.dfy` | the linked list of rules, its parser and its interpreter |
| `RateLimiter.dfy` | the read and write rate limiter, over the reals and any clock |
| `PathPrefix.dfy` | is one path below another? |
| `ArgFilter.dfy` | merging and filtering "-o" arguments in place |
| `MemoryBlock.dfy` | the growable block of memory |
| `Sorting.dfy` | qsort and bsearch by their contracts, and the comparators |
| `UserCache.dfy` | the index of users and groups and the membership query |
| `CacheProtocol.dfy` | lookups, rebuilds and invalidation signals, interleaved |
| `CacheAnswers.dfy` | the tables along such a run, and the answers given from them |
| `Mirroring.dfy` | which callers see themselves as the owner of every file |
| `UserMap.dfy` | the forward and reverse id maps |
| `Ownership.dfy` | chown, chmod, create and getattr over a table of files |
| `CallMeaning.dfy` | what these calls come to, in terms of settings, maps and bits |
| `MirrorSpec.dfy` | the list of mirrored users and groups |
| `Arena.dfy` | the bump allocator |

## Main results

* A membership query agrees with the relational definition over the passwd and group
  databases, through packing, two sorts and two searches. A positive answer is right
  for every database. All answers are right, whatever order equal entries are sorted
  in and whichever of them is found, exactly if a true membership is either the primary
  group of every entry with that uid, or listed in every entry of that group under a
  name that belongs to that uid only, and the ids of the table it is found in have an
  order at all: the narrowing comparators order a set of ids exactly if it fits in half
  of the circle of 2^32. Databases that do not contradict themselves, with such ids,
  always meet this. On top of it, getattr shows a caller as the owner exactly if the
  list of mirrored users and groups names it, or a group it belongs to, or if it is the
  owner anyway.
* In every interleaving of any number of threads, signals and database changes, a
  lookup whose flag test follows an invalidation reads tables whose rebuild began after
  it, from the databases of that time or later, and answers accordingly; no lookup sees
  tables that are being rebuilt; no query returns without a lookup; two rebuilds have an
  invalidation between them; and some thread can always go on.
* A permission rule is accepted exactly if it is a word over "ugoafd", optionally
  followed by an operator and a word over "rwxXDstugo", or a number of at most 0777 by
  its leading octal digits. A chain of them is one mask step within 0777 and gives every
  class of user exactly what the manual page describes. A concatenated chain is its
  halves one after another exactly on the modes where the second half, run on what the
  first has made of the mode, has the same effect with its operands read from there as
  from the original mode; a chain is idempotent exactly on the modes where that holds of
  its own result. Without the operands `X`, `u`, `g` and `o`, these are all modes.
  Printing and parsing specifications are inverse, and adding a specification to a chain
  is all or nothing.
* The limiter's stored sleep time has a closed form for any clock. The throughput in
  every window is bounded, for all rates and requests, exactly for clocks that never
  change direction, and the bound is attained in windows of every length.
* `filter_o_opts` keeps, each in order, all arguments that neither start with "-o" nor
  follow a bare one, and all wanted options. A rejected option survives exactly in
  arguments with an odd number of wholly rejected "-o" arguments directly in front.
* A successful chmod stores, for every class of user, what the chmod rules make of the
  permissions asked for; getattr shows what the permission rules make of those stored,
  less exactly what the access checks refuse. Owners, groups and statuses of chown,
  create and getattr follow from the settings and the id maps, for all policies.
* A list of id mappings is accepted exactly if, identities aside, it repeats no source
  and no target, other than after 4294967295; the tables are then what is left of the
  list and its mirror image.
* The two id maps are mutually inverse exactly under a condition on how the list of
  insertions repeats the id 4294967295, and always without it. What chown or create
  asked for is what getattr shows, for any map and any offset, exactly if the mapping
  that led to a target also holds one offset lower, or the id one offset lower is not a
  mapping source. Without an offset, and with proper ids, these are the mapping targets
  and the ids that are not mapping sources.

## Where code and documentation differ

The model follows the code.

* `count_substrs` (src/misc.h:31) is documented to count occurrences; it misses one that
  ends the string (`MirrorSpec.SubstrCountIsOccurrences`). So a list of mirrored users
  that ends in a separator and a bare "@" has one group more than its array holds, and
  if all names resolve, the code writes past that array when it reaches the "@"
  (`MirrorSpec.ParseMirroredUsers`); the empty name does resolve, to 0
  (src/userinfo.c:282-285).
* `filter_o_opts` (src/misc.h:60) is documented to filter all "-o" lists; after dropping
  one argument it passes over the next. `ArgFilter.RejectedSurvivesIff` is exact.
* A list of rules appended to a chain is preceded by one node that does nothing
  (src/permchain.c:184, 216); the header does not mention it.
* The manual page lets `-X` look like the chmod operand; the code reads the mode before
  the whole chain (src/permchain.c:239, 281). `PermRules.SequencingIff` says exactly
  on which modes the two differ, and `PermRules.SequencingNeedsProviso` gives one.
* The manual page bases the symbolic form on chmod, where leaving out the classes means
  all of them. In the code that holds only if the rule starts with its operator
  (src/permchain.c:107): "f-x" and "d-x" address no class and change nothing
  (`PermSpec.SymbolicMeaning`).
* `--map-passwd` and `--map-group` can be combined with an offset, although `--map`
  cannot (src/bindfs.c:2739, 2756). Both directions map first and shift then, so the
  combination does not undo itself for all ids; `Ownership.RoundTrip` says for which.

## Model

| member | source | states |
|---|---|---|
| Text.SplitPrefix | src/misc.c:151-176 | for one separator, the pieces of one string start the pieces of another exactly when it is a prefix that ends where a piece ends |
| PathPrefix.FindLastCharBetween | src/misc.c:139-149 | finds the last occurrence in the range, or establishes that there is none |
| PathPrefix.TrimmedLength | src/misc.c:153-159 | the loop over trailing slashes leaves exactly the trimmed path |
| PathPrefix.PathStartsWith | src/misc.c:151-176 | true exactly when the components of the prefix are the first components of the path, for all strings including "" and "/" |
| RateLimiting.RateLimiter.constructor | src/rate_limiter.c:53-67 | an empty run and the idle credit |
| RateLimiting.RateLimiter.WaitNoSleep | src/rate_limiter.c:75-102 | the stored time is the max-plus recursion over the run, and the returned time is the idle credit plus the largest backlog of any suffix of the run |
| RateLimiting.ClosedForm | src/rate_limiter.c:80-96 | for every run and any clock, the recursion equals the idle credit plus the maximum over i of bytes i..n over rate less the clamped time since i |
| RateLimiting.Throughput | src/rate_limiter.c:69-102 | with a clock that never changes direction, bytes that arrive and are released within [a, b] are at most rate times (b - a + 0.2) |
| RateLimiting.ThroughputTight | src/rate_limiter.c:88-94 | the bound is attained in windows of every length, by any requests that arrive at once and together are worth it |
| RateLimiting.ThroughputIff | src/rate_limiter.c:69-102 | for given clock readings the bound holds for all rates, sizes and windows exactly if the readings never fall or never rise |
| RateLimiting.BackwardsClockOverruns | src/rate_limiter.c:82-86 | a clock that goes up by ten and back lets 20 bytes through where the bound is 10.2 |
| RateLimiting.SleepSeconds | src/rate_limiter.c:38-51 | no sleep for a credit, otherwise the stored time rounded down by less than a nanosecond |
| PermRules.OperandMeaning | src/permchain.c:269-304 | every operand stands for the permissions the manual page gives it, for every class alike |
| PermRules.DigitIsValue | src/permchain.c:164-174 | octal digits stand for their values as mode bits |
| PermRules.OctalTriads | src/permchain.c:151-178 | an octal number gives each class its digit |
| PermRules.RuleMeaning | src/permchain.c:252-323 | a rule leaves each class exactly the permissions its operator, classes and operands say; without an operator, or on the other kind of file, it leaves them alone |
| PermRules.ChainMeaning | src/permchain.c:237-328 | running a whole chain over the bits gives each class what the rules say one after another |
| PermRules.ChainIsOneStep | src/permchain.c:243-327 | the loop equals one step (t and not clear) or set, with both masks within 0777 |
| PermRules.ApplyKeepsTheRest | src/permchain.c:257-319 | no chain changes a bit outside 0777, so the directory test is stable |
| PermRules.MasksCompose | src/permchain.c:222-227 | the masks of a concatenated chain are those of its parts, composed |
| PermRules.SequencingIff | src/permchain.c:239-299 | on any mode, a concatenated chain is its parts one after another exactly if the masks of the second part, read before and after the first, do the same to what the first has made of the mode |
| PermRules.Sequencing | src/permchain.c:239-299 | so it is if the first part does not change what the operands of the second stand for |
| PermRules.SequencingBits | src/permchain.c:239-299 | in particular if it leaves alone the bits the second reads: execute bits for X, the bits of the class for u, g and o |
| PermRules.SequencingAlways | src/permchain.c:281-299 | in particular if the second part has no X, u, g or o operand |
| PermRules.SequencingNeedsProviso | src/permchain.c:280-283 | "a+x,a-X" and "a+x" then "a-X" differ |
| PermRules.IdempotentIff | src/permchain.c:237-328 | on any mode, a chain is idempotent exactly if its masks, read before and after, do the same to its result |
| PermRules.IdempotentAt | src/permchain.c:237-328 | so it is if it does not change what its own operands stand for |
| PermRules.Idempotent | src/permchain.c:237-328 | chains without X, u, g and o operands are idempotent, for every mode and length |
| PermRules.AddXIdempotent | src/permchain.c:280-283 | so is "+X" for any classes |
| PermRules.CopyIdempotent | src/permchain.c:292-301 | so is any single rule that copies from classes it does not change, like "u=g" |
| PermRules.SwapIsNotIdempotent | src/permchain.c:292-297 | "u=g,g=u" is not |
| PermSpec.SymbolicIff | src/permchain.c:83-137 | the accepted symbolic rules are exactly words over "ugoafd", optionally followed by one of "=+-" and a word over "rwxXDstugo" |
| PermSpec.SymbolicMeaning | src/permchain.c:72-143 | what classes, operator and operands in a rule come to for each class of a mode, letter by letter: whom the rule addresses, for which kind of file, and what it leaves them |
| PermSpec.NoOperatorMeaning | src/permchain.c:252-255 | classes without an operator are accepted and do nothing |
| PermSpec.NumberMeaning | src/permchain.c:151-178 | a rule that starts with a digit has the value of its leading octal digits by position, whatever follows, and is refused above 0777 |
| PermSpec.NumberApplied | src/permchain.c:318-320 | it gives each class its digit, whatever the mode was |
| PermSpec.ParseFirst | src/permchain.c:191-211 | a specification whose first comma or colon is known is its first rule and the rest |
| PermSpec.ParseLast | src/permchain.c:191-211 | one without comma and colon is a single rule, or nothing |
| PermSpec.RulesWellFormed | src/permchain.c:63-178 | every parsed rule is one the interpreter accepts |
| PermSpec.RoundTrip | src/permchain.c:180-220 | printing well-formed rules with any separators and parsing gives the same rules |
| PermSpec.Canonical | src/permchain.c:180-220 | every accepted specification has a canonical form with the same rules |
| Permchain.Node.constructor | src/permchain.c:43-52 | a rule that does nothing, with an all-zero operand buffer |
| Permchain.Cat | src/permchain.c:222-227 | the two lists become one, without repetition, and only one link changes |
| Permchain.ScanLeft | src/permchain.c:84-114 | one character of the left state |
| Permchain.ScanRight | src/permchain.c:115-134 | one operand goes into the next of 16 slots, once; at most ten slots are used |
| Permchain.ScanSymbolic | src/permchain.c:72-143 | the two-state scan accepts exactly the symbolic rules and builds the rule they mean |
| Permchain.AddSymbolicRule | src/permchain.c:63-149 | appends that rule, or leaves the chain unchanged |
| Permchain.AddOctalRule | src/permchain.c:151-178 | the longest octal prefix, at most 0777 |
| Permchain.BuildChain | src/permchain.c:184-211 | the loop accepts exactly non-empty rules with single separators and an optional last one, and collects them in order |
| Permchain.AddRules | src/permchain.c:180-220 | on failure the caller's list is unchanged; on success it is followed by a rule that does nothing and exactly the parsed rules |
| Permchain.ApplyNode | src/permchain.c:252-323 | one round of the loop, without reaching the dead cases |
| Permchain.Apply | src/permchain.c:237-328 | the loop over the nodes computes what the rules mean |
| Permchain.ParseAndApply | src/permchain.c:180-328 | from specification to mode: accepted exactly when it parses, each class left with what the rules mean for it, no bit outside 0777 changed |
| ArgFilter.ShiftLeft | src/misc.c:262-265 | the arguments after one move down by one |
| ArgFilter.MergeOArgs | src/misc.c:196-221 | each "-o" is joined with its value in place, and a last one without value disappears |
| ArgFilter.MergedConserves | src/misc.c:203-219 | merging loses no character of any argument, except a last "-o" without a value |
| ArgFilter.MergedHasNoBareO | src/misc.c:195-219 | with no empty argument, no bare "-o" is left |
| ArgFilter.MergedOthers | src/misc.c:195-219 | merging keeps, in order, the arguments that neither start with "-o" nor follow a bare one |
| ArgFilter.MergedWanted | src/misc.c:195-219 | and the options to keep, attached to "-o" or following it |
| ArgFilter.NextToken | src/misc.c:243-256 | strtok: skips separators and takes the characters up to the next one |
| ArgFilter.TokensCut | src/misc.c:243-256 | the tokens are the non-empty pieces between commas |
| ArgFilter.KeptEach | src/misc.c:245-255 | the options to keep are those that pass the test, one by one |
| ArgFilter.FilterArg | src/misc.c:240-257 | rebuilds an argument as "-o" and the options to keep with commas between them, or as nothing, within a buffer of the length of the argument plus one |
| ArgFilter.FilterOne | src/misc.c:238-267 | one round: an argument is shifted away exactly if it starts with the characters "-o" and has no option to keep, and rewritten only if it starts so |
| ArgFilter.FilterInPlace | src/misc.c:237-268 | the loop with its shifts computes the filtered list, arguments passed over included |
| ArgFilter.FilterOOpts | src/misc.c:223-272 | copy, merge and filter together: what has nothing to do with "-o" on the original command line is kept in order, and so are the options to keep |
| ArgFilter.RewrittenTokens | src/misc.c:240-260 | a rebuilt argument has exactly the kept options, in order |
| ArgFilter.FilterPreserves | src/misc.c:237-268 | all arguments that do not start with the characters "-o", and the sequence of options to keep, are preserved |
| ArgFilter.SkippedIfOdd | src/misc.c:237-265 | an argument is passed over exactly if an odd number of wholly rejected ones stands directly in front of it |
| ArgFilter.RejectedSurvivesIff | src/misc.c:237-265 | no rejected option survives exactly if every argument with an odd number of wholly rejected ones directly in front has only options to keep |
| ArgFilter.NoRejectedSurvives | src/misc.c:237-265 | none survives if no wholly rejected argument is followed by one with options |
| ArgFilter.RejectedSurvives | src/misc.c:237-265 | ("-obad", "-obad") keeps one |
| MemoryBlocks.MemoryBlock.Grow | src/misc.c:321-342 | size within capacity, old bytes kept, abort only beyond half the address space |
| MemoryBlocks.MemoryBlock.Append | src/misc.c:344-350 | the block is its old bytes followed by the new ones, at the returned offset |
| MemoryBlocks.MemoryBlock.Reset | src/misc.c:310-319 | an empty block of the given capacity |
| MemoryBlocks.AppendAll | src/misc.c:321-350 | over a whole run of appends the block becomes its old bytes followed by all items, and every offset returned on the way still denotes its item |
| MemoryBlocks.ImageKeeps | src/misc.c:344-350 | items keep their place whatever is appended later |
| Sorting.QSort | src/userinfo.c:147-147 | a permutation, in order if the comparator orders the elements (section 7.22.5.2 of ISO/IEC 9899:2011) |
| Sorting.BSearch | src/userinfo.c:71-77 | a hit compares equal; a miss means there is none if the array is in order (section 7.22.5.1) |
| Sorting.EqualIds | src/userinfo.c:224-242 | the narrowing id comparators recognise equality for all ids |
| Sorting.OrderOfIds | src/userinfo.c:224-242 | they order two ids correctly exactly if the difference fits an int |
| Sorting.IdsInACircle | src/userinfo.c:224-242 | three valid ids they put in a circle |
| Sorting.RankedIff | src/userinfo.c:224-242 | they order a non-empty set of ids exactly if one of them has all the others fewer than 2^31 steps ahead of it, counting up and around |
| Sorting.NobodyIsRanked | src/userinfo.c:224-242 | 4294967294 is in front of 0 and 1000, although its differences with them do not fit an int |
| Sorting.StrCmpOrder | src/userinfo.c:208-222 | strcmp orders names totally and transitively |
| Sorting.StrCmpIsLexicographic | src/userinfo.c:208-222 | and puts a name first exactly if it is smaller at the first difference, or ends there |
| UserCaches.SortByName | src/userinfo.c:147-147 | sorted by the names in the block |
| UserCaches.SortByUid | src/userinfo.c:360-360 | the same entries, sorted by uid whenever the uids have an order |
| UserCaches.SortByGid | src/userinfo.c:361-361 | the same entries, sorted by gid whenever the gids have an order |
| UserCaches.UserCache.RebuildUid | src/userinfo.c:91-135 | the table holds exactly the passwd entries read, or nothing after an error |
| UserCaches.UserCache.FindName | src/userinfo.c:176-182 | finds a user of that name exactly if there is one |
| UserCaches.UserCache.PackUid | src/userinfo.c:184-185 | the packed list gets one uid longer and nothing else changes |
| UserCaches.UserCache.AddGroup | src/userinfo.c:166-187 | the new entry lists, in order, one uid for every member name that exists, of a user with that name |
| UserCaches.UserCache.RebuildGid | src/userinfo.c:137-196 | the table holds exactly the group entries read, or nothing after an error |
| UserCaches.UserCache.Rebuild | src/userinfo.c:356-361 | both tables complete and in id order, for the databases read, by way of the six stages of a rebuild |
| UserCaches.UserCache.InitUserCache | src/userinfo.c:349-364 | rebuilds exactly if asked to and withdraws the request |
| UserCaches.UserCache.FindUid | src/userinfo.c:69-78 | a hit has the uid; a miss means there is none, if the uid column is in order for that search |
| UserCaches.UserCache.ListContains | src/userinfo.c:330-336 | the scan of a packed list |
| UserCaches.UserCache.BelongsTo | src/userinfo.c:322-341 | a positive answer is right for every database; every answer is right if the databases serve the query |
| UserCaches.UserCache.UserBelongsToGroup | src/userinfo.c:310-342 | the same with the rebuild in front |
| UserCaches.SmallIdsRanked | src/userinfo.c:224-242 | databases with ids below 2^31 have ids with an order |
| UserCaches.ServedIff | src/userinfo.c:310-364 | for any databases, a query is answered right for all complete tables that the sorts may leave and all results that the searches may have, exactly if the databases serve it |
| UserCaches.Unserved | src/userinfo.c:322-336 | if they do not, there are complete tables, sorted as the sorts promise, and search results that deny a true membership |
| UserCaches.UnambiguousServed | src/userinfo.c:322-341 | databases whose entries for a user or a group do not contradict each other, and whose ids have an order, serve every query |
| UserCaches.SharedUidMissesOne | src/userinfo.c:322-326 | of two users that share a uid but not a primary group, and that no group lists, one is denied, whatever the searches find |
| UserCaches.SharedUidExample | src/userinfo.c:322-336 | two such users, and the group entries with which both are served |
| CacheProtocol.InvKept | src/userinfo.c:310-364 | every step of every thread, signal or database change keeps the invariant |
| CacheProtocol.LookupsSeeWholeTables | src/userinfo.c:320-340 | in every run, lookups happen without a writer and with tables that have been built, completely and in id order |
| CacheProtocol.NoLostInvalidation | src/userinfo.c:316-364 | in every run, a lookup whose flag test follows an invalidation reads tables whose rebuild began after it, from the databases of then or later |
| CacheProtocol.QueriesLookUp | src/userinfo.c:310-342 | in every run, a query returns only after testing the flag and then looking up itself |
| CacheProtocol.InitRenews | src/userinfo.c:349-364 | in every run, a bare init_user_cache called after an invalidation leaves whole tables from a rebuild that began after it |
| CacheProtocol.WriteLockAsked | src/userinfo.c:316-318 | in every run, a query waits for the write lock only if its own flag test has just found the flag set |
| CacheProtocol.RebuildsAreAsked | src/userinfo.c:349-364 | in every run, two rebuilds have an invalidation between them, however many threads wait to rebuild |
| CacheProtocol.NoDeadlock | src/userinfo.c:310-364 | in every run, while a call is under way some thread can take its next step |
| CacheAnswers.RebuildRewrites | src/userinfo.c:349-364 | the stages of every rebuild, as the methods have proved them, are what the steps of the interleaved runs do to the tables |
| CacheAnswers.TablesKept | src/userinfo.c:349-364 | every step of every thread keeps the tables as complete and as sorted as the writer has come, for the versions read |
| CacheAnswers.AnswersAreFresh | src/userinfo.c:310-364 | in every run, the answer of a lookup whose flag test follows an invalidation is right for databases no older than that |
| CacheAnswers.AnswersAreCurrent | src/userinfo.c:310-364 | in particular it is right now, if the databases have not changed since |
| Mirroring.IsMirroredUser | src/bindfs.c:367-381 | a yes is right for every database; every answer is right if the databases serve the queries about the caller; the cache is rebuilt only if that was requested |
| Mirroring.MirroredIffNamed | src/bindfs.c:362-381 | with the arrays that parsing leaves, the mirrored callers are exactly the users named in the list and the members of the groups named in it |
| UserMaps.IdTable.Get | src/usermap.c:99-108 | the target of the first pair with that source, or the default |
| UserMaps.LookupIs | src/usermap.c:99-108 | the same for the function the other results are about |
| UserMaps.IdTable.Grow | src/usermap.c:46-54 | the capacity doubles, from eight on, and the pairs stay |
| UserMaps.IdTable.Add | src/usermap.c:40-63 | succeeds exactly for identities and for sources whose first pair, if any, leads to (uid_t)-1, and appends the pair |
| UserMaps.InsertPair | src/bindfs.c:2292-2301 | both insertions, or a failure |
| UserMaps.FillMaps | src/bindfs.c:2677-2732 | all insertions succeed exactly if the pairs repeat no source and no target, other than after (uid_t)-1; the tables are then the pairs and their mirror images |
| UserMaps.RunInvariant | src/bindfs.c:2210-2219 | after every successful run the tables are mirror images without identities |
| UserMaps.TablesAreEntries | src/bindfs.c:2210-2219 | after a successful run the tables are the oriented pairs of its insertions, in order, and their mirror images |
| UserMaps.AcceptedIff | src/usermap.c:40-63 | a list of insertions is accepted exactly if for no pair the first earlier one with its source, or with its target, leads anywhere but to (uid_t)-1 |
| UserMaps.InverseIff | src/usermap.c:55-57 | after an accepted list the tables are mutually inverse exactly if its repetitions after pairs with (uid_t)-1 match in both directions |
| UserMaps.InverseOfProperIds | src/usermap.c:40-119 | without (uid_t)-1 they are injective and mutually inverse, with no identity pairs |
| UserMaps.NoIdBreaksInverse | src/usermap.c:55-57 | an accepted run after which they are not |
| Ownership.RoundTrip | src/bindfs.c:435-443 | for any map and offset, an id that can be stored is shown as asked for exactly if it is a mapping target whose mapping also holds one offset lower, or no target and one offset lower no source |
| Ownership.MapRoundTrip | src/bindfs.c:435-449 | without an offset, the id asked for is shown exactly if it is a mapping target or not a mapping source |
| Ownership.OffsetRoundTrip | src/bindfs.c:636-687 | without a map, every id in range is shown as asked for |
| Ownership.PermutationRoundTrip | src/bindfs.c:435-449 | with a map whose sources are all targets, every id is |
| Ownership.MapWithOffset | src/bindfs.c:435-443 | with 1 mapped to 2 and an offset of 10, 11 is shown as 12 and 50 comes back; a map for which a target comes back |
| Ownership.ChownThenGetattr | src/bindfs.c:1211-1252 | after a successful chown to u, getattr shows u exactly if u comes back |
| Ownership.ChgrpThenGetattr | src/bindfs.c:1227-1252 | the same for groups |
| Ownership.CreateThenGetattr | src/bindfs.c:516-558 | after a create by u whose chown succeeds, getattr shows u exactly if u comes back |
| Ownership.CreateThenGetattrGroup | src/bindfs.c:516-558 | the same for groups, outside set-group-id directories or by way of the map |
| Ownership.ConfiguredMapsConsistent | src/bindfs.c:2683-2728 | maps filled from the options meet the conditions of these results |
| CallMeaning.StoredIff | src/bindfs.c:1213-1219 | the id stored is the one that the first pair for the id asked for leads to, or that id itself, less the offset, exactly if it is within 0 and 2147483647 |
| CallMeaning.ShownIff | src/bindfs.c:434-443 | the id shown is the one that the first pair for the stored id leads to, or that id itself, plus the offset, exactly if it is within these bounds |
| CallMeaning.ChownStatus | src/bindfs.c:1211-1254 | when a chown is refused by policy, out of range, left to the system call, or successful |
| CallMeaning.ChownMeaning | src/bindfs.c:1211-1254 | an unsuccessful chown changes nothing; a successful one changes the ids asked for and not ignored, to those to be stored, and nothing else |
| CallMeaning.CreateMeaning | src/bindfs.c:511-561 | who owns a new file: whoever new files are for, or whoever the creator is mapped to; and when creating is an error |
| CallMeaning.NormalChmod | src/bindfs.c:1160-1168 | a permitted chmod stores for each class what the chmod rules make of the permissions asked for, the set-id and sticky bits asked for, and the old type |
| CallMeaning.RestrictedChmodMeaning | src/bindfs.c:1143-1193 | status and table of an ignored or denied chmod, by the bits of both modes |
| CallMeaning.ChmodMissing | src/bindfs.c:1143-1193 | status of a chmod on a missing file |
| CallMeaning.GetattrShows | src/bindfs.c:434-492 | when getattr fails, and the owner, group, links and size it shows otherwise, by the settings |
| CallMeaning.GetattrMode | src/bindfs.c:452-503 | the mode it shows: for each class what the permission rules make of the file's permissions, less exactly those refused; symlinks as they are; nothing for callers that are shut out |
| Ownership.Mount.Chown | src/bindfs.c:1211-1254 | status and file table after the call, errors included |
| Ownership.Mount.Chmod | src/bindfs.c:1143-1196 | status and file table after the call, errors included |
| Ownership.Mount.ChownNewFile | src/bindfs.c:511-561 | status and file table after the call, errors included |
| Ownership.Mount.Getattr | src/bindfs.c:434-507 | owner, group, mode, links and size shown, or a failure; the caller is shown as the owner only if mirrored, and always then if the databases serve the queries about it |
| Ownership.MirroredSeeThemselves | src/bindfs.c:446-457 | a caller sees itself as the owner exactly if the list names it or a group it belongs to, or if it is the owner anyway |
| Ownership.ShownKind | src/bindfs.c:466-494 | the file type shown is that of the file, but for block devices that are to look like regular files |
| Ownership.ShownIsRealistic | src/bindfs.c:496-503 | with realistic permissions, nothing is shown as allowed that the access checks refuse, symlinks apart |
| Ownership.RestrictedChmod | src/bindfs.c:1169-1193 | under ignore and deny, a chmod changes exactly the execute bits of a regular file to those asked for |
| Ownership.RunRespects | src/bindfs.c:1130-1255 | over every run of chmod and chown calls under ignore or deny, owner, group and mode change no more than the policy allows |
| MirrorSpec.CountChars | src/misc.c:28-38 | the multiplicity of a character |
| MirrorSpec.CountSubstrs | src/misc.c:40-56 | the number of positions where the substring occurs, less one exactly if it ends the string |
| MirrorSpec.SubstrCountIsOccurrences | src/misc.c:48-53 | the loop's recursion finds every occurrence but that one, for any string and substring |
| MirrorSpec.SeparatorsCountTokens | src/bindfs.c:2087-2088 | separators plus one is the number of tokens |
| MirrorSpec.MembersCounted | src/bindfs.c:2089-2091 | the member count is the number of "@" tokens, less one exactly if the list ends in a separator and a bare "@" |
| MirrorSpec.NamesSnoc | src/bindfs.c:2100-2123 | a token that starts with "@" names a group, by what follows, and any other one a user |
| MirrorSpec.TakeToken | src/bindfs.c:2100-2126 | one token, and where the next one starts |
| MirrorSpec.ParseMirroredUsers | src/bindfs.c:2081-2130 | it fails exactly if a name does not resolve; otherwise both arrays are filled exactly, in order and in bounds, and the loop ends after the last token, unless the list ends in a separator and a bare "@", where the array of groups is full when the "@" is reached |
| MirrorSpec.BareAtIsMissed | src/misc.c:48-48 | "root,@" has one group token and none is counted |
| Arenas.Arena.AddBlock | src/arena.c:12-22 | a new block in front of the others, of the size wanted but at least 16360 bytes |
| Arenas.Arena.Malloc | src/arena.c:29-39 | a region in the front block right behind the last one, apart from all earlier regions, over every run of calls; a new block exactly if it does not fit |
| Arenas.Arena.Free | src/arena.c:41-50 | every block is freed exactly once, and not read after that |

## Left out

- FUSE callbacks that only forward to system calls (open, read, write, readdir, xattr, ioctl, lock, statfs, utimens, rename, link): nothing to prove.
- The system calls themselves: getpwent and getgrent are given lists with a success flag, path resolution and the kernel's verdict on chown and chmod are parameters; errno values and the clearing of set-id bits are not modelled.
- main, option tables, usage text, signal setup, debug output.
- Floating-point rounding in the limiter and the parsing of rates: real arithmetic is used; the clock and the sleep are parameters.
- malloc failure, wrap-around of sizes, alignment of packed uids and an offset of INT64_MIN.
- UserCaches.UserCache.Rebuild: it and its callers require that the packed names and uids take up less than 2^31 bytes, because the offsets in the tables are ints; what happens beyond that is not modelled.
- Sorting.QSort: an insertion sort stands in for the C library's; callers use the contract only.
- CacheProtocol.NoLostInvalidation: threads interleave at the statements that touch shared state, with sequentially consistent memory; reading a whole database is one step, and gives what it holds at that moment.
- Permchain.Node.constructor: the union of operand buffer and octal value is two fields, and the flag bits are two booleans; permchain_destroy and the freeing of memory are not modelled.
- Time stamps in getattr. Opening a block device, its size and the access checks are parameters.
- The string syntax of --map and the columns of map files: the model starts from resolved ids.
- delete_file policies, process_path, direct-io rounding, my_dirname, my_basename, sprintf_new, platform variants.
