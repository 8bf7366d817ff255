# 0-fs, modelled and proved in Dafny

0-fs mounts a read-only file system whose files are lists of content-addressed
blocks. This project models the parts of it that carry an algorithm, and proves
what they promise to the rest of the program.

`dafny verify dfyconfig.toml` checks everything.

| module | what it models |
|---|---|
| `Prelude` | option, result, bytes, 64-bit values |
| `Ranges` | hash ranges: parser, printer, matcher |
| `Pools` | destinations, first-match routing, retrying reads with fallback |
| `Routers` | ordered lookup, choice of what is written back, merging under numbered names |
| `WriteBacks` | any number of concurrent `Get` calls and the 100 cache workers, command by command |
| `WriteBackRuns` | what the workers store, where a call is answered, two runs that the documentation does not mention, and what a call costs |
| `Configs` | validation of a router configuration and the router made from it |
| `Files` | `Seek` and `Write` on a file, and what block writes in any order leave |
| `Downloads` | feeder, workers, closer and writing consumer of a download, as a step relation |
| `Downloaders` | one block fetched and checked; the download as an arbitrary scheduler of the steps |
| `FileCaches` | the on-disk cache that trusts a file of the right size |
| `Layers` | union of metadata stores: lookup, merged listings, nesting |
| `Walks` | the walk with its two kinds of skip, as a pruned pre-order |
| `Flists` | the metadata table of one flist: lookup by path hash, parent fallback, LRU caches |
| `FlistTrees` | the finite tree of a well-formed flist: as a layer, and under a walk |

The main results, in one line each:

- A download that returns nil wrote each block once, with data that passed its
  check, and if none is longer than a block it left the file as writing the blocks
  in order would have, for every interleaving and number of workers. If its writes
  succeed, it returns nil iff no fetch failed, and it can whenever each block has
  such data. No reachable state is stuck; no run is longer than four steps a block,
  one a worker, and three. Nothing is assumed of the hash.
- The cache serves a file's own bytes on a hit and on a fresh download, over every
  sequence of calls, because no download leaves a wrong file of the right size
  behind and no two contents share a path. A hit asks the storage for nothing; a miss
  asks for the file's blocks, each under its own key; every error has its own cause.
- Concurrent write-back changes no answer: the servers keep agreeing, and a call
  that gives no destination up succeeds iff its key was reachable at the start. It
  is answered by a given position of the lookup iff a server up to there holds the
  block when the call is made, and its steps are bounded. A worker whose writes are
  not lost leaves its block on the routed server of every cache pool.
- A merged router answers as its routers asked one after the other.
- Parsing and printing of ranges undo each other, and matching is a comparison of
  numbers.
- Nesting layered stores is flattening, unless a file hides a directory; listing
  and lookup of a union agree wherever it shows a directory, for any stack of
  well-formed flists.
- The lookup of a well-formed flist is the walk down from its root, whatever its
  caches hold, and walking it calls the callback for exactly the paths that a
  lookup finds.

## Where the code and its documentation part

The model follows the code. For each difference a lemma says exactly when the
documentation is right, and an input or a run shows where it is not.

- `docs/flists/router.md:37` says that an exact range matches the hashes that it
  prefixes. `HexToBytes` completes an odd number of digits with a trailing zero,
  so `123` matches the prefix `1230`: `Ranges.DocumentedPrefixIffEven`, whose proof
  builds the key that is missed.
- `docs/flists/router.md:38` says the same of ranges such as `000:FFF`:
  `Ranges.DocumentedRangeIffEven`, with `Ranges.PastTheOddEnd`. Start and end must be
  of equal length only after they were completed, so `0:00` is accepted.
- The comment at `storage/router/router.go:68` says that only a missing key sends a
  lookup to the next pool; the code goes on after every error of a pool. A lookup over
  the pools of the package goes past a server that held the block when the call was
  made iff it lost three queries in a row to it, which the pool then calls a miss:
  `WriteBackRuns.HolderIsPassedIffGivenUp`. So the comment is right about a call iff it
  gave up no server that held its block (`WriteBackRuns.OnlyMissesArePassedIff`), and a
  refused call gave up all that did (`WriteBackRuns.RefusedGaveUpHolders`).
  `WriteBackRuns.HolderIsGivenUp` is a run in which it is wrong. For pools of other
  kinds, which report their errors, loop and comment give the same answer iff no error
  but a miss is reported before the lookup is decided: `Routers.CommentHoldsIffOnlyMisses`,
  with `Routers.FailureIsPassed`.
- `docs/flists/router.md:81` says that a block asked for again is found in the cache.
  It is iff a server up to the cache's position holds it when the second call is
  made (`WriteBackRuns.FoundNextTimeIffHeld`), as it does once a worker has committed
  it and no write was lost (`WriteBackRuns.WriteBackTakesEffect`). The call that fetched
  the block does not wait for that: `WriteBackRuns.SecondCallPassesCache`.
- `Download` does not truncate its output: a longer file keeps its end. The cache is
  right about a file it found iff that was shorter than it should be, or already
  right: `FileCaches.ServedRightIffNotLonger`, with `FileCaches.LongerFileIsKept`.
- The worker setting is unsigned but is stored in an `int`; from 2^63 on it becomes
  negative, starts no worker, and the download waits for ever:
  `Downloads.BeginsIffSettingFits`, `Downloads.StuckIffNegative`.
- Extra flists loaded on a running mount are layered on the store that is there.
  That shows the same as one flat list of layers unless a file of it lies under a
  directory: `Layers.NestingBelowIsFlatUnlessHidden`, with `Layers.ReloadCanHide`.
- A union shows the file of an upper layer, but a lookup of a path below it goes on
  to the directory that the file covers: `Layers.AgreementIffNothingBehindFile`, with
  `Layers.LookupPassesFile`.
- A directory in a union's listing lists its own layer only, where the lookup of its
  path lists the union: `Layers.ListedChildIsSameIff`, with
  `Layers.ListedDirIsNotTheUnion`.

## What is assumed

- Routing: a key is at least as long as the bounds that it is compared with. The code
  cuts it at the bound's length, which panics if that is beyond the capacity of the
  key's slice and reads past the key's end if it is not.
- Cache: two files of the mounted flists with different block keys have different
  md5 sums, and of what the stores may answer under the keys of a file's blocks, each
  decrypted with its own block's key, nothing passes a block's check but the block's
  own data. Neither is asked of all byte strings, of which a 16-byte hash maps many to
  one. Block keys have one length, and the blocks of a file are full and add up to its
  size.
- Flists: a table is well formed for a set of paths, those that are asked for and
  those that its directories list. Every path of the set whose hash finds a directory
  is where the tree has that directory, and for the finiteness of the tree the path
  hash is injective on the set. `FlistTrees.SmallIsWellFormed` is an instance.
  `Flists.LookupIsTreeWalkIffConsistent` assumes nothing.

## Model

| member | source | states |
|---|---|---|
| Ranges.BytesSurviveHex | storage/router/range.go:14-29 | Decoding the `%x` text of any byte string gives the byte string back. |
| Ranges.HexSurvivesBytes | storage/router/range.go:14-29 | Printing the bytes of any hexadecimal text gives the text in lower case, completed by a trailing zero when its length is odd. |
| Ranges.NewRange | storage/router/range.go:70-89 | A range that the parser returns has a nonempty prefix, or two nonempty bounds of equal length; what it accepts and returns is said in the next three rows. |
| Ranges.AcceptedIff | storage/router/range.go:70-89 | A text is accepted iff the range expression matches it and, if it has two sides, these have the same number of digits once they are completed. |
| Ranges.ParseOfExact | storage/router/range.go:76-81 | A text of digits alone, of an even or odd number, is accepted as the exact range of its completed bytes. |
| Ranges.ParseOfJoined | storage/router/range.go:76-88 | Two texts of digits joined by a colon are the range between their completed bytes, or nothing if those differ in length. |
| Ranges.SubmatchIsLanguage | storage/router/range.go:10 | The submatches exist for exactly the strings of the range expression: digits, or digits, a colon and digits. |
| Ranges.ParseOfPrint | storage/router/range.go:48-56 | What a well-formed range prints as parses back to that range. |
| Ranges.PrintOfParse | storage/router/range.go:70-89 | A range prints as the lower-cased, completed form of the text it was parsed from; that form parses to the same range and is its own normal form. |
| Ranges.CompareIsNumeric | storage/router/range.go:62 | At equal length, byte-wise comparison orders byte strings as the big-endian numbers they write, and equal numbers are equal strings. |
| Ranges.MatchIsNumeric | storage/router/range.go:58-67 | A key is in `s:e` iff the number written by its prefix lies between those of `s` and `e`. |
| Ranges.ExactIsOnePointRange | storage/router/range.go:38-46 | For keys long enough, an exact match of `s` is the range `s:s`. |
| Ranges.AdjacentRangesPartition | storage/router/range.go:58-67 | Two ranges that meet cover their union and share no key. |
| Ranges.FullRangeMatchesAll | storage/storage.go:18 | `00:FF` parses, and what it parses to matches every nonempty key. |
| Ranges.ExactMatchesPaddedPrefix | storage/router/range.go:14-46 | The range parsed from a text of digits matches exactly the keys whose hexadecimal text starts with that text, in lower case and completed. |
| Ranges.OddExample | docs/flists/router.md:37 | The documentation's own `123` is accepted, and matches exactly the keys whose text starts with `1230`. |
| Ranges.DocumentedPrefixIffEven | docs/flists/router.md:37 | "Matches all hashes prefixed with `s`" holds of the range parsed from `s`, for all keys, iff `s` has an even number of digits. |
| Ranges.MatchesJoined | storage/router/range.go:58-88 | The range parsed from `a:b` matches a key iff the number of its first digits, as many as `a` has when completed, lies between those of the completed `a` and `b`. |
| Ranges.RangeOfOddDigits | storage/router/range.go:76-88 | A range parsed from two texts of one odd length compares one digit more than was written, against zeros. |
| Ranges.PastTheOddEnd | docs/flists/router.md:38 | Each odd range misses a key whose prefix is the range's last value. |
| Ranges.DocumentedRangeIffEven | docs/flists/router.md:38 | "Matches all hashes with prefixes in [s, e]" holds of the range parsed from `s:e`, for all keys, iff the length is even or the range is empty. |
| Pools.Network.Get | storage/router/pool.go:137 | A read changes no server, and answers what the server holds, or is lost. |
| Pools.Network.Set | storage/router/pool.go:192 | A write stores the block; a lost write stored it or not. |
| Pools.PoolIsCoherent | storage/router/pool.go:47-78 | `In` iff `Routes` is nonempty iff `Route` finds one; `Route` is the first of `Routes`, and `Routes` holds the destinations of exactly the matching rules. |
| Pools.RouteIsFirst | storage/router/pool.go:58-66 | The route is the destination of the matching rule with the smallest index; there is none iff no rule matches. |
| Pools.RoutesAreInOrder | storage/router/pool.go:69-78 | The routes are the destinations of all matching rules, and of no others, in the order of the rules. |
| Pools.FirstHeldIsFirst | storage/router/pool.go:156-174 | The answer of a pool is the block of the first matching destination that holds the key, and there is none iff no destination holds it. |
| Pools.RepliesDecide | storage/router/pool.go:150-175 | If no destination was given up, the replies of destinations asked in order give the first holder's data. |
| Pools.SetThenGet | storage/router/pool.go:150-194 | After a `Set` of a key and any writes of other keys, a `Get` that loses nothing returns what was set. |
| Pools.ScanPool.In | storage/router/pool.go:47-55 | The scan answers yes iff the pool routes the key. |
| Pools.ScanPool.Route | storage/router/pool.go:58-66 | The scan returns the destination of the first matching rule. |
| Pools.ScanPool.Routes | storage/router/pool.go:69-78 | The loop collects the destinations of all matching rules, in order. |
| Pools.ScanPool.Connect | storage/router/pool.go:110-126 | The connection for a destination dials that destination's host, is made once and kept; no other connection changes. |
| Pools.ScanPool.Fetch | storage/router/pool.go:128-147 | One to three commands; a reply of the server ends the loop at once, and it fails iff three commands in a row were lost. |
| Pools.ScanPool.Get | storage/router/pool.go:150-175 | Destinations are asked in order until one has data: every reply is what its server holds or stands for three lost commands, all but the last have no data, and the result is the last one's data, or an error once all were asked. At most three commands a destination; with fewer than three lost commands the answer is the first holder's, or that nothing routes or holds the key. |
| Pools.ScanPool.Ask | storage/router/pool.go:156-174 | The loop over the destinations: each is asked on its own connection, and only data ends it early. |
| Pools.ScanPool.Set | storage/router/pool.go:178-194 | One command, to the first matching destination, and nothing else is stored anywhere; an unroutable key sends none; a connection error is returned iff that command was lost. |
| Routers.ClosedNeverMissesPool | storage/router/router.go:60-64 | A lookup over existing pools never reports a missing pool, and the source it reports is one of the lookup. |
| Routers.AnswerIsFirst | storage/router/router.go:60-81 | The answer is that of the pool with the smallest position in the lookup that has one, unless a pool before it is missing, and a miss iff all pools exist and none answers. |
| Routers.CommentHoldsIffOnlyMisses | storage/router/router.go:67-75 | Given what pools of any kind report, the loop gives what its comment says iff no pool reports an error other than a miss before the lookup is decided. |
| Routers.FailureIsPassed | storage/router/router.go:72-75 | A pool that reports another error is passed and the next one answers, where the comment has the error returned. |
| Routers.FoundIsTried | storage/router/router.go:60-81 | What a lookup returns is what the loop makes of the replies of the pools asked in order. |
| Routers.TrueRepliesAnswer | storage/router/router.go:60-81 | If those replies are the pools' ordered answers, so is the result of the lookup. |
| Routers.ScanPoolsKeepComment | storage/router/router.go:67-75 | The pools of the package report no error but a miss, so their reports never separate loop and comment; what they call a miss is the subject of `WriteBackRuns.OnlyMissesArePassedIff`. |
| Routers.DecimalIsTheNumber | storage/router/router.go:143 | The printed index is written in decimal digits that stand for it, without leading zeros. |
| Routers.DecimalIsInjective | storage/router/router.go:143 | Different indices print differently. |
| Routers.NameIsInjective | storage/router/router.go:143 | A numbered name determines the index and the name it was made of. |
| Routers.MergeKeepsMarks | storage/router/router.go:142-155 | A numbered name is a pool, or a cache, of the merged router iff the name was one in the router with that number. |
| Routers.MergeIsSequential | storage/router/router.go:126-159 | A merged router, nil routers among its parts, answers as its parts asked one after the other: same data, same source, same abort on a missing pool. |
| Routers.MergeOfClosedIsClosed | storage/router/router.go:126-159 | If the parts name only pools that exist, so does the merged router. |
| Routers.Router.Lookup | storage/router/router.go:60-81 | The pools are asked in order until one answers or is missing, each reply is one that its pool can give, and the result is the source and data of the reply that ended the search, or a miss once all were asked; with fewer than three lost commands it is the ordered answer. |
| Routers.Router.Search | storage/router/router.go:61-80 | The loop itself; as long as fewer than three commands are lost, every reply is its pool's ordered answer. |
| Routers.Router.UpdateCache | storage/router/router.go:86-95 | A block is fed to the workers iff its source is not a cache pool. |
| Routers.Router.Get | storage/router/router.go:98-107 | Returns data held by a destination of some lookup pool, and feeds exactly that chunk iff that pool is not a cache; feeds nothing on an error; with fewer than three lost commands the pool is the one of the ordered answer. |
| Routers.Router.Commit | storage/router/router.go:49-58 | One turn of a worker takes the oldest chunk and stores it at the routed host of every cache pool whose write was not lost, at no host but those of the cache pools, and nothing else anywhere; it loses one command for each pool that failed. |
| Routers.Router.WriteAll | storage/router/router.go:51-56 | The loop over the cache pools, in any order: a pool that fails does not keep the chunk from the others. |
| Routers.Router.Write | storage/router/router.go:52-55 | One pool: its routed host has the chunk, or nothing changed and the command was lost or the pool does not route the key. |
| Routers.AddPools | storage/router/router.go:142-145 | Adds each pool under its numbered name without replacing any. |
| Routers.AddNames | storage/router/router.go:147-150 | Appends the numbered lookup names in order. |
| Routers.AddMarks | storage/router/router.go:152-155 | Adds the numbered cache names and no others. |
| Routers.Merge | storage/router/router.go:126-159 | The merged router holds exactly the pools, lookup names and cache names of its parts under numbered names, and shares their pools. |
| WriteBacks.InvStep | storage/router/router.go:49-107 | Every command, hand-over and return keeps the servers in agreement, every call and every worker on the agreed block, and every key where it was. |
| WriteBacks.CommitWrites | storage/router/router.go:52-55 | A commit that is not lost puts the worker's block under its key on the routed server of the pool and changes nothing else anywhere; a lost one does that or nothing; either way the pool is done with, and no other worker or call changes. |
| WriteBacks.Transparency | storage/router/router.go:49-107 | In every reachable state the servers agree, all blocks in flight or returned are the agreed ones, and a call that gives no destination up succeeds iff its key was reachable at the start. |
| WriteBacks.CacheAnswersAreNotFed | storage/router/router.go:89-92 | No worker ever holds a block that a cache pool answered. |
| WriteBacks.AlwaysProgress | storage/router/router.go:42-58 | In every reachable state a scanning call can query or end, a call that offers its chunk can hand it to any idle one of the 100 workers, and every worker at work can write to each of its cache pools that are left, or finish: none meets a missing pool. |
| WriteBacks.CandidatesAnswer | storage/router/router.go:60-81 | The order in which the steps try destinations is the ordered lookup over pools. |
| WriteBackRuns.FoundNextTimeIffHeld | docs/flists/router.md:81 | A call made in a reachable state is, in every run that gives no destination up, answered no later than at a position of the lookup iff a server up to that position holds the block when the call is made. |
| WriteBackRuns.CleanIffNoLoss | storage/router/router.go:49-58 | A worker is marked clean iff no write to a server was lost since it was handed its chunk. |
| WriteBackRuns.CommitAll | storage/router/router.go:51-56 | A worker at work can write to all cache pools that it has left, and if nothing is lost its block then stands on the routed server of each of them and nothing else has changed: what `Routers.Router.Commit` does to the stores. |
| WriteBackRuns.WorkerCanStore | storage/router/router.go:49-58 | From every reachable state in which a worker has a chunk there is such a run; after it every cache pool that was left has the block on its routed server, and if nothing was lost since the hand-over every cache pool has. |
| WriteBackRuns.CleanIffNothingGivenUp | storage/router/pool.go:128-174 | A call is marked clean iff it never lost three queries in a row to one destination. |
| WriteBackRuns.WriteBackTakesEffect | docs/flists/router.md:81 | In every reachable state in which a worker has written its chunk to all cache pools and none of its writes was lost: a later call for the key that loses no three queries in a row is not refused, and is answered no later than by the routed server of a cache pool. |
| WriteBackRuns.HolderIsPassedIffGivenUp | storage/router/pool.go:128-174 | A call goes past a server that held the block when the call was made iff the run has the call's third lost query to it. |
| WriteBackRuns.OnlyMissesArePassedIff | storage/router/router.go:67-75 | Only servers without the block were passed iff the call gave up none that held it. |
| WriteBackRuns.RefusedGaveUpHolders | storage/router/router.go:60-81 | A call that is refused gave up every destination that held its key. |
| WriteBackRuns.SecondCallPassesCache | storage/router/router.go:98-107 | A run in which the first call has returned, its chunk is with a worker, and a second call for the block goes past the cache. |
| WriteBackRuns.HolderIsGivenUp | storage/router/pool.go:135-146 | A run in which the first pool holds the block, loses three commands, and the second pool answers: an instance of `WriteBackRuns.HolderIsPassedIffGivenUp`. |
| WriteBackRuns.StepLowers | storage/router/router.go:49-107 | Every step but a call lowers the work that is left to callers and workers; a call adds three steps a candidate, one a cache pool, and three. |
| WriteBackRuns.RunsAreBounded | storage/router/router.go:49-107 | No run is longer than its calls pay for. |
| Configs.Valid | storage/router/config.go:32-69 | Every fault of the configuration is reported and nothing else; none is reported iff the configuration is right. |
| Configs.ConfigOkIff | storage/router/config.go:32-69 | A configuration is right iff its lookup is not empty, all names of lookup and cache are pools, and all ranges and destinations parse. |
| Configs.MissingPools | storage/router/config.go:39-49 | Adds one fault for every name without a pool. |
| Configs.RuleFaults | storage/router/config.go:53-60 | Adds the faults of one range and destination, both if both are wrong. |
| Configs.PoolFaults | storage/router/config.go:51-62 | Adds the faults of all entries of a pool and no others. |
| Configs.MakeRouter | storage/router/config.go:72-107 | A router is made iff all ranges and destinations parse, and it holds exactly the configured pools, lookup and cache. |
| Configs.MakeRules | storage/router/config.go:88-101 | One rule for each entry, in some order, or none if an entry does not parse. |
| Configs.ValidMakesClosed | storage/router/config.go:32-107 | A valid configuration always makes a router, and every name in it denotes a pool of the router. |
| Configs.ValidRoutersNeverMissPools | storage/router/router.go:126-159 | Merging any routers of valid configurations, nil ones among them, gives a router that never reports a missing pool. |
| Configs.ThreeSchemes | storage/router/rule.go:7-45 | A destination is what its text parses to, and is accepted iff its scheme is `ardb`, `zdb` or `redis`. |
| Files.PaintOneMore | rofs/downloader.go:184-195 | Writing a further block at its place keeps all blocks written before, and nothing else changes but zeros that fill a gap. |
| Files.PaintedIsUnique | rofs/downloader.go:184-195 | The set of written blocks decides the whole file, its length too. |
| Files.AnyOrderIsInOrder | rofs/downloader.go:184-195 | Writing the blocks in any order leaves what writing them in order leaves. |
| Files.FullBlocksConcat | rofs/downloader.go:184-195 | If all blocks but the last are full, writing them in order puts their concatenation over the start of the file. |
| Files.File.Seek | rofs/downloader.go:186 | A seek that succeeds sets the position to the offset; otherwise the position stays and the failure is on record; a negative offset fails. |
| Files.File.Write | rofs/downloader.go:190 | A write stores the data at the position, or a first part of it when it fails, which is on record. |
| Downloads.SeekIsExact | rofs/downloader.go:186 | The 64-bit product passed to `Seek` never wraps: it is where the block begins. |
| Downloads.SoundStep | rofs/downloader.go:111-197 | Every step keeps each fed block in exactly one place, only checked data moving, and the channels, the recorded failure and the result in order. |
| Downloads.FileStep | rofs/downloader.go:184-195 | Every step keeps each written block in the file at its place, writes that fail too, as long as no fetched block is longer than the block size. |
| Downloads.EveryStateIsSound | rofs/downloader.go:111-197 | In every reachable state fed blocks are held, in hand, written or dropped, once each; blocks are dropped iff a failure is recorded; written data passed its check; a closed channel has no sender left. |
| Downloads.EveryBlockIsInPlace | rofs/downloader.go:184-195 | In every reachable state of a run that fetched no block longer than the block size, failing runs too, each written region holds its own block's data, and the rest is as before the download unless a write failed. |
| Downloads.SuccessWroteAll | rofs/downloader.go:135-198 | When the download returns nil, no block was dropped and each was written once, with data that passed its check. |
| Downloads.NilKeepsAll | rofs/downloader.go:111-132 | On the way to a nil return nothing is dropped: all data that was fetched is among the data written. |
| Downloads.SuccessWritesInOrder | rofs/downloader.go:135-198 | When the download returns nil, each block was written once with data that passed its check, and unless one of them is longer than the block size the file is what writing them in order leaves. |
| Downloads.SuccessIsConcat | rofs/downloader.go:135-198 | If the written blocks were full, a nil return leaves their concatenation followed by what an older file had beyond it; just the concatenation iff the old file was not longer. |
| Downloads.FailureIsTheFirst | rofs/downloader.go:111-132 | The failure that is returned is that of the first fetch of the run that failed, and its block was fed and not written. |
| Downloads.NilIffNoFetchFails | rofs/downloader.go:178-197 | A download whose writes succeed returns nil iff no fetch failed. |
| Downloads.SuccessExists | rofs/downloader.go:135-198 | Whenever each block has data that passes its check, some run fetches just that data and returns nil. |
| Downloads.StepDecreases | rofs/downloader.go:111-197 | Every step lowers a measure of unfed blocks, worker phases, open channels and the consumer. |
| Downloads.RunsAreBounded | rofs/downloader.go:135-198 | No run is longer than four steps a block, one a worker, and three. |
| Downloads.NextStepEnabled | rofs/downloader.go:111-197 | In every sound state some party can move: a fetch or a write that ends, or a named channel operation. |
| Downloads.NoDeadlock | rofs/downloader.go:135-198 | With at least one worker every reachable state before the return has a step other than a failing write. |
| Downloads.ChoicesAreFree | rofs/downloader.go:111-197 | Where the code leaves a choice nothing is ruled out: a fetch may fail or give any data that passes its check, a worker may offer or give up after a failure, the feeder may feed or stop, a write may stop anywhere. |
| Downloads.StuckIffNegative | rofs/downloader.go:144-158 | Between one worker and one a block start, as many as asked for or as there are blocks, and the download can begin, iff the setting is not negative. |
| Downloads.BeginsIffSettingFits | rofs/downloader.go:40-51 | With an unsigned setting the download can begin iff it is below 2^63. |
| Downloaders.FetchedIff | rofs/downloader.go:75-109 | Data passes iff it is what the answer decrypts and decodes to and it hashes to the block's key; no answer, one that does not decode and one with another hash each have their own error, and no other case has it. |
| Downloaders.Downloader.DownloadBlock | rofs/downloader.go:75-109 | The storage is asked once, for the block's own key and nothing else, and the result is what `Downloaders.FetchedIff` says of its answer. |
| Downloaders.Downloader.Download | rofs/downloader.go:135-198 | No blocks and no block size are refused, and a negative worker setting hangs, untouched and with nothing asked. Otherwise the call ends, having asked for some blocks, each at most once and under its own key: with nil iff no call on the file failed and every block was asked for and passed, with the first fetch that failed, or with a failed write. Outcome and file are those of a run of the protocol over data that the storage can answer for these blocks. |
| Downloaders.Downloader.Run | rofs/downloader.go:148-197 | The same of what follows the checks, by a scheduler that takes any enabled step. |
| Downloaders.TracksEnd | rofs/downloader.go:178-197 | When the consumer returns, the outcome fits what was asked and answered. |
| Downloaders.Downloader.Fetch | rofs/downloader.go:111-123 | The worker asks for the block that it holds, under that block's key; it takes the step `Fetched` with the data iff the answer passes, and the step `FetchFailed` otherwise, and the protocol allows either. |
| Downloaders.Downloader.WriteBlock | rofs/downloader.go:184-195 | Seeking and writing change the file as the protocol's write step says, or as its failing write step says iff a call on the file failed. |
| FileCaches.PathIsInjective | rofs/cache.go:26-40 | Different identities have different paths. |
| FileCaches.FilesAreSharded | rofs/cache.go:26-40 | Files stand two directories below the base, and two of them in one directory iff their hashes begin with the same four digits. |
| FileCaches.JoinedIsInjective | meta/file.go:27-33 | Keys of one length are determined by the bytes that are hashed. |
| FileCaches.SamePathSameContent | meta/file.go:27-33 | Files of the mounted flists that share a cache path have the same block keys, and the same bytes and size. |
| FileCaches.SizeIsExact | rofs/cache.go:98 | The size compared with the file's is not changed by the conversion to 64 signed bits. |
| FileCaches.SuccessServes | rofs/cache.go:103-117 | A download that succeeds leaves the file's own bytes followed by what lay beyond them. |
| FileCaches.ServedRightIffNotLonger | rofs/cache.go:98-107 | A hit or a successful download gives the file's own bytes iff the file found was shorter than it should be or already right. |
| FileCaches.CanBeServed | rofs/cache.go:98-107 | Every file that has a block can be served over whatever is found, if the stores have its blocks. |
| FileCaches.LongerFileIsKept | rofs/cache.go:98-107 | A file of one byte, found with two, is downloaded with success and keeps the second byte. |
| FileCaches.OkIffHitOrFetched | rofs/cache.go:74-118 | If no system call and no call on the file failed, the file is returned iff it was found with the right size or it has blocks and every answer that the download got passed its check. |
| FileCaches.SuccessCalls | rofs/cache.go:81-117 | A file that is returned was locked and its size looked at, then synced iff it was downloaded, and unlocked; no other system call was made. |
| FileCaches.Cache.OpenOrCreate | rofs/cache.go:58 | A missing file is created empty, unless its directory is missing, which is reported as such; the call and whether it was refused are on record. |
| FileCaches.Cache.Ensure | rofs/cache.go:56-71 | The loop opens the file once, or a second time after making its directory, and ends with the file, created empty if it was missing, or with the one failed open or directory as the last call on record and no file changed. |
| FileCaches.Cache.EnsureRight | rofs/cache.go:76-80 | Opening a file keeps every cached file right or short and replaces none; it opens at the start with the size it was found with, and fails only with the failed call on record. |
| FileCaches.Cache.Check | rofs/cache.go:43-54 | Opens the file, created empty if missing, and returns its size iff neither the open nor the stat failed; every cached file stays right or short. |
| FileCaches.Cache.CheckAndGet | rofs/cache.go:74-118 | A returned handle reads the file's own bytes from the start. It is returned on a hit with nothing asked of the storage and the file as it was, and otherwise after a download of the file's blocks, a sync and a rewind; every error is that of the one step that failed, with exactly the calls up to that step on record. A failed download leaves no file; no other file changes; every cached file stays right or short. |
| FileCaches.Cache.Serve | rofs/cache.go:91-117 | The same of what is done under the lock: on a hit only the stat can fail; otherwise the stat, the download, the sync or the seek, each with its own error. |
| FileCaches.Cache.LockAndServe | rofs/cache.go:81-117 | Without the lock nothing is done, and the failed lock is on record. |
| FileCaches.Cache.ServeAndUnlock | rofs/cache.go:85-117 | The lock is given back last, whatever came of the call. |
| FileCaches.Cache.Refill | rofs/cache.go:103-117 | A file of another size is downloaded, synced and rewound: returned iff all three succeed. |
| FileCaches.Cache.Finish | rofs/cache.go:109-117 | Sync and rewind: the handle at the start, or the error of the one that failed. |
| FileCaches.Cache.Fill | rofs/cache.go:103-107 | A download into the cached file leaves it right, or removes it; which of the two is decided by the recorded failures and answers. |
| FileCaches.Cache.Fetch | rofs/cache.go:121-129 | A download asks for the file's blocks with the default workers; one that succeeds is a run of the protocol over data that the storage can answer for these blocks; a file without blocks is refused. |
| Layers.ChildrenOf | meta/layer.go:15-32 | The merged listing has unique names; each is the last child of that name in the top directory, or else the first in the layers below. |
| Layers.LastWinsIsLast | meta/layer.go:17-19 | The top directory is stored under each name with the last of its children of that name. |
| Layers.FirstWinsIsFirst | meta/layer.go:21-27 | A directory below counts under each name with the first of its children of that name. |
| Layers.OverlayIsFirst | meta/layer.go:15-32 | A merged entry is the top directory's, or else that of the first directory from the top that lists the name; there is none iff no directory lists it. |
| Layers.AddMissing | meta/layer.go:21-27 | Adds the first child of each name that is not taken. |
| Layers.Entries | meta/layer.go:28-31 | Lists the map's entries, each once. |
| Layers.MergedDir.Children | meta/layer.go:34-37 | Merges once, and answers the same ever after. |
| Layers.GetMerge | meta/layer.go:39-48 | Collects what each lower layer has at the path, in order. |
| Layers.Get | meta/layer.go:50-72 | The loop finds the topmost entry, merged with those under it if it is a directory above other layers. |
| Layers.Layered | meta/layer.go:88-103 | A single store is returned as it is. Otherwise the union has a path iff some store that is not nil has it, and shows the entry of the one with the greatest index, a directory laid over what the stores before it have. |
| Layers.LaterHidesEarlier | meta/layer.go:88-103 | In such a directory, a name that the top store does not list is that of the store with the greatest index below it that lists the name; it is not listed iff no store lists it. |
| Layers.NestingOnTopIsFlat | meta/layer.go:39-103 | A layered store on top of others shows the same entries and listings as its layers on top of them. |
| Layers.LookupListing | meta/layer.go:15-72 | A directory of the union lists the union of what the layers list at the path, a file nothing. |
| Layers.NestingBelowIsFlatUnlessHidden | cmd/mount.go:59-66 | Layers on top of a layered store show the same as one flat list iff no file of the store below covers names that the upper directory does not list. |
| Layers.ReloadCanHide | cmd/mount.go:66 | Three tree stores for which the nested and the flat list differ. |
| Layers.UnionAgrees | meta/layer.go:15-72 | Over tree layers, the union lists a name iff the lookup finds it one level down, both with the attributes that the topmost layer with the name has for it. |
| Layers.ListingAgreesWithLookup | meta/layer.go:15-72 | Where a union shows a directory, its children are exactly the names that a lookup below it finds, with the same attributes. |
| Layers.AgreementIffNothingBehindFile | meta/layer.go:57-60 | Listing and lookup agree at a path iff it shows a directory or no layer lists anything there. |
| Layers.LookupPassesFile | meta/layer.go:50-72 | Two tree stores whose union shows a file at a path and finds an entry below it. |
| Layers.ListedChildIsSameIff | meta/layer.go:15-72 | The child that a union lists shows the same as the entry its path's lookup finds iff it is a file or lists all names that the layers list there. |
| Layers.ListedDirIsNotTheUnion | meta/layer.go:15-72 | Two tree stores for which they differ. |
| Layers.TreeStoreIsTree | meta/layer.go:15-72 | The store of any tree with unique names in its directories is all that is asked of a layer. |
| Walks.Visitor.Call | meta/store.go:323 | Each call is recorded with its path and verdict. |
| Walks.WalkDirectory | meta/store.go:322-349 | The loop makes the calls of the recursive walk and returns its error; a skip is not an error. |
| Walks.Walk | meta/store.go:309-320 | A root that is not found is an error without a call; a root directory never yields a skip; another root yields what the callback said. |
| Walks.WalkIsPrunedPreOrder | meta/store.go:322-349 | The walk calls what a left-to-right scan of the pre-order calls when a skipped directory jumps behind its subtree and a skipped leaf behind its parent's. |
| Walks.RunFailsLast | meta/store.go:326-328 | A failure ends the walk, is its result, and is the verdict of the last call only. |
| Walks.RunVisits | meta/store.go:322-349 | The calls go through the pre-order from left to right, never twice to the same position. |
| Walks.WalkVisitsOnce | meta/meta.go:117-130 | With unique sibling names no path is visited twice, the first failure is the result, and without skips and failures every node is visited, in pre-order. |
| Walks.WalkDirPrunes | meta/meta.go:122-125 | After a skip nothing below the skipped directory, or below the directory of the skipped leaf, is visited. |
| Walks.WalkMissesOnlyCuts | meta/store.go:322-349 | A walk that does not fail calls every path of the tree, except those in a skipped directory or in the directory of a skipped leaf. |
| Walks.WalkGoesInOrder | meta/store.go:322-349 | A walk over a tree with unique sibling names calls a directory before everything below it, and everything below one of its children before everything below a later one. |
| Walks.FlatIsTheTree | meta/store.go:322-349 | The pre-order lists every path of the tree and no other. |
| Flists.Lru.Add | meta/store.go:265 | The new entry is there; others stay as they were or are evicted. |
| Flists.DirIsReadableIff | meta/store.go:223-256 | A key leads to a directory iff its row reads as one and its ACI is not there or readable; the access is that of the ACI, or `0400` for user and group 1000. |
| Flists.ChildIs | meta/dir.go:87-108 | An inode is listed as the directory that its key leads to, or as a file or link with its ACI's access, or the default if that is missing or broken; a special one is not listed. |
| Flists.NodesAreInOrder | meta/dir.go:72-115 | The children are the nodes of all inodes that have one, and of no others, in the order of the inodes. |
| Flists.FirstNamedIsFirst | meta/store.go:285-298 | A child found by name is the one with the smallest index of that name. |
| Flists.SqlStore.GetAccess | meta/store.go:112-140 | Cached or not, the answer is the table's: the ACI, which is then cached, its absence, or that it cannot be read. |
| Flists.SqlStore.GetDirWithHash | meta/store.go:223-256 | Cached or not, the directory of the row; a missing ACI gives the default access, a broken one no directory. |
| Flists.SqlStore.GetChild | meta/dir.go:87-108 | One inode gives the directory its key leads to, a file or a link with its access or the default, or nothing if special. |
| Flists.SqlStore.GetChildren | meta/dir.go:72-115 | The loop lists the nodes of all inodes in order, special ones left out and a nil entry for each key that leads nowhere. |
| Flists.SqlStore.Get | meta/store.go:258-299 | Whatever is cached or was evicted, the answer is the one of the lookup without caches, what is cached stays true, and a directory found by its hash is cached; the scans that it falls back to must not meet a nil entry before the name. |
| Flists.SqlStore.Scan | meta/store.go:285-298 | The first child of the name, or none. |
| Flists.LinkedIsSafe | meta/dir.go:90-94 | If all sub-directory keys resolve, no lookup meets a nil entry. |
| Flists.Dir.Children | meta/dir.go:64-70 | The remembered children are the table's. |
| Flists.LookupResolves | meta/dir.go:90-94 | If all sub-directory keys resolve, so do those of every directory that a lookup returns. |
| Flists.WellFormedLookup | meta/store.go:258-299 | On a well-formed flist the lookup of a path is the walk down the tree from the root, component by component. |
| Flists.WellFormedListing | meta/dir.go:72-115 | One level down, the lookup finds the child that the directory lists under the name, or nothing. |
| Flists.WellFormedIsConsistent | meta/store.go:258-299 | Directories stored under their path's hash, carrying its last name and listed in their parent, are where the tree has them. |
| Flists.LookupIsTreeWalkIffConsistent | meta/store.go:258-299 | Lookup by hash with parent fallback is the walk down from the root, for all paths, iff every row found by a path's hash is the directory that the tree has there. |
| FlistTrees.DirIsFoundByHash | meta/dir.go:90-94 | Every directory that the tree of a well-formed flist reaches is the one its path's hash finds. |
| FlistTrees.ReachedIsAsked | meta/dir.go:72-115 | Every path that the tree of a well-formed flist has is in the set for which it is well formed. |
| FlistTrees.DepthBound | meta/dir.go:90-94 | No directory lies deeper than the table has rows. |
| FlistTrees.Unfolds | meta/dir.go:72-115 | Asking for children all the way down ends, with a finite tree of the same names. |
| FlistTrees.HasTree | meta/dir.go:72-115 | What a lookup on a well-formed flist returns has a finite tree below it to walk. |
| FlistTrees.LayerIsRegular | meta/layer.go:15-32 | In a well-formed flist a path's listing is the same on top of other layers and under them. |
| FlistTrees.LayerIsTree | meta/store.go:258-299 | In a well-formed flist, any path is found iff the directory above lists its last name, with the same entry and all below it. |
| FlistTrees.StackIsTrees | cmd/mount.go:59-66 | All layers of a stack of well-formed flists are what the results about unions ask for, at every path. |
| FlistTrees.MountListsWhatItFinds | meta/layer.go:15-72 | Where a stack of well-formed flists shows a directory, its listing has exactly the names that a lookup below it finds, with the attributes of the topmost flist that has the path. |
| FlistTrees.WalkCallsWhatLookupFinds | meta/store.go:309-349 | A walk from a directory of a well-formed flist that skips nothing and meets no failure calls its callback for exactly the paths of the set at or below it that a lookup finds, once each. |
| FlistTrees.SmallIsWellFormed | meta/store.go:258-299 | A table of a root, a directory and a file is well formed, under a hash that is injective on its three paths only. |

## Left out

- The FUSE callbacks, attribute copying, overlay mounts and inotify (`rofs/rofs.go`, `g8ufs.go`), the command line, daemon and signals (`cmd`): plumbing around the parts above.
- Cap'n Proto accessors: records are datatypes that follow `model.capnp`; a row that does not decode is an absent value.
- redis connections and their pooling, authentication, dialling and the DNS cache: a command either reaches a map of keys or is lost.
- blake2b, md5, xxtea, snappy: functions; what is assumed of them is said above.
- SQLite and LRU internals: a read-only map, and a map that may drop any entry.
- YAML, URLs and the regular-expression engine: the URL parser is a parameter, the range expression a predicate on strings.
- Strings of paths: a path in an flist is the sequence of its names, so cleaning, `.` for the root and joining with slashes are not modelled; nor is cleaning of the cache's base path.
- User and group names, and the fields of `Info` other than size and block size: copies.
- `sync.Once` and the mutexes: memoised values and connection maps are updated by one caller at a time.
- The floating-point conversion of the worker counts: the block count is below 2^29 and exact, and rounding a larger or negative setting does not move it across the block count or zero.
- Goroutines that are left blocked when the consumer's own write fails: the state after that return is reachable and its blocks are accounted for, but nothing is claimed about their end.
- Ranges.In: a key shorter than the lower bound of a range is excluded by a precondition; the code panics, or compares bytes beyond the key's end if its slice has the capacity.
- Pools.ScanPool.Routes: requires the key to be long enough for every rule, since the loop tests all of them; `In`, `Route` and `Set` only for the rules up to the first that matches.
- Pools.ScanPool.Connect: connections are kept by the value of the destination, where the code keeps them by its address; equal destinations then share a connection that dials the same host.
- Routers.Router.Commit: takes the oldest chunk of a queue, where the code hands chunks over an unbuffered channel; the hand-over itself is a step in `WriteBacks`.
- WriteBackRuns.WriteBackTakesEffect: speaks of commits that lost no write and of calls that lost no three queries in a row; a lost write may leave a cache pool without the block.
- Downloaders.Downloader.Download: requires the limits that the stored format puts on block count and block size; a call that never returns is the result `Hangs`.
- FileCaches.Cache.CheckAndGet: closing and removing the file of a failed download is one step that succeeds, no second handle is open on it, and the process does not crash in between; with any of these an opener can see a file of full size with holes.
- Flists.SqlStore.Get: a nil entry that a scan meets before the name is a run-time panic in the code, and a precondition here.
- Walks.Walk: runs over a finite tree; `FlistTrees.HasTree` gives that tree for every path of a well-formed flist.
