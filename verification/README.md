# true-dns, modelled and proved in Dafny

true-dns is a local DNS proxy: it answers from an override table or a response cache, routes what is left
to DNS-over-HTTPS or to the system's resolvers, and probes the addresses of polluted answers. This project
models its concurrent and stateful parts and proves properties of them. `dafny verify dfyconfig.toml`
checks everything.

Concurrent parts are step systems: a state, a step for each stretch of code between two points where
another goroutine or process can come in, and theorems about every run. Objects with fields are classes
whose methods are proved against specification functions, and the theorems are about those functions.

| file | models |
|---|---|
| `Probing`, `ProbeSafety`, `ProbeResults`, `ProbeEviction`, `ProbeTiming` | any number of `Check` calls inside any number of `Filter` calls: singleflight, where results come from, result cache and what eviction costs, four worker slots, latency |
| `Prober` | the prober object: the two critical sections of `Check`, the sweep and the eviction |
| `Filter`, `AnswerFilter` | how probe results reshape an address list and an answer section |
| `LruCache`, `CacheRuns`, `CacheTtl`, `CacheKey` | the response cache as an object, whole runs of it, its TTL arithmetic, its keys |
| `SchemaPattern`, `SchemaText` | recognising the version line and rewriting the configuration text |
| `SchemaLock`, `SchemaHolders`, `SchemaRuns` | many processes upgrading one file: lock file and who holds it, stale locks, temporary file, rename, crashes |
| `Engine`, `EngineHistory`, `EngineRuns`, `EngineWitnesses`, `Failover` | queries, reloads and flushes interleaved, and what each outcome owes to the steps before it; the choice among DoH upstreams |
| `Matcher` | the polluted-domain matcher |
| `Override`, `OverrideAnswer`, `StringOrder`, `FirstOccurrences` | the override table and the answers made from it |
| `ResolvConf`, `Utf8`, `SavedText` | the resolv.conf text, what recording it does to it, and discovering upstreams from either |
| `Takeover`, `TakeoverRuns` | taking the system DNS over on the resolv.conf path and giving it back |
| `Text`, `Messages`, `Prelude` | string helpers, DNS messages, shared definitions |

## What the proofs found

Each of these is a difference between the code and its comments, or a limit of a promise. The code is
modelled as it is, and the lemmas named show the case and say how far the promise goes.

- The eviction loop of the cache, described as dropping expired entries first, looks at the tail only; with
  the `if` after it, it always drops exactly the tail (`LruCache.Cache.MakeRoom`, `CacheRuns.ExpiredElsewhereStays`).
- A version-0 file whose first version line writes zero another way (`00`) and which has a later line `0`
  is still version 0 after migration, and is rewritten again and again; exactly these files are
  (`SchemaText.MigratedVersion`, `SchemaText.EnsuredIdempotent`, `SchemaText.ShadowedExample`).
- Two processes that both find a lock stale can both get inside; the file is then stamped twice
  (`SchemaRuns.BothInside`, `SchemaRuns.RaceStampsTwice`). Processes exclude each other in exactly the runs in
  which nobody removes the lock file of a process inside (`SchemaRuns.ExclusionIff`).
- Question types, and classes, without a name in the DNS library all share one part of the cache key
  (`CacheKey.KeysShared` says exactly which questions share one, `CacheKey.UnregisteredTypesCollide` shows two).
- When two different address records of an answer have the same address text, filtering loses one of them;
  nothing is lost in exactly the other cases (`AnswerFilter.ConflictLoses`, `AnswerFilter.PreferConserves`,
  `AnswerFilter.DropConserves`).
- Override answers read before a reload and stored after its flush stay cached under the new configuration, and
  nothing bounds how many there are; no other old entries survive but those of at most 512 routed queries
  (`EngineWitnesses.StaleOverridesUnbounded`, `EngineRuns.ReloadSafety`).
- A query that falls back to DoH is counted as a system query and as a DoH query, and no counter keeps
  the number of such queries (`EngineWitnesses.DohFallbackCountedTwice`, `EngineRuns.CountersAtRest`).
- On the upper half of its 64-bit counter the failover start is a negative index unless the distance to
  the wrap-around is a multiple of the number of upstreams (`Failover.StartIsIndex`, `Failover.LastValueFails`).
- The takeover record passes the old resolv.conf through JSON, so a text that is not well-formed UTF-8 comes
  back changed (`Utf8.RecodeIff`, `TakeoverRuns.Latin1NotRestored`).
- Restoring and clearing the takeover record are two steps, and so are checking and setting it; `run` checks
  nothing. Each of these can lose the original resolv.conf for good (`TakeoverRuns.LateClearLoses`,
  `TakeoverRuns.SetupRaceLoses`, `TakeoverRuns.UnguardedRunLoses`); it is never lost in exactly the runs whose
  takeovers are all of the original while nobody is about to clear the record (`TakeoverRuns.NeverLostIff`). An
  empty original is never written back (`TakeoverRuns.EmptyOriginalStays`).

## Model

| member | source | states |
|---|---|---|
| ProbeSafety.AtMostOneDial | internal/probe/probe.go:78-120 | in every run at most one thread is dialling an address or has dialled it without having published yet |
| ProbeSafety.RunSound | internal/probe/probe.go:78-120 | `checks` counts the published dials, the result cache keeps its bound, no `Filter` has more than four slots in use, and every result returned belongs to a dial that ended after the call began or whose lifetime covers the call (`ProbeResults.ResultsAreDials` says whose address it dialled) |
| ProbeResults.ResultsAreDials | internal/probe/probe.go:78-120 | told by the steps of any run: a worker started for an address returns how a dial by a worker started for the same address ended, published after its own call of `Check` or begun less than a cache lifetime before it |
| ProbeResults.FilterSeesItsDials | internal/probe/probe.go:137-158 | what `Filter` works with when its workers are done is, position by position and for as many positions as `max` allows, how dials of its addresses ended |
| ProbeSafety.SharedResult | internal/probe/probe.go:86-119 | whoever dials or joins a flight returns exactly the result published on it, whatever happens in between |
| ProbeSafety.DialsOfOneAddressAreSerial | internal/probe/probe.go:81-118 | dials of one address never overlap: the next one registers after the previous one was published |
| ProbeSafety.RedialOnlyAfterTtl | internal/probe/probe.go:82-85 | with caching on and no more addresses than the cache holds, an address is dialled again only for a caller whose `now` is a whole lifetime after that of the last dial |
| ProbeEviction.LostOnlyWhen | internal/probe/probe.go:106-114 | with any number of addresses: a result answers from the cache until some caller has come a lifetime later or at least 4095 other addresses have results whose `now` is no earlier, and an address is dialled again only for a caller a lifetime later or after one of these |
| ProbeEviction.WhyGone | internal/probe/probe.go:198-218 | a store removes another address's entry only if it had expired for the storing caller or was the oldest of a full cache |
| ProbeEviction.NoneExpiredLeft | internal/probe/probe.go:106-113 | a store that had to make room leaves no other entry that has expired for the storing caller |
| ProbeSafety.HistoryFromStart | internal/probe/probe.go:78-120 | both history properties for every run from the initial state |
| ProbeSafety.NoDeadlock | internal/probe/probe.go:86-90 | while any call is unfinished some thread can move, even when all slots are held by waiters and across several `Filter` calls |
| ProbeSafety.RunsEnd | internal/probe/probe.go:145-158 | the threads' steps are bounded by the work left, so no run of a fixed set of calls goes on for ever |
| Probing.CacheStaysBounded | internal/probe/probe.go:106-114 | storing a result never takes the result cache over 4096 entries, whichever of equally old entries is evicted |
| Probing.InvStep | internal/probe/probe.go:78-158 | every step of every thread keeps the protocol invariant relating inflight map, flights, cache, threads and slots |
| ProbeTiming.RoundAdds | internal/probe/probe.go:145-158 | the list-scheduling step: while a worker waits for a slot, every full timeout four more workers have had theirs |
| ProbeTiming.FilterLatency | internal/probe/probe.go:145-158 | one `Filter` over n probed addresses ends within ceil(n/4) timeouts of its start, though its workers may wait for other calls' dials |
| ProbeTiming.TwoFamiliesLatency | internal/probe/probe.go:5-8 | the documented worst case 2 * ceil(max_ips/4) * timeout for the A and AAAA families in series |
| ProberObject.Prober.Enter | internal/probe/probe.go:81-93 | the first critical section: hit exactly when fresh, else join the flight of the address, else register a new one |
| ProberObject.Prober.Publish | internal/probe/probe.go:104-119 | the second critical section counts, caches within the bound, publishes the result and removes the flight, all at once |
| ProberObject.Prober.SweepExpired | internal/probe/probe.go:198-204 | exactly the entries that have not expired remain |
| ProberObject.Prober.EvictOldest | internal/probe/probe.go:208-218 | exactly one entry goes, and none was inserted before it |
| Filter.SortStablySorts | internal/probe/probe.go:178-187 | the model's sort is sorted for the code's comparison and keeps tied elements in order |
| Filter.StableSortUnique | internal/probe/probe.go:178-187 | any two stable sorts of one input agree, so the library's algorithm does not matter |
| Filter.Filter | internal/probe/probe.go:133-195 | the loops compute the reshaping function whose properties follow |
| Filter.PreferPermutes | internal/probe/probe.go:177-193 | prefer returns a permutation of its input with the unprobed tail in place |
| Filter.PreferOrder | internal/probe/probe.go:179-187 | prefer returns the probed addresses, each position once: reachable before unreachable, of two reachable ones the faster first, otherwise in input order; those not probed stay in place |
| Filter.DropKeeps | internal/probe/probe.go:170-176 | drop returns the original when nothing probed is reachable, otherwise exactly the reachable and the unprobed addresses in order; never empty for a non-empty input |
| AnswerFilter.FilterAnswerIps | internal/core/probe.go:25-56 | the loops compute the answer function whose properties follow |
| AnswerFilter.AnswerShape | internal/core/probe.go:25-56 | an answer with at most one address per family is left alone; otherwise it becomes its other records, then the IPv4 and then the IPv6 family, each as the mode orders: drop keeps, in order, exactly what was reached or not probed, or all if nothing was reached; prefer puts the reached first by latency, then those not reached, then those not probed |
| AnswerFilter.SelectPositions | internal/core/probe.go:30-41 | each kind of record is taken from the answer in order, each record once |
| AnswerFilter.LastWins | internal/core/probe.go:33-37 | where records share an address text the last one stands for all; without a clash the families are those of the answer |
| AnswerFilter.PreferConserves | internal/core/probe.go:25-56 | prefer keeps the multiset of records if and only if the answer is left alone or no two different records share an address text |
| AnswerFilter.DropConserves | internal/core/probe.go:25-56 | drop yields a sub-multiset that empties no family, for all probe outcomes, if and only if the same condition holds |
| AnswerFilter.ConflictLoses | internal/core/probe.go:33-37 | of two clashing records one is lost whatever the probes say |
| AnswerFilter.OthersFirst | internal/core/probe.go:47-54 | all non-address records survive in order, in front, and only address records follow |
| LruCache.Cache.constructor | internal/cache/cache.go:33-40 | a new cache is empty and well-formed |
| LruCache.Cache.Get | internal/cache/cache.go:55-79 | list and map agree and the new recency sequence and the result are the specified ones, for every clock value |
| LruCache.GotIsLive | internal/cache/cache.go:55-79 | the result is the message of the key's entry, if that has not expired, with the TTLs of its non-OPT answer and authority records set and nothing else changed, and nothing otherwise |
| LruCache.Cache.Put | internal/cache/cache.go:83-111 | the same for a store, with the capped TTL |
| LruCache.Cache.Store | internal/cache/cache.go:92-110 | known key overwritten and moved to the front, new key in front with at most the tail dropped |
| LruCache.Cache.Overwrite | internal/cache/cache.go:92-97 | the entry is changed in place and nothing else changes but the order |
| LruCache.Cache.MakeRoom | internal/cache/cache.go:99-108 | loop and `if` together remove exactly the tail of a full list, for every clock value |
| LruCache.Cache.RemoveLocked | internal/cache/cache.go:128-132 | the element leaves list and map, which still agree |
| LruCache.Cache.Flush | internal/cache/cache.go:114-119 | everything goes but the counters |
| LruCache.Cache.Stats | internal/cache/cache.go:122-126 | size and counters of the abstract state |
| LruCache.AgedCopy | internal/cache/cache.go:72-78 | the message handed out is a copy of the stored one with the TTL of each non-OPT answer and authority record set and nothing else changed; the stored one is not touched |
| LruCache.SetTtls | internal/cache/cache.go:136-147 | exactly the non-OPT records of both sections get the new TTL |
| CacheRuns.LruGuarantee | internal/cache/cache.go:55-111 | over whole runs a key stored, not expired and not flushed is absent only if at least max distinct other keys were put or hit since its last use; size never exceeds max and keys are distinct |
| CacheRuns.LruExact | internal/cache/cache.go:55-111 | while no Get meets an expired entry, present if and only if fewer than max distinct other keys were used |
| CacheRuns.HitReturnsLastPut | internal/cache/cache.go:55-79 | a hit returns the last message put under the key, only TTLs rewritten, and only before it expires |
| CacheRuns.GetsCounted | internal/cache/cache.go:60-70 | hits and misses add up to the number of Gets |
| CacheRuns.HitsCounted | internal/cache/cache.go:70 | the hits are exactly the Gets that were answered |
| CacheRuns.ExpiredElsewhereStays | internal/cache/cache.go:98-108 | a full cache drops an unexpired tail although an entry elsewhere has expired |
| CacheTtl.TtlFromMsg | internal/cache/cache.go:153-188 | the result is 0 for what is not cacheable, else the least of the TTLs of all records but OPT and of the MINIMUM of every SOA (sections 3 and 5 of RFC 2308), capped |
| CacheTtl.TtlUnique | internal/cache/cache.go:153-188 | that specification determines the TTL |
| CacheTtl.CacheableIff | internal/cache/cache.go:154-187 | positive if and only if the response is whole, bears a TTL, and neither the cap nor a TTL nor an SOA's MINIMUM is zero |
| CacheTtl.HitTtlExact | internal/cache/cache.go:73-76 | the conversion to uint32 is harmless if and only if the seconds fit 32 bits |
| CacheTtl.TtlEndToEnd | internal/cache/cache.go:64-89 | with the TTL computed under any cap, capped again by Put, and read before expiry: in the message handed out every record but OPT bears the time left rounded up to a second, at least 1, fitting uint32, at most the record's own TTL and an SOA's MINIMUM; everything else is as stored; no 64-bit overflow |
| CacheTtl.HitTtlOverRuns | internal/core/engine.go:273-275 | the same of every hit in whole runs of the cache, whatever cap reloads have given the engine since the cache was made |
| CacheTtl.HitTtlsDecrease | internal/cache/cache.go:64-77 | of two hits on one stored entry in a run of the cache, the later one shows no record with a larger TTL |
| CacheKey.KeysShared | internal/cache/cache.go:43-51 | exactly which questions share a key, although names may contain the separator |
| CacheKey.RegisteredKeysInjective | internal/cache/cache.go:43-51 | over registered types and classes keys agree if and only if type and class agree and names agree up to case |
| CacheKey.UnregisteredTypesCollide | internal/cache/cache.go:47-49 | two unregistered types with one name and class share a key |
| SchemaPattern.RecogniserIsPattern | internal/config/schema.go:39 | the recogniser accepts a line with these digits if and only if the line decomposes as the regular expression says |
| SchemaPattern.TrueDnsIsProper | internal/config/schema.go:151-160 | the migration's own line reads as version 1, its comment as no version line |
| SchemaText.DetectSchemaVersion | internal/config/schema.go:124-135 | the loop finds the first version line and reads its digits with 64-bit wrap-around |
| SchemaText.DecimalReads | internal/config/schema.go:127-131 | a number written in decimal is read as itself, up to 64-bit wrap-around |
| SchemaText.MigrateV0ToV1 | internal/config/schema.go:141-164 | the text written is the migrated text |
| SchemaText.ReplaceFirst | internal/config/schema.go:148-155 | exactly the first line that says 0 is replaced in place, if there is one |
| SchemaText.MigrateChangesOneThing | internal/config/schema.go:146-162 | either exactly one line changes and all others are identical in order, or the original bytes follow the stamp unchanged |
| SchemaText.MigratedVersion | internal/config/schema.go:137-164 | a version-0 file becomes version 1 if and only if its zero line is not shadowed by an earlier version line |
| SchemaText.EnsureSchemaLocked | internal/config/schema.go:78-107 | the version loop terminates with the specified text and outcome, error cases included |
| SchemaText.VersionDecides | internal/config/schema.go:83-106 | a file that assigns a version above 1 is refused, one that assigns 1 is left alone, one that assigns 0 is migrated, and one whose number wraps to a negative is refused |
| SchemaRuns.ReadDecides | internal/config/schema.go:79-106 | likewise what a process inside does next with the file it reads |
| SchemaText.EnsuredIdempotent | internal/config/schema.go:77-107 | a second upgrade changes nothing if and only if the first was not on a shadowed file |
| SchemaText.ShadowedExample | internal/config/schema.go:148-155 | every wording has a file that stays at version 0 |
| SchemaRuns.AlwaysWhole | internal/config/schema.go:203-238 | in every run with crashes the file is the original migrated some number of times, never a part of it, and a process reports success if and only if it renamed |
| SchemaRuns.FileChangesAtOnce | internal/config/schema.go:229-237 | the file changes only by a rename, and then to the whole prepared text |
| SchemaRuns.GivesUpAfterSix | internal/config/schema.go:242-255 | a rename is given up only after six attempts and 2250 ms, with the file untouched and the temporary file gone |
| SchemaHolders.LockIsHeld | internal/config/schema.go:172-175 | in every run a lock file that exists belongs to a process inside or to one that has crashed |
| SchemaHolders.NobodyInTheWay | internal/config/schema.go:172-175 | when nobody is inside and nobody has crashed, a new process is inside after its first attempt |
| SchemaHolders.OpenIff | internal/config/schema.go:172-175 | in runs in which nobody removes the lock file of a process inside and nobody has crashed, an attempt succeeds if and only if nobody is inside |
| SchemaHolders.LookDecides | internal/config/schema.go:177-187 | a process that finds a lock file goes to remove it if and only if its holder opened it more than ten seconds ago, and otherwise gives up if and only if it has itself waited for more than ten seconds |
| SchemaHolders.TimeoutAfterTen | internal/config/schema.go:170-184 | nobody is turned away by a timeout before ten seconds have gone by since it started |
| SchemaRuns.ExclusionIff | internal/config/schema.go:168-190 | over every run with crashes: processes exclude each other inside the upgrade, and would with any next opening of the lock file, if and only if no process ever removes the lock file of one inside |
| SchemaRuns.ConcurrentEnsure | internal/config/schema.go:67-107 | in every such run, with any number of processes, crashes and recoveries of stale locks: at most one inside, at most one rewrite, the file is the original or the result of one migration, success means the latter |
| SchemaRuns.PromptEnsure | internal/config/schema.go:168-190 | in particular whenever no lock file gets older than ten seconds |
| SchemaHolders.BriskEnsure | internal/config/schema.go:168-190 | in particular when nobody crashes and nobody stays inside for more than ten seconds |
| SchemaRuns.CrashRecovery | internal/config/schema.go:168-190 | after any such run, any number of processes one after the other, each crashing anywhere or recovering a stale lock, leave what a crash-free run makes of the original as soon as one succeeds |
| SchemaRuns.CanRecover | internal/config/schema.go:168-190 | from every state with a file of a known version a new process can run to success, whatever lock is left behind |
| SchemaRuns.BothInside | internal/config/schema.go:177-181 | two processes that both judged a lock stale can both be inside |
| SchemaRuns.StampTwice | internal/config/schema.go:159-162 | migrating a stamped file without version line a second time stamps it again |
| SchemaRuns.RaceStampsTwice | internal/config/schema.go:177-181 | so for every file without a version line some run stamps it twice |
| SchemaLock.HonestRun | internal/config/schema.go:168-255 | every step of every process keeps the invariant on file, temporary files and results |
| Engine.InvRun | internal/core/engine.go:158-280 | every run keeps the engine invariant: one generation, sound cache, sound hits, bounded tokens, exact counters |
| EngineHistory.AnswersAreDelivered | internal/core/engine.go:228-277 | told by the steps of any run: a routed client gets the message an upstream gave for its query, with its own id and question, an OPT record added exactly when it sent one and there is none, and the addresses filtered exactly when the configuration the query was routed under has a prober, the name is polluted and the message is no error; an override answer is likewise what the table gave |
| EngineHistory.EveryUpstreamTried | internal/core/engine.go:212-265 | DoH is asked alone in full mode or for a polluted name, else the system upstreams, then the public fallback if there is one, then DoH if the configuration says so; a query waits for the first of these that has not failed, and fails exactly when all have |
| EngineHistory.SaturatedIff | internal/core/engine.go:200-207 | a query is turned away if and only if 512 others are past the semaphore and not done |
| EngineHistory.HitsAreDelivered | internal/core/engine.go:168-175 | the message of a hit is one that an upstream or the override table gave to the query that stored it, asked for the same key, with id, question, OPT record and TTLs adapted |
| EngineRuns.OneGeneration | internal/core/engine.go:210-252 | whatever reloads come in between, a routed query uses mode, matcher, upstreams and prober of one configuration and takes a fallback only where that configuration has it |
| EngineRuns.TokensBounded | internal/core/engine.go:201-207 | never more than 512 queries are past the semaphore |
| EngineRuns.CountersAtRest | internal/core/engine.go:158-265 | when every query is answered, queries = format errors + hits + override answers + saturated + system + DoH less DoH fallbacks, and each counter is the number of queries with that outcome |
| EngineRuns.HitsAnswerTheQuestion | internal/core/engine.go:168-175 | a cache hit is the finished response to the same question with id and question rewritten and the TTLs of its non-OPT answer and authority records set, its additional section unchanged but for an OPT record added when the client sent one and there is none |
| EngineRuns.ReloadSafety | internal/core/engine.go:128-144 | after a swap and a later flush, whatever further reloads come in between: every entry of an older generation was written by a query that at the swap had read that generation and not stored yet, routed or with an override answer; the routed ones held their tokens, so at most 512 routed entries are left |
| EngineRuns.StaleOverride | internal/core/engine.go:179-198 | an override answer that has been read can outlive a reload and its flush without holding a token |
| EngineWitnesses.StaleOverridesUnbounded | internal/core/engine.go:179-198 | for every n some run from the start leaves n old override answers in the cache after a reload and its flush |
| EngineWitnesses.DohFallbackCountedTwice | internal/core/engine.go:230-252 | a run in which one query is counted as a system query and as a DoH query |
| EngineRuns.NeverBlocked | internal/core/engine.go:158-280 | no unfinished query waits for another one |
| EngineRuns.QueryEnds | internal/core/engine.go:158-280 | a query takes at most eleven steps in any run |
| Failover.Rotor.Draw | internal/core/engine.go:388 | the counter values are handed out one after the other, with wrap-around |
| Failover.Rotor.Exchange | internal/core/engine.go:386-397 | upstreams are asked in the rotation's order up to the first success, each at most once; an invalid start panics; no upstreams is an error |
| Failover.FirstOkSpec | internal/core/engine.go:366-397 | asking in any order that reaches everybody, the rotation or the order in which racing replies arrive: an error if and only if all fail, and then that of the one asked last, otherwise the answer of one before which all failed |
| Failover.RotationPermutes | internal/core/engine.go:389-390 | a rotation visits every upstream exactly once |
| Failover.StartsSpread | internal/core/engine.go:388 | n consecutive counter values below the sign bit start at n different upstreams |
| Failover.StartIsIndex | internal/core/engine.go:388 | the start is a valid index if and only if the counter is below the sign bit or its distance to the wrap-around is a multiple of n |
| Failover.LastValueFails | internal/core/engine.go:388 | with two upstreams or more the last counter value before the wrap-around starts at -1 |
| Matcher.Matcher.Reset | internal/matcher/matcher.go:37-68 | succeeds if and only if every pattern is valid, then holds the parsed set; otherwise the old set stays |
| Matcher.Matcher.Match | internal/matcher/matcher.go:71-95 | the suffix walk decides the subdomain relation on label lists (section 3.1 of RFC 1034) |
| Matcher.MatchesIff | internal/matcher/matcher.go:71-95 | a name is matched if and only if it is not empty and some pattern covers it: a star everything, a plain pattern the domain and whatever ends in a dot and the domain, a wildcard only the latter |
| Matcher.PlainIs | internal/matcher/matcher.go:42-62 | a domain written in any case, with or without a trailing dot and space around it, is a plain pattern for the domain |
| Matcher.WildcardIs | internal/matcher/matcher.go:51-57 | with `*.` in front it is a wildcard for what is below the domain |
| Matcher.StarAndBlank | internal/matcher/matcher.go:42-49 | a star alone means everything, a blank entry nothing |
| Matcher.InvalidIff | internal/matcher/matcher.go:50-61 | a pattern is refused if and only if it has a star that neither stands alone nor in a leading `*.` with something behind it |
| Matcher.CleanIs | internal/matcher/matcher.go:72-73 | a name written in any case, with or without a trailing dot and space around it, is looked up as itself |
| Matcher.OrderIrrelevant | internal/matcher/matcher.go:41-63 | neither order nor repetition of patterns matters |
| Matcher.PlainIsRootAndWildcard | internal/matcher/matcher.go:5-8 | a plain entry matches the name itself and what its wildcard matches |
| Matcher.SubdomainNamesMatchToo | internal/matcher/matcher.go:71-95 | matching is closed under adding labels on the left |
| Matcher.CaseIgnored | internal/matcher/matcher.go:72 | names that differ in the case of letters only match alike |
| Matcher.TrailingDotIgnored | internal/matcher/matcher.go:73 | one trailing dot makes no difference |
| Text.LowerIs | internal/matcher/matcher.go:72 | lower-casing leaves no upper-case letter and identifies exactly the texts that differ in the case of letters only |
| Text.FieldsAreWords | internal/override/override.go:59 | the fields of a line are its words, whatever space is between and around them |
| Text.TrimSpaceIs | internal/override/override.go:52-57 | trimming takes off exactly the space around a text |
| Override.Table.LoadSource | internal/override/override.go:47-89 | the source is replaced by the parse of its lines if and only if it was read completely; metadata and error are kept up to date |
| Override.Table.LoadFiles | internal/override/override.go:145-165 | the table after a list of loads, and the last failure as the recorded error |
| Override.Table.RefreshMeta | internal/override/override.go:92-103 | sources in ascending order, entries the number of (source, host) listings |
| Override.Table.Lookup | internal/override/override.go:116-134 | first occurrences over the sources in ascending order |
| Override.CollectedIs | internal/override/override.go:67-75 | a source lists exactly the hosts it gives an address, each with its distinct addresses in order |
| Override.LineFields | internal/override/override.go:51-59 | what is read from a line are the words in front of its first comment sign |
| Override.FileGives | internal/override/override.go:51-76 | a file gives a host one address for each field behind an address that names it, in the order of lines and fields, always the address its line starts with, and no others |
| Override.HostNameIs | internal/override/override.go:68 | a field names a host in lower case and without a trailing dot |
| Override.TableIsHistory | internal/override/override.go:77-84 | the table holds for each source the parse of its latest complete read, and nothing else |
| Override.LookupIsHistory | internal/override/override.go:116-134 | after any loads a lookup gives the first occurrences in the concatenation of the latest complete reads, sources ascending |
| Override.SourceOrderIrrelevant | internal/override/override.go:77-84 | loads of different sources commute |
| Override.FailedReadIrrelevant | internal/override/override.go:78-82 | a failed read leaves no trace in the table |
| FirstOccurrences.UniqueInOrder | internal/override/override.go:125-132 | deduplication gives exactly the members, once each, in the order of their first occurrences |
| StringOrder.SortedIsOrder | internal/override/override.go:120-124 | sorting any listing of the sources gives their one ascending list |
| StringOrder.LessIs | internal/override/override.go:124 | the order of the sources is the lexicographic one |
| OverrideAnswer.HasFamily | internal/core/engine.go:290-304 | true if and only if some address is of the asked family |
| OverrideAnswer.Synthesize | internal/core/engine.go:307-334 | the loop builds the specified answer |
| OverrideAnswer.AnswerIsFamily | internal/core/engine.go:287-334 | the answer lists exactly the addresses of the asked family, each as often as it is listed and in the same order, as records of the asked name and type with the configured TTL |
| OverrideAnswer.EmptyIff | internal/core/engine.go:287-304 | it is empty if and only if the query falls through to routing |
| OverrideAnswer.RecordTtl | internal/core/engine.go:311-314 | the record TTL is at least 1, fits uint32, and is the configured time in whole seconds when that fits, or 1 below a second |
| ResolvConf.TrueDnsIsProper | internal/platform/platform_linux.go:88-89 | the two lines the code writes first are single lines, the first names no server and survives, the second names the loopback address |
| ResolvConf.TakeOver | internal/platform/platform_linux.go:87-97 | the loop writes the rewritten text |
| ResolvConf.RewrittenLines | internal/platform/platform_linux.go:87-97 | the lines of the new file are its own two and then exactly the surviving lines in order |
| ResolvConf.KeptMembers | internal/platform/platform_linux.go:90-96 | a line survives if and only if it is not blank and does not begin with `nameserver` |
| ResolvConf.KeptPositions | internal/platform/platform_linux.go:90-96 | the kept lines stand in their order, each once |
| ResolvConf.SurvivesIff | internal/platform/platform_linux.go:91-92 | a line survives if and only if it has a word and its first word does not begin with `nameserver` |
| ResolvConf.OnlyLoopback | internal/platform/platform_linux.go:87-97 | the rewritten file's nameserver list is exactly the loopback address |
| ResolvConf.RewrittenDiffers | internal/platform/platform_linux.go:86-97 | rewriting once or twice never gives the original back |
| Utf8.RecodeIff | internal/platform/platform.go:117-129 | a text survives the trip through the JSON payload if and only if it is well-formed UTF-8 (section 4 of RFC 3629) |
| Utf8.ValidIff | internal/platform/platform.go:117-129 | well-formed texts are exactly the encodings of sequences of Unicode scalar values (section 3 of RFC 3629) |
| Utf8.RecodeKeeps | internal/platform/platform.go:117-129 | the trip keeps every well-formed beginning |
| Utf8.RecodeReplaces | internal/platform/platform.go:117-129 | and replaces a byte that begins no encoding by U+FFFD |
| Utf8.RecodeTwice | internal/platform/platform.go:62-93 | saving and loading the record a second time changes nothing |
| Utf8.Latin1Changes | internal/platform/platform.go:117-129 | a Latin-1 comment does not survive |
| SavedText.NameserversRecode | internal/platform/platform_linux.go:183-188 | the record lists the original's nameservers, each recoded |
| SavedText.RecordsDiffer | internal/platform/platform_linux.go:82-86 | what a second or third takeover would record is never what the first one recorded |
| ResolvConf.NormalizeAddrs | internal/platform/platform.go:172-202 | the usable addresses, each where it first occurs |
| ResolvConf.UsableOnly | internal/platform/platform.go:172-202 | an address is discovered if and only if some listed address is usable as it |
| ResolvConf.UsablePositions | internal/platform/platform.go:172-202 | upstream addresses are made, in order, from exactly the listed addresses that can be used |
| ResolvConf.ServersPositions | internal/platform/platform_linux.go:183-188 | the listed servers are, in order, the second words of exactly the lines whose first word is `nameserver` |
| ResolvConf.UpstreamsIff | internal/platform/platform_linux.go:183-193 | an upstream is one of the file's nameservers, or a public server exactly when none of these can be used |
| ResolvConf.Discover | internal/platform/platform_linux.go:159-194 | the saved text decides if it is not empty, else the live file, with the public servers as the last resort |
| SavedText.DiscoverySame | internal/platform/platform_linux.go:159-194 | discovery gives the same upstreams before a takeover and after it, for every file whose nameserver addresses are well-formed text; without the saved state it would give the public servers |
| SavedText.IllFormedServerDiffers | internal/platform/platform_linux.go:159-194 | and only for those: an ill-formed address can be discovered before and not after |
| Takeover.Host.Setup | cmd/truedns/main.go:518-536 | refuses when the state file cannot be read, forced or not, and when a takeover is recorded unless forced, else rewrites and records |
| Takeover.Host.Restore | cmd/truedns/main.go:553-568 | writes the recorded text back and clears the record, or says why not and changes nothing |
| Takeover.Host.Run | cmd/truedns/main.go:467-496 | alone and without `--keep`, `run` leaves a resolv.conf that is not empty recoded, which is byte for byte if and only if it is well-formed text |
| Takeover.SetupAlone | cmd/truedns/main.go:518-536 | the steps of `setup` in the step system, taken undisturbed, end as Takeover.Host.Setup does |
| Takeover.RestoreAlone | cmd/truedns/main.go:553-568 | likewise `restore` |
| Takeover.RunAlone | cmd/truedns/main.go:467-496 | likewise `run`, with and without `--keep` |
| TakeoverRuns.NeverLostIff | cmd/truedns/main.go:467-568 | over every run of the commands, in any overlap and with crashes: the original can be had back all along, however the commands go on without another takeover, if and only if every takeover was of the original with nobody about to clear the record |
| TakeoverRuns.SafeIsRecoverable | cmd/truedns/main.go:467-568 | the states from which every continuation without a takeover gives the original back are exactly the safe ones; every other state loses it in some run |
| TakeoverRuns.RestoreBringsBack | cmd/truedns/main.go:499-568 | when the commands take their short sections in turn, with crashes, and `run` is started only without a record, setup's own check suffices: restore brings a non-empty original back, or it is already in place, and byte for byte if and only if it is well-formed text |
| TakeoverRuns.OrderlyIsGuarded | cmd/truedns/main.go:518-522 | in such runs what setup's check found still holds when setup takes over |
| TakeoverRuns.Latin1NotRestored | internal/platform/platform.go:117-129 | a resolv.conf with a Latin-1 comment comes back changed |
| TakeoverRuns.TakeoverSafeIff | cmd/truedns/main.go:467-530 | after a takeover every continuation without another one still gives the original back if and only if it was the original that was taken over and nobody was about to clear the record |
| TakeoverRuns.EmptyOriginalStays | internal/platform/platform_linux.go:122-125 | from the takeover of an empty file on, and while takeovers are guarded, no command changes the files again |
| TakeoverRuns.UnguardedRunLoses | cmd/truedns/main.go:467-473 | `run` during a takeover and a crash lose the original |
| TakeoverRuns.LateClearLoses | cmd/truedns/main.go:483-487 | an exiting `run` can clear the record of a `setup` that found none |
| TakeoverRuns.SetupRaceLoses | cmd/truedns/main.go:518-530 | two setups that both found no record lose the original |

## Left out

- DoH, UDP and TCP exchange, listeners, DNS packing and EDNS/ECS option building: an upstream is an oracle that answers or fails.
- TOML decoding and validation of the configuration; what validation guarantees (a positive cache size, valid domain patterns) is a precondition.
- Windows (registry, UAC, tray, the in-place fallback of `atomicWrite`), the systemd-resolved branch of the takeover, and `systemctl`.
- Control API, command-line parsing, logging, status formatting and engine shutdown.
- The refresh loop and the HTTP part of the override manager; a load is its lines and whether it could be opened and read to its end.
- `net.ParseIP`, `IP.String`, `SplitHostPort` and `addPort`: parameters of the members that use them; an address is a value with a text.
- Letter case and white space outside ASCII: names, hosts files and resolv.conf are read with ASCII rules.
- Which racing reply arrives first: the race strategy is `FirstOk` over an arbitrary order of arrival.
- Fairness of Go's scheduler: progress theorems say that some step is enabled and that steps are bounded in number.
- ProbeTiming.FilterLatency: assumes that code between blocking points takes no time, that a free slot goes to a waiting worker at once, and that a dial ends by its timeout; the code's own running time is not bounded.
- LruCache.Cache.Get: the linked list of `container/list` is a sequence of element objects, so its pointers are not modelled; entries are still updated in place and shared with the map.
- Filter.SortStablySorts: `sort.SliceStable` is a functional insertion sort; Filter.StableSortUnique says every stable sort gives the same list.
- SchemaRuns.ConcurrentEnsure: assumes that nobody removes the lock file of a process inside and that the file is not of the shadowed kind; SchemaRuns.ExclusionIff, SchemaRuns.RaceStampsTwice and SchemaText.EnsuredIdempotent say what happens otherwise.
- SchemaRuns.CanRecover: reading a lock's age and judging it is one step, and two processes never get the same temporary name.
- Engine.InvRun: the engine and its queries are values and the steps are functions, because a query's local variables live across the steps of other goroutines; update in place is not modelled there (the cache, the failover counter, the matcher and the override table are classes of their own).
- EngineHistory.AnswersAreDelivered: what an upstream answers, what the override table gives (Override and OverrideAnswer say what that is) and how the probes end are oracles; an exchange and the probing of its answer are one step, because they share nothing but the prober, which Probing models.
- EngineRuns.HitsAnswerTheQuestion: the cache may lose any entry at any time and the age of a hit is an oracle; LruCache and CacheTtl say what the cache itself guarantees.
- EngineRuns.ReloadSafety: gives a number for entries of routed queries only; EngineWitnesses.StaleOverridesUnbounded says why.
- TakeoverRuns.RestoreBringsBack: setting resolv.conf and saving the record is one step, nobody else edits resolv.conf, and `setup --force` is left to the single commands of Takeover.Host.
