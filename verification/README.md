# Verified model of captcha-protect

captcha-protect is an HTTP middleware that asks visitors to pass a captcha and remembers who
did. This project models the parts of it that hold state or arithmetic worth proving, and
proves what they promise. The four components and their main results:

1. **Address ranges** (`Cidr`, `ReduceCidrs`, `CrawlerRanges`, `CommonCrawl`, `GoodBot`). The
   list reduction keeps exactly the maximal published ranges, in a canonical order, pairwise
   disjoint, with the same union and with the fewest members any sub-collection can have. A
   refreshed set answers membership exactly as the published list does. The Common Crawl
   expansion visits every address once and stops, also at 255.255.255.255.
2. **The state file** (`LockProtocol`, `LockExactness`, `LockRestart`, `FileLock`, `LockOwners`,
   `Utf8`, `Json`, `JsonEnds`, `JsonStrings`, `Decimal`, `StateFile`, `StateRoundTrip`,
   `BrokenFiles`, `AtomicWrite`, `Reload`, `Counters`, `SaveProtocol`, `StateKeeper`, `CrashRecovery`, `Restarts`,
   `CrashExample`). The lock is a timed transition system over any number of attempts with
   crashes, with the exact condition under which it excludes, and the exact age at which a dead
   attempt's file lets a new one past; the counters are a transition system of handlers and one
   saver; the printer is proved against an independent JSON reader, which rejects every file that
   was cut short; the loader is proved to make a restart invisible. Together: after a crash at any point of a run, a new process that gets
   the lock has every change that was counted as saved, and so have all that follow it; one that
   does not get it starts empty.
3. **Challenges and sessions** (`CircuitBreaker`, `Sessions`, `OutageExample`). The breaker's
   state is a function of the run of events, and a session is let through exactly while one of
   its passes is alive.
4. **The client address** (`ClientIP`, `Text`). The header walk selects one element of the
   filtered, reversed header, whatever a client puts in front.

Code that changes state is modelled by classes and loops, each proved against a function or a
predicate on values; the theorems are lemmas about those. Where other goroutines, other
processes, the clock or a failing call can intervene between two steps, the method runs an
arbitrary part of an arbitrary schedule there (`Interfere`, `OthersRun`), so a theorem about
every run holds for what the sequential methods do.

The struct `CaptchaProtect` of the source is modelled in the parts that act on their own: its
counters (`Counters.ChangeCounters`), its saver (`StateKeeper.Keeper`), its breaker
(`CircuitBreaker.Breaker`), and its request paths (`Sessions.CaptchaProtect`).

Three small models of outside things are used: go-cache (`GoCache`), the file system
(`FileLock.LockDir` for the lock and guard files, `AtomicWrite.Disk` for the state file), and the
resolver (a function fixed for the length of one call).

## Findings

Several promises hold only under a condition; each is stated exactly.

- **What was saved can be lost by a restart.** A process that dies while it saves leaves its lock
  file behind. `Lock` gives up after 5 seconds, and the file is stale only after 10. A new process
  gets the lock in no run, and cannot load, exactly when the file is too young to go stale before
  the attempt gives up, or a cleanup guard was left behind as well
  (`LockRestart.RestartLocksExactly`; of the code's own wait loop, `FileLock.Lock`). The failed
  load is only logged (main.go:1360-1363), the process starts empty, and its first save after the
  file went stale replaces the state file: `CrashExample.SavedChangeIsLost` is such a history,
  through `SaveStateNow` and `LoadStateFromFile`. When the lock is obtained nothing is lost
  (`CrashRecovery.Restart`), over any number of restarts (`Restarts.SavedForGood`).
- **A cleanup guard that is left behind** next to a dead process's lock file, by a crash between
  lock.go:100 and 107 or a failed removal, is never removed: nobody gets the lock again, in any
  run, and every load and save fails from then on (`LockRestart.AbandonedBlocks`).
- **Mutual exclusion** holds in all runs within two time bounds exactly when the clock read after
  the guarded `Stat` comes within the slack that holders leave, and no owner string begins
  another (`LockExactness.SafetyExactly`). Both can fail in the code: `Stat` and `time.Since`
  are two steps, and an attempt that pauses between them can remove a fresh lock file; and a
  write that fails halfway can leave of `1:12` the owner string `1:1` of the same process. The
  same condition decides whether a slow holder can remove another's file in `Unlock`. This is for
  four or more attempts; `LockExactness.FewerAttempts` has the bounds for two and three.
- **Owner strings** of the code begin one another exactly for one process number and counters
  whose digits do (`LockOwners.OwnerBegins`). Two processes with the same process number
  (separate containers) collide when their counters agree (`LockOwners.OwnersDistinct`).
- **Keys** survive the file if and only if they are valid UTF-8 (`JsonStrings.KeySurvives`,
  `StateRoundTrip.RoundTrip`); invalid bytes are printed as U+FFFD. In address mode a key is text
  of a header that nobody checks (main.go:883, 1163-1200), so a client can bring any bytes. It
  spoils no other key but one that contains U+FFFD itself: a key keeps its entry in every order
  of printing exactly when it is valid and no key with another entry is printed as it
  (`StateRoundTrip.KeyKeptExactly`, `StateRoundTrip.OnlyReplacementIsConfused`).
- **The unsaved flag** misses a number of changes that is a multiple of 2^64
  (`SaveProtocol.UnsavedFlagIsExact`).
- **Loading** drops an entry that expires at exactly the load's own nanosecond although the
  cache would still serve it; the comment above `SetState` says `expiration < now`, the code
  tests `<=` (`Reload.LoadKeepsWhatIsServed`).
- **The window** is kept by cookie and server exactly when the pass ends at a time that fits
  64 bits of nanoseconds, that is by the year 2262 (`Sessions.WindowKeptExactly`). Every positive
  window is accepted. At a clock of 2023 a window of 8000000000 seconds gives a correct cookie
  and a server entry that never ends (`Sessions.LongWindowNeverEnds`); above 9223372036 seconds
  the cookie is wrong too (`Sessions.CookieKeepsWindow`, `Sessions.LargestWindowOverflows`).
- **A pass keyed by address lasts** for its own lifetime exactly when no later pass of the
  address ends before it, and the same goes for a pass that was reloaded
  (`Sessions.PassesLastExactly`). `OutageExample` is a history, through the
  request path itself, in which a pass during an outage replaces a day by an hour. With session
  tokens this cannot happen (`Sessions.FreshSolvesLast`).
- **The two looks at the circuit** in `verifyChallengePage` may differ. A pass through the
  stand-in lasts one hour only if the circuit is still open at the second look; otherwise it
  lasts the whole window: `OutageExample.CircuitClosesBetween` is a request through the path
  during which the circuit closes, and which gets a day without the provider.

## Model

| member | source | states |
|---|---|---|
| Cidr.Mask | internal/helper/google.go:180 | masking keeps family and length and exactly the same set of addresses |
| Cidr.MaskedIsSame | internal/helper/google.go:180 | a masked prefix is well formed, aligned, a fixed point of masking, and spans the same addresses |
| Cidr.CoversIsInclusion | internal/helper/google.go:204 | on masked prefixes the one-line cover test is equivalent to inclusion of the address sets |
| Cidr.Laminar | internal/helper/google.go:200-212 | two masked prefixes that share an address are nested one way or the other |
| Cidr.CoversTransitive | internal/helper/google.go:204 | covering is transitive, so comparing with kept prefixes is enough |
| Cidr.CoversAntisymmetric | internal/helper/google.go:204 | masked prefixes of equal length that cover each other are equal |
| Cidr.ContainsIsInterval | internal/helper/google.go:65-76 | a masked prefix contains the addresses of its family from its own address on, two to the power of its host bits of them |
| Cidr.ContainsExample | internal/helper/google.go:65-76 | 203.0.113.0/24 is 203.0.113.0 to 203.0.113.255 |
| Cidr.ContainsExampleV6 | internal/helper/google.go:65-76 | 2001:db8::/32, likewise |
| Cidr.AddressCounts | internal/helper/google.go:65-76 | there are 2^32 addresses of IPv4 and 2^128 of IPv6 |
| ReduceCidrs.SortPrefixes | internal/helper/google.go:183-198 | the in-place sort yields an ordered permutation: IPv4 first, then shorter prefixes, then lower addresses |
| ReduceCidrs.LessTotal | internal/helper/google.go:183-198 | the comparator is irreflexive, asymmetric and total |
| ReduceCidrs.LessTransitive | internal/helper/google.go:183-198 | the comparator is transitive |
| ReduceCidrs.CoversIsEarlier | internal/helper/google.go:193-207 | a covering prefix sorts strictly earlier, so the pass never evicts |
| ReduceCidrs.KeepUncovered | internal/helper/google.go:200-212 | the greedy pass over sorted prefixes keeps exactly the maximal ones, strictly sorted |
| ReduceCidrs.ReduceCIDRs | internal/helper/google.go:170-220 | the result lists the maximal masked valid inputs, IPv4 first, then shorter prefixes, then lower addresses; invalid text is skipped |
| ReduceCidrs.MaximalAbove | internal/helper/google.go:200-212 | every prefix lies below a maximal one |
| ReduceCidrs.ReductionKeepsUnion | internal/helper/google.go:168-220 | the reduction spans the same addresses as its input |
| ReduceCidrs.ReductionIsDisjoint | internal/helper/google.go:200-212 | no two kept ranges share an address |
| ReduceCidrs.ReductionIsCanonical | internal/helper/google.go:168-220 | reordering or repeating the input does not change the output |
| ReduceCidrs.ReductionIsIdempotent | internal/helper/google.go:168-220 | a second call on the output returns that output |
| ReduceCidrs.ReductionIsOptimal | internal/helper/google.go:168-220 | no sub-collection of the inputs with the same union is smaller, and none other is as small |
| CrawlerRanges.FetchGoogleCrawlerIPs | internal/helper/google.go:133-148 | succeeds iff every endpoint does, with a reduced list that has an address iff some endpoint publishes a range with it |
| CrawlerRanges.PublishedBySome | internal/helper/google.go:139-145 | an address is in what was collected iff it is in what some endpoint returned |
| CrawlerRanges.ReducedIsPublished | internal/helper/google.go:147 | membership in the reduced list is membership in the published one |
| CrawlerRanges.GooglebotIPs.Update | internal/helper/google.go:46-62 | afterwards the set contains an address iff a valid given range does |
| CrawlerRanges.GooglebotIPs.Contains | internal/helper/google.go:65-76 | answers whether some stored network contains the address |
| CrawlerRanges.GooglebotIPs.Refresh | internal/helper/google.go:157-166 | on success the set has an address iff some endpoint publishes a range with it; on failure the set is unchanged |
| CommonCrawl.VerifyAddresses | internal/helper/commoncrawl.go:107-120 | visits each address of the prefix once, in order, and terminates; the result holds the verified ones; it stops early exactly at the first look that finds the context cancelled |
| CommonCrawl.ExpandField | internal/helper/commoncrawl.go:88-121 | a field contributes all of an IPv6 range and the verified addresses of an IPv4 range; malformed text is an error, and so is the look that finds the context cancelled |
| CommonCrawl.FetchCommonCrawlIPs | internal/helper/commoncrawl.go:82-125 | the list has an address iff the IPv4 or the IPv6 field of some item has it and, for IPv4, reverse and forward DNS confirm it for commoncrawl.org; no look was cancelled; each error has its cause |
| CommonCrawl.TextsPublish | internal/helper/commoncrawl.go:86-93 | what is expanded is both fields of every item |
| CommonCrawl.CommonCrawlIPs.Refresh | internal/helper/commoncrawl.go:128-139 | replaces the ranges by exactly those, and only after a successful fetch, which a list without malformed field is if nothing is cancelled |
| GoodBot.Matches | internal/helper/ip.go:76 | equality or dot-suffix is the same as: the labels of the name end with the labels of the domain |
| GoodBot.MatchesGoodBotDomain | internal/helper/ip.go:73-81 | true iff the name lies in a non-empty normalised bot domain, by labels |
| GoodBot.IsIpGoodBot | internal/helper/ip.go:37-71 | true iff some PTR name lies in a bot domain and resolves back to the client address |
| GoodBot.ForwardConfirmedExactly | internal/helper/ip.go:47-68 | what that means: the labels of some normalised PTR name end with those of some non-empty normalised bot domain, and the name resolves to the address |
| GoodBot.InSomeDomainExactly | internal/helper/ip.go:73-81 | a name is in a bot domain iff it is the domain or ends with a dot and the domain |
| GoodBot.NormalizeHostIsExact | internal/helper/ip.go:53 | a name loses at most one trailing dot and is lower-cased |
| GoodBot.NormalizeBotIsExact | internal/helper/ip.go:75 | a bot domain loses its outer spaces, then its outer dots, and is lower-cased |
| Text.SuffixOnBoundary | internal/helper/ip.go:76 | ending in separator plus t is ending in the pieces of t |
| Text.SplitConcat | main.go:1166 | splitting a concatenation at a separator concatenates the splits |
| Text.JoinSplit | main.go:1166 | joining the pieces gives the string back |
| Text.TrimIsExact | main.go:1170 | trimming removes only cut characters and leaves none at either end |
| Text.SpacesByNumber | main.go:1170 | the code points that count as space |
| ClientIP.IsIpExcluded | internal/helper/ip.go:14-23 | true iff the text parses and some exempt block contains the address |
| ClientIP.Walk | main.go:1167-1179 | the walk with its depth counter selects element depth of the reversed non-exempt entries; a negative depth selects nothing |
| ClientIP.HopAt | main.go:1167-1179 | an entry that is not exempt is the hop whose number is how many entries to its right are not exempt |
| ClientIP.HopIsEntry | main.go:1167-1179 | and every hop is such an entry, trimmed |
| ClientIP.GetClientIP | main.go:1163-1200 | the selected hop, or the peer address when there is none or it is empty, without its port |
| ClientIP.PrependedEntriesIgnored | main.go:1166-1179 | entries put in front of a long enough header never change the selection |
| LockProtocol.MutualExclusion | internal/state/lock.go:53-171 | in every run with crashes, interleavings and failing calls within the time bounds, with prefix-free owner strings, two live attempts never both hold the lock |
| LockProtocol.OwnRemoval | internal/state/lock.go:145-171 | in those runs an attempt about to remove the lock file as its own never faces the file of another |
| LockProtocol.InvStep | internal/state/lock.go:53-171 | every step keeps the invariant; in particular a cleaner past the guarded second look faces a dead attempt's file |
| LockProtocol.LockChange | internal/state/lock.go:53-171 | the only steps that change what the lock path names |
| LockProtocol.GuardRemovedByCreator | internal/state/lock.go:99-107 | with no assumption on time, only the creator of the cleanup guard removes it |
| LockProtocol.ForeignFileSurvivesClose | internal/state/lock.go:145-192 | closing a lock whose file holds another owner removes nothing, then or later |
| LockProtocol.UnwrittenFileSurvivesClose | internal/state/lock.go:145-160 | a file its creator has not yet written survives every other attempt's close |
| LockProtocol.OverIsForever | internal/state/lock.go:175-192 | an attempt that is over takes no further step |
| LockExactness.SafetyExactly | internal/state/lock.go:53-171 | for four or more attempts and any bounds, all runs within the bounds are exclusive, and none removes the file of another as its own, iff the clock read comes within the slack and no owner string begins another (or the slack admits no lock file at all) |
| LockExactness.LateClockRead | internal/state/lock.go:104-114 | whatever the owner strings, a clock read later than the slack admits a run that breaks exclusion and one that faces the file of another |
| LockExactness.SharedBeginning | internal/state/lock.go:123-163 | whenever one owner string begins another, with two further attempts, some run within any bounds breaks exclusion |
| LockExactness.NothingWithoutTime | internal/state/lock.go:95 | a slack above the stale age leaves no run in which the lock file is created |
| LockExactness.FewerAttempts | internal/state/lock.go:53-171 | for any number of attempts the condition is enough; with two, exclusion needs holders that release before their file is stale, and keeping the files of others needs prefix-free strings besides; with three, exclusion needs owner strings that differ and are not empty |
| LockRestart.GivesUpInTime | internal/state/lock.go:54-83 | in every run, an attempt that gives up by the timer has been in `Lock` for at least five seconds |
| LockRestart.LeftoverBlocks | internal/state/lock.go:53-121 | in every run of any attempts the file of a dead attempt stays, and nobody holds the lock, until it is older than the stale age |
| LockRestart.AbandonedBlocks | internal/state/lock.go:99-107 | in every run, however long: behind a cleanup guard that nobody is at work under, a dead attempt's file stays and no attempt gets the lock |
| LockRestart.RestartLocksExactly | internal/state/lock.go:53-121 | faced with a dead attempt's file, an attempt that starts now and stops at most a given delay after its timer gets the lock in no run iff a cleanup guard was abandoned or the file cannot become stale before that |
| FileLock.LockDir.Step | internal/state/lock.go:53-192 | one call is one enabled step of the protocol |
| FileLock.LockDir.Call | internal/state/lock.go:53-192 | one call and the steps of the others after it, which move everyone but the caller |
| FileLock.WriteLockPID | internal/state/lock.go:123-141 | ends holding the lock, or with the removal of the lock path done or tried and the error returned |
| FileLock.LockDir.BeginLock | internal/state/lock.go:54 | the call starts its five-second timer and does not hold the lock yet |
| FileLock.LockDir.CreateLock | internal/state/lock.go:61-62 | exclusive creation succeeds only on a free path |
| FileLock.LockDir.StatLock | internal/state/lock.go:91-94 | reports the modification time of the file that is there, or its absence, or an error |
| FileLock.LockDir.ReadClock | internal/state/lock.go:95-113 | comparing the time read with the modification time decides as the protocol does |
| FileLock.LooksStale | internal/state/lock.go:91-97 | the age computed from Stat and clock leads to the guard iff it is above the stale age |
| FileLock.TakeGuard | internal/state/lock.go:99-106 | the guard is taken only where there was none and is then the one of this attempt; a failed write of it is an error |
| FileLock.RemoveIfStillStale | internal/state/lock.go:109-119 | the second look and the second age decide, as in the protocol, whether the file is removed |
| FileLock.RemoveUnderGuard | internal/state/lock.go:107-120 | the same, and removing the guard is done, or tried and failed, in every case |
| FileLock.RemoveStaleLock | internal/state/lock.go:90-121 | removed, not removed or failed, with the protocol position that goes with it |
| FileLock.LockDir.AwaitTick | internal/state/lock.go:80-86 | the wait ends in the next round or, only once the five seconds are over, in the timeout; where nothing else happens, in the timeout iff they are over |
| FileLock.Lock | internal/state/lock.go:53-88 | the retry loop is a run of the protocol that ends holding, failed or still trying, and the attempt has held the lock iff it succeeds; where nobody else acts and nothing fails it succeeds iff the path is free, or there is no guard and the file goes stale before the last tick within five seconds |
| FileLock.ReadLockFile | internal/state/lock.go:146-160 | the attempt goes on to remove the file iff it read its own owner string |
| FileLock.RemoveLockFile | internal/state/lock.go:162-170 | the last call of an attempt, which has removed the file iff it succeeded |
| FileLock.Unlock | internal/state/lock.go:145-171 | ends the attempt; an I/O error is reported iff a call failed, and another owner only when nothing was removed |
| FileLock.Close | internal/state/lock.go:175-192 | an error is returned iff a call failed; a file of another owner is none |
| FileLock.LockExclusively | internal/state/lock.go:53-88 | when Lock succeeds in a run that meets the assumptions nobody else holds the lock |
| FileLock.PeriodsAreDisjoint | internal/state/lock.go:53-171 | in a run that meets the assumptions, two attempts hold the lock at no common point of the history |
| LockOwners.OwnerSource.NewLockOwner | internal/state/lock.go:44-49 | the n-th string of a process is its number, a colon, and n modulo 2^64 |
| LockOwners.OwnerIsInjective | internal/state/lock.go:48 | owner strings are equal iff process number and counter are |
| LockOwners.OwnersDistinct | internal/state/lock.go:44-49 | owner strings differ iff the processes do or the serials differ modulo 2^64 |
| LockOwners.OwnerBegins | internal/state/lock.go:48 | one owner string begins another iff the processes are one and the digits of the counters begin so |
| LockOwners.PrefixFreeExactly | internal/state/lock.go:44-49 | the owner strings of given processes and serials are prefix-free iff no counter begins another of its process |
| LockOwners.CodeExcludesExactly | internal/state/lock.go:44-171 | the exact condition for exclusion, on the owner strings the code makes |
| LockOwners.SameLengthNeverBegins | internal/state/lock.go:48 | counters with the same number of digits never begin one another, while 1 begins 12 |
| Utf8.DecodeEncode | internal/state/state.go:268 | decoding an encoding gives the code points back |
| Utf8.EncodeDecode | internal/state/state.go:268 | encoding what was decoded from valid UTF-8 gives the bytes back |
| JsonStrings.IsPlainJSONString | internal/state/state.go:253-270 | the byte scan is true iff the bytes are valid UTF-8 without quotation mark, backslash and control characters |
| JsonStrings.VerbatimReads | internal/state/state.go:235-243 | a plain string between quotes reads back as itself |
| JsonStrings.EscapedReads | internal/state/state.go:245-250 | an escaped string between quotes reads back with invalid bytes replaced |
| JsonStrings.JSONStringReads | internal/state/state.go:234-251 | both paths of the string printer read back alike |
| JsonStrings.KeySurvives | internal/state/state.go:234-251 | printing and reading keeps a key iff it is valid UTF-8 |
| JsonStrings.EscapedIsSafe | internal/state/state.go:240-250 | the escaped form has no control character, no angle bracket, no ampersand, and no quotation mark without a backslash |
| JsonStrings.EscapesByNumber | internal/state/state.go:240-250 | which code points are escaped, and how |
| Decimal.FormatIntParses | internal/state/state.go:197 | the decimal form of an integer denotes that integer |
| Decimal.IntReads | internal/state/state.go:197 | the decimal form is one JSON number, and the reader stops after it |
| StateFile.WriteJSONString | internal/state/state.go:234-251 | appends the quoted form of the string unless a write fails |
| StateFile.WriteCacheEntryMap | internal/state/state.go:162-214 | fails iff a value is not a boolean or a write fails, else appends every entry once and returns the memory estimate |
| StateFile.WriteStateJSON | internal/state/state.go:141-160 | fails iff a value is not a boolean or a write fails, else appends the whole file for some iteration order |
| StateRoundTrip.FileParses | internal/state/state.go:141-251 | the file is one JSON text with the intended members, for every snapshot and order |
| StateRoundTrip.RoundTrip | internal/state/state.go:141-251 | the file reads back, and to exactly the snapshot iff every key is valid UTF-8 |
| StateRoundTrip.TextExample | internal/state/state.go:141-214 | the file of a cache with one pass, byte by byte |
| StateRoundTrip.ReadBackWasPrinted | internal/state/state.go:141-251 | whatever is read back is the entry of an item that was printed |
| BrokenFiles.TornFileFails | internal/state/state.go:291-295 | a state file cut short anywhere, in any order of its entries, is an error |
| BrokenFiles.FileAndMore | internal/state/state.go:291-295 | spaces, tabs and line ends after a state file change nothing; anything else is an error |
| BrokenFiles.LoadableShape | internal/state/state.go:291-295 | what loads is `null`, or text in braces with a quotation mark or the closing brace first inside |
| BrokenFiles.NoNameIsBroken | internal/state/state_test.go:233 | a brace and then neither a name nor the other brace is a broken file |
| BrokenFiles.BrokenFails | internal/state/state.go:291-295 | all these are errors |
| BrokenFiles.LoadsExactly | internal/state/state.go:291-295 | a content loads iff it is one JSON text that is `null` or an object whose known fields have values of their type; others may have any |
| BrokenFiles.OtherFieldsIgnored | internal/state/state.go:37-40 | a field of another name changes nothing, wherever it stands |
| BrokenFiles.FieldNameExactly | internal/state/state.go:32-40 | field names match in small or capital letters |
| BrokenFiles.MapsMerge | internal/state/state.go:37-40 | two maps under the same field are read as one, and `null` empties what was read before |
| BrokenFiles.LastFieldCounts | internal/state/state.go:32-35 | the last `value` and the last `expiration` of an entry count, and `null` is none |
| JsonEnds.TornObject | internal/state/state.go:292 | an object that is cut short anywhere is no JSON text |
| JsonEnds.TextAndMore | internal/state/state.go:292 | a whole text with more than whitespace behind it is none |
| JsonEnds.ValueMore | internal/state/state.go:292 | a value reads alike whatever follows it, unless it is a number |
| JsonEnds.NumberShape | internal/state/state.go:292 | what is read as a number has the shape of one: no leading zero, digits after a point and in an exponent |
| StateRoundTrip.KeyReadsBack | internal/state/state.go:162-251 | a valid key that no other key is printed as reads back with its entry, whatever the other keys are, and an absent one does not appear |
| StateRoundTrip.KeyKeptExactly | internal/state/state.go:162-251 | a key keeps its entry for every iteration order iff it is valid and every key printed as it has the same entry |
| StateRoundTrip.OnlyReplacementIsConfused | internal/state/state.go:234-251 | no other key is printed as a valid key without U+FFFD |
| StateRoundTrip.MemoryIsSum | internal/state/state.go:168-205 | the estimate is 8, and 40 and the length of its key for each entry, modulo 2^64 |
| StateRoundTrip.MemoryIsOrderIndependent | internal/state/state.go:168-205 | the estimate does not depend on the map's iteration order |
| AtomicWrite.Disk.EnsureExists | main.go:1260 | opening the state file creates it empty and never truncates it |
| AtomicWrite.WriteInPieces | internal/state/state.go:114-127 | buffered data reaches the temporary file only, in pieces, all of it on success |
| AtomicWrite.PrepareTemp | internal/state/state.go:106-132 | a complete temporary file, or none and the state path untouched |
| AtomicWrite.AtomicWriteStateFile | internal/state/state.go:101-139 | in every state on the way the path holds the old content or the complete new one, no other file is touched, and the removal of the temporary file is tried once |
| AtomicWrite.CrashLeavesLoadableFile | internal/state/state.go:101-139 | after a crash at any point the file loads, with the old entries or exactly the new ones |
| Reload.DurationIsNoSentinel | internal/state/state.go:302-307 | a kept entry's duration is -1 only for expiration 0, and is otherwise positive |
| Reload.LoadedExactly | internal/state/state.go:358-366 | what a load comes to in numbers: an entry with an expiration of 0 or later than now is in the cache, with its value, no earlier than saved and no later than by the time of the load; other keys are as before |
| Reload.LoadPersistentBoolEntries | internal/state/state.go:358-366 | the cache gains exactly the live entries, each late by no more than the load took |
| Reload.LoadCacheEntries | internal/state/state.go:335-352 | the other loader does the same on the entries that are booleans |
| Reload.LoadStateFromFile | internal/state/state.go:272-300 | the error says that there was no lock iff the attempt never held it; without the lock, or from an unreadable, broken or empty file, the cache is left alone; a file cut short, with more behind it or without braces is an error; otherwise the live entries are loaded; the lock is closed. Where nobody else acts, the lock is refused iff the path is taken by a file that does not go stale in time |
| Reload.LoadContent | internal/state/state.go:286-299 | called by a holder of the lock: which contents are an error (among them every file cut short, with more behind it or without braces), and what loading the others does |
| Reload.LoadKeepsWhatIsServed | internal/state/state.go:361 | the load keeps what the cache would serve, except entries expiring in that nanosecond |
| Reload.RestartTransparent | internal/state/state.go:358-366 | every later answer for a key is the original cache's, read earlier by at most the time of the load; the other keys do not matter |
| Reload.SavedFileRestarts | internal/state/state.go:141-300 | the same through the bytes of the file, for every valid key that no other is printed as |
| Reload.GetCacheEntries | internal/state/state.go:318-333 | the statistics copy has the same entries and the same memory estimate as the file |
| SaveProtocol.InvStep | main.go:1325-1405 | every step of handlers, janitor, clock and saver keeps the invariant that ties counters, cache and file |
| SaveProtocol.NoLostUpdate | main.go:1325-1405 | below 2^64 marks every change up to the saved counter is in the file, superseded or expired, and saved never exceeds dirty |
| SaveProtocol.CleanStateIsOnDisk | main.go:1377-1381 | with nothing unsaved, some change made and no handler between its steps, the file has the last change of every key set, the loaded item of every key never set, each unless it had expired, and no other key |
| SaveProtocol.FailedSaveKeepsDirty | main.go:1334-1337 | a failed save leaves file and counters alone, so unsaved changes stay unsaved |
| SaveProtocol.UnsavedFlagIsExact | main.go:1377-1381 | the flag is set iff the number of unsaved marks is not a multiple of 2^64 |
| SaveProtocol.SnapshotReflects | internal/state/state.go:89 | a snapshot has the last change of every key set, the loaded item of every key never set, each unless it had expired, and nothing else |
| SaveProtocol.FileIsExact | main.go:1325-1405 | in every run the last completed file has, for every key, its last change before the snapshot or its loaded item, exactly if that had not expired when the snapshot was taken |
| SaveProtocol.JanitorDeletesExactly | vendor/github.com/patrickmn/go-cache/cache.go:931-953 | the janitor takes from the cache exactly what has expired |
| StateKeeper.Keeper.Step | main.go:906-907 | a step of a handler, the janitor or the clock is a step of the protocol, and marks the counter |
| Counters.ChangeCounters.MarkStateDirty | main.go:1368-1375 | adds one, and 0 follows 2^64 - 1, if there is a state file; else changes nothing |
| StateKeeper.Keeper.HasUnsavedState | main.go:1377-1381 | true iff the number of unsaved marks is not a multiple of 2^64 |
| Counters.ChangeCounters.UnsavedStateChanges | main.go:1383-1393 | the difference, or 0 when the saved count is ahead |
| StateKeeper.Keeper.UnsavedStateChanges | main.go:1383-1393 | below 2^64 marks the exact number of unsaved marks |
| StateKeeper.Keeper.SaveStateToFile | internal/state/state.go:69-99 | without the lock the disk is not touched and the save fails; with it the period of holding is recorded, and the file becomes the snapshot, or on a failed write the state path keeps its content; the lock is closed |
| StateKeeper.Keeper.SaveUnderLock | internal/state/state.go:89-95 | called by a holder, who holds throughout; every state the disk goes through is one that a crash may leave at a named point of the run; afterwards the file is the snapshot taken after the counter was read, or the old one |
| StateKeeper.Keeper.SaveStateNow | main.go:1325-1348 | on success the count read at the start is recorded, every change marked before the call is in the file, superseded or expired, and no entry that the bytes of the file read back as had expired when the snapshot was taken, during the call; on failure neither file nor count changes, and an attempt that never held the lock fails and leaves the disk untouched |
| StateKeeper.ReplacingIsCrashContent | internal/state/state.go:101-139 | in every state of the disk during a replacement the state path holds the last completed file or the whole new one |
| StateKeeper.OneWriterAtATime | internal/state/state.go:69-99 | in runs of the lock that meet the assumptions, two recorded periods of replacing the file, of one process or two, that share a point are of the same attempt |
| CrashRecovery.SnapshotHolds | internal/state/state.go:89-99 | the file of a snapshot holds, for a key that can be told, the last change before it or the loaded item, or that had expired |
| CrashRecovery.SavedIsHeld | main.go:1325-1405 | whatever a crash may leave at the state path loads, and holds every change up to the saved count, or a later one for its key, or that had expired |
| CrashRecovery.SavedAreRecovered | main.go:1325-1405 | a process that loads that content has them all in its cache, late by no more than the load took |
| CrashRecovery.PlainKeyOk | internal/state/state.go:234-251 | every valid key without U+FFFD can be told in every run, whatever other keys were loaded or set |
| CrashRecovery.Restart | main.go:1350-1366 | stop a run anywhere, with any content a crash may leave, and start a process that loads through the lock: it loads iff it gets the lock, and then has everything counted as saved; otherwise it starts empty; where nobody else acts it gets the lock iff the path is free or the file goes stale in time |
| Restarts.SavedForGood | main.go:1325-1405 | over any number of processes, each loading what the one before left: a change that one counted as saved is in the cache with which every later one begins, expiring no sooner, or a later change for its key is, or that had expired |
| CrashExample.SavedChangeIsLost | main.go:1325-1366 | a history in which a change counted as saved is lost: the process dies in its next save, the restarted one times out on the lock and starts empty, and its own save replaces the file |
| GoCache.UnexpiredKeepsAnswers | vendor/github.com/patrickmn/go-cache/cache.go:931-953 | hiding or deleting expired items changes no later answer |
| GoCache.Cache.Set | vendor/github.com/patrickmn/go-cache/cache.go:51-69 | replaces the item: it expires the duration after now, the default for duration 0, and never if that is not positive |
| GoCache.Cache.Get | vendor/github.com/patrickmn/go-cache/cache.go:120-137 | finds the item iff it is there and now is not past a positive expiration |
| GoCache.Cache.DeleteExpired | vendor/github.com/patrickmn/go-cache/cache.go:931-953 | exactly the items whose positive expiration is before now go, and the others stay as they are |
| CircuitBreaker.StateIsHistory | main.go:629-680 | the failure count is the number of failures since the last healthy probe, and the circuit is open iff that is positive and reaches the threshold |
| CircuitBreaker.CircuitOpensExactly | main.go:629-680 | for a positive threshold, open iff that many failures in a row, in every run of probes and siteverify answers |
| CircuitBreaker.SomeFailedInARow | main.go:629-680 | every run has such a number of failures in a row |
| CircuitBreaker.LastResetIsUnique | main.go:639-660 | the history after the last healthy probe is well defined |
| CircuitBreaker.AnswersByNumber | main.go:601-680 | after every history: a probe answered 200 to 499 other than 404 sets the count to 0 and closes; any other outcome, and a siteverify status below 200 or from 500, adds one and opens at the threshold; other statuses change nothing |
| CircuitBreaker.CircuitByNumbers | main.go:601-680 | open iff since some point no probe was answered 200 to 499 other than 404, and the bad probes and siteverify statuses from there on reach the threshold |
| CircuitBreaker.BadProbesOpen | main.go:629-680 | after every history, as many bad probes in a row as the threshold open the circuit |
| CircuitBreaker.Breaker.constructor | main.go:361-371 | a fallback exists iff the provider is external and both settings are positive; the circuit starts closed |
| CircuitBreaker.Breaker.PerformHealthCheck | main.go:608-636 | a probe answered 200 to 499 other than 404 sets the count to 0 and closes the circuit; any other outcome adds one and opens it at the threshold |
| CircuitBreaker.Breaker.NoteSiteverify | main.go:844-846 | a status below 200 or from 500 adds one and opens at the threshold; others change nothing |
| CircuitBreaker.Breaker.GetActiveCaptchaConfig | main.go:566-580 | the stand-in is active iff there is a fallback and the circuit is open, that is, the failures in a row reach the threshold |
| CircuitBreaker.Breaker.InternalStaysClosed | main.go:361-371 | without an outside provider the circuit never opens |
| Sessions.LatestSolveDecides | main.go:906 | for every history of passes a key is verified iff its latest pass is alive |
| Sessions.FreshSolvesLast | main.go:882-906 | with fresh keys, iff any of its passes is alive or it was verified from the start |
| Sessions.PassesLastExactly | main.go:906 | the cache lets a key through just as long as any of its passes, made or reloaded, is alive iff no earlier one outlasts the latest |
| OutageExample.OutageShortensPass | main.go:777-917 | two passes through the request path, the second during an outage, after which the first would still be alive but the visitor is challenged |
| OutageExample.CircuitClosesBetween | main.go:778-904 | a request that looks at an open circuit first and a closed one at the end: it passes through the stand-in and is stored for the whole window |
| Sessions.CookieKeepsWindow | main.go:892-900 | the Max-Age of the cookie is the window iff the window is at most 9223372036 seconds; the one-hour cookie is one hour |
| Sessions.WindowKeptExactly | main.go:892-906 | for every accepted window and time of pass, cookie and cache entry both keep the window iff its end fits 64 bits of nanoseconds |
| Sessions.LongWindowNeverEnds | main.go:892-906 | at a clock of 2023 a window of 8000000000 seconds gives a correct cookie and an entry that never ends |
| Sessions.LargestWindowOverflows | main.go:892-900 | one second beyond, the cookie is void and the entry never expires |
| Sessions.CookieMatchesServer | main.go:892-906 | for every window and lifetime, the cache entry is alive exactly until the Max-Age of its cookie has passed iff the duration is a positive number of whole seconds whose end fits |
| Sessions.TruncatesTowardZero | main.go:900 | the division of the cookie truncates toward zero |
| Sessions.CaptchaProtect.IsVerified | main.go:1030-1040 | in session mode let through iff the token of the cookie is of a pass, or of a reloaded session, still alive; by address iff the latest pass is alive; without a cookie only by a reloaded entry for the empty key |
| Sessions.CaptchaProtect.Janitor | vendor/github.com/patrickmn/go-cache/cache.go:931-953 | exactly the expired entries of the verified cache go, and no later answer changes |
| Sessions.CaptchaProtect.CheckAnswer | main.go:856-879 | accepted iff successful and, for turnstile, for the expected host (or the test host, with test keys) and at most 300 seconds old; a missing time is refused |
| Sessions.AcceptedIsBound | main.go:856-879 | an answer that passes for one host without test keys passes for no other, and it passes until 300 seconds after its time, and not a nanosecond longer |
| Sessions.CaptchaProtect.AskProvider | main.go:796-880 | breaks iff the exchange does, records the status with the breaker, else decides by the answer |
| Sessions.CaptchaProtect.GrantPass | main.go:882-912 | one new cache entry under the address, or under a token nobody had, with its cookie and Max-Age, and one mark; or nothing at all |
| Sessions.CaptchaProtect.VerifyChallengePage | main.go:777-917 | which of 302, 400, 403 and 500 is answered, when; 302 only for a successful answer, of turnstile for the expected host and of the last 300 seconds, and 403 only if it is not such; nothing is stored unless it is 302; the lifetime that is stored |

## Left out

- Text of addresses: parsing and printing of CIDRs and addresses are not modelled; a range is malformed text or a (family, address, bits) triple, so `prefix.String()` followed by parsing is taken as the identity.
- IPv4-mapped IPv6 prefixes, where `netip` and `net` differ.
- HTTP fetching, response size limits and JSON decoding of the published lists: their results are inputs.
- ReduceCidrs.SortPrefixes: the library sort is modelled by an insertion sort with the same contract; the comparator is total, so the result is the same.
- CommonCrawl.VerifyAddresses: the resolver and the context are functions fixed for one call; their timing is not modelled.
- GoodBot.MatchesGoodBotDomain: lower-casing is an arbitrary map of single characters, so foldings that change the length of a string are not covered.
- ClientIP.GetClientIP: `net.ParseIP` and `net.SplitHostPort` are arbitrary functions; the header is the single value `Header.Get` returns.
- LockProtocol.MutualExclusion: one clock stands for the file system's modification times and every process; content is written in one step, whole or a prefix of it; a power loss is not a step.
- LockExactness.SafetyExactly: stated for four or more attempts.
- LockExactness.FewerAttempts: with two or three attempts the conditions given are necessary for safety; that they are enough is claimed only of the condition for four.
- LockRestart.RestartLocksExactly: that it may get the lock means that some run of it does; fairness is not modelled.
- FileLock.Lock: the loop is run for a given number of rounds, after which the call counts as not yet returned; what is exact about it assumes waits of exactly one tick and a timer that wins over the ticker; a crash inside the method is a step of the protocol only.
- FileLock.Unlock: the text of error messages is not modelled; which error it is, is.
- StateFile.WriteStateJSON: how much of the text a failed write has buffered is not stated; the temporary file is removed then.
- BrokenFiles.LoadsExactly: `json.Unmarshal` also refuses texts nested more than 10000 deep, which the reader here accepts.
- AtomicWrite.AtomicWriteStateFile: durability across a power loss; the code does not sync the temporary file.
- Several middleware instances that write one state file: the code does not merge snapshots.
- Reload.LoadPersistentBoolEntries: entries are described only while the recorded expiration fits 64 bits and for clocks from 1970 on.
- Reload.LoadCacheEntries: as the other loader.
- SaveProtocol.NoLostUpdate: one saver per process and fewer than 2^64 marks.
- CrashRecovery.Restart: the process loads into an empty cache, and the changes are under keys that can be told: valid, and not what another key is printed as.
- Restarts.SavedForGood: only processes that got to load; one that did not starts empty, as above.
- The save loop's interval and jitter: when a save is triggered is arbitrary.
- CircuitBreaker.StateIsHistory: fewer than 2^63 events, beyond which the counter would wrap.
- Sessions.CaptchaProtect.IsVerified: after a restart the tokens of reloaded sessions count as issued, so drawing one of them again is excluded.
- StateKeeper.Keeper.SaveStateToFile: the lock's clock and the one of the cache are separate; time that passes while it waits is a step of each.
- Sessions.CaptchaProtect.VerifyChallengePage: form parsing, the request host, time stamps as text, cookie attributes other than value and Max-Age, and the redirect target are left out; other requests change the breaker during the call, and the cache before and after it.
- Random identifiers are taken as new whenever they are drawn, and the cookie name as fixed.
- Request dispatch, templates, JavaScript, logging, route matching by prefix, suffix and regular expression, destination and Cap URL checks, the user-agent exemptions and the UptimeRobot list: plumbing, or libraries that are not part of this model.
