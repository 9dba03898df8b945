# k8s-healer, modelled and verified in Dafny

k8s-healer is one long-running controller. It watches a changing set of namespaces, deletes stale
ones, cleans up stale custom resources, restarts unhealthy pods and virtual machines under a
cooldown, and evicts pods when nodes run short of resources. This project models the parts of it that
carry state or non-trivial decisions, and proves what they keep over whole runs.

## Layout

| file | content |
|---|---|
| `Text.dfy` | the string operations of Go's `strings` package that the healer uses |
| `Matching.dfy` | glob matching and prefix extraction |
| `PatternAlgebra.dfy` | laws of globs: composition, acceptance, and patterns that cover what their matches contribute |
| `NamespaceRace.dfy` | the list and the set of watched namespaces under every interleaving of the goroutines that edit them |
| `NamespaceWatcher.dfy` | one namespace poll: the specification, and the class with its loops and parallel deletions |
| `NamespaceRuns.dfy` | whole runs of polling: agreement and confinement |
| `NamespaceLimits.dfy` | the exact limits of runs: when they keep to a pattern's head, and how soon they settle |
| `Startup.dfy` | resolving `--namespaces` and deriving the polling pattern |
| `FlagLimits.dfy` | from `--namespaces` to any point of any run, and its exact limits |
| `Cooldown.dfy` | the look-decide-act-record protocol with any number of workers, a cleaner and a memory guard |
| `HealLedger.dfy` | the healer's maps, the cleaner's tick, sanitizing, the sequential check-and-heal methods |
| `CleanupProtocol.dfy` | the API protocol of one cleanup, for every sequence of answers |
| `CrdTracking.dfy` | passes over resource types under every interleaving; the cleanup counters |
| `CrdListing.dfy` | which namespaces a pass asks, and when two goroutines list one key |
| `CrdVisits.dfy` | a pass as a sequence of visits to the listed resources |
| `CrdJanitor.dfy` | the class that makes the calls, whole passes, and runs of them |
| `CrdSpec.dfy` | the text form of a resource type and its two parsers |
| `Staleness.dfy` | staleness of custom resources and the reported reason |
| `PodPressure.dfy` | node strain, pod constraints, priorities |
| `Eviction.dfy` | candidate filtering, the in-place sort, the evictions, and their log over runs |
| `Healer.dfy` | janitor and optimizer together, over shared memory, cleaner, memory guard and clock |
| `Protection.dfy` | from the command line to which namespaces are protected from eviction |

`dafny verify dfyconfig.toml` checks everything.

## How the system is modelled

- An object whose methods update its fields is a class (`Watcher`, `Ledger`, `Janitor`, `Optimizer`; the
  last two stand for one healer and share its `Ledger`, which `Healer.Controller` puts together), its
  slices and maps are fields of type `seq`, `set` and `map`. A Go `map[string]bool` that only ever holds
  `true` is a `set`. Loops stay loops, and each method is proved against a function or a predicate.
- Parallel goroutines appear twice: as schedules, that is sequences of critical sections in any order
  the program text allows, about which lemmas are proved; and in the class as a loop that lets any
  goroutine with work left take its next step. The namespace deletions are interleaved section by
  section; in `CheckCRDResources` one turn handles one listed item, while `CrdTracking.PassesResult`
  covers the finer interleavings, also of several passes at once.
- The Kubernetes API may answer anything: it is a parameter (`Round.replies`, `answers`, `reply`) or a
  class whose answers are arbitrary (`Api`), and ghost logs record the calls. The clock never runs
  backwards: it is part of the state in `Cooldown`, a class read at each step (`Clock`) in the janitor,
  and bounded below by that class's time in the optimizer; elsewhere it is a parameter.
- Names in the cluster contain neither `/` nor `*`, and a listing never repeats a name. Glob patterns
  consist of literal characters and `*`.

## Main results

- **Confinement.** Over all runs from a concrete start, every namespace watched or passed to Delete is
  given, or under a given namespace's prefix, or within the pattern's *reach*, for every pattern; and
  what is passed to Delete is besides never an excluded namespace. The reach is the text before the
  first star unless the pattern is *leaky*: that text would itself yield a discovery prefix and no
  separator follows the star. Confinement to that text holds if and only if the pattern is not leaky, or
  has a slash and matches nothing (`ConfinesExactly`).
- **From the command line.** The same bound holds for any `--namespaces`, any cluster at start-up and any
  run (`FlagConfines`). All runs keep to the texts before the first stars if and only if the reach of
  every leaky pattern lies under a prefix of what is spelled out or under some pattern's text
  (`KeepsToHeadsExactly`, given one character the configuration does not use; `KeepsToHeadsIff` without
  that). For a single entry `p*` that means that `p` yields no prefix (`StaysUnderExactly`).
- **Settling.** From any list without wildcards, two polls of an unchanged cluster in which nothing is
  removed as stale settle, whatever the pattern: a third changes nothing (`TwoRoundsSettle`). One suffices
  if and only if the pattern, without its trailing stars, ends in a separator, or has no star and yields
  no prefix, or has a slash (`SettlesExactly`).
- **Agreement.** From a start in agreement, at every point of every interleaving, list and set differ
  only by the names whose worker is between its two critical sections, and they are equal after every poll.
- **Cooldown.** The pruned map decides like the full history since the last sanitizing, at every moment
  of every run, and two heals of a key inside one cooldown are possible only if the second check preceded
  the first record or the map was sanitized between the two. The janitor's own passes, ticks and
  sanitizings are such a run, with nothing concurrent in it: its sessions on one key are a cooldown apart
  unless the map was sanitized between. So are the optimizer's successful actions on one pod.
- **Forgetting.** A poll forgets a namespace it found stale exactly when the answers it got say that the
  namespace is gone: some call was answered "not found" or its Delete succeeded (`AnswersDecide`).
- **Start-up.** For every flag, what resolving it yields is exactly what it covers, and a failed listing
  is tolerated if and only if what it covers is the same for every cluster (`ListingMattersIff`).
- **Cleanup.** Finalizers are cleared only where there are some and the flag is set or the deletion has
  begun (`VisitMeaning`). Whatever the API answers, a session makes at most three attempts and one successful
  Delete. A pass visits every listed resource once, and which visits act, the heals and the calls are
  fixed by the times of the visits and the answers.
- **Tracking.** Any number of passes may run at once, over types of any names and with goroutines that
  list the same keys, while the cleaner's trim and the memory guard lose keys at any time. Under every
  interleaving, of their type names a key is tracked afterwards if every pass of its name listed it and it
  was neither dropped nor lost, and only if it was listed. Exactly the listed keys less the dropped ones are
  tracked, but for lost ones, under every interleaving if and only if no key is listed twice and no
  pass that lists anything runs beside another of its name (`ExactIff`). For one pass over the watched
  namespaces, whether or not the type is namespaced, that is so unless the all-namespaces entry stands beside a namespace that holds such a
  resource (`ExactScopeIff`), a state the healer does reach (`InexactScopeIsReached`).
- **Conservation.** Every successful Delete is counted under its type or pending, in every reachable
  state, and the printed total is the number of successful Deletes.
- **Eviction.** The pods acted on are the first of the candidates in the order of their classes, five at most:
  no candidate is left out for one whose class comes later (`PassMeaning`). Exactly the successful actions
  are recorded, and every call ever made is safe: owned, past its cooldown, not critical, under strain,
  and in no test namespace at either check. What is a test namespace is decided by the one polling
  pattern alone, over all runs (`ProtectionIff`). All that the wildcards of `--namespaces` stand for is
  protected if and only if polling is on and the first wildcard accepts each of the others as a text
  (`WildcardsProtectedIff`).
- **Together.** Janitor and optimizer, the cleaner and the memory guard on one healer do exactly what each
  does alone, and keep each other's promises, in any order (`Healer.Controller`).

## Where the code and its documentation differ

The model follows the code.

- The repository's `README.md:293-295` says polling works with a pattern or with namespaces that yield
  prefixes. `Watch` starts polling only with a pattern or a wildcard in the list, and the resolved list
  holds no wildcard, so prefixes alone never start it (`PollingNeedsPattern`).
- `README.md:314-316` says resources in excluded namespaces are never deleted. Only namespace deletion
  consults the exclusions: for every excluded namespace there is a resource in it that a pass cleans up
  (`ExcludedIsCleaned`), and `CheckAndHealVM` does not consult them either.
- `README.md:170-171` lists pods that cannot be scheduled among those the optimizer frees. As their only sign it
  does not justify eviction (`ConstrainedYetSparedIff`).
- A flag that stands for nothing at start-up makes the healer watch the pods of all namespaces
  (`UnmatchedFlagWatchesAll`).
- `README.md:162-163` says strain means exceeding the threshold; reaching it is enough (`IsClusterUnderStrain`).
- `README.md:173-177` says pods in test namespaces are never evicted. Without a pattern flag and with
  polling off, none of the namespaces that the wildcards of `--namespaces` stand for is protected; with
  polling on, only those that the first wildcard matches (`WildcardsProtectedIff`, `SecondWildcardIsOpen`).
- A stale namespace found for the first time is deleted and then watched by the same poll
  (`DeletedYetWatched`).
- The comments at `pkg/util/checks.go:665` and `pkg/util/checks.go:683` put pods without a class below "low" and
  treat an unknown class as medium. By the scores "low" is evicted first, and an unknown class counts
  like none (`PriorityIsByClass`).

## Model

| member | source | states |
|---|---|---|
| Text.TrimSpaceMeaning | cmd/main.go:187-190 | trimming an entry cuts blanks, tabs, line ends and the other Latin-1 white space off both ends and nothing else |
| Text.ContainsMeaning | pkg/healer/healer.go:1227-1233 | the substring test asks whether the text occurs anywhere |
| Text.UpToMeaning | pkg/healer/healer.go:1409-1413 | the order of the printed types is that of the first differing character, a prefix coming first |
| Matching.GlobMeaning | pkg/healer/healer.go:1795-1804 | a name matches a pattern exactly when each star can be filled with a slash-free string to spell it |
| Matching.GlobPrefixStar | pkg/healer/healer.go:1795-1804 | `p*` is prefix matching on names whose remainder has no slash |
| Matching.GlobSelf | pkg/healer/healer.go:1857-1864 | a wildcard entry matches its own text |
| Matching.LastSeparator | pkg/healer/healer.go:1722-1735 | the position found is a separator and none comes after it |
| Matching.PrefixMeaning | pkg/healer/healer.go:1711-1745 | a text is the prefix of a name exactly when it is a proper prefix of more than one character, ends in a hyphen, underscore or dot, and none of these follows; a name with a star has none |
| Matching.ExtractPrefixes | pkg/healer/healer.go:1711-1745 | the loop yields exactly the prefixes of the listed names; the same loop is at cmd/main.go:144-178 |
| Matching.PrefixShape | pkg/healer/healer.go:1737-1741 | an extracted prefix is a proper prefix ending in a separator, and itself yields none |
| Matching.PrefixKeepsRoot | pkg/healer/healer.go:1711-1745 | prefixes extracted from names under a root stay under it if and only if the root itself yields no prefix |
| Matching.MatchKeepsHead | pkg/healer/healer.go:1711-1745 | a prefix extracted from a match of a non-leaky pattern extends the pattern's head |
| Matching.MatchKeepsReach | pkg/healer/healer.go:1711-1745 | the matches of any pattern, and the prefixes extracted from them, stay within the pattern's reach |
| Matching.LeakyEscapes | pkg/healer/healer.go:1711-1745 | a leaky pattern has a match whose prefix is shorter than its head |
| PatternAlgebra.GlobIsTransitive | pkg/healer/healer.go:1795-1804 | a pattern that accepts another as a text accepts whatever that one stands for |
| PatternAlgebra.AcceptsAllIff | pkg/healer/healer.go:1795-1804 | a pattern accepts every cluster name another stands for if and only if it accepts that one as a text |
| PatternAlgebra.CoversIffSteady | pkg/healer/healer.go:1711-1745 | a pattern covers everything under the prefixes its matches contribute if and only if it is steady |
| NamespaceRace.DropOneMore | pkg/healer/healer.go:2081-2093 | splices of different names commute, duplicates included |
| NamespaceRace.SpliceForgetsIff | pkg/healer/healer.go:2086-2091 | one splice forgets a name exactly when the list holds it at most once |
| NamespaceRace.RemoveFirstMeaning | pkg/healer/healer.go:2086-2091 | the splice cuts out the first occurrence, and nothing when there is none |
| NamespaceRace.ScheduleEffect | pkg/healer/healer.go:1883-1943 | under any interleaving, list and set depend only on which steps have happened |
| NamespaceRace.AgreementThroughout | pkg/healer/healer.go:1883-1943 | at every point the list is duplicate-free and differs from the set only by names between their two critical sections |
| NamespaceRace.FinishedEffect | pkg/healer/healer.go:1883-1943 | all finished interleavings have one outcome up to the order of appended names, and list and set agree again |
| NamespaceWatcher.Watcher.constructor | pkg/healer/healer.go:128-148 | every initial namespace is marked as watched |
| NamespaceWatcher.Watcher.Start | pkg/healer/healer.go:392-396 | an empty list becomes the all-namespaces entry, in the list only |
| NamespaceWatcher.TargetsMeaning | pkg/healer/healer.go:1767-1816 | a poll is responsible for a name exactly when the explicit pattern matches it, or without one some wildcard of the list does, or it starts with the prefix of some entry |
| NamespaceWatcher.Watcher.SpliceOut | pkg/healer/healer.go:2086-2091 | the loop removes the first occurrence and nothing else |
| NamespaceWatcher.Watcher.CollectPatterns | pkg/healer/healer.go:1767-1779 | the explicit pattern alone, or else the wildcards of the list in order |
| NamespaceWatcher.Watcher.IsTarget | pkg/healer/healer.go:1963-1980 | the two loops with early exits decide whether any pattern or prefix matches |
| NamespaceWatcher.Watcher.MatchListing | pkg/healer/healer.go:1791-1816 | exactly the listed names that some pattern or prefix matches |
| NamespaceWatcher.Watcher.FindVanished | pkg/healer/healer.go:1839-1881 | exactly the watched names that match and are no longer listed |
| NamespaceWatcher.Watcher.FindStale | pkg/healer/healer.go:1953-1995 | exactly the matching, active, not excluded namespaces older than the stale age |
| NamespaceWatcher.Watcher.RequestDeletion | pkg/healer/healer.go:2016-2078 | on a terminating namespace no call is made and nothing leaves; otherwise exactly the calls that `WorkerMeaning` describes are made and logged with their answers |
| NamespaceWatcher.WorkerMeaning | pkg/healer/healer.go:2024-2078 | Get is called exactly to clear finalizers, Update exactly after a successful Get, Delete exactly when neither was answered "not found"; the name leaves tracking exactly when some call was answered "not found" or Delete succeeded |
| NamespaceWatcher.PollMeaning | pkg/healer/healer.go:1759-1944 | name by name: what a poll is responsible for is watched afterwards exactly when listed and not cleared as stale while watched; everything else, and everything after a failed listing, stays as it was |
| NamespaceWatcher.AnswersDecide | pkg/healer/healer.go:2050-2093 | a watched stale namespace leaves the set, and the list too if the two agreed, exactly when the log of the poll holds a call about it answered "not found" or its successful Delete |
| NamespaceWatcher.Watcher.ForgetVanished | pkg/healer/healer.go:1888-1906 | the sequential removals form a schedule that removes each vanished name once |
| NamespaceWatcher.Watcher.DeleteInParallel | pkg/healer/healer.go:1998-2013 | under every choice of the next goroutine the steps form a schedule, each namespace gets exactly its calls, in order, and Delete is called once for each name it should be |
| NamespaceWatcher.Watcher.WatchNew | pkg/healer/healer.go:1930-1943 | the additions complete the schedule |
| NamespaceWatcher.Watcher.Discover | pkg/healer/healer.go:1759-1944 | a poll has exactly the specified outcome and calls, as the result of a finished schedule; a watched stale namespace leaves exactly when the logged answers say that it is gone |
| NamespaceRuns.StartAgreesIff | pkg/healer/healer.go:390-398 | list and set agree at the start exactly when namespaces were given, none twice |
| NamespaceRuns.AgreementOverRuns | pkg/healer/healer.go:1883-1943 | list and set agree after every poll of a run that starts in agreement |
| NamespaceRuns.MissedOnlyIfRemoved | pkg/healer/healer.go:1789-1944 | a matching listed namespace is unwatched afterwards exactly when it was watched and this poll removed it |
| NamespaceRuns.DeletedYetWatched | pkg/healer/healer.go:1904-1938 | a stale namespace not watched before is deleted and then watched by the same poll |
| NamespaceRuns.WildcardsAreForgotten | pkg/healer/healer.go:1845-1896 | without an explicit pattern no wildcard entry survives the first successful poll |
| NamespaceRuns.TargetIsHeld | pkg/healer/healer.go:1782-1816 | whatever a poll is responsible for is rooted, and so is the prefix it will contribute, for every pattern |
| NamespaceRuns.Confinement | pkg/healer/healer.go:1759-1944 | everything ever watched or listed is rooted in what was given or within the pattern's reach |
| NamespaceRuns.DeletionsAreConfined | pkg/healer/healer.go:1948-2013 | everything ever passed to Delete is rooted, not excluded, listed as active, and older than the stale age |
| NamespaceRuns.PollForNewNamespaces | pkg/healer/healer.go:1698-1706 | the loop of polls is a run, and the fields of the healer and the names its logged calls passed to Delete obey confinement |
| NamespaceRuns.WatchedIsRooted | pkg/healer/healer.go:1759-1944 | what is watched was watched from the start, or is a cluster name found through a prefix or the pattern |
| NamespaceLimits.ConfinesExactly | pkg/healer/healer.go:1759-1944 | all runs are confined to the text before the pattern's first star if and only if the pattern does not leak or matches nothing |
| NamespaceLimits.TargetsShrink | pkg/healer/healer.go:1767-1816 | what a poll is responsible for the one before it was, if the pattern is steady or nothing new was found through the pattern |
| NamespaceLimits.SettlesExactly | pkg/healer/healer.go:1767-1944 | for every pattern, one quiet poll settles if and only if the pattern is steady |
| NamespaceLimits.TwoRoundsSettle | pkg/healer/healer.go:1767-1944 | for every pattern, after two quiet polls of an unchanged cluster a third changes neither structure |
| Startup.ResolveWildcardNamespaces | cmd/main.go:182-302 | for every non-empty input the names resolved are exactly those covered, with nothing assumed of the entries; it fails exactly when the listing fails and what is covered is not the same for every cluster |
| Startup.EntriesMeaning | cmd/main.go:186-190 | texts without commas, joined by commas, come back in order and trimmed |
| Startup.CoveredMeaning | cmd/main.go:236-293 | a name is covered exactly when it is spelled out without a star, or is in the cluster and matches an entry with a star or starts with the prefix of an entry |
| Startup.ListingMattersIff | cmd/main.go:193-231 | the listing is needed, that is some entry has a star or yields a prefix, exactly when what is covered depends on the cluster |
| Startup.PollingPattern | cmd/main.go:507-526 | the pattern flag if there is one; else, with polling enabled, the first entry with a star; else nothing |
| Startup.ResolvesWhatDiscoveryMatches | cmd/main.go:247-293 | restricted to the cluster, start-up covers what a first poll of the raw entries would match, plus the explicit names |
| Startup.StartIsConcrete | cmd/main.go:236-293 | the healer always starts from names without wildcards, the premise of confinement |
| Startup.ResolvedStartAgrees | cmd/main.go:285-293 | on the resolving path list and set agree at the start exactly when something was found |
| Startup.StartsPollingMeaning | pkg/healer/healer.go:455-468 | polling starts exactly when it is enabled and there is a pattern or a wildcard in the list |
| Startup.PollingNeedsPattern | pkg/healer/healer.go:451-464 | polling starts exactly when a pattern flag or a wildcard entry was given |
| FlagLimits.KeepsToHeadsIff | cmd/main.go:182-302 | for any flag, all runs keep to the heads if and only if no leaky pattern reaches a cluster name that nothing accounts for |
| FlagLimits.KeepsToHeadsExactly | cmd/main.go:182-302 | for any flag, all runs keep to the heads if and only if the reach of every leaky pattern lies under a spelled-out prefix or another head, given an unused character |
| FlagLimits.StaysUnderExactly | cmd/main.go:182-302 | started with the single entry `p*`, every run watches only names under `p` if and only if `p` yields no prefix |
| FlagLimits.FlagConfines | cmd/main.go:182-302 | for any flag, what any run watches is spelled out, or is a cluster name under a prefix of that or within the reach of a pattern |
| Startup.UnmatchedFlagWatchesAll | pkg/healer/healer.go:392-396 | for any flag, the list becomes the all-namespaces entry exactly when nothing is spelled out and no cluster name matches |
| Protection.ProtectionIff | pkg/healer/healer.go:2096-2130 | for any flag, at every point of every run, a namespace is protected from eviction if and only if the one polling pattern matches it |
| Protection.WildcardsProtectedIff | cmd/main.go:507-526 | all that the wildcards stand for is protected if and only if polling is enabled and the first accepts each of the others as a text, given a character it does not use |
| Protection.PrefixStarsAccepted | cmd/main.go:507-526 | for wildcards `p*` that means that the first `p` is a prefix of the others |
| Protection.SecondWildcardIsOpen | cmd/main.go:520-524 | with two unrelated wildcards a namespace of the second is not protected |
| Cooldown.Healed | pkg/healer/healer.go:511-545 | a check that passes and its record, with nobody between, are steps of the protocol that record exactly that heal |
| Cooldown.Left | pkg/healer/healer.go:511-545 | a check that comes to nothing leaves the map and the history alone |
| Cooldown.RunKeepsInv | pkg/healer/healer.go:511-594 | the cache, the pending decisions and the spacing of heals stay justified by the history in every run |
| Cooldown.CacheRefinesHistory | pkg/healer/healer.go:547-594 | at every moment the pruned map gives the decision of the full history since the last sanitizing |
| Cooldown.DecisionRefinesHistory | pkg/healer/healer.go:517-529 | a decision taken later than its lookup is the one the history seen at the lookup gives |
| Cooldown.NoPassInsideCooldown | pkg/healer/healer.go:1172-1182 | no check made after a recorded heal of the key passes within the cooldown of it |
| Cooldown.SequentialIsSpaced | pkg/healer/healer.go:1172-1224 | one caller alone heals no key twice within the cooldown unless the map was sanitized between |
| Cooldown.CloseHealsExplained | pkg/healer/healer.go:1172-1224 | two heals of a key closer than the cooldown imply a check before the first record, or a sanitizing between the two |
| Cooldown.SanitizeShortens | pkg/healer/healer.go:627-650 | sanitizing does let one worker heal a key twice at once |
| Cooldown.ConcurrentChecksDuplicate | pkg/healer/healer.go:1364-1395 | two overlapping checks do heal a key twice without any sanitizing |
| HealLedger.Ledger.Prune | pkg/healer/healer.go:555-561 | deleting while walking the map keeps exactly the entries at most twice the cooldown old, at their times |
| HealLedger.Ledger.TrimTracked | pkg/healer/healer.go:600-616 | past 5000 entries exactly three tenths, rounded down, are removed |
| HealLedger.Ledger.CleanerTick | pkg/healer/healer.go:547-624 | one tick prunes all five maps and trims the tracked set |
| HealLedger.Ledger.SanitizeReferences | pkg/healer/healer.go:627-658 | everything is emptied except the cleanup counts, and the current strain is forgotten |
| HealLedger.Ledger.CheckAndHealPod | pkg/healer/healer.go:511-545 | a pod is healed exactly when owned, unhealthy and past its cooldown, and then recorded |
| HealLedger.Ledger.CheckAndHealNode | pkg/healer/healer.go:774-803 | a node is healed exactly when unhealthy and past its cooldown, and then recorded |
| HealLedger.Ledger.CheckAndHealVM | pkg/healer/healer.go:949-996 | a virtual machine is deleted exactly when older than six minutes and past its cooldown, whatever its health |
| HealLedger.BoundKeptIff | pkg/healer/healer.go:600-616 | a bound B of at least 5000 survives g arrivals and a trim if and only if 5000 + g is at most B and g is at most 3B/10 rounded down |
| HealLedger.GrowthIsBounded | pkg/healer/healer.go:600-616 | from at or below such a bound the tracked set never exceeds it |
| CleanupProtocol.AttemptShape | pkg/healer/healer.go:1269-1349 | an attempt has at most four calls, in order, and only its last can settle it or be rate limited |
| CleanupProtocol.AttemptMeaning | pkg/healer/healer.go:1269-1349 | by force an attempt opens by fetching the resource for its finalizers, and clears them exactly when that succeeds; then it looks for the resource, then deletes it; it ends exactly with the Delete, a "not found" or a rate limit |
| CleanupProtocol.ClearsOnlyWhenForced | pkg/healer/healer.go:1271-1297 | finalizers are cleared only when forced, and right after a successful Get |
| CleanupProtocol.SessionForces | pkg/healer/healer.go:1237-1297 | over a session finalizers are fetched and cleared only by force, and each attempt opens accordingly |
| CleanupProtocol.SessionSettlesLast | pkg/healer/healer.go:1237-1266 | in a session only the very last call can be a successful Delete or a "not found" |
| CleanupProtocol.SessionTouchesOnly | pkg/healer/healer.go:1237-1349 | a session makes calls on one resource only and settles at most its key |
| CleanupProtocol.CleanedMeaning | pkg/healer/healer.go:1343-1360 | what is counted as cleaned is, per type and in all, the number of Delete calls answered with success |
| CrdJanitor.Janitor.Weigh | pkg/healer/healer.go:1303-1313 | "not found" is tested before rate limiting and drops the key; rate limiting is told by these words in the message |
| CrdJanitor.Janitor.ClearFinalizersFirst | pkg/healer/healer.go:1272-1300 | the finalizer half of an attempt follows the protocol |
| CrdJanitor.Janitor.CheckExists | pkg/healer/healer.go:1302-1315 | the existence check follows the protocol |
| CrdJanitor.Janitor.DeleteNow | pkg/healer/healer.go:1317-1348 | the deletion follows the protocol and keeps the counters in step with the successful Deletes |
| CrdJanitor.Janitor.DoCRDCleanup | pkg/healer/healer.go:1269-1349 | for every sequence of answers: a complete attempt, which opens with the finalizers, and clears any, only where there are some and the flag is set or the deletion has begun; done, or a rate-limit error; the key dropped exactly on "not found" or a successful Delete |
| CrdJanitor.Janitor.TriggerCRDCleanup | pkg/healer/healer.go:1237-1266 | for every sequence of answers: a session of at most three attempts, each retry after a rate-limit error |
| CrdJanitor.Janitor.LogCRDCreation | pkg/healer/healer.go:1143-1169 | the key `resource/namespace/name` is tracked afterwards, and nothing else changes |
| CrdJanitor.Janitor.CheckAndCleanupCRDResource | pkg/healer/healer.go:1172-1224 | past its cooldown a virtual machine is cleaned exactly when older than six minutes, anything else exactly when over age, stuck or failing, in one session, and then recorded; finalizers are cleared only where there are some and the flag is set or the deletion has begun; and that is a step of the cooldown protocol |
| CrdJanitor.Janitor.VisitMeaning | pkg/healer/healer.go:1172-1300 | for every visit of a pass: the same, and each attempt opens by fetching the finalizers exactly where there are some and the flag is set or the deletion has begun |
| CrdJanitor.Janitor.ForgetMissing | pkg/healer/healer.go:1114-1129 | exactly the tracked keys of the type that were not listed are forgotten |
| CrdJanitor.Janitor.CheckCRDResources | pkg/healer/healer.go:1061-1134 | a pass asks the cluster's namespaces exactly when the list is empty or just the all-namespaces entry, and visits every listed resource once, each acting exactly when due and past its cooldown, with exactly their calls and heals; what is tracked afterwards is bounded by what was listed and settled, and exact when no key is listed twice |
| CrdVisits.TrackedMeaning | pkg/healer/healer.go:1086-1129 | in terms of visits and calls: of its own type only visited keys are tracked, and all of them about which no call was answered "not found" or deleted the resource, exactly these when no key is listed twice; keys of other types are as they were |
| CrdJanitor.Janitor.PassActs | pkg/healer/healer.go:1086-1109 | when no key is listed twice, sessions ran on exactly the due keys past their cooldown before the pass, and the map of heals changed at these keys only |
| CrdListing.ExactScopeIff | pkg/healer/healer.go:1073-1091 | over distinct namespaces, for namespaced and cluster-scoped types, the tracked keys are exact under every interleaving if and only if the all-namespaces entry does not stand beside one whose namespace holds such a resource |
| CrdListing.InexactScopeIsReached | pkg/healer/healer.go:1073-1091 | one poll after a start with nothing puts a namespace beside the all-namespaces entry, and passes are no longer exact |
| CrdJanitor.Janitor.RecordCRDCleanup | pkg/healer/healer.go:1352-1360 | the counter of `resource.group/version` grows by one |
| CrdJanitor.Janitor.ExcludedIsCleaned | pkg/healer/healer.go:1172-1224 | for every excluded namespace there is a resource in it that a pass cleans up |
| CrdJanitor.Janitor.Act | pkg/healer/healer.go:547-658 | a pass visits all it lists, a tick prunes and trims, the memory guard forgets, and each does nothing else |
| CrdJanitor.Janitor.Operate | pkg/healer/healer.go:547-658 | over any run every activity is performed in its turn, each counter grows by exactly the successful Deletes of its type, and sessions on one key are a cooldown apart unless the map was sanitized between |
| CrdJanitor.Janitor.Summary | pkg/healer/healer.go:1403-1423 | the types in ascending order, and the printed total is the number of calls in the log that are successful Deletes |
| CrdTracking.KeyRoundTrip | pkg/healer/healer.go:1119-1122 | splitting a printed key gives back its three parts, so it belongs to its own resource only |
| CrdTracking.KeyIsInjective | pkg/healer/healer.go:1102 | resources share a tracking key only if they share resource name, namespace and name |
| CrdTracking.PassesResult | pkg/healer/healer.go:1086-1129 | after any number of concurrent passes, over types of any names, under every interleaving, with keys lost at any time: a key of their names is tracked if listed by every pass of its name and neither dropped nor lost, and only if listed; no other key changed unless lost |
| CrdTracking.ExactIff | pkg/healer/healer.go:1086-1129 | exactly the listed keys less the dropped ones are tracked, but for lost ones, under every interleaving if and only if no key is listed twice and no pass that lists anything runs beside another of its name |
| CrdTracking.DropThenSweep | pkg/healer/healer.go:1364-1395 | the interleavings that fail: a key dropped by one goroutine and tracked again by another survives, and a key some pass of its name does not list is forgotten |
| CrdTracking.UnlistedIsForgotten | pkg/healer/healer.go:1096-1102 | a key of the resource name that was not listed is forgotten, be it of another group or of a namespace whose listing failed |
| CrdTracking.Conservation | pkg/healer/healer.go:1343-1360 | in every reachable state each successful Delete is counted under its type or pending |
| CrdTracking.ConservationOfTotal | pkg/healer/healer.go:1403-1423 | the printed total plus the pending ones is the number of successful Deletes, in whatever order the keys are printed |
| CrdSpec.RoundTrip | pkg/healer/healer.go:1353 | both parsers undo the printer |
| CrdSpec.PrintIsInjective | pkg/healer/healer.go:1353-1359 | two types share a counter only when they are one type |
| CrdSpec.DotThenSlash | pkg/healer/healer.go:1022-1042 | on `resource.group/tail` both parsers read resource, group and the text up to the next slash as version, for an empty one the slash-first parser takes `v1` |
| CrdSpec.DottedOnly | pkg/healer/healer.go:1022-1042 | on `resource.group` both parsers take version `v1` |
| CrdSpec.ParsersAgreeIff | pkg/healer/healer.go:1022-1042 | the slash-first parser and the dot-first one of lines 197-212 agree on exactly the strings without a dot and those whose first dot precedes any slash and whose version is not an empty one |
| Staleness.StaleMeaning | pkg/util/checks.go:357-395 | stale means over age, stuck while terminating, or failing by a lasting error condition, one of four phases or one of four printable statuses; finalizers play no part |
| Staleness.ScanConditionsMeaning | pkg/util/checks.go:398-449 | the nested scans find exactly a condition of an error type true for over five minutes |
| Staleness.LastingErrorMeaning | pkg/util/checks.go:398-449 | a lasting error is a condition of one of four error types, by substring, that has been "True" for more than five minutes |
| Staleness.ReasonIsFirst | pkg/util/checks.go:484-525 | the reason given is true, and age, stuck termination and finalizers are reported in this order of precedence |
| Staleness.StaleIsMonotone | pkg/util/checks.go:357-395 | a stale resource stays stale |
| Staleness.UnspecifiedIff | pkg/util/checks.go:484-525 | the reason is unspecified exactly when the resource is neither stale nor reported for finalizers |
| Staleness.StaleHasReason | pkg/util/checks.go:484-525 | a stale resource gets a specific reason then and at any later time |
| Staleness.HealthyPhaseReportedIff | pkg/util/checks.go:512-522 | a healthy phase is reported as failed exactly when only the printable status failed |
| PodPressure.IsClusterUnderStrain | pkg/util/checks.go:549-573 | the pressured nodes in order, their exact share, and strain exactly when it reaches the threshold |
| PodPressure.PressuredMeaning | pkg/util/checks.go:553-598 | the nodes counted are exactly those with one of three pressure conditions "True", in order |
| PodPressure.StrainThreshold | pkg/util/checks.go:563-570 | the percentage reaches the threshold exactly when a hundred times the pressured nodes is at least the threshold times all nodes |
| PodPressure.IsPodResourceConstrained | pkg/util/checks.go:607-662 | the overwriting loops with their early return compute the specified issue |
| PodPressure.ContainerIssueNames | pkg/util/checks.go:607-637 | the issue names the first container killed for memory, or else the last one restarted five times |
| PodPressure.ConstrainedMeaning | pkg/util/checks.go:607-662 | a pod is constrained exactly when a container was killed for memory, one restarted five times, scheduling failed for insufficient resources, or it has been pending for five minutes |
| PodPressure.ShouldEvictIff | pkg/util/checks.go:688-722 | eviction is justified exactly by strain, a non-critical class, and an OOM kill, five restarts or five minutes pending |
| PodPressure.PriorityIsByClass | pkg/util/checks.go:664-685 | comparing scores is comparing classes in the order low, none or unknown, medium, high, system-node-critical, system-cluster-critical |
| PodPressure.ConstrainedYetSparedIff | pkg/util/checks.go:688-722 | a constrained pod is spared exactly when failing to schedule is its only sign |
| Eviction.SortByPriority | pkg/healer/healer.go:1595-1603 | the exchange sort arranges the same pods in place by class, in the order of eviction |
| Eviction.PickVictims | pkg/healer/healer.go:1593-1609 | at most five, sorted by class, and the class of no candidate left out comes before that of one chosen |
| Eviction.OnlyPatternProtects | pkg/healer/healer.go:2096-2130 | with a list of concrete names only the configured pattern protects |
| Eviction.CandidateIff | pkg/healer/healer.go:1531-1546 | a pod is a candidate exactly when owned, past its cooldown, matched by no pattern or wildcard, on a strained cluster, not of a critical class and, if of class high or medium, with a sign of trouble |
| Eviction.CandidateIsSafe | pkg/healer/healer.go:1503-1560 | a candidate still outside every test namespace may be acted on |
| Eviction.CheckClears | pkg/healer/healer.go:1511-1518 | the check against the pruned map is a check against every action of the log not sanitized away |
| Eviction.LogGrows | pkg/healer/healer.go:1645-1667 | the calls for a cleared pod keep the log spaced and tied to the map |
| Eviction.Optimizer.IsTestNamespace | pkg/healer/healer.go:2096-2130 | a namespace is a test namespace exactly when the pattern or a wildcard of the list matches it |
| Eviction.Optimizer.Consider | pkg/healer/healer.go:1506-1556 | the filter accepts exactly the candidates |
| Eviction.Optimizer.Collect | pkg/healer/healer.go:1489-1560 | under any interleaving, exactly the listed candidates are collected, each as often as listed |
| Eviction.Optimizer.EvictPod | pkg/healer/healer.go:1620-1669 | no call in a test namespace; else an eviction, and a deletion if it fails; recorded exactly on success, at the time of the answer; all written out |
| Eviction.Optimizer.CheckAndOptimize | pkg/healer/healer.go:1441-1617 | each pass acts, under strain only, on exactly the first of the candidates by class, five at most, and records exactly the successes; over any run every call is safe, and successes on one pod are a cooldown apart unless sanitized between |
| Eviction.PassMeaning | pkg/healer/healer.go:1441-1617 | only listed candidates are chosen; a listed candidate is left out only when five others are chosen, none of a class that comes later; calls are made for the chosen only, an eviction for each not protected by then |
| Healer.Controller.CheckType | pkg/healer/healer.go:1061-1134 | the janitor's pass is performed in full and keeps every promise of the optimizer |
| Healer.Controller.Optimize | pkg/healer/healer.go:1441-1617 | the optimizer's pass is made in full and keeps every promise of the janitor |
| Healer.Controller.CleanerTick | pkg/healer/healer.go:547-624 | every map is pruned and the tracked set trimmed, and the promises of both are kept |
| Healer.Controller.Sanitize | pkg/healer/healer.go:627-658 | every map is emptied, and the promises of both are kept |

## Left out

- Kubernetes clients, informers, contexts, timeouts, sleeps, backoff and rate limiting: foreign calls, replaced by arbitrary answers.
- Printing, formatting, cluster display, pkg/discovery, pkg/healthcheck and the creation warnings of handleResourceCreation: output only.
- pkg/daemon, signals, PID and log files, flags and getDaemonArgs: operating-system wiring.
- Full `filepath.Match`: classes, `?` and escapes are not modelled; a pattern is literals and stars.
- White space beyond Latin-1 in `strings.TrimSpace`, and byte-level string indices: names are ASCII in practice.
- Health predicates of pods, nodes and virtual machines, including getErrorUnschedulableDuration: they feed `unhealthy` as a parameter, or only the log.
- drainNode and the plain deletions of pods, nodes and virtual machines: a filter or a single call.
- checkMemory beyond SanitizeReferences: one compare-and-swap decides a restart.
- RunFullCRDCleanup as a method: it parses each entry (`CrdSpec`) and runs passes concurrently, which `CrdTracking.PassesResult` covers; concurrent workers on one key are covered by `Cooldown` and `CrdTracking.Conservation`.
- Overflow of `2*HealCooldown` and of the 64-bit durations, and the rounding of the strain percentage.
- Eviction.Optimizer.CheckAndOptimize: leaves out the list of test pods that need resources, because it only joins a disjunction whose other side, the strain, already holds; takes the map of optimized pods as unchanged by other goroutines while a pass filters; and takes for granted that no pod is listed twice, because the namespaces come from one listing of the cluster.
- CrdJanitor.Janitor.CheckCRDResources: lets one goroutine handle one item at a time, because the finer interleavings are the subject of `CrdTracking`.
- NamespaceWatcher.Watcher.DeleteInParallel: one goroutine's API calls form a single step, because they touch neither the list nor the set.
