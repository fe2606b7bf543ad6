# ERExtensions core, modelled in Dafny

This project models the parts of Project Wonder's ERExtensions framework that do
bookkeeping, and proves properties of that model. The parts are:

- the request-latency watchdog of `ERXStatisticsStore` (`StopWatchTimer`);
- the order-preserving collection operations of `ERXArrayUtilities`;
- the lookup cache, plural rules and language resolution of `ERXLocalizer`;
- the target selection and response writing of `ERXRedirect`;
- the shared formatter repository of `ERXTimestampFormatter`.

Files and modules:

| file | module | what it holds |
|---|---|---|
| `wrappers.dfy` | `Wrappers` | `Option` and `Result` |
| `java_ints.dfy` | `JavaInt` | Java's truncating division, decimal rendering and `Integer.parseInt` |
| `statistics_store.dfy` | `StatisticsStore` | `StopWatchTimer` as a class over maps, the trace filter and renderer, the session list and the average session memory |
| `array_utilities.dfy` | `ArrayUtilities` | specification functions over sequences, the loop methods proved against them, and `MutableArray` for the operations that change an `NSMutableArray` in place |
| `localizer.dfy` | `Localization` | `Localizer` (cache, created keys, plural rules), `Registry` (the static `localizers` dictionary), and the pure lookup semantics they are proved against |
| `redirect.dfy` | `Redirect` | the target decision table, the path builders, and `AppendToResponse` over `Context` and `Response` objects |
| `timestamp_formatter.dfy` | `TimestampFormatting` | the formatter `Repository` |

Threads are opaque ids. The clock is an explicit `now` parameter. The process-wide stack
dump, thread names, the lock descriptions, regular expressions, `ERXStringUtilities.matchCase`,
the context's URL generators and the query-string encoder are parameters whose insides
are not modelled. Java `null` is `None`; a thrown exception is an `Err` or error result.

## Model

| member | source | states |
|---|---|---|
| StatisticsStore.StopWatchTimer.constructor | ERExtensions/Sources/er/extensions/statistics/ERXStatisticsStore.java:99-119 | a new watchdog takes each threshold from its property, defaulting to 2000, 10000 and 300000 ms when unset; no start times, empty stores and `_lastLog` 0 |
| StatisticsStore.StopWatchTimer.RequestTime | ERExtensions/Sources/er/extensions/statistics/ERXStatisticsStore.java:121-133 | the timer counts as started exactly when a non-zero start is recorded; elapsed time is 0 when it has not (no start, or a start of 0), else `now` minus the start |
| StatisticsStore.StopWatchTimer.StartTimer | ERExtensions/Sources/er/extensions/statistics/ERXStatisticsStore.java:238-248 | a recorded start is kept unchanged; otherwise exactly that thread gains `now`; stores and `_lastLog` untouched |
| StatisticsStore.StopWatchTimer.MostSevereIsHighestTier | ERExtensions/Sources/er/extensions/statistics/ERXStatisticsStore.java:138-147 | `MostSevere`, the lookup `endTimer` performs: the chosen snapshot is the one of the highest-ranked tier holding the thread (fatal > error > warn); none when no tier holds it |
| StatisticsStore.StopWatchTimer.LevelForSpec | ERExtensions/Sources/er/extensions/statistics/ERXStatisticsStore.java:172-182 | `LevelFor`, the level `endTimer` logs at: silent exactly when no threshold is exceeded; with ordered thresholds error exactly above the error threshold and warn exactly between warn and error; the level never drops as elapsed time grows |
| StatisticsStore.StopWatchTimer.ClearThread | ERExtensions/Sources/er/extensions/statistics/ERXStatisticsStore.java:149-159 | the thread is removed from every store and from the start times; other threads' entries are unchanged |
| StatisticsStore.StopWatchTimer.EndTimer | ERExtensions/Sources/er/extensions/statistics/ERXStatisticsStore.java:128-187 | reports the elapsed time; removes the thread everywhere; renders the most severe snapshot only when more than 10000 ms passed since the last rendering (then `_lastLog := now`), else the skipped-traces placeholder with `_lastLog` kept; the level follows the thresholds |
| StatisticsStore.StopWatchTimer.CheckThreads | ERExtensions/Sources/er/extensions/statistics/ERXStatisticsStore.java:288-339 | each store gains exactly the threads over its limit (half for warn and error, full for fatal) that it did not hold, all with the same dump and names; existing entries stay; the dump is taken iff some store changed; the deadlock count is the number of newly fatal threads and is reported only for a non-empty registry; one fatal diagnostic per newly fatal thread |
| StatisticsStore.StopWatchTimer.ScanAll | ERExtensions/Sources/er/extensions/statistics/ERXStatisticsStore.java:296-336 | scanning every thread once, in any order, escalates each tier over its due set and counts the fresh fatal threads |
| StatisticsStore.StopWatchTimer.ScanThread | ERExtensions/Sources/er/extensions/statistics/ERXStatisticsStore.java:297-334 | one thread's scan records into each tier only when over that tier's limit and absent; a diagnostic exactly when it newly turns fatal |
| StatisticsStore.StopWatchTimer.RecordTier | ERExtensions/Sources/er/extensions/statistics/ERXStatisticsStore.java:300-307 | recordIfAbsent for one tier; the dump is taken lazily and then reused |
| StatisticsStore.StopWatchTimer.EscalatedValid | ERExtensions/Sources/er/extensions/statistics/ERXStatisticsStore.java:288-339 | after a pass no store holds a thread without a start, and with ordered thresholds fatal ⊆ error ⊆ warn; a store changes iff it has a fresh due thread |
| StatisticsStore.EscalateKeepsExisting | ERExtensions/Sources/er/extensions/statistics/ERXStatisticsStore.java:300-316 | snapshot-once: an escalation never replaces an entry, records every due thread and nothing else |
| StatisticsStore.EscalateIdempotent | ERExtensions/Sources/er/extensions/statistics/ERXStatisticsStore.java:300-316 | a second pass over the same overdue threads records nothing new |
| StatisticsStore.EscalateChanges | ERExtensions/Sources/er/extensions/statistics/ERXStatisticsStore.java:300-316 | a store changes exactly when some due thread was not yet recorded |
| StatisticsStore.DueNested | ERExtensions/Sources/er/extensions/statistics/ERXStatisticsStore.java:300-316 | with ordered thresholds, fatal-due ⊆ error-due ⊆ warn-due (with Java's truncating halving) |
| StatisticsStore.KeptMembership | ERExtensions/Sources/er/extensions/statistics/ERXStatisticsStore.java:202-210 | an entry is printed exactly when it is in the dump and passes the filter (stack deeper than 2, not "main" nor "ERXStopWatchTimer", not group "system", top frame not `java.net.PlainSocketImpl`) |
| StatisticsStore.KeptIsSubsequence | ERExtensions/Sources/er/extensions/statistics/ERXStatisticsStore.java:202-210 | the filter never adds entries and keeps all of them exactly when all pass |
| StatisticsStore.RenderShape | ERExtensions/Sources/er/extensions/statistics/ERXStatisticsStore.java:190-200 | a null snapshot renders as ""; a present one starts with a newline and the request-thread header |
| StatisticsStore.StringFromTracesAndNames | ERExtensions/Sources/er/extensions/statistics/ERXStatisticsStore.java:190-236 | the loop builds exactly the rendering of the kept entries, each with its captured name when one exists |
| StatisticsStore.RenderBlock | ERExtensions/Sources/er/extensions/statistics/ERXStatisticsStore.java:211-222 | one entry's text: captured name, thread, then one line per frame |
| StatisticsStore.FatalReport.Message | ERExtensions/Sources/er/extensions/statistics/ERXStatisticsStore.java:323-331 | the fatal diagnostic starts with the deadlock warning and ends with the object-store coordinator's lock description |
| StatisticsStore.CurrentThreadNames | ERExtensions/Sources/er/extensions/statistics/ERXStatisticsStore.java:341-347 | the names map has exactly the dump's threads as keys, each with its current name |
| StatisticsStore.SessionRegistry.ApplicationCreatedSession | ERExtensions/Sources/er/extensions/statistics/ERXStatisticsStore.java:366-372 | the session is appended |
| StatisticsStore.SessionRegistry.SessionTerminating | ERExtensions/Sources/er/extensions/statistics/ERXStatisticsStore.java:374-380 | every occurrence of the session is removed |
| StatisticsStore.SessionRegistry.AverageSessionMemory | ERExtensions/Sources/er/extensions/statistics/ERXStatisticsStore.java:449-471 | both figures 0 without a start measurement or sessions; otherwise total = start free − current free and per-session is the total divided by the count, truncated toward zero |
| JavaInt.DivTruncates | ERExtensions/Sources/er/extensions/statistics/ERXStatisticsStore.java:463-465 | Java `/` on longs: the quotient truncates toward zero, the remainder takes the dividend's sign |
| JavaInt.ParseIntRoundTrip | ERExtensions/Sources/er/extensions/foundation/ERXArrayUtilities.java:1391 | `Integer.parseInt` reads back every 32-bit value's decimal rendering |
| ArrayUtilities.IndexOf | ERExtensions/Sources/er/extensions/foundation/ERXArrayUtilities.java:1900 | `indexOfObject`: absent iff not present; otherwise the first position holding the object |
| ArrayUtilities.ArrayMinusObject | ERExtensions/Sources/er/extensions/foundation/ERXArrayUtilities.java:695-705 | a null object gives an unchanged copy; otherwise the removal loop yields the input without any occurrence of the object |
| ArrayUtilities.WithoutSpec | ERExtensions/Sources/er/extensions/foundation/ERXArrayUtilities.java:695-705 | removal drops exactly the occurrences of the object and keeps every other element's multiplicity |
| ArrayUtilities.WithoutRemoveAt | ERExtensions/Sources/er/extensions/foundation/ERXArrayUtilities.java:700-703 | removing one occurrence and then the rest equals removing all of them |
| ArrayUtilities.ArrayMinusArraySpec | ERExtensions/Sources/er/extensions/foundation/ERXArrayUtilities.java:675-686 | `ArrayMinusArray` (a copy for an empty array or empty `minus`, else `removeAll`): the result holds every element not in `minus` with its multiplicity, and none of `minus` |
| ArrayUtilities.RemoveAllSingle | ERExtensions/Sources/er/extensions/foundation/ERXArrayUtilities.java:675-705 | subtracting a one-element collection is the same as removing that object |
| ArrayUtilities.NovelSpec | ERExtensions/Sources/er/extensions/foundation/ERXArrayUtilities.java:775-786 | what is appended has no duplicates and holds exactly the elements of `array2` absent from `array1` |
| ArrayUtilities.MutableArray.AddObjectsFromArrayWithoutDuplicates | ERExtensions/Sources/er/extensions/foundation/ERXArrayUtilities.java:775-786 | the original prefix stays; appended are, in order, the first occurrences of the new elements |
| ArrayUtilities.AddWithoutDuplicatesIsDistinct | ERExtensions/Sources/er/extensions/foundation/ERXArrayUtilities.java:775-786 | on a duplicate-free array the result is the de-duplication of the concatenation, and duplicate-free |
| ArrayUtilities.ArrayWithoutDuplicates | ERExtensions/Sources/er/extensions/foundation/ERXArrayUtilities.java:1800-1810 | the loop with its `present` set returns the first occurrence of each element in input order |
| ArrayUtilities.DistinctSpec | ERExtensions/Sources/er/extensions/foundation/ERXArrayUtilities.java:1800-1810 | no repeated elements, same element set, identity on duplicate-free input, idempotent |
| ArrayUtilities.DistinctConcat | ERExtensions/Sources/er/extensions/foundation/ERXArrayUtilities.java:1800-1810 | de-duplicating a concatenation appends only what the first part lacks |
| ArrayUtilities.Flatten | ERExtensions/Sources/er/extensions/foundation/ERXArrayUtilities.java:840-867 | the result has no nested arrays; an array with nothing nested (the empty one included) comes back unchanged |
| ArrayUtilities.FlattenConcat | ERExtensions/Sources/er/extensions/foundation/ERXArrayUtilities.java:840-867 | flattening distributes over concatenation (depth-first, order-preserving) |
| ArrayUtilities.FlattenSpec | ERExtensions/Sources/er/extensions/foundation/ERXArrayUtilities.java:840-867 | flattening is idempotent |
| ArrayUtilities.FlattenFiltered | ERExtensions/Sources/er/extensions/foundation/ERXArrayUtilities.java:811-817 | with duplicate filtering the flattened result has no repeats |
| ArrayUtilities.FlattenFilteredSpec | ERExtensions/Sources/er/extensions/foundation/ERXArrayUtilities.java:811-817 | filtering keeps the result flat and the same elements as the plain flattening |
| ArrayUtilities.BatchedArrayWithSize | ERExtensions/Sources/er/extensions/foundation/ERXArrayUtilities.java:1820-1838 | empty input gives no batches; size < 1 is an error for non-empty input; the batches concatenate to the input, all but the last hold exactly `batchSize`, every batch 1..`batchSize` |
| ArrayUtilities.ShiftLeftSpec | ERExtensions/Sources/er/extensions/foundation/ERXArrayUtilities.java:1899-1906 | a permutation that moves the first occurrence one left; no-op when absent or first |
| ArrayUtilities.ShiftRightSpec | ERExtensions/Sources/er/extensions/foundation/ERXArrayUtilities.java:1915-1922 | a permutation that moves the first occurrence one right; no-op when absent or last |
| ArrayUtilities.InsertRemoveLeft | ERExtensions/Sources/er/extensions/foundation/ERXArrayUtilities.java:1902-1905 | insert at `index-1` then remove at `index+1` is the swap of the two neighbours |
| ArrayUtilities.InsertRemoveRight | ERExtensions/Sources/er/extensions/foundation/ERXArrayUtilities.java:1918-1921 | insert at `index+2` then remove at `index` is the swap of the two neighbours |
| ArrayUtilities.MutableArray.ShiftObjectLeft | ERExtensions/Sources/er/extensions/foundation/ERXArrayUtilities.java:1899-1906 | the array becomes its left shift |
| ArrayUtilities.MutableArray.ShiftObjectRight | ERExtensions/Sources/er/extensions/foundation/ERXArrayUtilities.java:1915-1922 | the array becomes its right shift |
| ArrayUtilities.SwapSpec | ERExtensions/Sources/er/extensions/foundation/ERXArrayUtilities.java:2519-2543 | the swap exchanges exactly positions i and j, changes nothing else, is its own inverse, and is a no-op when i == j |
| ArrayUtilities.SwapPermutes | ERExtensions/Sources/er/extensions/foundation/ERXArrayUtilities.java:2519-2543 | the swap is a permutation |
| ArrayUtilities.MutableArray.SwapObjects | ERExtensions/Sources/er/extensions/foundation/ERXArrayUtilities.java:2519-2543 | an empty array or an out-of-range index is an error and changes nothing; otherwise positions A and B are exchanged |
| ArrayUtilities.MutableArray.SwapObjectWithIndex | ERExtensions/Sources/er/extensions/foundation/ERXArrayUtilities.java:2553-2559 | the object's first position is swapped with B; an absent object is index -1 and an error |
| ArrayUtilities.IntersectingElements | ERExtensions/Sources/er/extensions/foundation/ERXArrayUtilities.java:1988-2011 | the loop returns the common elements, each once, in the order of the larger collection (`array2` on a tie) |
| ArrayUtilities.IntersectionSpec | ERExtensions/Sources/er/extensions/foundation/ERXArrayUtilities.java:1988-2011 | the intersection has no duplicates and holds exactly the elements in both inputs |
| ArrayUtilities.RetainAllSpec | ERExtensions/Sources/er/extensions/foundation/ERXArrayUtilities.java:1999-2008 | retained are exactly the elements present in both |
| ArrayUtilities.ArrayContainsArray | ERExtensions/Sources/er/extensions/foundation/ERXArrayUtilities.java:1965-1977 | true iff `array1` is non-empty and holds every element of `array2` |
| ArrayUtilities.Reverse | ERExtensions/Sources/er/extensions/foundation/ERXArrayUtilities.java:2020-2027 | position i of the result holds position n-1-i of the input |
| ArrayUtilities.ReverseSpec | ERExtensions/Sources/er/extensions/foundation/ERXArrayUtilities.java:2020-2027 | reversal is an involution and a permutation |
| ArrayUtilities.ContentsOf | ERExtensions/Sources/er/extensions/foundation/ERXArrayUtilities.java:1168-1173 | the remaining key path is followed only for a non-empty array and a non-empty path |
| ArrayUtilities.LimitSpec | ERExtensions/Sources/er/extensions/foundation/ERXArrayUtilities.java:1379-1395 | `LimitCompute`, the operator's `compute`: for a key path "n.rest": a negative n is an error; otherwise the first min(n, count) objects go on with "rest" |
| Localization.MethodKey | ERExtensions/src/main/java/er/extensions/localization/ERXLocalizer.java:1202-1204 | an '@' key names the method up to its first '.', else the whole rest: the name has no '.' and is followed by the end of the key or by a '.' |
| Localization.Resolve | ERExtensions/src/main/java/er/extensions/localization/ERXLocalizer.java:1201-1234 | null key gives null; an '@' key that is not an operator is invoked; a cached NOT_FOUND gives null and a cached value itself; a miss gives null unless falling back to the default language applies, and then the default-language localizer's cached answer |
| Localization.CacheAfter | ERExtensions/src/main/java/er/extensions/localization/ERXLocalizer.java:1221-1234 | a miss stores the answer, or NOT_FOUND for null; anything else leaves the cache as it was |
| Localization.DefaultsAfter | ERExtensions/src/main/java/er/extensions/localization/ERXLocalizer.java:1228-1230 | the default localizer only ever gains entries, and it remembers a key it was asked for |
| Localization.LookupRemembered | ERExtensions/src/main/java/er/extensions/localization/ERXLocalizer.java:1221-1234 | after a lookup the answer is exactly what the cache now holds for the key |
| Localization.LookupStable | ERExtensions/src/main/java/er/extensions/localization/ERXLocalizer.java:1221-1234 | repeating a lookup answers the same and changes neither cache; a stored NOT_FOUND keeps yielding null |
| Localization.Defaulted | ERExtensions/src/main/java/er/extensions/localization/ERXLocalizer.java:1167-1180 | null key gives null; a missing or "**NOT_FOUND**" answer becomes the key itself; anything else is returned |
| Localization.DefaultedStable | ERExtensions/src/main/java/er/extensions/localization/ERXLocalizer.java:1167-1180 | after the default-inserting lookup, a plain lookup of the key returns the same non-null answer |
| Localization.Localizer.LocalizedValueForKey | ERExtensions/src/main/java/er/extensions/localization/ERXLocalizer.java:1201-1234 | the method returns the lookup answer and leaves both caches as the lookup semantics say |
| Localization.MissChain | ERExtensions/src/main/java/er/extensions/localization/ERXLocalizer.java:1228-1231 | a key no cache holds stops in the first localizer that does not fall back; the count of further localizers asked never exceeds the steps allowed |
| Localization.DisabledFallbackNeverEnds | ERExtensions/src/main/java/er/extensions/localization/ERXLocalizer.java:327-329 | as written: with localization disabled and falling back on, each miss asks another "Nonlocalized" localizer, and no number of steps ends the lookup |
| Localization.DisabledFallbackExample | ERExtensions/src/main/java/er/extensions/localization/ERXLocalizer.java:458-460 | the concrete case: default language "English", falling back on, localization disabled |
| Localization.FallbackEnds | ERExtensions/src/main/java/er/extensions/localization/ERXLocalizer.java:1228-1231 | asking the default language's localizer, a miss ends after at most one fallback |
| Localization.Localizer.LocalizedValueForKeyWithDefault | ERExtensions/src/main/java/er/extensions/localization/ERXLocalizer.java:1167-1180 | a missing key is bound to itself in the cache and in the created keys; nothing else is added |
| Localization.Localizer.SetCacheValueForKey | ERExtensions/src/main/java/er/extensions/localization/ERXLocalizer.java:1082-1086 | a null key or value changes nothing; otherwise the key is bound |
| Localization.Localizer.AddToCreatedKeys | ERExtensions/src/main/java/er/extensions/localization/ERXLocalizer.java:386-394 | a null key or value changes nothing; otherwise the key is recorded |
| Localization.Localizer.AddEntriesToCache | ERExtensions/src/main/java/er/extensions/localization/ERXLocalizer.java:1045-1065 | the cache gains the dictionary, with the exception tables merged when both sides hold one |
| Localization.AddedSpec | ERExtensions/src/main/java/er/extensions/localization/ERXLocalizer.java:1045-1065 | every dictionary key overrides, every other cached key is kept |
| Localization.ExceptionsMerged | ERExtensions/src/main/java/er/extensions/localization/ERXLocalizer.java:1047-1057 | merged exceptions keep old entries and let new entries override them |
| Localization.FirstMatch | ERExtensions/src/main/java/er/extensions/localization/ERXLocalizer.java:1397-1408 | the first rule, in iteration order, whose pattern matches the whole string; none when none matches |
| Localization.RulesAppliedSpec | ERExtensions/src/main/java/er/extensions/localization/ERXLocalizer.java:1393-1413 | at most one rule applies, the first matching one, followed by case matching; null or no match leaves the input unchanged |
| Localization.ApplyRules | ERExtensions/src/main/java/er/extensions/localization/ERXLocalizer.java:1393-1413 | the loop with its `converted` flag computes exactly the first-match rewrite |
| Localization.Plurified | ERExtensions/src/main/java/er/extensions/localization/ERXLocalizer.java:1368-1377 | a count of 1 or -1 leaves the string unchanged; null stays null |
| Localization.Localizer.Plurify | ERExtensions/src/main/java/er/extensions/localization/ERXLocalizer.java:1368-1377 | applies this localizer's plural rules unless the count is 1 or -1 |
| Localization.PluralException | ERExtensions/src/main/java/er/extensions/localization/ERXLocalizer.java:1444-1451 | the exception for "name.count" wins over the one for "name"; found iff either exists |
| Localization.PluralChoice | ERExtensions/src/main/java/er/extensions/localization/ERXLocalizer.java:1440-1454 | when the exceptions value is a table with an entry for "name.count" or "name", that entry is returned; with no exceptions table or no entry, the plural rules apply; a non-table exceptions value is a cast error |
| Localization.Localizer.PlurifiedString | ERExtensions/src/main/java/er/extensions/localization/ERXLocalizer.java:1440-1454 | a null name gives null and leaves both caches unchanged; otherwise the exceptions are looked up through the cache (which may remember the miss) and chosen over the rules |
| Localization.BaseLanguage | ERExtensions/src/main/java/er/extensions/localization/ERXLocalizer.java:426-429 | "xx_YY" has base "xx": there is a base exactly when the language holds a '_' and does not start with one, and it is the prefix before the first '_' |
| Localization.ChosenFrom | ERExtensions/src/main/java/er/extensions/localization/ERXLocalizer.java:417-437 | the first preference that is cached or available (or whose base is available) decides; with none, the first preference |
| Localization.Registry.LocalizerForLanguage | ERExtensions/src/main/java/er/extensions/localization/ERXLocalizer.java:458-487 | null means the default language; afterwards the language is bound; an available one gets a new localizer (no plural form for Japanese); an unavailable one shares the default language's entry, created if missing; a disabled registry hands out a fresh "Nonlocalized" one without plural form and binds nothing; asked for the default language it hands out a localizer of `DefaultLocalizerLanguage` |
| Localization.Registry.LocalizerForLanguages | ERExtensions/src/main/java/er/extensions/localization/ERXLocalizer.java:410-438 | disabled: a fresh "Nonlocalized" localizer without plural form and no change; an empty list gives the default language's localizer; otherwise the chosen language is served as `localizerForLanguage` serves it: a cached entry changes nothing, an available language gains a new localizer of its own, and any other language (the first preference when none is accepted) is bound to the default language's localizer, which is added if missing, while every other entry is kept |
| Redirect.TargetOf | ERExtensions/src/main/java/er/extensions/appserver/ERXRedirect.java:207-269 | precedence component, url, requestHandlerKey, directActionName; none set is an error, and so is url together with secure |
| Redirect.QueryParametersString | ERExtensions/src/main/java/er/extensions/appserver/ERXRedirect.java:168-176 | null exactly for null or empty parameters, else their encoding |
| Redirect.DirectActionQueryParameters | ERExtensions/src/main/java/er/extensions/appserver/ERXRedirect.java:178-189 | a copy of the parameters, plus sessionIdKey → "false" exactly when the session id is not to be included |
| Redirect.ComponentPathSegments | ERExtensions/src/main/java/er/extensions/appserver/ERXRedirect.java:212-240 | the component path is "[name/][sessionID/]contextID.0", the name present iff the page cache size is 0 and the session id iff the session keeps ids in URLs |
| Redirect.DirectActionPath | ERExtensions/src/main/java/er/extensions/appserver/ERXRedirect.java:257-264 | "class/name" when a class is set, else "name" |
| Redirect.Location | ERExtensions/src/main/java/er/extensions/appserver/ERXRedirect.java:207-269 | fails exactly when the target does; an explicit url gets "?" and the encoded parameters only when there are some |
| Redirect.AjaxContent | ERExtensions/src/main/java/er/extensions/appserver/ERXRedirect.java:271-283 | the location script, wrapped in script tags exactly when an update container is present |
| Redirect.AjaxContentUnwrap | ERExtensions/src/main/java/er/extensions/appserver/ERXRedirect.java:273-282 | stripping the tags from the wrapped script gives the bare one |
| Redirect.WriteLocation | ERExtensions/src/main/java/er/extensions/appserver/ERXRedirect.java:271-287 | non-Ajax: location header and status 302; Ajax: the script appended, and a JavaScript content type when not wrapped |
| Redirect.Redirect.AppendToResponse | ERExtensions/src/main/java/er/extensions/appserver/ERXRedirect.java:191-301 | secure defaults to the request's; complete URLs are on while building iff already on or secure differs; the URL mode is restored, also on error; an error changes nothing else; the component case also sets the page and forces storing it |
| Redirect.Redirect.SetComponentToPage | ERExtensions/src/main/java/er/extensions/appserver/ERXRedirect.java:132-134 | the component becomes the page the redirect was created on |
| Redirect.Redirect.SetSecure | ERExtensions/src/main/java/er/extensions/appserver/ERXRedirect.java:60-62 | only the secure binding changes |
| Redirect.Redirect.SetIncludeSessionID | ERExtensions/src/main/java/er/extensions/appserver/ERXRedirect.java:71-73 | only the include-session-id binding changes |
| Redirect.Redirect.SetUrl | ERExtensions/src/main/java/er/extensions/appserver/ERXRedirect.java:125-127 | only the url binding changes |
| Redirect.Redirect.SetRequestHandlerKey | ERExtensions/src/main/java/er/extensions/appserver/ERXRedirect.java:83-85 | only the request-handler key changes |
| Redirect.Redirect.SetRequestHandlerPath | ERExtensions/src/main/java/er/extensions/appserver/ERXRedirect.java:94-96 | only the request-handler path changes |
| Redirect.Redirect.SetDirectActionClass | ERExtensions/src/main/java/er/extensions/appserver/ERXRedirect.java:105-107 | only the direct-action class changes |
| Redirect.Redirect.SetDirectActionName | ERExtensions/src/main/java/er/extensions/appserver/ERXRedirect.java:115-117 | only the direct-action name changes |
| Redirect.Redirect.SetComponent | ERExtensions/src/main/java/er/extensions/appserver/ERXRedirect.java:149-151 | only the component binding changes |
| Redirect.Redirect.SetQueryParameters | ERExtensions/src/main/java/er/extensions/appserver/ERXRedirect.java:159-161 | only the query parameters change |
| TimestampFormatting.Repository.constructor | ERExtensions/src/main/java/er/extensions/formatters/ERXTimestampFormatter.java:26-35 | the repository starts with the default key bound, and nothing else |
| TimestampFormatting.Repository.DateFormatterForPattern | ERExtensions/src/main/java/er/extensions/formatters/ERXTimestampFormatter.java:55-70 | get-or-create: a bound pattern returns the same instance with no change; an unbound one gets a new formatter and nothing else changes |
| TimestampFormatting.Repository.SetDateFormatterForPattern | ERExtensions/src/main/java/er/extensions/formatters/ERXTimestampFormatter.java:75-88 | null removes the pattern; a formatter stores or overwrites it |
| TimestampFormatting.Repository.DefaultDateFormatterForObject | ERExtensions/src/main/java/er/extensions/formatters/ERXTimestampFormatter.java:43-49 | null for anything that is not a timestamp, else the shared "%Y/%m/%d" formatter |

## Findings

| source | as written | input that shows it | evidently intended | confidence | as-written member | corrected member |
|---|---|---|---|---|---|---|
| ERExtensions/src/main/java/er/extensions/localization/ERXLocalizer.java:1228-1229 | a miss that falls back asks `defaultLocalizer()`, which while localization is disabled is a new "Nonlocalized" localizer (:327-329, :459-460); that one misses too and falls back again, so the lookup recurses until the stack overflows | `setIsLocalizationEnabled(false)`, `fallbackToDefaultLanguage` on, default language "English", any key missing from the strings files | the fallback asks the default language's localizer, whose own miss ends the lookup | not executed; high for the recursion, given that a "Nonlocalized" localizer loads no strings | Localization.DisabledFallbackNeverEnds | Localization.FallbackEnds |

## Left out

- Concurrency of the watchdog: the daemon thread, its sleep loop, `synchronized` blocks, the synchronized and weak maps and their garbage-collection cleanup. The model is one sequential state machine.
- Clock reads: one `now` serves a whole scan pass and a whole `endTimer`, where the source reads the clock per thread and twice in `endTimer`.
- The parallel traces and names maps of each tier are one map of `Recorded` pairs; the source always writes and removes both together.
- The logger, the listener, `descriptionObjectForContext` and the `ERXEC`/`ERXObjectStoreCoordinator` lock descriptions are outputs or parameters; the log text of a fatal diagnostic is `FatalReport.Message`.
- Reflection on `_initializationMemory`, the `statistics()` re-wrapping and the `WOStatisticsStore` super-calls.
- StatisticsStore.StopWatchTimer.CheckThreads: does not model Java `long` overflow of `now - start`; integers are unbounded.
- ArrayUtilities.BatchedArrayWithSize: does not model `int` overflow of `i += batchSize` for sizes near 2^31.
- Null arrays given to operations that throw `NullPointerException` on them are not represented; sequences are never null.
- `ERXArrayUtilities` key-value coding, sorting, fetch specifications, operator registration, the BigDecimal statistics, `deepClone`, property-list loading and pretty-printers.
- `Integer.parseInt`'s non-ASCII digits: only '0'..'9' are digits in `JavaInt.ParseInt`.
- Localization.Localizer.LocalizedValueForKey: reflective invocation of '@' methods returns `Invoked(methodKey)` rather than the method's result or its exception.
- Localization.Localizer.LocalizedValueForKey: the default-language localizer is a parameter; the source obtains it through `defaultLocalizer()`, which may create and register it.
- Localization.Localizer.LocalizedValueForKey: requires that parameter to serve the default language. With localization disabled and falling back on, the source's `defaultLocalizer()` instead hands out a new "Nonlocalized" localizer, and a miss recurses without end (see Findings); the model does not represent that configuration.
- Localization.PluralChoice: any exceptions value that is not a table counts as a cast error, and table entries are strings only.
- Localization.Registry.LocalizerForLanguage: `createLocalizerForLanguage` is a plain constructor call; the configurable localizer classes, `ERXNonPluralFormLocalizer` (not part of this model) and `load()` of the strings files are left out, so a new localizer starts with an empty cache.
- Real regular expressions and `ERXStringUtilities.matchCase` (not part of this model): a rule is an abstract whole-string match predicate with its rewrite, and case matching is a parameter.
- `valueForKeyPath`'s dotted-path walk: only the lookup of the dot-free exception-table key is modelled.
- Localized formatters, `Locale` construction, `currentLocalizer` thread storage and the singularify rules.
- `ERXRedirect`: URL generation by the context, `ERXMutableURL` encoding and the `WOResponse`/`WOSession` internals are opaque parameters; `setForceStorePage` is a flag on the response.
- `ERXTimestampFormatter` in localized-formatter mode, which delegates to the current localizer; only the repository mode is modelled. A null pattern (which makes the `Hashtable` throw) is not represented.
