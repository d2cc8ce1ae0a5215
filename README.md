# NightFury core, modelled in Dafny

NightFury is a Discord moderation and utility bot, written in Java and Kotlin over JDA. Most of it is glue between Discord events, JDBC and HTTP. This project models the parts that keep state or make decisions by rules that can be stated exactly, and proves those rules.

Each module follows one part of the program:

- `Util` (`util.dfy`): the string primitives the bot relies on: ASCII case folding, the `trim` of Java and of Kotlin, the regex class `\s`, Kotlin's `split(Regex("\\s+"), 2)` and `String.toInt`.
- `Persistence` (`manager.dfy`): the per-guild `Settings` record and its case log, and `NightFuryManager`, which holds the id-to-settings map and debounces saves with the `setToWrite` flag. Both are classes whose methods update their fields in place. The JSON file is an abstract snapshot of the map.
- `Startup` (`startup.dfy`): the start-up scrub of stale role, channel and member ids, and the decision flow of `readyLoader`. The guild as Discord reports it is a value holding live role, channel and member ids.
- `Menus` and `OrderedMenus` (`menus.dfy`, `orderedmenu.dfy`): the page arithmetic of the three Paginators and the two Slideshows (clamping, saturating and wrapping steps, bulk steps, page slices, columns), and the emoji and typed-text decoding of the two ordered menus.
- `Splitter` (`splitter.dfy`): `processMessage`, which cuts a reply into parts of at most 2000 characters, in both versions, and the part limits of `sendMessage` and `replyMessage`.
- `Searcher` (`searcher.dfy`): the tiered name search of `SearcherUtil` (exact, case-insensitive, prefix, substring), with the discriminator, mention and id shortcuts.
- `CommandIndex` (`commandmap.dfy`): the case-insensitive name-and-alias index `CommandMap`.
- `Commands` (`commands.dfy`): the command tree. This covers name matching, child lookup and dispatch, cooldown keys and notices, command ordering, and the level parsing of `LevelCommand`.
- `Client` (`client.dfy`): the cooldown table against an explicit clock in whole seconds, the usage counters, the scheduled-futures map, the call cache, and prefix parsing of incoming messages in the three clients.
- `Format`, `Misc` (`format.dfy`, `misc.dfy`): the formatters behind list overflow, user names, enum names, mass-mention filtering and track times, and the small collection helpers of the rewrite.
- `Cases` (`cases.dfy`): mod-log cases, with the truncating reason setter, action lookup and case numbering.
- `Music` (`musicqueue.dfy`): the two music queues as state machines over a list of tracks and a list of skip votes, with the audio player left abstract.
- `Clean` (`clean.dfy`): the argument parsing, message filters, two-week cutoff and delete batching of the clean command, in both versions.
- `Tags` (`tags.dfy`): the tag commands over a global and a per-guild tag table. Both are keyed by lower-cased name, as the SQL queries compare `LOWER(NAME)`.
- `Profiles` (`profile.dfy`): the GitHub and Twitch link parsers, and the profile setters that write the whole profile through to its row.

Where the program mutates an object, the model is a class whose methods state their whole new state. Where a loop computes a value, the model is a method whose loop carries its invariants and which is proved against a specification function. The properties of those functions are separate lemmas.

The repository holds three generations of the bot: the `me.kgustave` tree, the `xyz.nightfury` main tree and the `rewrite` tree. Where they differ, each version gets its own member or a flag parameter.

## Model

| member | source | states |
|---|---|---|
| Util.Lower | src/main/kotlin/xyz/nightfury/resources/CommandMap.kt:49-50 | `toLowerCase` keeps the length and lower-cases each character on its own (ASCII letters only) |
| Util.LowerIdempotent | src/main/kotlin/xyz/nightfury/resources/CommandMap.kt:90 | lower-casing a lower-cased name changes nothing, so a key stored lower-cased is found again |
| Util.LowerOfConcat | src/main/kotlin/xyz/nightfury/Client.kt:206-212 | lower-casing distributes over concatenation, as the case-insensitive prefix test relies on |
| Util.LowerOfSlice | src/main/kotlin/xyz/nightfury/Client.kt:206-212 | lower-casing commutes with taking a substring |
| Util.IndexOfFrom | src/main/kotlin/xyz/nightfury/commands/moderator/CleanCmd.kt:122-131 | `indexOf(p, from)` is -1 when `p` occurs nowhere at or after `from`, otherwise the first such position |
| Util.ContainsIffIndexOf | src/main/kotlin/xyz/nightfury/commands/moderator/CleanCmd.kt:122-131 | `contains` holds exactly when `indexOf` is not -1 |
| Util.RegexSpaceIsKotlinSpace | src/main/kotlin/xyz/nightfury/Client.kt:210 | every character the regex `\s` matches is also trimmed by Kotlin's and Java's `trim` |
| Util.LeadingCount | src/main/kotlin/me/kgustave/nightfury/CommandEvent.kt:231 | the length of the leading whitespace run: all of it whitespace, the next character not |
| Util.TrailingStart | src/main/kotlin/me/kgustave/nightfury/CommandEvent.kt:231 | the start of the trailing whitespace run: all of it whitespace, the character before it not |
| Util.TrailingAfterLeading | src/main/kotlin/me/kgustave/nightfury/CommandEvent.kt:231 | the two runs do not overlap unless the text is all whitespace |
| Util.TrimWith | src/main/kotlin/me/kgustave/nightfury/CommandEvent.kt:231 | `trim` is the contiguous middle of the text: only whitespace is dropped, and the result neither starts nor ends with whitespace |
| Util.TrimStartIndex | src/main/kotlin/me/kgustave/nightfury/CommandEvent.kt:231 | where the trimmed text starts lies inside the text |
| Util.TrimIsNoOpOnTrimmed | src/main/kotlin/me/kgustave/nightfury/CommandEvent.kt:231 | trimming text that neither starts nor ends with whitespace changes nothing |
| Util.TrimOfWhitespace | src/main/kotlin/me/kgustave/nightfury/CommandEvent.kt:240-246 | trimming all-whitespace text gives the empty string |
| Util.FirstSpace | src/main/kotlin/xyz/nightfury/Client.kt:210 | the first whitespace at or after a position, or the end: nothing before it is whitespace |
| Util.SpaceRunEnd | src/main/kotlin/xyz/nightfury/Client.kt:210 | the end of the whitespace run starting at a position |
| Util.SplitFirstSpace | src/main/kotlin/xyz/nightfury/Client.kt:210 | `split(\s+, 2)` gives one part exactly when there is no whitespace, then the text itself; otherwise a whitespace-free head that starts the text and a tail that ends it |
| Util.SplitAllSpaces | src/main/kotlin/xyz/nightfury/command/administrator/LevelCommand.kt:67 | `split(\s+)` gives at least one part and no part holds whitespace |
| Util.SplitAllHead | src/main/kotlin/xyz/nightfury/commands/standard/TagCommand.kt:256 | the first part of a full split is the first part of a split in two |
| Util.FirstSpaceAfterWord | src/main/kotlin/xyz/nightfury/Client.kt:210 | in `a + " " + b` with a whitespace-free `a` and `b` not starting with whitespace, the split falls after `a` |
| Util.SplitFirstSpaceOfJoin | src/main/kotlin/xyz/nightfury/Client.kt:210 | splitting words joined by single spaces in two gives the first word and the rest joined |
| Util.SplitAllSpacesOfJoin | src/main/kotlin/xyz/nightfury/command/administrator/LevelCommand.kt:67-70 | splitting words joined by single spaces gives the words back |
| Util.ParseInt | src/rewrite/kotlin/xyz/nightfury/util/menus/Paginator.kt:136 | `toInt` yields a 32-bit value, and the decimal value for plain digits |
| Util.DigitChar | src/main/kotlin/xyz/nightfury/extensions/Format.kt:55-66 | the digit character for a value below ten |
| Util.NatToString | src/main/kotlin/xyz/nightfury/extensions/Format.kt:55-66 | the decimal rendering of a number: digits only, no leading zero, and its value is the number |
| Util.IntToString | src/main/kotlin/xyz/nightfury/Commands.kt:397-403 | the decimal rendering of an integer is never empty |
| Util.ParseIntOfNatToString | src/rewrite/kotlin/xyz/nightfury/util/menus/Paginator.kt:136 | parsing the rendering of a 32-bit non-negative number gives the number back |
| Misc.Accumulate | src/rewrite/kotlin/xyz/nightfury/util/ext/misc.kt:34-46 | the result is the in-order concatenation of the function over the elements, the empty and one-element shortcuts included |
| Misc.FlattenAppend | src/rewrite/kotlin/xyz/nightfury/util/ext/misc.kt:34-46 | accumulating a concatenation concatenates the two accumulations |
| Misc.FlattenMembers | src/rewrite/kotlin/xyz/nightfury/util/ext/misc.kt:34-46 | something is in the result exactly when the function yields it for some element |
| Misc.KeyToMapLastWins | src/rewrite/kotlin/xyz/nightfury/util/ext/misc.kt:52-54 | the keys are exactly the keys of the values, and each key maps to the last value with that key |
| Misc.MultikeyToMapLoop | src/rewrite/kotlin/xyz/nightfury/util/ext/misc.kt:66-74 | the nested loops build the map of every key of every value, later values overwriting |
| Misc.PutKeysSpec | src/rewrite/kotlin/xyz/nightfury/util/ext/misc.kt:69-71 | putting one value under its keys adds exactly those keys, maps them to the value and leaves the others |
| Misc.MultikeyToMapLastWins | src/rewrite/kotlin/xyz/nightfury/util/ext/misc.kt:66-74 | the keys are all keys produced, and each maps to the last value that produced it |
| Misc.WrapLong | src/rewrite/kotlin/xyz/nightfury/util/ext/misc.kt:78 | two's-complement wrap-around always lands in the `Long` range |
| Misc.WrapAdd | src/rewrite/kotlin/xyz/nightfury/util/ext/misc.kt:78 | wrapping after each addition is wrapping once at the end |
| Misc.SumByLongWraps | src/rewrite/kotlin/xyz/nightfury/util/ext/misc.kt:78 | `sumByLong` is the exact sum wrapped into the `Long` range |
| Misc.SumByLongExact | src/rewrite/kotlin/xyz/nightfury/util/ext/misc.kt:78 | without overflow `sumByLong` is the exact sum |
| Misc.SumByLongOverflows | src/rewrite/kotlin/xyz/nightfury/util/ext/misc.kt:78 | two `Long.MAX_VALUE`s sum to -2 |
| Persistence.ReasonText | src/main/java/me/kgustave/nightfury/manager/Settings.java:433-435 | a null reason is written as the text `"null"`, any other reason as itself |
| Persistence.DenseSize | src/main/java/me/kgustave/nightfury/manager/Settings.java:300-308 | under dense numbering the number of cases is the counter |
| Persistence.ReloadKeepsData | src/main/java/me/kgustave/nightfury/manager/Settings.java:43-67 | a record written out and read back by the constructor is the same record: defaults touch only absent keys |
| Persistence.DefaultsAreClean | src/main/java/me/kgustave/nightfury/manager/Settings.java:43-67 | an empty JSON object gives one prefix, a vertical bar,, ids 0, empty lists and cases, and satisfies every invariant |
| Persistence.ResetIsClean | src/main/java/me/kgustave/nightfury/manager/Settings.java:563-575 | `fullReset` gives exactly the defaults of an empty object for the same guild, which satisfy every invariant |
| Persistence.IndexOfIgnoreCase | src/main/java/me/kgustave/nightfury/manager/Settings.java:137-148 | the first index holding a prefix equal ignoring case, or -1 when none does |
| Persistence.Without | src/main/java/me/kgustave/nightfury/manager/Settings.java:261-273 | the reference removal: the id is gone and every other id stays |
| Persistence.NoDupsTail | src/main/java/me/kgustave/nightfury/manager/Settings.java:232-242 | a duplicate-free list's tail is duplicate-free and lacks the head |
| Persistence.WithoutAbsent | src/main/java/me/kgustave/nightfury/manager/Settings.java:261-273 | removing an absent id changes nothing |
| Persistence.SkipRemovedAbsent | src/main/java/me/kgustave/nightfury/manager/Settings.java:261-273 | the removal loop leaves a list without the id unchanged |
| Persistence.SkipRemovedIsWithout | src/main/java/me/kgustave/nightfury/manager/Settings.java:261-273 | on a duplicate-free list the index-skipping removal loop removes exactly the id |
| Persistence.SkipRemovedKeepsSecondDuplicate | src/main/java/me/kgustave/nightfury/manager/Settings.java:261-273 | the loop skips the element after each removal, so `[x, x]` keeps one `x` |
| Persistence.WithoutKeepsNoDups | src/main/java/me/kgustave/nightfury/manager/Settings.java:261-273 | removal keeps a list duplicate-free |
| Persistence.AppendKeepsNoDups | src/main/java/me/kgustave/nightfury/manager/Settings.java:244-251 | appending an absent id keeps the list duplicate-free |
| Persistence.AddAllNewProps | src/main/java/me/kgustave/nightfury/manager/Settings.java:275-285 | `addMutes` never introduces a duplicate and ends holding exactly the old ids and the given ones |
| Persistence.ContainsId | src/main/java/me/kgustave/nightfury/manager/Settings.java:232-242 | the `isMuted` scan answers true exactly when the id is in the list |
| Persistence.SkipRemove | src/main/java/me/kgustave/nightfury/manager/Settings.java:261-273 | the imperative removal loop computes the index-skipping removal |
| Persistence.NightFuryManager.constructor | src/main/java/me/kgustave/nightfury/manager/NightFuryManager.java:62-91 | a new manager holds no settings, no pending flush and clear file contents |
| Persistence.NightFuryManager.Save | src/main/java/me/kgustave/nightfury/manager/NightFuryManager.java:368-373 | `save` schedules a flush only while the flag is clear, then sets it; it keeps `Debounced()`, at most one pending flush and only while the flag is set |
| Persistence.NightFuryManager.Put | src/main/java/me/kgustave/nightfury/manager/NightFuryManager.java:168-173 | `put` upserts the record under its id and saves, keeping the manager's invariants |
| Persistence.NightFuryManager.Remove | src/main/java/me/kgustave/nightfury/manager/NightFuryManager.java:175-180 | `remove` deletes the id and saves, keeping the invariants |
| Persistence.NightFuryManager.GetSettingsById | src/main/java/me/kgustave/nightfury/manager/NightFuryManager.java:127-134 | the record filed under the id, an error exactly when the id is absent |
| Persistence.NightFuryManager.CreateSettings | src/main/java/me/kgustave/nightfury/manager/NightFuryManager.java:148-153 | an error and no change for a known id; otherwise a fresh default record filed under the id |
| Persistence.NightFuryManager.RemoveSettings | src/main/java/me/kgustave/nightfury/manager/NightFuryManager.java:155-160 | an error and no change for an unknown id; otherwise the id is removed and saved |
| Persistence.NightFuryManager.Overwrite | src/main/java/me/kgustave/nightfury/manager/NightFuryManager.java:71-86 | the flush writes the snapshot to the file, copies it to the backup, and clears the flag only when both succeed; the records themselves are left as they were |
| Persistence.NightFuryManager.RunScheduled | src/main/java/me/kgustave/nightfury/manager/NightFuryManager.java:71-86 | running a scheduled flush consumes it and has the flush's effect, keeping the debounce invariant |
| Persistence.NightFuryManager.OverwriteCorrected | src/main/java/me/kgustave/nightfury/manager/NightFuryManager.java:71-86 | the flush as evidently intended clears the flag however the write ends |
| Persistence.NightFuryManager.RunScheduledCorrected | src/main/java/me/kgustave/nightfury/manager/NightFuryManager.java:71-86 | running the corrected flush consumes it and always clears the flag |
| Persistence.NightFuryManager.ModeratorTest | src/main/java/me/kgustave/nightfury/manager/NightFuryManager.java:112-120 | true in private channels, an error for an unknown guild, false without a mod id, else administrator or holder of the mod role |
| Persistence.CategoriesNest | src/main/java/me/kgustave/nightfury/manager/NightFuryManager.java:93-110 | every owner passes the server-owner test and every server owner the administrator test |
| Persistence.Settings.constructor | src/main/java/me/kgustave/nightfury/manager/Settings.java:43-67 | the new record is the JSON object with only its absent keys defaulted |
| Persistence.Settings.Save | src/main/java/me/kgustave/nightfury/manager/Settings.java:75-79 | `save` hands the record to the manager's `put` |
| Persistence.Settings.AddPrefix | src/main/java/me/kgustave/nightfury/manager/Settings.java:125-135 | refuses, changing nothing, when a prefix equal ignoring case exists; otherwise appends it and saves |
| Persistence.Settings.RemovePrefix | src/main/java/me/kgustave/nightfury/manager/Settings.java:137-148 | removes only the first prefix equal ignoring case and saves, or answers false and changes nothing |
| Persistence.Settings.SetPrefixes | src/main/java/me/kgustave/nightfury/manager/Settings.java:150-153 | replaces the prefixes and saves |
| Persistence.Settings.PutPrefixes | src/main/java/me/kgustave/nightfury/manager/Settings.java:155-159 | replaces the prefixes without saving |
| Persistence.Settings.SetModId | src/main/java/me/kgustave/nightfury/manager/Settings.java:170-173 | sets the mod role id and saves |
| Persistence.Settings.PutModId | src/main/java/me/kgustave/nightfury/manager/Settings.java:175-179 | sets the mod role id without saving |
| Persistence.Settings.SetModLogId | src/main/java/me/kgustave/nightfury/manager/Settings.java:190-193 | sets the mod-log channel id and saves |
| Persistence.Settings.PutModLogId | src/main/java/me/kgustave/nightfury/manager/Settings.java:195-199 | sets the mod-log channel id without saving |
| Persistence.Settings.SetMutedId | src/main/java/me/kgustave/nightfury/manager/Settings.java:210-213 | sets the muted role id and saves |
| Persistence.Settings.PutMutedId | src/main/java/me/kgustave/nightfury/manager/Settings.java:215-219 | sets the muted role id without saving |
| Persistence.Settings.IsMuted | src/main/java/me/kgustave/nightfury/manager/Settings.java:232-242 | true exactly when the user is in the mute list |
| Persistence.Settings.AddMute | src/main/java/me/kgustave/nightfury/manager/Settings.java:244-251 | false and no change when muted already; otherwise appended and saved, keeping the list duplicate-free |
| Persistence.Settings.PutMute | src/main/java/me/kgustave/nightfury/manager/Settings.java:253-259 | an error when muted already, otherwise appended without saving |
| Persistence.Settings.RemoveMute | src/main/java/me/kgustave/nightfury/manager/Settings.java:261-273 | false and no change when absent; otherwise the removal loop runs and saves, and on a duplicate-free list the id is gone |
| Persistence.Settings.AddMutes | src/main/java/me/kgustave/nightfury/manager/Settings.java:275-285 | appends each id not yet present and saves; the list stays duplicate-free |
| Persistence.Settings.PutClearMutes | src/main/java/me/kgustave/nightfury/manager/Settings.java:287-290 | empties the mute list without saving |
| Persistence.Settings.ClearMutes | src/main/java/me/kgustave/nightfury/manager/Settings.java:292-296 | empties the mute list and saves |
| Persistence.Settings.NextCaseNumber | src/main/java/me/kgustave/nightfury/manager/Settings.java:304-308 | the next case number is the counter plus one |
| Persistence.Settings.AddCase | src/main/java/me/kgustave/nightfury/manager/Settings.java:315-327 | files the case under `old+1`, sets the counter to `old+1`, stores a null reason as `"null"`, saves and keeps numbering dense |
| Persistence.Settings.AddReasonToCase | src/main/java/me/kgustave/nightfury/manager/Settings.java:329-338 | false for no cases, a number past the counter or a missing key; an error where the case cannot be read; otherwise only that case's reason changes |
| Persistence.Settings.GetNewestCaseForId | src/main/java/me/kgustave/nightfury/manager/Settings.java:364-381 | the largest case number whose moderator matches and whose reason is `"null"`, or 0 when there is none |
| Persistence.Settings.ResetCaseSystem | src/main/java/me/kgustave/nightfury/manager/Settings.java:383-388 | counter 0 and no cases, saved |
| Persistence.Settings.PutNewCaseSystem | src/main/java/me/kgustave/nightfury/manager/Settings.java:390-395 | counter 0 and no cases, not saved |
| Persistence.Settings.IsRoleMe | src/main/java/me/kgustave/nightfury/manager/Settings.java:446-456 | true exactly when the role is a RoleMe role |
| Persistence.Settings.AddRoleMe | src/main/java/me/kgustave/nightfury/manager/Settings.java:458-465 | the mute list's set semantics for RoleMe: false if present, else appended and saved |
| Persistence.Settings.PutRoleMe | src/main/java/me/kgustave/nightfury/manager/Settings.java:467-473 | an error when present, else appended without saving |
| Persistence.Settings.RemoveRoleMe | src/main/java/me/kgustave/nightfury/manager/Settings.java:475-487 | false if absent, else removed by the loop and saved |
| Persistence.Settings.PutClearRoleMes | src/main/java/me/kgustave/nightfury/manager/Settings.java:489-492 | empties the RoleMe list without saving |
| Persistence.Settings.ClearRoleMes | src/main/java/me/kgustave/nightfury/manager/Settings.java:494-498 | empties the RoleMe list and saves |
| Persistence.Settings.IsColorMe | src/main/java/me/kgustave/nightfury/manager/Settings.java:507-517 | true exactly when the role is a ColorMe role |
| Persistence.Settings.AddColorMe | src/main/java/me/kgustave/nightfury/manager/Settings.java:519-526 | false if present, else appended and saved |
| Persistence.Settings.PutColorMe | src/main/java/me/kgustave/nightfury/manager/Settings.java:528-534 | an error when present, else appended without saving |
| Persistence.Settings.RemoveColorMe | src/main/java/me/kgustave/nightfury/manager/Settings.java:536-548 | false if absent, else removed by the loop and saved |
| Persistence.Settings.PutClearColorMes | src/main/java/me/kgustave/nightfury/manager/Settings.java:550-553 | empties the ColorMe list without saving |
| Persistence.Settings.ClearColorMes | src/main/java/me/kgustave/nightfury/manager/Settings.java:555-559 | empties the ColorMe list and saves |
| Persistence.Settings.FullReset | src/main/java/me/kgustave/nightfury/manager/Settings.java:563-575 | every key back to its default, saved |
| Persistence.SnapshotAfterUpsert | src/main/java/me/kgustave/nightfury/manager/NightFuryManager.java:71-78 | filing a record under its id changes the written snapshot at that id only |
| Persistence.DenseNoNullCase | src/main/java/me/kgustave/nightfury/manager/Settings.java:405-409 | under dense numbering every filed number is within the case count, so `fromCasesJSON` never returns null |
| Persistence.GapReachesNullCase | src/main/java/me/kgustave/nightfury/manager/Settings.java:329-338 | a counter of 2 with only case 2 filed passes the guard and reaches the null case |
| Persistence.StuckAfterFailedWrite | src/main/java/me/kgustave/nightfury/manager/NightFuryManager.java:71-86 | after one failed write, a later save schedules nothing and nothing is written |
| Persistence.RetryAfterFailedWrite | src/main/java/me/kgustave/nightfury/manager/NightFuryManager.java:368-373 | with the corrected flush, the save after a failed write schedules again |
| Startup.PurgeOppositeToLoadRule | src/main/java/me/kgustave/nightfury/manager/NightFuryManager.java:204-211 | the step-1 filter and the load-time filter never pick the same guild: their developer conditions are opposite |
| Startup.PurgePicksDeveloperGuild | src/main/java/me/kgustave/nightfury/manager/NightFuryManager.java:204-211 | a bot farm the developer is in is picked by step 1 and kept by the load filter |
| Startup.PurgeCorrectedAgrees | src/main/java/me/kgustave/nightfury/manager/NightFuryManager.java:204-211 | the corrected step-1 filter picks exactly the guilds the load filter leaves |
| Startup.KeepLive | src/main/java/me/kgustave/nightfury/manager/NightFuryManager.java:339-345 | the reference RoleMe scrub: exactly the live ids stay, in order |
| Startup.KeepLiveOfLive | src/main/java/me/kgustave/nightfury/manager/NightFuryManager.java:339-345 | with every id live, the reference scrub changes nothing |
| Startup.ForEachScrubOfLive | src/main/java/me/kgustave/nightfury/manager/NightFuryManager.java:339-345 | with every id live, the iterator loop removes nothing and does not throw |
| Startup.ColorLoopOfLive | src/main/java/me/kgustave/nightfury/manager/NightFuryManager.java:347-353 | with every ColorMe id live, the ColorMe loop leaves the RoleMe list as it was |
| Startup.StaleFirstOfThreeThrows | src/main/java/me/kgustave/nightfury/manager/NightFuryManager.java:339-345 | removing while iterating: a stale first id of three makes the next `next()` throw |
| Startup.TwoStaleKeepsSecond | src/main/java/me/kgustave/nightfury/manager/NightFuryManager.java:339-345 | with two stale ids the loop ends quietly after the first removal and keeps the second |
| Startup.ScrubCorrectedIdempotent | src/main/java/me/kgustave/nightfury/manager/NightFuryManager.java:316-361 | scrubbing an already scrubbed record against the same guild changes nothing |
| Startup.ScrubCorrectedIdsLive | src/main/java/me/kgustave/nightfury/manager/NightFuryManager.java:316-361 | after the corrected scrub every id that is set names a live role or channel, and so does every RoleMe and ColorMe id |
| Startup.ScrubRules | src/main/java/me/kgustave/nightfury/manager/NightFuryManager.java:316-361 | a missing muted role resets the id, a live one replaces the mutes with its holders; a missing log channel resets the id and the cases; a missing mod role resets its id; ColorMe ids and prefixes are untouched |
| Startup.ScrubAgreesWhenListsLive | src/main/java/me/kgustave/nightfury/manager/NightFuryManager.java:339-353 | when no RoleMe or ColorMe id is stale, the scrub as written equals the corrected one |
| Startup.StaleColorMeSurvives | src/main/java/me/kgustave/nightfury/manager/NightFuryManager.java:347-353 | a stale ColorMe id survives the scrub as written, and the corrected scrub drops it |
| Startup.ScrubRoleMe | src/main/java/me/kgustave/nightfury/manager/NightFuryManager.java:339-345 | the imperative RoleMe loop has the iterator semantics: the list and the failure are those of the model |
| Startup.ScrubColorMe | src/main/java/me/kgustave/nightfury/manager/NightFuryManager.java:347-353 | the ColorMe loop passes each stale ColorMe id to `removeRoleMe` |
| Startup.ScrubMutedRole | src/main/java/me/kgustave/nightfury/manager/NightFuryManager.java:316-336 | the muted-role check resets an unknown role and reloads the mute list from a known one |
| Startup.ScrubRecord | src/main/java/me/kgustave/nightfury/manager/NightFuryManager.java:316-361 | every check on one record in the source's order: fails exactly when the scrub model throws, else yields the scrubbed record |
| Startup.LoadEntry | src/main/java/me/kgustave/nightfury/manager/NightFuryManager.java:306-364 | a bot farm without the developer is left and changes nothing; otherwise the scrubbed record is put, or the load throws |
| Startup.GuildsJson | src/main/java/me/kgustave/nightfury/manager/NightFuryManager.java:245-272 | a parsed primary file is used; a missing file gives no data; any other failure tries the backup, and with both failed there is none |
| Startup.Restrict | src/main/java/me/kgustave/nightfury/manager/NightFuryManager.java:300-305 | the entries of a map whose keys lie in a set |
| Startup.WithNewGuilds | src/main/java/me/kgustave/nightfury/manager/NightFuryManager.java:280-282 | every visible guild without a record gets a default one; existing records stay |
| Startup.AfterLoadCovers | src/main/java/me/kgustave/nightfury/manager/NightFuryManager.java:274-282 | after a load every visible guild has a record, kept keys hold their scrubbed data and other old records stay |
| Startup.LeftFarmGetsDefault | src/main/java/me/kgustave/nightfury/manager/NightFuryManager.java:280-282 | a bot farm left at load time still gets a default record in step four, since the leave is only queued |
| Startup.ListedSnoc | src/main/java/me/kgustave/nightfury/manager/NightFuryManager.java:301-306 | the ids listed by an order grow by the last one |
| Startup.ListedIsKeys | src/main/java/me/kgustave/nightfury/manager/NightFuryManager.java:301-306 | an order visiting exactly a set of keys lists that set |
| Startup.LoadedOntoIsRestrict | src/main/java/me/kgustave/nightfury/manager/NightFuryManager.java:301-365 | handling the keys one at a time gives the same records whatever the order |
| Startup.HandleKey | src/main/java/me/kgustave/nightfury/manager/NightFuryManager.java:302-365 | one key: ignored for an invisible guild; otherwise as `LoadEntry` |
| Startup.NewGuildsOverIsWith | src/main/java/me/kgustave/nightfury/manager/NightFuryManager.java:280-282 | visiting the new guilds in any order gives the same records |
| Startup.HandleLoadedJson | src/main/java/me/kgustave/nightfury/manager/NightFuryManager.java:300-365 | the whole object: throws exactly when some kept record's scrub throws, else adds every scrubbed record |
| Startup.PutDefaultIfMissing | src/main/java/me/kgustave/nightfury/manager/NightFuryManager.java:281-282 | `put(new Settings(this, id, {}))` unless the id has a record |
| Startup.PutNewGuilds | src/main/java/me/kgustave/nightfury/manager/NightFuryManager.java:280-282 | step four: a default record for every visible guild that has none |
| Startup.ReadyLoader | src/main/java/me/kgustave/nightfury/manager/NightFuryManager.java:245-286 | false and no change when no data can be read; an error when the load throws; otherwise the records after the load and one flush |
| Menus.EmoteName | src/rewrite/kotlin/xyz/nightfury/util/menus/Paginator.kt:43-47 | each navigation reaction has its own emote name, and only `OtherEmote` has none |
| Menus.ReactionOfEmoteName | src/rewrite/kotlin/xyz/nightfury/util/menus/Paginator.kt:208-242 | the dispatch on the emote name inverts the emote table |
| Menus.CeilDiv | src/rewrite/kotlin/xyz/nightfury/util/menus/Paginator.kt:64 | the integer ceiling: the smallest multiple of the divisor reaching the count, zero only for zero |
| Menus.CeilDivBounds | src/rewrite/kotlin/xyz/nightfury/util/menus/Paginator.kt:64 | `(n + d - 1) / d` is that ceiling |
| Menus.Pages | src/rewrite/kotlin/xyz/nightfury/util/menus/Paginator.kt:64 | `pages` covers every item with no page left empty, and is 0 only without items |
| Menus.ClampMinMax | src/rewrite/kotlin/xyz/nightfury/util/menus/Slideshow.kt:66-74 | `min(max(p, 1), pages)` lies in `[1, pages]` for a non-empty menu, keeps a page already in range, and is `pages` (0 for no URLs) otherwise |
| Menus.ClampIfs | commons/src/main/kotlin/xyz/nightfury/entities/menus/Paginator.kt:68-78 | the `if` clamp lies in `[1, pages]`, keeps a page in range, and sends anything below 1 to 1 |
| Menus.ClampsAgree | src/rewrite/kotlin/xyz/nightfury/util/menus/Paginator.kt:77-85 | the two clamps agree on every menu with a page, and differ on an empty one |
| Menus.HandleReaction | src/rewrite/kotlin/xyz/nightfury/util/menus/Paginator.kt:206-242 | the `while` loops of the reaction handler compute the page of the navigation model |
| Menus.BulkLeftSaturating | src/rewrite/kotlin/xyz/nightfury/util/menus/Paginator.kt:217-226 | without wrapping BIG_LEFT takes at most `bulkSkipNumber-1` steps and stops at 1 |
| Menus.BulkRightSaturating | src/rewrite/kotlin/xyz/nightfury/util/menus/Paginator.kt:229-238 | without wrapping BIG_RIGHT takes at most `bulkSkipNumber-1` steps and stops at `pages` |
| Menus.BulkLeftWrapping | src/rewrite/kotlin/xyz/nightfury/util/menus/Paginator.kt:217-226 | with wrapping BIG_LEFT moves `bulkSkipNumber-1` pages back, modulo the page count |
| Menus.BulkRightWrapping | src/rewrite/kotlin/xyz/nightfury/util/menus/Paginator.kt:229-238 | with wrapping BIG_RIGHT moves `bulkSkipNumber-1` pages on, modulo the page count |
| Menus.NavigateBulk | commons/src/main/kotlin/xyz/nightfury/entities/menus/Paginator.kt:193-228 | the bulk moves in closed form: saturating `max`/`min` or modular wrap |
| Menus.NavigateInRange | src/rewrite/kotlin/xyz/nightfury/util/menus/Paginator.kt:208-242 | every reaction but STOP leads to a page in `[1, pages]`; STOP ends the menu |
| Menus.AcceptsReaction | src/rewrite/kotlin/xyz/nightfury/util/menus/Paginator.kt:197-204 | only reactions on this message by a valid user are taken, and big arrows only when `bulkSkipNumber > 1` |
| Menus.AcceptsReactionMain | src/main/kotlin/xyz/nightfury/entities/menus/Paginator.kt:90-98 | the main bot's Paginator takes exactly LEFT, STOP and RIGHT on its message from a valid user |
| Menus.HandleReactionMain | src/main/kotlin/xyz/nightfury/entities/menus/Paginator.kt:100-109 | LEFT and RIGHT saturate at 1 and `pages`; STOP ends without changing the page |
| Menus.AcceptsText | src/rewrite/kotlin/xyz/nightfury/util/menus/Paginator.kt:134-141 | a message is taken exactly when it is the left or right text, or a typed page number in `1..pages` other than the current one |
| Menus.TextTargetOutside | src/rewrite/kotlin/xyz/nightfury/util/menus/Paginator.kt:164-174 | away from the text the target is in range; only the left or right text can fail to give a target |
| Menus.TextAtFirstPageThrows | src/rewrite/kotlin/xyz/nightfury/util/menus/Paginator.kt:164-174 | on page 1 without wrapping, the left text is accepted and then falls through to `toInt`, which throws |
| Menus.TextTargetCorrectedInRange | src/rewrite/kotlin/xyz/nightfury/util/menus/Paginator.kt:164-174 | the corrected target of every accepted message is a page of the menu, and it differs from the written one only for the texts |
| Menus.Lines | src/rewrite/kotlin/xyz/nightfury/util/menus/Paginator.kt:258-262 | the lines of items `from` to `to`, one per item, in order, numbered `i+1` when enabled |
| Menus.LinesConcat | src/rewrite/kotlin/xyz/nightfury/util/menus/Paginator.kt:258-262 | lines of adjacent index ranges concatenate |
| Menus.SliceEnd | src/rewrite/kotlin/xyz/nightfury/util/menus/Paginator.kt:252 | `min(size, p * itemsPerPage)` never passes the last item |
| Menus.SliceStart | src/rewrite/kotlin/xyz/nightfury/util/menus/Paginator.kt:251 | the first index of the page, never past its end |
| Menus.PageOfItem | src/rewrite/kotlin/xyz/nightfury/util/menus/Paginator.kt:250-262 | every item sits on page `i / itemsPerPage + 1`, a page of the menu |
| Menus.PageOfItemUnique | src/rewrite/kotlin/xyz/nightfury/util/menus/Paginator.kt:250-262 | no other page shows that item |
| Menus.PageIsFull | src/rewrite/kotlin/xyz/nightfury/util/menus/Paginator.kt:250-262 | every page but the last shows exactly `itemsPerPage` items, and none is empty |
| Menus.StartSign | src/rewrite/kotlin/xyz/nightfury/util/menus/Paginator.kt:251 | the start index is negative exactly for page numbers below 1 |
| Menus.RenderPage | src/rewrite/kotlin/xyz/nightfury/util/menus/Paginator.kt:250-262 | one column shows exactly the items in `[(p-1)*ipp, min(size, p*ipp))`; a page below 1 makes `items[i]` throw |
| Menus.FlattenSnoc | src/rewrite/kotlin/xyz/nightfury/util/menus/Paginator.kt:265-278 | the fields read in order concatenate |
| Menus.RenderField | src/rewrite/kotlin/xyz/nightfury/util/menus/Paginator.kt:268-274 | the `while` loop fills one field with up to `per` items from its start |
| Menus.FillFields | src/rewrite/kotlin/xyz/nightfury/util/menus/Paginator.kt:265-278 | the `for` loop makes one field per column, and together they cover the page once, in order |
| Menus.RenderColumns | src/rewrite/kotlin/xyz/nightfury/util/menus/Paginator.kt:263-279 | column mode splits the page into `columns` contiguous blocks of `ceil(n/columns)` covering each index once |
| Menus.SlideImage | src/main/kotlin/xyz/nightfury/entities/menus/Slideshow.kt:238-254 | page `p` shows `urls[p-1]`, which fails outside `1..size` |
| Menus.SlideshowOpens | src/main/kotlin/xyz/nightfury/entities/menus/Slideshow.kt:60-76 | a Slideshow with URLs opens on a page it can render; with none the clamp yields 0 and rendering fails |
| Menus.SlideshowNavigates | src/rewrite/kotlin/xyz/nightfury/util/menus/Slideshow.kt:187-224 | navigation keeps a Slideshow on a page it can render |
| Menus.PaginatorBuilder.constructor | src/rewrite/kotlin/xyz/nightfury/util/menus/Paginator.kt:293-316 | defaults: no items, one column, ten per page, a bulk skip of 1, no wrap, no numbers |
| Menus.PaginatorBuilder.SetColumns | src/rewrite/kotlin/xyz/nightfury/util/menus/Paginator.kt:297-301 | `columns` accepts exactly 1..3 and otherwise throws with nothing changed |
| Menus.PaginatorBuilder.SetItemsPerPage | src/rewrite/kotlin/xyz/nightfury/util/menus/Paginator.kt:302-306 | `itemsPerPage` accepts exactly values of at least 1 |
| Menus.PaginatorBuilder.SetBulkSkipNumber | src/rewrite/kotlin/xyz/nightfury/util/menus/Paginator.kt:310-311 | `bulkSkipNumber` is clamped to at least 1 |
| Menus.PaginatorBuilder.SetWrapPageEnds | src/rewrite/kotlin/xyz/nightfury/util/menus/Paginator.kt:312 | sets the wrap flag and nothing else |
| Menus.PaginatorBuilder.Add | src/rewrite/kotlin/xyz/nightfury/util/menus/Paginator.kt:326-328 | appends the item at the end |
| Menus.PaginatorBuilder.Build | commons/src/main/kotlin/xyz/nightfury/entities/menus/Paginator.kt:373-377 | building fails exactly without items, and the menu gets the ceiling page count and the builder's navigation settings |
| Menus.BuiltMenuStaysInRange | src/rewrite/kotlin/xyz/nightfury/util/menus/Paginator.kt:64-85 | a built menu opens on a page in range and every navigation keeps it there |
| OrderedMenus.Table | src/rewrite/kotlin/xyz/nightfury/util/menus/OrderedMenu.kt:44-58 | the number and letter tables hold ten distinct emoji, none of them the cancel emoji |
| OrderedMenus.Emoji | src/rewrite/kotlin/xyz/nightfury/util/menus/OrderedMenu.kt:217 | `i.emoji` is defined exactly for 0..9 and is an entry of the selected table |
| OrderedMenus.FirstIndexFrom | src/rewrite/kotlin/xyz/nightfury/util/menus/OrderedMenu.kt:219-221 | the first index holding the name, or -1 exactly when the table lacks it |
| OrderedMenus.NumberOfEmoji | commons/src/main/kotlin/xyz/nightfury/entities/menus/OrderedMenu.kt:205-210 | `number` and `emoji` are inverse table lookups, with -1 exactly for unknown names |
| OrderedMenus.MessageNumber | src/rewrite/kotlin/xyz/nightfury/util/menus/OrderedMenu.kt:223-238 | typed input yields a number in -1..10, and -1 for anything longer than one character other than "10" |
| OrderedMenus.IndexOfSingle | src/rewrite/kotlin/xyz/nightfury/util/menus/OrderedMenu.kt:223-231 | the index of a single character in a key string is its first position |
| OrderedMenus.LetterNumber | src/rewrite/kotlin/xyz/nightfury/util/menus/OrderedMenu.kt:223-231 | with letters, a single character maps to its index in " abcdefghij" after lower-casing |
| OrderedMenus.DigitNumber | src/rewrite/kotlin/xyz/nightfury/util/menus/OrderedMenu.kt:232-238 | with numbers, "1" to "9" and "10" map to 1 to 10 |
| OrderedMenus.SpaceNumber | src/rewrite/kotlin/xyz/nightfury/util/menus/OrderedMenu.kt:223-238 | a lone space maps to 0 in both modes, the blank head of each key string |
| OrderedMenus.MessageNumberOfLabel | commons/src/main/kotlin/xyz/nightfury/entities/menus/OrderedMenu.kt:212-229 | the commons menu decodes letters and digits by the same rules, "10" included |
| OrderedMenus.ReactionPastLastChoice | src/rewrite/kotlin/xyz/nightfury/util/menus/OrderedMenu.kt:184-195 | with three choices the fourth number emoji passes the inclusive bound and then indexes past the list |
| OrderedMenus.TypedNumberOffByOne | src/rewrite/kotlin/xyz/nightfury/util/menus/OrderedMenu.kt:152-160 | typing "1" picks the second choice, and typing the last label runs past the list |
| OrderedMenus.CorrectedReactionPicksLabel | src/rewrite/kotlin/xyz/nightfury/util/menus/OrderedMenu.kt:146-151 | with the strict bound every accepted reaction picks the choice whose emoji it is |
| OrderedMenus.CorrectedTypedPicksLabel | src/rewrite/kotlin/xyz/nightfury/util/menus/OrderedMenu.kt:152-160 | with the index shifted by one every typed label picks its own choice and none runs past the list |
| OrderedMenus.CheckDisplay | src/rewrite/kotlin/xyz/nightfury/util/menus/OrderedMenu.kt:75-81 | display throws exactly in a text channel without typed input and without the add-reaction permission |
| OrderedMenus.RenderChoices | src/rewrite/kotlin/xyz/nightfury/util/menus/OrderedMenu.kt:204-215 | line `i` is a newline, `emoji(i)`, a space and choice `i`, in insertion order; an eleventh choice has no emoji |
| OrderedMenus.InitialReactions | src/rewrite/kotlin/xyz/nightfury/util/menus/OrderedMenu.kt:95-130 | the reactions added are the first `size` emoji then the cancel emoji when enabled, and waiting starts only after the last one |
| OrderedMenus.RenderedLabelsPick | src/rewrite/kotlin/xyz/nightfury/util/menus/OrderedMenu.kt:184-195 | every rendered emoji is an accepted reaction that picks its own choice |
| OrderedMenus.MenuBuilder.constructor | src/rewrite/kotlin/xyz/nightfury/util/menus/OrderedMenu.kt:241-248 | defaults: no choices, numbers, typed input allowed, no cancel button |
| OrderedMenus.MenuBuilder.Choice | src/rewrite/kotlin/xyz/nightfury/util/menus/OrderedMenu.kt:257-263 | choices are appended in order and nothing else changes |
| OrderedMenus.MenuBuilder.ClearChoices | src/rewrite/kotlin/xyz/nightfury/util/menus/OrderedMenu.kt:261 | clears the choices and nothing else |
| OrderedMenus.MenuBuilder.UseLetters | src/rewrite/kotlin/xyz/nightfury/util/menus/OrderedMenu.kt:268-269 | selects the letter or number table and nothing else |
| Splitter.NoAtIffNoMention | src/main/kotlin/xyz/nightfury/extensions/Format.kt:53 | a text has no `@` directly before the word exactly when it does not contain the mention `@word` |
| Splitter.ReplaceLeavesNoAt | src/main/kotlin/xyz/nightfury/extensions/Format.kt:53 | replacing `@word` by a lookalike that differs from the word at one place leaves no `@word` behind, and a replacement keeps a text that had none free of it |
| Splitter.SafeTextsHoldNoAt | src/main/kotlin/xyz/nightfury/extensions/Format.kt:53 | the two replacement texts start with their only `@` and replace a Latin `e` by a Cyrillic one |
| Splitter.MentionFreeIff | src/main/kotlin/xyz/nightfury/extensions/Format.kt:53 | a mention-free text is one holding neither `@everyone` nor `@here` |
| Splitter.TrimKeepsNoAt | src/main/kotlin/xyz/nightfury/extensions/Format.kt:53 | trimming cannot create a mention |
| Splitter.FilterIsMentionFree | src/main/kotlin/xyz/nightfury/extensions/Format.kt:53 | whatever the input, the filtered text mentions neither everyone nor here |
| Splitter.ReplaceLength | src/main/kotlin/xyz/nightfury/extensions/Format.kt:53 | replacing by a text of the same length keeps the length |
| Splitter.LastIndexOfChar | src/main/kotlin/me/kgustave/nightfury/CommandEvent.kt:235-237 | `lastIndexOf(c, from)` is the last position at or before `from` holding `c`, or -1 when none does |
| Splitter.NonSpaceConcat | src/main/kotlin/me/kgustave/nightfury/CommandEvent.kt:230-247 | dropping whitespace distributes over concatenation |
| Splitter.NonSpaceOfTrim | src/main/kotlin/me/kgustave/nightfury/CommandEvent.kt:231 | trimming drops only whitespace |
| Splitter.ConcatSnoc | src/main/kotlin/me/kgustave/nightfury/CommandEvent.kt:242 | appending a part appends its text |
| Splitter.SplitIndex | src/main/kotlin/me/kgustave/nightfury/CommandEvent.kt:234-239 | whichever of the last newline, the last space or 2000 the leeway rule picks, the cut is past 0 and not past 2000, so every pass makes progress |
| Splitter.TrimmedOfTrim | src/main/kotlin/me/kgustave/nightfury/CommandEvent.kt:240 | a trimmed text has no whitespace at either end |
| Splitter.SplitSizes | src/main/kotlin/me/kgustave/nightfury/CommandEvent.kt:240-243 | one cut yields a trimmed head of at most 2000 characters and a trimmed, strictly shorter rest |
| Splitter.SplitNonSpace | src/main/kotlin/me/kgustave/nightfury/CommandEvent.kt:240-243 | one cut loses nothing but whitespace |
| Splitter.SplitNoAt | src/main/kotlin/me/kgustave/nightfury/CommandEvent.kt:240-243 | one cut of a mention-free text leaves both halves mention-free |
| Splitter.AddPartOk | src/main/kotlin/me/kgustave/nightfury/CommandEvent.kt:241-242 | adding a non-empty trimmed part of at most 2000 characters keeps every part sendable |
| Splitter.LoopStep | src/main/kotlin/me/kgustave/nightfury/CommandEvent.kt:232-244 | one pass of the loop keeps the parts sendable, shrinks what is left and keeps all the text's non-space characters in order |
| Splitter.LastPart | src/main/kotlin/me/kgustave/nightfury/CommandEvent.kt:245-246 | the last part completes the text |
| Splitter.CutOnce | src/main/kotlin/me/kgustave/nightfury/CommandEvent.kt:234-243 | the loop body's `temp` and new `toSend` are the head and rest of one cut |
| Splitter.SplitParts | src/main/kotlin/me/kgustave/nightfury/CommandEvent.kt:232-247 | every part holds 1 to 2000 characters, the parts hold the text's non-space characters in order, a short text is its own single part, and parts of a mention-free text are mention-free |
| Splitter.ProcessMessage | src/main/kotlin/me/kgustave/nightfury/CommandEvent.kt:227-248 | the message is sent as trimmed, mention-free parts of 1 to 2000 characters holding all of the filtered text but whitespace, and a short one as itself |
| Splitter.ProcessMessageRewrite | src/rewrite/kotlin/xyz/nightfury/command/CommandContext.kt:231-249 | the same splitting over an already filtered text; a short text goes out untrimmed, as the rewrite does not trim it first |
| Splitter.SendMessageMain | src/main/kotlin/me/kgustave/nightfury/CommandEvent.kt:124-134 | nothing is sent into a text channel the bot cannot talk in; otherwise at most the first 3 parts are sent, in order |
| Splitter.CheckForTalking | src/rewrite/kotlin/xyz/nightfury/command/CommandContext.kt:213-217 | an error exactly for a text channel the bot cannot talk in |
| Splitter.SendRewrite | src/rewrite/kotlin/xyz/nightfury/command/CommandContext.kt:171-185 | at most the first 2 parts are sent; an empty part list ends in the error the source throws |
| Splitter.ReplyMessage | src/rewrite/kotlin/xyz/nightfury/command/CommandContext.kt:187-197 | a single part sends the unfiltered text; otherwise at most the first 2 parts |
| Splitter.SingleReplyPings | src/rewrite/kotlin/xyz/nightfury/command/CommandContext.kt:187-191 | `@everyone` fits one part whose filtered form is safe, so the unfiltered text that is sent still pings |
| Splitter.ReplyMessageCorrected | src/rewrite/kotlin/xyz/nightfury/command/CommandContext.kt:193-197 | the corrected reply sends the filtered parts, at most 2 |
| Searcher.TierOf | src/main/java/me/kgustave/nightfury/utils/SearcherUtil.java:66-77 | an entry falls in no tier exactly when its discriminator is refused or no name matches the query in any of the four ways |
| Searcher.TierMembers | src/main/java/me/kgustave/nightfury/utils/SearcherUtil.java:61-77 | a tier holds exactly the searched entries of that rank, in their order |
| Searcher.HighestIsBest | src/main/java/me/kgustave/nightfury/utils/SearcherUtil.java:79-85 | the chosen rank is at least as good as every entry's, and some entry holds it unless nothing matched |
| Searcher.SelectedIsBestTier | src/main/java/me/kgustave/nightfury/utils/SearcherUtil.java:79-85 | the result is exactly the entries of the best matching rank, and empty exactly when nothing matched |
| Searcher.SortHoldsTiers | src/main/java/me/kgustave/nightfury/utils/SearcherUtil.java:66-77 | the one-pass sorting, where a lower list fills only while the better lists are empty, holds the best non-empty tier whole |
| Searcher.TierEmptyIff | src/main/java/me/kgustave/nightfury/utils/SearcherUtil.java:79-85 | a tier is empty exactly when no entry has that rank |
| Searcher.PickIsSelected | src/main/java/me/kgustave/nightfury/utils/SearcherUtil.java:79-85 | returning the first non-empty list of the pass yields the best tier |
| Searcher.TieredSearch | src/main/java/me/kgustave/nightfury/utils/SearcherUtil.java:61-85 | the loop over the entries returns the best tier of matches |
| Searcher.Bracketed | src/main/java/me/kgustave/nightfury/utils/SearcherUtil.java:36 | a parsed mention is a non-empty digit run between the brackets and its lead |
| Searcher.BracketedOf | src/main/java/me/kgustave/nightfury/utils/SearcherUtil.java:36 | a mention built from a digit id parses back to it |
| Searcher.UserMentionRoundTrip | src/main/java/me/kgustave/nightfury/utils/SearcherUtil.java:36-44 | both user mention forms yield the id, and only they do |
| Searcher.IdQueryId | src/main/java/me/kgustave/nightfury/utils/SearcherUtil.java:263-265 | an id query ends in the non-empty digit run it yields |
| Searcher.IdQueryOf | src/main/java/me/kgustave/nightfury/utils/SearcherUtil.java:263-265 | `id:` and `ID : ` queries yield the id, whatever the case and spacing |
| Searcher.SplitDiscriminator | src/main/java/me/kgustave/nightfury/utils/SearcherUtil.java:56-60 | a name with a discriminator splits into the trimmed name and the four digits after the last `#` |
| Searcher.SplitDiscriminatorOf | src/main/java/me/kgustave/nightfury/utils/SearcherUtil.java:56-60 | a single-line name joined to a four-digit tag splits back into both |
| Searcher.MentionIsNoTag | src/main/java/me/kgustave/nightfury/utils/SearcherUtil.java:42-56 | a user mention is never read as a discriminated name |
| Searcher.NameQuery | src/main/java/me/kgustave/nightfury/utils/SearcherUtil.java:56-65 | the text a name query compares exactly is the one it compares ignoring case, any discriminator split off first |
| Searcher.FindById | src/main/java/me/kgustave/nightfury/utils/SearcherUtil.java:147-151 | the entry found has the id, and nothing is found exactly when no entry has it |
| Searcher.SearchUsers | src/main/java/me/kgustave/nightfury/utils/SearcherUtil.java:38-86 | a mention yields the cached user, else the fetched one, else nothing; any other query yields the best tier of names |
| Searcher.SearchMembers | src/main/java/me/kgustave/nightfury/utils/SearcherUtil.java:88-131 | a mention of a member yields that member; an unknown mention and any other query fall through to the name search |
| Searcher.FindBanned | src/main/java/me/kgustave/nightfury/utils/SearcherUtil.java:143-151 | the loop over the bans finds the banned user with the id |
| Searcher.SearchBannedUsers | src/main/java/me/kgustave/nightfury/utils/SearcherUtil.java:133-183 | without the ban list there is no answer; a mention yields the banned user with that id, else the name search over the bans |
| Searcher.SearchChannel | src/main/java/me/kgustave/nightfury/utils/SearcherUtil.java:185-217 | a mention of a channel of the guild yields it; otherwise the lower-cased query is searched by name |
| Searcher.SearchRole | src/main/java/me/kgustave/nightfury/utils/SearcherUtil.java:253-292 | a role mention or id query naming a role yields it; otherwise the query is searched by name |
| Searcher.SearchGuild | src/main/java/me/kgustave/nightfury/utils/SearcherUtil.java:294-326 | an id query naming a guild yields it; otherwise the query is searched by name |
| Searcher.ChannelExactIsLowerCase | src/main/java/me/kgustave/nightfury/utils/SearcherUtil.java:199-203 | a channel named `General` searched as `General` is only a wrong-case match, as the query is lower-cased first |
| CommandIndex.AllKeysOwned | src/main/kotlin/xyz/nightfury/resources/CommandMap.kt:47-52 | a key is indexed exactly when some command has it as its lower-cased name or alias |
| CommandIndex.PutAliasesSpec | src/main/kotlin/xyz/nightfury/resources/CommandMap.kt:50 | putting the aliases adds their lower-cased forms, pointing at the command, and keeps every other key |
| CommandIndex.PutCommandSpec | src/main/kotlin/xyz/nightfury/resources/CommandMap.kt:48-50 | putting one command adds its name and aliases, pointing at it, and keeps every other key |
| CommandIndex.BuiltKeys | src/main/kotlin/xyz/nightfury/resources/CommandMap.kt:47-52 | the built index holds exactly the lower-cased names and aliases |
| CommandIndex.BuiltOwner | src/main/kotlin/xyz/nightfury/resources/CommandMap.kt:47-52 | every key points at a command that has it |
| CommandIndex.BuiltLast | src/main/kotlin/xyz/nightfury/resources/CommandMap.kt:47-52 | a key shared by several commands points at the last of them |
| CommandIndex.BuiltIndexSpec | src/main/kotlin/xyz/nightfury/resources/CommandMap.kt:41-52 | the index covers every name and alias, each pointing at the last command that has it |
| CommandIndex.CommandMap.constructor | src/main/kotlin/xyz/nightfury/resources/CommandMap.kt:41-52 | the loop over the commands builds that index |
| CommandIndex.CommandMap.Size | src/main/kotlin/xyz/nightfury/resources/CommandMap.kt:45 | the size counts commands, not names and aliases |
| CommandIndex.CommandMap.Get | src/main/kotlin/xyz/nightfury/resources/CommandMap.kt:89-91 | a found command is one of the map's, and nothing is found exactly when the lower-cased name is not a key |
| CommandIndex.CommandMap.GetFindsLastOwner | src/main/kotlin/xyz/nightfury/resources/CommandMap.kt:89-104 | lookup ignores case, finds a command exactly when one has the name or alias, and finds the last such command |
| CommandIndex.CommandMap.GetByOwnKey | src/main/kotlin/xyz/nightfury/resources/CommandMap.kt:89-104 | every command's own name or alias finds a command that has it |
| CommandIndex.CommandMap.IsEmptyIffNoCommands | src/main/kotlin/xyz/nightfury/resources/CommandMap.kt:135 | the map is empty exactly when it has no commands |
| CommandIndex.CommandMap.CorrectedContainsAllNames | src/main/kotlin/xyz/nightfury/resources/CommandMap.kt:106-118 | on a built map the corrected check holds exactly when every lower-cased name is a name or alias of some command, and exactly when `Get` finds every name; whatever the check as written accepts, the corrected one accepts too |
| CommandIndex.ContainsAllNamesIsCaseSensitive | src/main/kotlin/xyz/nightfury/resources/CommandMap.kt:119-122 | with a command `ping`, `PING` is contained and found, yet `containsAllNames` of it is false |
| Commands.MatchesAliasKeys | src/main/kotlin/xyz/nightfury/Commands.kt:248-254 | an alias matches ignoring case exactly when the lower-cased text is one of the lower-cased aliases |
| Commands.IsForCommandKeys | src/main/kotlin/xyz/nightfury/Commands.kt:248-254 | a command answers to a text exactly when the command index files it under that lower-cased text |
| Commands.FirstChild | src/main/kotlin/xyz/nightfury/Commands.kt:309-320 | the child found is the first, in array order, that answers to the token, and none is found exactly when no child answers |
| Commands.Route | src/main/kotlin/xyz/nightfury/Commands.kt:160-168 | dispatch stops at a command without children, with no arguments left, or where no child answers, and each step shortens the arguments |
| Commands.FindChildIsRoute | src/main/kotlin/xyz/nightfury/Commands.kt:309-320 | `findChild` goes where the dispatch of `run` goes, but gives nothing where no child answers |
| Commands.Run | src/main/kotlin/xyz/nightfury/Commands.kt:159-168 | the command run and the arguments it is left with are those of the dispatch |
| Commands.PathNames | src/rewrite/kotlin/xyz/nightfury/command/Command.kt:53 | one single-word name per step of a path |
| Commands.FindChildFollowsNames | src/rewrite/kotlin/xyz/nightfury/command/Command.kt:164-175 | typing the children's names, separated by spaces, finds the command the path leads to |
| Commands.FullNameOfChild | src/rewrite/kotlin/xyz/nightfury/command/Command.kt:53 | the full name is the name at the root, and below it the parent's full name, a space and the name |
| Commands.DefaultLevelOfChild | src/rewrite/kotlin/xyz/nightfury/command/Command.kt:54 | a command's default level is its own override, else its parent's, and at the root the group's |
| Commands.RootGetOwnName | src/rewrite/kotlin/xyz/nightfury/Client.kt:115-120 | a top-level command no later command shadows is found under its own name |
| Commands.SearchFindsFullName | src/rewrite/kotlin/xyz/nightfury/Client.kt:115-120 | searching for a command's full name finds that command when no sibling on the way answers to the same name |
| Commands.GenKey | src/main/kotlin/xyz/nightfury/Commands.kt:397-403 | the key starts with `name` and a bar, and a two-id format without its second id fails as `String.format` does |
| Commands.CooldownKey | src/main/kotlin/xyz/nightfury/Commands.kt:277-290 | every cooldown key starts with the command name and a bar |
| Commands.NatToStringInjective | src/main/kotlin/xyz/nightfury/Commands.kt:397-403 | two ids give the same decimal text exactly when they are equal |
| Commands.OneIdInjective | src/main/kotlin/xyz/nightfury/Commands.kt:397-403 | a one-id key determines its id |
| Commands.TwoIdInjective | src/main/kotlin/xyz/nightfury/Commands.kt:397-403 | a two-id key determines both ids |
| Commands.CooldownKeyInjective | src/main/kotlin/xyz/nightfury/Commands.kt:277-290 | within one kind of channel, two invocations share a key exactly when they share the user, channel or guild their scope is about |
| Commands.CooldownError | src/main/kotlin/xyz/nightfury/Commands.kt:292-302 | outside a guild, the per-guild scopes are reported as per-channel |
| Commands.CooldownErrorMatchesKey | src/rewrite/kotlin/xyz/nightfury/command/Command.kt:202-227 | the scope a cooldown message names has the suffix of the scope the key falls back to |
| Commands.CooldownNotice | src/rewrite/kotlin/xyz/nightfury/command/Command.kt:113-119 | the rewrite's notice ends in a single `!`, after the suffix when there is one |
| Commands.UserCooldownNoticeDoubled | src/main/kotlin/xyz/nightfury/Commands.kt:211-218 | for a per-user cooldown, whose suffix is empty, the main notice ends in `!!` |
| Commands.CooldownNoticesAgree | src/main/kotlin/xyz/nightfury/Commands.kt:211-218 | with a non-empty suffix the main and the rewrite notices are the same |
| Commands.FromCategory | src/main/kotlin/xyz/nightfury/Commands.kt:334-341 | each of the four primary categories maps to its own level, and no category, music and NSFW to standard |
| Commands.FromArguments | src/main/kotlin/xyz/nightfury/Commands.kt:343-349 | a level is parsed exactly when the lower-cased argument is one of its words |
| Commands.FromArgumentsOfWord | src/main/kotlin/xyz/nightfury/Commands.kt:343-349 | every word of a level, in any case, parses back to that level |
| Commands.LevelFromArgs | src/main/kotlin/xyz/nightfury/command/administrator/LevelCommand.kt:105-113 | a level is parsed exactly when the lower-cased argument is one of its words, and the developer level never is |
| Commands.LevelFromArgsOfWord | src/main/kotlin/xyz/nightfury/command/administrator/LevelCommand.kt:105-113 | every word of a level, in any case, parses back to that level |
| Commands.FullnameMain | src/main/kotlin/xyz/nightfury/Commands.kt:71-73 | the full name is the stored field, or the name while the field holds the `null` sentinel |
| Commands.GroupCompareBroken | src/rewrite/kotlin/xyz/nightfury/command/Command.kt:243-248 | the standard group compares greater than itself, and greater than a higher group both ways round |
| Commands.GroupCompareCorrectedIsOrder | src/rewrite/kotlin/xyz/nightfury/command/Command.kt:243-248 | the corrected group order is reflexive, antisymmetric and transitive |
| Commands.CompareIgnoreCaseSymmetric | src/rewrite/kotlin/xyz/nightfury/command/Command.kt:229-231 | swapping the names negates their comparison, and names equal ignoring case compare as 0 |
| Commands.CommandCompareCorrectedSymmetric | src/rewrite/kotlin/xyz/nightfury/command/Command.kt:229-231 | with the corrected group order, comparing commands is antisymmetric and reflexive |
| Commands.StandardCommandNotReflexive | src/rewrite/kotlin/xyz/nightfury/command/Command.kt:229-248 | as written, a command of the standard group compares greater than itself |
| Commands.NoArgumentErrorOfName | src/rewrite/kotlin/xyz/nightfury/command/Command.kt:57-61 | a template holding `%name` once and no other `%` becomes the error emoji and the template with the full name in its place |
| Commands.SplitLevelArgs | src/main/kotlin/xyz/nightfury/command/administrator/LevelCommand.kt:67-70 | the level argument is one whitespace-free token |
| Commands.SplitLevelArgsOfJoin | src/main/kotlin/xyz/nightfury/command/administrator/LevelCommand.kt:67-70 | words typed with single spaces split back into the command words and the level word |
| Commands.LevelSet | src/main/kotlin/xyz/nightfury/command/administrator/LevelCommand.kt:66-102 | each refusal happens exactly in its case; a level is saved exactly when it is the default or new and not below the default; saving the default stores a reset, and the effective level afterwards is the one typed |
| Commands.LevelReset | src/main/kotlin/xyz/nightfury/command/administrator/LevelCommand.kt:44-57 | a reset is refused exactly when the command is unknown or already at its default, and otherwise clears the stored level |
| Commands.ResetUndoesSet | src/main/kotlin/xyz/nightfury/command/administrator/LevelCommand.kt:44-102 | after a level other than the default is set, a reset is accepted and restores the default |
| Client.AppliedBlocksFor | src/main/kotlin/xyz/nightfury/Client.kt:105-118 | a cooldown applied for some seconds answers the seconds left until exactly then, and 0 afterwards |
| Client.AppliedKeepsOthers | src/main/kotlin/xyz/nightfury/Client.kt:115-118 | applying one cooldown leaves every other key's answer as it was |
| Client.ReadKeepsAnswers | src/main/kotlin/xyz/nightfury/Client.kt:105-113 | a read removes at most the key read, and no answer at that time or later changes |
| Client.CleanedKeepsAnswers | src/main/kotlin/xyz/nightfury/Client.kt:120-124 | cleaning keeps exactly the entries not yet expired, unchanged, and no later answer changes |
| Client.CleanedTwice | src/main/kotlin/xyz/nightfury/Client.kt:120-124 | cleaning twice is cleaning once at the later time |
| Client.Client.GetRemainingCooldown | src/main/kotlin/xyz/nightfury/Client.kt:105-113 | the answer is the whole seconds left, 0 for an absent or expired key, and an expired entry is removed |
| Client.Client.ApplyCooldown | src/main/kotlin/xyz/nightfury/Client.kt:115-118 | the expiry becomes now plus the seconds |
| Client.Client.CleanCooldowns | src/main/kotlin/xyz/nightfury/Client.kt:120-124 | the loop over the keys leaves the cleaned table |
| Client.Client.IncrementUses | src/main/kotlin/xyz/nightfury/Client.kt:132-135 | the named counter goes up by one, from 0 when absent, and no other counter moves |
| Client.Client.IncrementUsesIgnoreCase | src/rewrite/kotlin/xyz/nightfury/Client.kt:111-113 | every spelling of the name finds the one counter that went up by one, and no other counter moves |
| Client.Client.SaveFuture | src/main/kotlin/me/kgustave/nightfury/Client.kt:133-136 | any spelling of the key finds the saved future afterwards |
| Client.Client.RemoveFuture | src/main/kotlin/me/kgustave/nightfury/Client.kt:144-147 | no spelling of the key finds a future afterwards |
| Client.Client.CancelFuture | src/main/kotlin/me/kgustave/nightfury/Client.kt:138-142 | the stored future, if any, is cancelled, and no spelling of the key finds it afterwards |
| Client.Client.CleanSchedule | src/main/kotlin/me/kgustave/nightfury/Client.kt:363-370 | exactly the futures that are done or cancelled are removed |
| Client.Client.LinkIds | src/main/kotlin/xyz/nightfury/Client.kt:319-333 | the message joins the set cached for the id, which keeps what it had |
| Client.Client.LinkCall | src/rewrite/kotlin/xyz/nightfury/Client.kt:334-339 | a message from outside a guild changes nothing; one from a guild joins the set for the id |
| Client.Client.OnGuildMemberJoin | src/main/kotlin/xyz/nightfury/Client.kt:284-312 | with a channel the bot can talk in, the welcome goes out only when its cooldown is over and the text has 1 to 2000 characters, and sending starts the cooldown |
| Client.WelcomeKeyInjective | src/main/kotlin/xyz/nightfury/Client.kt:292-293 | different users or guilds never share a welcome key |
| Client.WelcomeDebounced | src/main/kotlin/xyz/nightfury/Client.kt:294-312 | after a welcome, the same member of the same guild gets no other for 100 seconds, and afterwards any text of 1 to 2000 characters is sent |
| Client.WelcomeKeepsOthers | src/main/kotlin/xyz/nightfury/Client.kt:294-312 | welcoming one member leaves every other member's and guild's welcome cooldown as it was |
| Client.BotCount | src/main/kotlin/xyz/nightfury/Client.kt:339-340 | no more bots than members are counted |
| Client.SmallGuildIsGood | src/main/kotlin/xyz/nightfury/Client.kt:339-340 | a guild of at most 30 members, or one the developer is in, is good |
| Client.NoBotsNoCount | src/main/kotlin/xyz/nightfury/Client.kt:339-340 | a guild without bots has no bots counted, so it is good whatever its size |
| Client.IsGoodRewriteListed | src/rewrite/kotlin/xyz/nightfury/Client.kt:262-268 | a blacklisted guild is refused, a whitelisted one admitted, and any other judged by the main rule |
| Client.FirstPrefix | src/main/kotlin/xyz/nightfury/Client.kt:218 | the prefix found is the first that starts the message ignoring case, and none is found exactly when none does |
| Client.PrefixUsed | src/main/kotlin/xyz/nightfury/Client.kt:206-229 | a prefix is used exactly when the default or some guild prefix starts the message; the default wins, else the first guild prefix that matches |
| Client.ParseMainShape | src/main/kotlin/xyz/nightfury/Client.kt:199-235 | bot messages and messages without a prefix are no call; a call's prefix starts the trimmed message and its name is one token |
| Client.ParseMainRoundTrip | src/main/kotlin/xyz/nightfury/Client.kt:199-235 | a message typed as prefix, name and arguments parses back to them |
| Client.TypedShape | src/main/kotlin/xyz/nightfury/Client.kt:203-210 | such a message trims to itself and starts with its prefix |
| Client.SplitTyped | src/main/kotlin/xyz/nightfury/Client.kt:210-233 | the text after the prefix splits back into the name and the arguments |
| Client.RewriteAgreesOnTrimmed | src/rewrite/kotlin/xyz/nightfury/Client.kt:166-193 | on trimmed content the rewrite parses as the main tree, with the name lower-cased |
| Client.TrimDropsLeading | src/main/kotlin/xyz/nightfury/Client.kt:203 | trimming drops leading whitespace |
| Client.RewriteIgnoresLeadingSpace | src/rewrite/kotlin/xyz/nightfury/Client.kt:166-193 | a call typed after a space is a call for the main tree and none for the rewrite, which does not trim first |
| Client.MainDropsLeadingSpace | src/main/kotlin/xyz/nightfury/Client.kt:203 | the main tree parses a message with a leading space as the message itself |
| Client.SpaceIsNoPrefix | src/rewrite/kotlin/xyz/nightfury/Client.kt:175-185 | text starting with a space does not start with a prefix that does not |
| Client.SearchMainAgreesWithIndex | src/main/kotlin/xyz/nightfury/Client.kt:137-142 | when only one top-level command answers to the first token, the main tree's search agrees with the rewrite's |
| Client.MessageReachesCommand | src/main/kotlin/xyz/nightfury/Client.kt:199-240 | a message typed as a prefix and a top-level command's name reaches that command with its arguments |
| Format.ListOut | src/main/kotlin/xyz/nightfury/extensions/Format.kt:29-38 | an empty list fails at its first entry; any other list gives the listing: header, at most four entries, and the overflow count |
| Format.ListingOfShort | src/main/kotlin/xyz/nightfury/extensions/Format.kt:29-38 | up to four entries, every one is listed after the header and nothing else follows |
| Format.ListingSeesFirstFour | src/main/kotlin/xyz/nightfury/extensions/Format.kt:29-38 | two equally long lists with the same first four entries list the same |
| Format.ChannelsAndRolesOverflowAsMembers | src/main/kotlin/me/kgustave/nightfury/utils/FormatUtils.kt:56-91 | as written, five channels or roles end their listing with `And 1 other member...`, not their own kind |
| Format.MultipleFoundNamesKind | src/main/kotlin/me/kgustave/nightfury/utils/FormatUtils.kt:28-91 | the corrected listings count the overflow in their own kind, with the plural past one |
| Format.FormattedNameSplits | src/main/kotlin/xyz/nightfury/extensions/Format.kt:40 | the plain user tag reads back through the search's discriminator split |
| Format.FormattedNameInjective | src/main/kotlin/xyz/nightfury/extensions/Format.kt:40 | with four-digit discriminators, different users never show the same tag |
| Format.NoMatchQuotesQuery | src/main/kotlin/xyz/nightfury/extensions/Format.kt:45 | the query reads back from between the quotes of the message |
| Format.UnderscoresToSpaces | src/main/kotlin/xyz/nightfury/extensions/Format.kt:48 | every underscore becomes a space and nothing else changes |
| Format.NiceNameShape | src/main/kotlin/xyz/nightfury/extensions/Format.kt:47-48 | a nice name keeps the length, has no underscores and is lower case after its first character |
| Format.NiceNameIdempotent | src/main/kotlin/xyz/nightfury/extensions/Format.kt:47-48 | applying `niceName` to a nice name changes nothing |
| Format.NiceNamesAgree | src/rewrite/kotlin/xyz/nightfury/util/ext/misc.kt:80-85 | the rewrite's `niceName` agrees with the main tree's on names not starting with a lower-case letter |
| Format.FormatTrackTime | src/main/kotlin/xyz/nightfury/extensions/Format.kt:55-66 | the step-by-step reassignment of `seconds` yields the track time text, and `LIVE` for the largest `Long` |
| Format.TwoDigitsOf | src/main/kotlin/xyz/nightfury/extensions/Format.kt:64-65 | below 60, two digits denoting the number |
| Format.TrackTimeDenotes | src/main/kotlin/xyz/nightfury/extensions/Format.kt:55-66 | a duration is shown as its rounded seconds: hours only when there are any, then minutes and seconds below 60 in two digits |
| Format.RoundSecondsNearest | src/main/kotlin/xyz/nightfury/extensions/Format.kt:58 | the rounded seconds are within half a second of the duration, halves rounding up |
| Format.TargetIdReason | src/main/kotlin/me/kgustave/nightfury/utils/FormatUtils.kt:24 | a match holds an id of 17 to 20 digits that starts the text |
| Format.TargetMentionReason | src/main/kotlin/me/kgustave/nightfury/utils/FormatUtils.kt:26 | a matched mention holds an id of 17 to 20 digits |
| Format.LeadingDigits | src/main/kotlin/me/kgustave/nightfury/utils/FormatUtils.kt:24 | digits followed by a non-digit are the whole leading run |
| Format.TargetIdAlone | src/main/kotlin/me/kgustave/nightfury/utils/FormatUtils.kt:24 | an id alone matches with no reason |
| Format.TargetIdWithReason | src/main/kotlin/me/kgustave/nightfury/utils/FormatUtils.kt:24 | an id, a space and a reason not starting with `for` give that reason |
| Format.TargetIdForReason | src/main/kotlin/me/kgustave/nightfury/utils/FormatUtils.kt:24 | `for` before the reason is dropped from it |
| Format.TargetIdTooLong | src/main/kotlin/me/kgustave/nightfury/utils/FormatUtils.kt:24 | 21 digits or more never match |
| Format.MentionAgreesWithId | src/main/kotlin/me/kgustave/nightfury/utils/FormatUtils.kt:24-26 | a mention of an id followed by a reason matches as the id followed by it does |
| Cases.LowerEnumName | src/main/kotlin/xyz/nightfury/entities/Cases.kt:48-55 | each action's lower-cased enum name is its act, and `other` for OTHER |
| Cases.ActIsLower | src/main/kotlin/me/kgustave/nightfury/entities/Cases.kt:51-59 | every act is already lower case |
| Cases.FindByName | src/main/kotlin/xyz/nightfury/entities/Cases.kt:58 | the action found is one whose lower-cased name equals the text, and none is found exactly when no action's does |
| Cases.ActionByActMain | src/main/kotlin/xyz/nightfury/entities/Cases.kt:57-59 | a recognised action's lower-cased name is the text, and an unknown text gives OTHER |
| Cases.ActionByActMainOfName | src/main/kotlin/xyz/nightfury/entities/Cases.kt:57-59 | each action's lower-cased name parses back to it |
| Cases.ActionByActMainIff | src/main/kotlin/xyz/nightfury/entities/Cases.kt:57-59 | a text gives an action other than OTHER exactly when it is that action's lower-cased name |
| Cases.ActionByActMainIsCaseSensitive | src/main/kotlin/xyz/nightfury/entities/Cases.kt:58 | the input is not lower-cased: the enum's own name `BAN` gives OTHER |
| Cases.ActionByActOfAct | src/main/kotlin/me/kgustave/nightfury/entities/Cases.kt:61-71 | `getActionByAct(a.act)` is `a` for every action, OTHER's empty act falling to the default |
| Cases.ActionByActIgnoresCase | src/main/kotlin/me/kgustave/nightfury/entities/Cases.kt:62 | the older parser ignores case and recognises only the six acts |
| Cases.MainKnownIsKnown | src/main/kotlin/me/kgustave/nightfury/entities/Cases.kt:61-71 | whatever the newer parser recognises, the older one recognises as the same action |
| Cases.ParsersAgreeOnLowerCase | src/main/kotlin/me/kgustave/nightfury/entities/Cases.kt:61-71 | on lower-case input the two parsers agree |
| Cases.TruncateReason | src/main/kotlin/xyz/nightfury/entities/Cases.kt:42-45 | a reason of at most 200 characters is kept; a longer one becomes its first 197 characters and `...`, exactly 200 |
| Cases.TruncateReasonIdempotent | src/main/kotlin/xyz/nightfury/entities/Cases.kt:42-45 | setting a stored reason again changes nothing |
| Cases.TruncateReasonKeepsPrefix | src/main/kotlin/xyz/nightfury/entities/Cases.kt:42-45 | a truncated reason begins with the input's first 197 characters |
| Cases.FromDBArgs | src/main/kotlin/me/kgustave/nightfury/entities/Cases.kt:48 | a row read back has the eight columns |
| Cases.Case.constructor | src/main/kotlin/xyz/nightfury/entities/Cases.kt:29-46 | a new case is numbered 0, is on a user, has action OTHER and the reason `none` |
| Cases.Case.SetReason | src/main/kotlin/xyz/nightfury/entities/Cases.kt:42-45 | the stored reason is the truncated value |
| Cases.Case.ToDBArgs | src/main/kotlin/me/kgustave/nightfury/entities/Cases.kt:48 | the arguments are number, guild, message, moderator, target, on-user flag, act and reason, in that order, and read back to the case |
| Cases.ModLogger.constructor | src/main/kotlin/xyz/nightfury/entities/Cases.kt:62 | a new logger holds no cases |
| Cases.ModLogger.NewCase | src/main/kotlin/xyz/nightfury/entities/Cases.kt:64-93 | the guild's table gains the case numbered one past its size only when the log channel can talk and the message was sent; other guilds are untouched and dense numbering is kept |
| Cases.LoggedStaysDense | src/main/kotlin/xyz/nightfury/entities/Cases.kt:66-90 | logging keeps a table numbered 1, 2, … and adds at most the next number |
| Cases.UnsentIsNotRecorded | src/main/kotlin/xyz/nightfury/entities/Cases.kt:76-91 | a case is recorded exactly when there is a log channel that can talk and the send produced a message |
| Music.TotalToSkipIsHalfRoundedUp | src/rewrite/kotlin/xyz/nightfury/music/MusicQueue.kt:65-68 | the votes needed are half the listeners rounded up, and both trees compute the same |
| Music.IndexOfElem | src/rewrite/kotlin/xyz/nightfury/music/MusicQueue.kt:153 | the index found holds the element and no earlier one does |
| Music.QueuePosition | src/rewrite/kotlin/xyz/nightfury/music/MusicQueue.kt:79-82 | the one-based position reported holds the track in the queue after adding it |
| Music.QueuePositionIsLast | src/rewrite/kotlin/xyz/nightfury/music/MusicQueue.kt:79-82 | the reported position is the end of the queue exactly when the track was not queued already |
| Music.UserCount | src/rewrite/kotlin/xyz/nightfury/music/MusicQueue.kt:88-95 | no more of a user's tracks than tracks are counted |
| Music.UserPositions | src/rewrite/kotlin/xyz/nightfury/music/MusicQueue.kt:88-95 | the first loop collects one position per track of the user, each holding one of the user's tracks |
| Music.ShuffleTracks | src/rewrite/kotlin/xyz/nightfury/music/MusicQueue.kt:84-106 | the shuffle permutes the queue, moves only the user's tracks and only among the user's places, and returns how many the user has |
| Music.SwapKeepsMultiset | src/rewrite/kotlin/xyz/nightfury/music/MusicQueue.kt:100-102 | a swap keeps the queue's tracks |
| Music.PollNeverReturns | src/rewrite/kotlin/xyz/nightfury/music/MusicQueue.kt:130-145 | as written, polling a non-empty queue calls `remove`, which polls again, without end |
| Music.PollOfEmptyCloses | src/rewrite/kotlin/xyz/nightfury/music/MusicQueue.kt:133-144 | polling an empty queue closes it and gives nothing |
| Music.RewriteMusicQueue.constructor | src/rewrite/kotlin/xyz/nightfury/music/MusicQueue.kt:41-55 | a new queue plays the first track, with nothing queued, no votes, and alive |
| Music.RewriteMusicQueue.Skips | src/rewrite/kotlin/xyz/nightfury/music/MusicQueue.kt:70-74 | votes of anyone who is no longer a listening non-bot member are dropped, and the count is what remains |
| Music.RewriteMusicQueue.VoteToSkip | src/rewrite/kotlin/xyz/nightfury/music/MusicQueue.kt:110-113 | the vote is added, then stale votes are dropped and the rest counted |
| Music.RewriteMusicQueue.Queue | src/rewrite/kotlin/xyz/nightfury/music/MusicQueue.kt:79-82 | the track joins the end of the queue and its one-based position is reported |
| Music.RewriteMusicQueue.Poll | src/rewrite/kotlin/xyz/nightfury/music/MusicQueue.kt:133-145 | the corrected poll plays the head of a non-empty queue and clears the votes; an empty queue is closed |
| Music.RewriteMusicQueue.SkipAsWritten | src/rewrite/kotlin/xyz/nightfury/music/MusicQueue.kt:115-120 | as written, skipping with a track queued ends in a stack overflow and leaves the queue alive; with nothing queued the current track is returned and the queue closes |
| Music.RewriteMusicQueue.Skip | src/rewrite/kotlin/xyz/nightfury/music/MusicQueue.kt:115-120 | skip as evidently intended, over the corrected `poll`: the current track is returned and the next one plays, or the queue closes when there is none |
| Music.RewriteMusicQueue.Shuffle | src/rewrite/kotlin/xyz/nightfury/music/MusicQueue.kt:84-106 | the queue is permuted, only the user's tracks move, and their number is returned |
| Music.RewriteMusicQueue.Clear | src/rewrite/kotlin/xyz/nightfury/music/MusicQueue.kt:171-175 | the queue and the votes are emptied and the queue is closed |
| Music.RewriteMusicQueue.Close | src/rewrite/kotlin/xyz/nightfury/music/MusicQueue.kt:189-196 | the queue is dead afterwards |
| Music.FirstStale | src/main/kotlin/xyz/nightfury/music/MusicQueue.kt:43-44 | the first recorded vote of someone no longer in the channel, or the end when there is none |
| Music.SkipsMainFails | src/main/kotlin/xyz/nightfury/music/MusicQueue.kt:40-46 | the vote loop fails with a concurrent modification exactly when the first stale vote is not the second to last |
| Music.StaleFirstVoteThrows | src/main/kotlin/xyz/nightfury/music/MusicQueue.kt:44 | votes 1, 2, 3 with only 2 and 3 still present make `skips` throw |
| Music.SecondStaleVoteKept | src/main/kotlin/xyz/nightfury/music/MusicQueue.kt:44 | votes 1, 2 with nobody present leave vote 2 counted, as the iteration stops after the removal |
| Music.KeepVotes | src/main/kotlin/xyz/nightfury/music/MusicQueue.kt:40-46 | the corrected vote list keeps exactly the votes of members still present |
| Music.KeepVotesIdempotent | src/main/kotlin/xyz/nightfury/music/MusicQueue.kt:40-46 | dropping stale votes twice is dropping them once |
| Music.KeepVotesWhenNoneStale | src/main/kotlin/xyz/nightfury/music/MusicQueue.kt:40-46 | without a stale vote the written loop and the corrected filter agree and nothing fails |
| Music.MainMusicQueue.constructor | src/main/kotlin/xyz/nightfury/music/MusicQueue.kt:58-63 | a new queue plays the first track, with nothing queued, no votes, and alive |
| Music.MainMusicQueue.SkipsAsWritten | src/main/kotlin/xyz/nightfury/music/MusicQueue.kt:40-46 | the loop over the list removes the first vote of someone no longer in the channel, then ends or fails with a concurrent modification as the list iterator does |
| Music.MainMusicQueue.Skips | src/main/kotlin/xyz/nightfury/music/MusicQueue.kt:40-46 | the corrected count drops every stale vote and counts the rest |
| Music.MainMusicQueue.VoteToSkipAsWritten | src/main/kotlin/xyz/nightfury/music/MusicQueue.kt:110-114 | as written, the vote is appended and the iterating loop of `skips` runs: it removes the first stale vote and either counts or fails with a concurrent modification |
| Music.VoteAfterStaleVoteThrows | src/main/kotlin/xyz/nightfury/music/MusicQueue.kt:40-46 | a vote by user 2 after votes 1, 2, 3 with only users 2 and 3 present throws, where the corrected filter keeps three votes |
| Music.MainMusicQueue.VoteToSkip | src/main/kotlin/xyz/nightfury/music/MusicQueue.kt:110-114 | vote to skip as evidently intended: the vote is appended, then every stale vote is dropped and the rest counted |
| Music.MainMusicQueue.Queue | src/main/kotlin/xyz/nightfury/music/MusicQueue.kt:78-82 | the track joins the end of the queue and its one-based position is reported |
| Music.MainMusicQueue.Next | src/main/kotlin/xyz/nightfury/music/MusicQueue.kt:65-76 | the head of a non-empty queue plays and the votes are cleared; an empty queue is disposed |
| Music.MainMusicQueue.Skip | src/main/kotlin/xyz/nightfury/music/MusicQueue.kt:116-122 | the current track is returned and the next one plays, or the queue is disposed |
| Music.MainMusicQueue.Shuffle | src/main/kotlin/xyz/nightfury/music/MusicQueue.kt:85-106 | the queue is permuted, only the user's tracks move, and their number is returned |
| Music.MainMusicQueue.Dispose | src/main/kotlin/xyz/nightfury/music/MusicQueue.kt:134-143 | the queue is dead afterwards |
| Music.RepeatedVoteCountsTwice | src/main/kotlin/xyz/nightfury/music/MusicQueue.kt:32 | votes are kept in a list, so the same member voting twice counts two votes |
| Clean.RemoveAll | src/main/kotlin/xyz/nightfury/commands/moderator/CleanCmd.kt:117 | removing a word never lengthens the text |
| Clean.RemoveAllAbsent | src/main/kotlin/xyz/nightfury/commands/moderator/CleanCmd.kt:117 | removing a word the text does not contain leaves it as it is |
| Clean.ParseFlags | src/main/kotlin/xyz/nightfury/commands/moderator/CleanCmd.kt:115-143 | the bots flag is set exactly when the text contains `bots` ignoring case, and a text without flags is left as it is |
| Clean.NoFlagWordsNoFlags | src/main/kotlin/xyz/nightfury/commands/moderator/CleanCmd.kt:115-146 | without any flag word no flag is set and the text is unchanged |
| Clean.FirstDigit | src/main/kotlin/xyz/nightfury/commands/moderator/CleanCmd.kt:37 | the first digit of the text, or its end when it has none |
| Clean.DigitRun | src/main/kotlin/xyz/nightfury/commands/moderator/CleanCmd.kt:37 | the run of digits taken is as long as the cap allows and stops only at a non-digit or the end |
| Clean.NumberArgWidth | src/main/kotlin/xyz/nightfury/commands/moderator/CleanCmd.kt:149-151 | a number is found exactly when the text holds a digit |
| Clean.CleanCount | src/main/kotlin/xyz/nightfury/commands/moderator/CleanCmd.kt:148-158 | an accepted count is the default 100 for a filtered clean, or one more than a number from 2 to 1000 |
| Clean.CleanCountErrors | src/main/kotlin/xyz/nightfury/commands/moderator/CleanCmd.kt:148-158 | the count is refused exactly when the number is out of range, or when there is none and nothing filters; without a number a filtered clean takes 100 |
| Clean.FiveDigitsReadAsFour | src/main/kotlin/xyz/nightfury/commands/moderator/CleanCmd.kt:37 | as written, `10000` is read as its first four digits and accepted as 1000 |
| Clean.CleanCountCorrectedRejectsLarge | src/main/kotlin/xyz/nightfury/commands/moderator/CleanCmd.kt:148-158 | the corrected count reads the whole number, so any number above 1000 is refused |
| Clean.NumberArgOfDigits | src/main/kotlin/xyz/nightfury/commands/moderator/CleanCmd.kt:149-151 | a number narrower than the pattern's width reads as its value |
| Clean.WholeRun | src/main/kotlin/xyz/nightfury/commands/moderator/CleanCmd.kt:37 | a digit text narrower than the cap is taken whole |
| Clean.SelectedIff | src/main/kotlin/xyz/nightfury/commands/moderator/CleanCmd.kt:171-185 | a recent message is deleted exactly when some rule holds for it, and setting the bots flag never deselects one |
| Clean.FilesBeforeImages | src/main/kotlin/xyz/nightfury/commands/moderator/CleanCmd.kt:181-183 | a message with attachments is taken by the files rule before the images rule |
| Clean.RemoveMessage | src/main/kotlin/xyz/nightfury/commands/moderator/CleanCmd.kt:165 | removing the call message keeps only messages that were there |
| Clean.RecentCount | src/main/kotlin/xyz/nightfury/commands/moderator/CleanCmd.kt:171-189 | the loop stops at the first message older than the cutoff |
| Clean.SelectAll | src/main/kotlin/xyz/nightfury/commands/moderator/CleanCmd.kt:171-185 | the kept messages are exactly the selected ones, in order |
| Clean.SelectAllAppend | src/main/kotlin/xyz/nightfury/commands/moderator/CleanCmd.kt:171-185 | one more message adds itself when it is selected |
| Clean.FilterMessages | src/main/kotlin/xyz/nightfury/commands/moderator/CleanCmd.kt:171-189 | the loop selects among the messages before the first one past the cutoff, and reports whether it met one |
| Clean.SelectMain | src/main/kotlin/xyz/nightfury/commands/moderator/CleanCmd.kt:163-189 | the call message is dropped, then the recent messages are filtered, clean-all taking each of them |
| Clean.BotsFlagProducesNoList | src/rewrite/kotlin/xyz/nightfury/command/moderator/CleanCommand.kt:124-147 | with a filter the rewrite's `toDelete` is the lambda itself, so no filtered list exists |
| Clean.SelectRewrite | src/rewrite/kotlin/xyz/nightfury/command/moderator/CleanCommand.kt:116-147 | clean-all deletes every retrieved message but the call; otherwise the recent messages are filtered |
| Clean.SelectionsAgreeWhenFiltering | src/rewrite/kotlin/xyz/nightfury/command/moderator/CleanCommand.kt:124-147 | off clean-all the corrected rewrite selects what the main tree does |
| Clean.Range | src/rewrite/kotlin/xyz/nightfury/command/moderator/CleanCommand.kt:158-166 | the positions from one index up to another |
| Clean.RangeSplit | src/rewrite/kotlin/xyz/nightfury/command/moderator/CleanCommand.kt:158-166 | consecutive ranges join into one |
| Clean.CoveredAppend | src/rewrite/kotlin/xyz/nightfury/command/moderator/CleanCommand.kt:158-166 | one more request covers its own positions after the rest |
| Clean.DeleteBatches | src/rewrite/kotlin/xyz/nightfury/command/moderator/CleanCommand.kt:158-166 | the requests cover every position once, in order, each bulk delete takes 2 to 100 messages, a single delete is only the last, and there are as many requests as hundreds started |
| Clean.TotalAppend | src/rewrite/kotlin/xyz/nightfury/command/moderator/CleanCommand.kt:185-212 | the total of the requests adds up |
| Clean.Retrieve | src/rewrite/kotlin/xyz/nightfury/command/moderator/CleanCommand.kt:192-208 | one request yields the next messages of the history, at most as many as asked |
| Clean.GetPast | src/rewrite/kotlin/xyz/nightfury/command/moderator/CleanCommand.kt:185-212 | requests ask for 1 to 100 messages, all but the last for 100, no more than the number in total, a single request below 100, and the list is the newest part of the history; it throws exactly when a batch of many comes back empty at the first request; every batch before the last answered and did not reach past the cutoff; when every request is answered, the history holds the number and no batch reaches past the cutoff, all `number` newest messages are returned |
| Tags.ValidateAccepts | src/main/kotlin/xyz/nightfury/commands/standard/TagCommand.kt:150-164 | The create, create-global and edit validator accepts exactly a name of at most 50 characters that is not a command name, with content present and at most 1900 characters; a too-long content is only reported once the earlier checks pass |
| Tags.OverrideValidationSkipsCommands | src/main/kotlin/xyz/nightfury/commands/standard/TagCommand.kt:563-577 | Override checks the name length and the content the same way, but never refuses a command name, which the common validator would |
| Tags.TagStore.constructor | src/main/kotlin/xyz/nightfury/commands/standard/TagCommand.kt:63-121 | A new store has empty global and local tables |
| Tags.TagStore.Lookup | src/main/kotlin/xyz/nightfury/commands/standard/TagCommand.kt:74-107 | In a guild the local tag shadows the global one; in a direct message only the global table is consulted; a tag with empty content counts as not found |
| Tags.TagStore.Call | src/main/kotlin/xyz/nightfury/commands/standard/TagCommand.kt:63-84 | a command name is refused exactly when it is one; otherwise "not found" exactly when lookup finds nothing for the first word, and a found tag carries lookup's content with the rest of the arguments, trimmed in a guild |
| Tags.TagStore.RawAgreesWithCall | src/main/kotlin/xyz/nightfury/commands/standard/TagCommand.kt:522-541 | `tag raw` finds exactly the content a call for a non-command name runs, and a call for a command name is refused |
| Tags.TagStore.Owner | src/main/kotlin/xyz/nightfury/commands/standard/TagCommand.kt:461-491 | "no such tag" exactly when the row consulted (local in a guild when it exists, global otherwise) is missing or owned by 0; "belongs to the server" exactly for a local row owned by 1; otherwise that row's owner, marked local exactly when the local row exists |
| Tags.TagStore.CreateLocal | src/main/kotlin/xyz/nightfury/commands/standard/TagCommand.kt:147-180 | Refuses with the first validation failure, or when a local or global tag of that name exists, and then changes nothing; otherwise adds exactly the new local row, which the owner query then attributes to the author and lookup finds with its content |
| Tags.TagStore.CreateGlobal | src/main/kotlin/xyz/nightfury/commands/standard/TagCommand.kt:206-237 | Refuses with the first validation failure, or when a global tag exists or, in a guild, a local one; otherwise adds exactly the new global row and leaves the local table alone |
| Tags.TagStore.Delete | src/main/kotlin/xyz/nightfury/commands/standard/TagCommand.kt:254-285 | In a guild a local tag takes priority and is removed only by its owner; otherwise a missing global tag is reported, and the global one is removed only by its owner; every refusal leaves both tables unchanged |
| Tags.TagStore.Edit | src/main/kotlin/xyz/nightfury/commands/standard/TagCommand.kt:304-360 | After the common validation, the local tag (in a guild) or else the global tag gets the new content, only when the author owns it, with its name and owner kept; a missing tag or another owner is refused with both tables unchanged |
| Tags.TagStore.Override | src/main/kotlin/xyz/nightfury/commands/standard/TagCommand.kt:560-600 | The corrected override: after its validation, a local tag or else the global tag of that name is replaced by a server-owned local copy under the original name, refused only when the owner is the guild owner or out of the caller's reach; a missing tag is refused; afterwards the owner query answers "belongs to the server" and lookup answers the new content |
| Tags.DirectMessagesSeeOnlyGlobals | src/main/kotlin/xyz/nightfury/commands/standard/TagCommand.kt:100-107 | Outside a guild the answer does not depend on the local table at all |
| Tags.FindIgnoresCase | src/main/kotlin/xyz/nightfury/commands/standard/TagCommand.kt:74-80 | Two names equal up to case find the same tag |
| Tags.CreatedIsFound | src/main/kotlin/xyz/nightfury/commands/standard/TagCommand.kt:174-178 | Once a local row is added, lookup in that guild answers its content, whatever the global table holds |
| Tags.OverriddenIsServerOwned | src/main/kotlin/xyz/nightfury/commands/standard/TagCommand.kt:596-597 | Once an override row is written, lookup in that guild answers the new content and the row is owned by the server |
| Tags.OverrideOfGlobalRefused | src/main/kotlin/xyz/nightfury/commands/standard/TagCommand.kt:579-581 | As written, overriding a global tag that has no local version is always refused as "does not exist" |
| Tags.OverrideOfNothingProceeds | src/main/kotlin/xyz/nightfury/commands/standard/TagCommand.kt:582-589 | As written, overriding a name no table holds is not refused: it issues an update of a local row named "" owned by 0 |
| Tags.OverrideHierarchyInverted | src/main/kotlin/xyz/nightfury/commands/standard/TagCommand.kt:585-595 | As written the role check refuses a caller who can interact with a non-owner member and lets through one who cannot, the reverse of the intended check; for the guild owner both refuse |
| Profiles.StripSlash | src/main/kotlin/xyz/nightfury/entities/Profile.kt:184 | Drops a trailing slash and nothing else: the result differs from the input exactly when the input ends in "/" |
| Profiles.ParseLink | src/main/kotlin/xyz/nightfury/entities/Profile.kt:179-190 | A link parses exactly when it is the prefix followed by one or more non-whitespace characters, and the name returned rebuilds the link with or without one trailing slash |
| Profiles.ParseLinkOfName | src/main/kotlin/xyz/nightfury/entities/Profile.kt:182-190 | A link made from a slash-free, space-free user name parses back to that name, with or without a trailing slash |
| Profiles.BareSlashIsEmptyName | src/main/kotlin/xyz/nightfury/entities/Profile.kt:182-185 | The GitHub link with only a slash after the prefix parses to the empty name, since the optional slash is absorbed by the greedy group |
| Profiles.TwoSlashesKeepOne | src/main/kotlin/xyz/nightfury/entities/Profile.kt:187-190 | Only one of two trailing slashes is dropped from a Twitch name |
| Profiles.SpaceIsNoLink | src/main/kotlin/xyz/nightfury/entities/Profile.kt:179-185 | A GitHub link with whitespace after the prefix is not parsed |
| Profiles.Updated | database/src/main/kotlin/xyz/nightfury/db/SQLProfiles.kt:69-82 | The profile update changes the row of that user when there is one, keeps every other row, and never adds a row |
| Profiles.ProfileTable.constructor | database/src/main/kotlin/xyz/nightfury/db/SQLProfiles.kt:69-82 | The table holds the rows given |
| Profiles.Profile.FromRow | src/main/kotlin/xyz/nightfury/entities/Profile.kt:97-101 | A profile read from a row holds exactly that row's columns |
| Profiles.Profile.SetTimeZoneId | src/main/kotlin/xyz/nightfury/entities/Profile.kt:43-56 | Setting the time zone id stores the id of the zone it resolves to, none when it resolves to nothing, and writes the whole profile through to its row |
| Profiles.Profile.SetGithub | src/main/kotlin/xyz/nightfury/entities/Profile.kt:58-62 | Sets the field and writes the whole profile through, leaving the stored row equal to the profile |
| Profiles.Profile.SetWebsite | src/main/kotlin/xyz/nightfury/entities/Profile.kt:64-68 | Sets the field and writes the whole profile through, leaving the stored row equal to the profile |
| Profiles.Profile.SetTwitch | src/main/kotlin/xyz/nightfury/entities/Profile.kt:70-74 | Sets the field and writes the whole profile through, leaving the stored row equal to the profile |
| Profiles.Profile.SetTitle | src/main/kotlin/xyz/nightfury/entities/Profile.kt:76-80 | Sets the field and writes the whole profile through, leaving the stored row equal to the profile |
| Profiles.Profile.SetAbout | src/main/kotlin/xyz/nightfury/entities/Profile.kt:82-86 | Sets the field and writes the whole profile through, leaving the stored row equal to the profile |
| Profiles.Profile.SetBirthday | src/main/kotlin/xyz/nightfury/entities/Profile.kt:88-92 | Sets the field and writes the whole profile through, leaving the stored row equal to the profile |
| Profiles.WrittenRowReadsBack | database/src/main/kotlin/xyz/nightfury/db/SQLProfiles.kt:69-82 | A row written for an existing user reads back as written, and writing it again changes nothing |

## Left out

- Discord and JDA: events, REST calls, embeds, reactions and message sending are not modelled. A menu, a command or a client receives what it would read from Discord as parameters: live guild ids, channel members, the message history, whether a channel can talk, and where a member stands in the role hierarchy. Sent messages come back as results.
- SQL and JDBC: each table the core reads or writes is a map or a sequence of rows. This covers tags, profiles, cases, prefixes and levels. Connection failures and `SQLException` are not modelled.
- The settings file and its backup: JSON reading and writing and file copying are outcomes passed in (`Ok`, missing or failed), and the files are snapshots of the settings map. JSON syntax is not modelled.
- Concurrency: the flush executor, the `EventWaiter` timeouts, the scheduled futures' threads and the JDA callback threads are not modelled. A scheduled flush is a counter, and each operation runs to completion on its own.
- Time: the clock is an explicit integer number of seconds, or milliseconds where the source uses them. `OffsetDateTime`, the time-zone table and the birthday date are left out. A time zone is resolved by a function parameter, and a birthday is a plain day number.
- Randomness: `Math.random()` in `shuffle` is a function parameter whose values are reduced into range.
- Text: case folding is ASCII only, where the JVM folds all of Unicode. `Util.ParseInt` accepts only ASCII digits, where `Integer.parseInt` also accepts the other Unicode decimal digits. A Dafny `char` is one Unicode scalar value, so a character outside the Basic Multilingual Plane counts once, where Java counts two UTF-16 units against the 2000-character limits.
- Regexes: the patterns the core uses are written out as predicates: `\s+` splitting, the `TARGET_*` patterns, the profile links and the clean command's number. The clean command's reason, quote, mention and raw-id patterns run before the model starts, which receives what they collected.
- `FixedSizeCache` eviction: the call cache is an unbounded map from message id to the ids sent in reply.
- The rewrite's `CommandMap` and its `CaseInsensitiveHashMap` are not part of this model. The command lookups of the rewrite's client use the same lower-cased index as the main tree's `CommandMap`.
- The rewrite's `filterMassMentions` is not shown in the source, so it is modelled by the main tree's `filterMassMention` (`Format.kt`, line 53).
- `MessageHistory.getPast` of JDA is not shown: retrieving a batch takes the next messages of a history sequence. Its null and failure handling are not modelled.
- The `me.kgustave` command tree repeats the `xyz.nightfury` main tree's `isForCommand`, child split, cooldown keys and errors. One member covers both, and the rows cite the `xyz.nightfury` file.
- Display-only code is not modelled: `toEmbed`, the tag `List` command (a paginated listing of a user's tags), the menus' message and embed building, and log and error texts beyond the ones whose wording is a property.
- Owners and hierarchy: `canInteract` and `isOwner` are the `Standing` parameter of the tag override. Whether a name is a command is a boolean parameter, which is the command index's answer.
- The main tree's `MemberTrack` equality is by object identity, modelled as a track id.
- Integer widths: case numbers, counters and ids are unbounded. The source's `Int` case counter would wrap after 2147483647 cases, and that is not modelled.
- `formatTrackTime` divides by `1000.0` and rounds. The model rounds the integer milliseconds half up, which agrees with `Math.round` on every duration a `long` holds except where the `double` quotient itself is rounded, from about 2^53 milliseconds up.
- `onMessageDelete`, `updateStats`, the Starboard and the remaining event handlers of the clients are outside the core and are not modelled.
- The Paginator builders' `set(index, item)` replacement is not modelled. Their column, items-per-page and bulk-skip checks are.
- Music.PollAsWritten: the unbounded `poll`/`remove` recursion is modelled with a depth bound. `Diverges` stands for the stack overflow, and `PollNeverReturns` proves that no depth ever returns.
- Clean.GetPast: requires `number > 0`, the `require` the source states at the head of `getPast`. The `breakIf` on an empty batch (CleanCommand.kt, lines 116-117) throws an index error when the first batch is empty; the model returns that as `threw`.
- Misc.ModifyIf, Misc.ModifyUnless (misc.kt, lines 88-89): plain definitions without a contract of their own; `OrderedMenus.Table` is built on `ModifyIf` as `OrderedMenu.kt` does.
- Startup.ReadyLoader: only a bot without shard info is modelled. Step 2, the autoshard merge (NightFuryManager.java, lines 218-243), reads the other shards' files and shuts down and returns false on an `IOException`; it is left out, as are the other shards' files.
- Persistence.NightFuryManager.Overwrite: `ReadyLoader` calls the flush directly rather than through the executor, so a successful flush clears the flag while a flush the load's `put` calls scheduled stays pending, and a later `save` can schedule a second one. `Debounced()` is not claimed after `ReadyLoader`.
- Tags.OverrideAsWritten: duplicate local rows are not modelled in the tag table. The insert that the override as written would make for an existing local tag is returned as an `InsertLocal` action rather than applied.

## Findings

| source | as written | input that shows it | evidently intended | confidence | as-written member | corrected member |
|---|---|---|---|---|---|---|
| src/main/java/me/kgustave/nightfury/manager/NightFuryManager.java:71-86 | `setToWrite` is cleared only after both the write and the backup copy succeed | a flush whose write fails, then a `put` | the flag is cleared however the flush ends, so the next save schedules a flush again | not executed | Persistence.StuckAfterFailedWrite | Persistence.RetryAfterFailedWrite |
| src/main/java/me/kgustave/nightfury/manager/NightFuryManager.java:339-345 | the RoleMe check removes stale ids from the array it is iterating with a for-each | RoleMe ids [1, 2, 3] where role 1 no longer exists | every stale RoleMe id is dropped and nothing is thrown | not executed | Startup.StaleFirstOfThreeThrows | Startup.ScrubCorrectedIdsLive |
| src/main/java/me/kgustave/nightfury/manager/NightFuryManager.java:347-353 | the ColorMe loop calls `removeRoleMe` | a stale ColorMe id that is not also a RoleMe id | the stale ColorMe id is removed | not executed | Startup.StaleColorMeSurvives | Startup.ScrubCorrected |
| src/main/java/me/kgustave/nightfury/manager/NightFuryManager.java:204-211 | step 1 of `readyLoader` selects bot farms where the developer IS a member | a guild with 20 fake members and the developer | the same guilds as the load filter: bot farms without the developer | not executed | Startup.PurgePicksDeveloperGuild | Startup.PurgeCorrectedAgrees |
| src/rewrite/kotlin/xyz/nightfury/util/menus/Paginator.kt:164-174 | at an end page of a menu that does not wrap, the left or right text falls through to `toInt` | typing the left text on page 1 of a 3-page menu | the text leaves the page where it is | not executed | Menus.TextAtFirstPageThrows | Menus.TextTargetCorrectedInRange |
| src/rewrite/kotlin/xyz/nightfury/util/menus/OrderedMenu.kt:184-195 | the reaction filter accepts `num <= choices.size` | the fourth keycap on a menu of three choices | only the labels of the choices shown are accepted | not executed | OrderedMenus.ReactionPastLastChoice | OrderedMenus.CorrectedReactionPicksLabel |
| src/rewrite/kotlin/xyz/nightfury/util/menus/OrderedMenu.kt:152-160 | typed input indexes `choices[num]` with the 1-based number | typing "1" runs the second choice; typing "3" of three indexes past the list | typing a label runs the choice with that label | not executed | OrderedMenus.TypedNumberOffByOne | OrderedMenus.CorrectedTypedPicksLabel |
| src/rewrite/kotlin/xyz/nightfury/command/CommandContext.kt:187-191 | with one part, `replyMessage` sends the original text instead of the filtered part | replying "@everyone" | the filtered part is sent, so the reply does not ping | not executed | Splitter.SingleReplyPings | Splitter.ReplyMessageCorrected |
| src/main/kotlin/xyz/nightfury/resources/CommandMap.kt:119-122 | `containsAllNames` does not lower-case the names | `["PING"]` with a command `ping` | the check ignores case like `containsName` | not executed | CommandIndex.ContainsAllNamesIsCaseSensitive | CommandIndex.CommandMap.CorrectedContainsAllNames |
| src/main/kotlin/xyz/nightfury/Commands.kt:211-218 | with no scope suffix the notice puts `!` where the suffix would go and then a second `!` | a per-user cooldown | one `!`, with a suffix only when there is one | not executed | Commands.UserCooldownNoticeDoubled | Commands.CooldownNotice |
| src/rewrite/kotlin/xyz/nightfury/command/Command.kt:243-248 | `Group.compareTo` answers 1 whenever the receiver is the standard group | the standard group compared with itself | an order that is reflexive, antisymmetric and transitive | not executed | Commands.GroupCompareBroken | Commands.GroupCompareCorrectedIsOrder |
| src/main/kotlin/me/kgustave/nightfury/utils/FormatUtils.kt:56-91 | the text-channel, voice-channel and role listings end with "other member" | five matching roles | the overflow line names the kind that was listed | not executed | Format.ChannelsAndRolesOverflowAsMembers | Format.MultipleFoundNamesKind |
| src/main/kotlin/xyz/nightfury/music/MusicQueue.kt:40-46 | `skips` removes stale votes from the list it is iterating | votes [1, 2, 3] after user 1 left | stale votes are dropped and the rest counted | not executed | Music.StaleFirstVoteThrows | Music.KeepVotesWhenNoneStale |
| src/rewrite/kotlin/xyz/nightfury/music/MusicQueue.kt:130-145 | `poll` calls `remove`, which is overridden to call `poll` again | polling a queue of one track | `poll` dequeues the head | not executed | Music.PollNeverReturns | Music.RewriteMusicQueue.Poll |
| src/main/kotlin/xyz/nightfury/commands/moderator/CleanCmd.kt:148-158 | the count is the first run of one to four digits, so a longer number is read by its first four | "10000" | a number out of range is refused | not executed | Clean.FiveDigitsReadAsFour | Clean.CleanCountCorrectedRejectsLarge |
| src/rewrite/kotlin/xyz/nightfury/command/moderator/CleanCommand.kt:124-147 | the non-clean-all branch is a labelled lambda literal that is never invoked | the `bots` flag | the filter loop selects the messages to delete | not executed | Clean.BotsFlagProducesNoList | Clean.SelectRewrite |
| src/main/kotlin/xyz/nightfury/commands/standard/TagCommand.kt:579-598 | override refuses a global tag without a local version as missing, and its role check is inverted | overriding a global tag in a guild without a local copy | a global or local tag is replaced by a server-owned local copy unless its owner is out of the caller's reach | not executed | Tags.OverrideOfGlobalRefused | Tags.TagStore.Override |
