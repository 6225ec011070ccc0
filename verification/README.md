# ai_memory: a verified model of the memory plugin's core

The ai_memory plugin gives a chat bot a long-term memory. It stores short
texts per conversation ("session"), each with an importance from 1 to 5.
Before each LLM call it picks the memories relevant to the user's message and
appends them to the system prompt. This project models three parts of it in
Dafny and proves their properties:

- **The per-session store** (`MemoryStore`, memory_manager.py). It is a class
  whose field maps a session id to its bucket of records. It has these
  operations:
  - capacity-bounded insertion: a full bucket is sorted in place by
    importance and its head is popped before the append;
  - positional removal, clearing, and an importance update;
  - a case-insensitive search, a view sorted by importance, and statistics.

  Reads go through `get_memories`, so they see nothing while memory management
  is off. Removal, clearing and the importance update work on the stored
  buckets directly.
- **The recall pipeline** (`Recall`, main.py `on_llm_request`):
  - a lexical score per memory;
  - a stable sort by score;
  - the first `recall_top_k` entries as rerank candidates;
  - a parser for the reranker's reply;
  - a two-level fallback over the whole ranking;
  - the fixed-layout block appended to the system prompt.

  The same file's small decision rules are modelled too:
  - session-id resolution (`Session`);
  - the identity tags kept by `/memory edit`;
  - `/memory add`, `/memory update` and the `save_memory` tool;
  - the allowed-groups list (`Commands`).
- **The configuration validator** (`Config`, config_manager.py). Six keys are
  checked by type and range. A rejected value is replaced by the default.
  Unknown keys are dropped before the update is merged. Python's `bool`
  passes `isinstance(x, int)`, and the model keeps that.

Supporting modules:
- `StableSort` defines Python's stable sort by an integer key. It proves that
  the result is sorted, is a permutation of the input, is stable, and is the
  only arrangement with those properties.
- `Text` gives the string operations (`lower`, `isalnum`, `strip`, `in`,
  `split`, `join`, `split(p)[0]`, `re.findall(r'\d+')`) with their
  properties.
- `Wrappers` holds `Option`.

Inputs the plugin takes from its environment are parameters of the model:
- the loaded JSON data;
- the current time, both as the timestamp strings written and as the age of
  a stored timestamp in seconds;
- the reranker's reply text.

## Model

| member | source | states |
|---|---|---|
| MemoryStore.Clamp | memory_manager.py:66 | the stored importance is always in 1..5, equals the request inside that range and is 1 below it and 5 above it |
| MemoryStore.MakeRoom | memory_manager.py:60-62 | below capacity the bucket is unchanged; at capacity exactly one record of minimum importance leaves, and the rest are in ascending importance |
| MemoryStore.MemoryManager.constructor | memory_manager.py:22-26 | the store starts from the loaded data with the configured switch and capacity |
| MemoryStore.MemoryManager.AddMemory | memory_manager.py:49-72 | with management off nothing changes and the result is false; otherwise only the session's bucket changes, becoming the bucket after eviction plus one new record with clamped importance and id `<session>_<stamp>` |
| MemoryStore.AddBelowCapacity | memory_manager.py:54-71 | below capacity the new record is appended at the end and earlier records keep their order |
| MemoryStore.EvictsFirstMinimum | memory_manager.py:60-62 | at capacity exactly one record is removed, the earliest of minimum importance; the survivors are the stable ascending sort of the rest, so the length does not change |
| MemoryStore.EvictionExample | memory_manager.py:60-62 | with importances 1, 1, 3, 5 at capacity 4 the first record of importance 1 is the one evicted |
| MemoryStore.EvictionReorders | memory_manager.py:60-62 | eviction leaves the survivors reordered by importance, not in insertion order |
| MemoryStore.MakeRoomFromBucket | memory_manager.py:60-62 | every record left after making room was already in the bucket |
| MemoryStore.AddKeepsClamped | memory_manager.py:60-71 | adding to a bucket whose importances are all in 1..5 keeps them all in 1..5 |
| MemoryStore.MemoryManager.DisabledReadsNothing | memory_manager.py:76-77 | while management is off the plain, sorted and searched views are all empty |
| MemoryStore.MemoryManager.GetMemories | memory_manager.py:74-79 | the stored bucket while management is on and the session exists; the empty list otherwise |
| MemoryStore.MemoryManager.GetMemoriesSorted | memory_manager.py:81-84 | the sorted view is a permutation of the bucket in non-increasing importance |
| MemoryStore.MemoryManager.SortedViewStable | memory_manager.py:84 | records of equal importance keep their insertion order in the sorted view |
| MemoryStore.MemoryManager.SearchMemories | memory_manager.py:116-122 | an empty keyword returns the bucket; otherwise the result keeps bucket order and holds exactly the records whose lower-cased content contains the lower-cased keyword, each as many times as the bucket holds it |
| MemoryStore.Matching | memory_manager.py:122 | the filter keeps order and keeps a record if and only if its lower-cased content contains the keyword; a kept record keeps all its copies and a dropped one none |
| MemoryStore.MemoryManager.RemoveMemory | memory_manager.py:86-95 | a missing session or an index outside the bucket returns None and changes nothing; otherwise it returns the record at the index and the bucket loses exactly that position (an emptied bucket stays) |
| MemoryStore.MemoryManager.ClearMemories | memory_manager.py:97-102 | returns whether the session existed; afterwards it is absent and every other session is untouched |
| MemoryStore.MemoryManager.UpdateMemoryImportance | memory_manager.py:104-114 | a missing session or a bad index returns false and changes nothing; otherwise only that record's importance changes, to the clamped value |
| MemoryStore.MemoryManager.GetMemoryStats | memory_manager.py:124-146 | an empty view gives zeros and an empty histogram; otherwise it gives the count, the importance sum and, for each of 1..5, the number of records with that importance |
| MemoryStore.DistributionTotal | memory_manager.py:138-140 | for importances in 1..5 the histogram counts add up to the total |
| StableSort.SortBy | memory_manager.py:61 | `list.sort(key=...)`: the result is ordered by key and is a permutation of the input |
| StableSort.SortByStable | memory_manager.py:61 | the sort keeps input order among equal keys |
| StableSort.SortByCharacterized | memory_manager.py:61 | any ordered arrangement that keeps input order among equal keys is this sort's result, so it is Python's sort |
| Config.Checked | config_manager.py:28-78 | a known key keeps its value when the value passes the key's rule and takes the fallback otherwise; an unknown key's value passes through |
| Config.ValidateKey | config_manager.py:28-78 | one key's check adds only that key, and only when the update has it, with the update's value when it passes the rule and the fallback otherwise |
| Config.ValidateConfig | config_manager.py:24-80 | the output holds exactly the update's keys among the six known ones; each value is the update's value when it passes its rule (`max_memories` an int in 1..100, `importance_threshold` an int in 1..5, the three switches bools, `allowed_groups` a str) and the default otherwise |
| Config.ValidateIdempotent | config_manager.py:24-80 | validating an already validated configuration changes nothing |
| Config.ValidatedIsValid | config_manager.py:24-80 | when the defaults meet their own rules, every validated value meets its rule |
| Config.TrueIsAValidMaxMemories | config_manager.py:31 | `max_memories = True` passes the int check and is kept |
| Config.MergeChangesOnlyValidatedKeys | config_manager.py:13-22 | an update adds only known keys it mentions; every other key keeps its presence and value |
| Config.UpdateCannotTouchPluginKeys | config_manager.py:13-22 | `rerank_provider_id`, `recall_top_k`, `inject_top_k`, `enable_global_memory` and the injection texts are never changed by an update |
| Config.MergeIdempotent | config_manager.py:13-22 | applying the same update twice equals applying it once |
| Config.ConfigManager.constructor | config_manager.py:9-11 | the current configuration starts equal to the defaults |
| Config.ConfigManager.UpdateConfig | config_manager.py:13-22 | the current configuration becomes the old one overwritten by the validated update, and is returned |
| Config.ConfigManager.GetConfig | config_manager.py:82-84 | returns the current configuration as a value, so no caller can change it through the result |
| Config.ConfigManager.GetConfigValue | config_manager.py:86-88 | the stored value when the key is present, the caller's default otherwise |
| Config.ConfigManager.ResetToDefault | config_manager.py:90-94 | the current configuration is exactly the defaults again and is returned |
| Session.SessionId | main.py:52-59 | a group event in global mode resolves to "global"; any other event resolves to `unified_msg_origin` when present, else to the session id |
| Session.GlobalExactly | main.py:52-59 | if the host never names a conversation "global", the result is "global" exactly for group events in global mode |
| Session.GroupsShareOneBucket | main.py:54-56 | in global mode all group chats share one bucket |
| Session.PrivateChatsIgnoreGlobalMode | main.py:54-59 | the global switch never changes a private chat's session |
| Recall.CleanQuery | main.py:78 | the cleaned query is no longer than the message and holds only alphanumeric, non-upper-case characters |
| Recall.CleanQueryConcat | main.py:78 | cleaning works character by character: the cleaned join of two texts is the join of their cleaned forms, in order |
| Recall.CleanQueryKeepsAlnum | main.py:78 | every alphanumeric character of the query is kept, lower-cased |
| Recall.CleanQueryDropsOthers | main.py:78 | a query with no alphanumeric character cleans to the empty string |
| Recall.MatchedBigramsIff | main.py:89-93 | a matched bigram is exactly a two-character piece of the cleaned query that also occurs in the content |
| Recall.CollectBigrams | main.py:89-93 | the bigram loop collects exactly the matched bigrams |
| Recall.FortyMeansContainment | main.py:84-96 | the match score is 40 exactly when the query has two or more characters and either text contains the other |
| Recall.OneCharacterQuery | main.py:94-95 | a one-character query scores 25 when the content holds that character and 0 otherwise |
| Recall.EmptyContentScoresForty | main.py:86-87 | an empty content is contained in every query of two or more characters, so it scores 40 |
| Recall.ScoreExample | main.py:78-105 | "AB!" against "xaby" of importance 3 written an hour ago scores 40 + 3 + 10 |
| Recall.TimeBoost | main.py:97-103 | the bonus is 10 exactly when the age is known and under 86400 seconds, else 0 |
| Recall.MatchScore | main.py:84-96 | the lexical score is 0 for an empty query, 0 or 25 for one character, 40 or a multiple of 15 otherwise; it is 25 exactly for a one-character query found in the content |
| Recall.Score | main.py:80-105 | a score is at least the importance; containment of a query of two or more characters adds at least 40 and a known age under one day adds at least 10; with neither a lexical match nor freshness it is the importance alone |
| Recall.ScoreMemory | main.py:80-105 | the loop body computes the score: match score plus importance plus freshness bonus |
| Recall.ScoreAll | main.py:79-105 | the scoring loop gives one (score, memory) entry per memory, in bucket order |
| Recall.ScoresPositive | main.py:82-105 | with importances in 1..5 every score is at least 1 |
| Recall.Ranked | main.py:107 | the ranking is a permutation of the scored list with scores non-increasing |
| Recall.RankedStable | main.py:107 | entries of equal score keep bucket order in the ranking |
| Recall.PySliceTo | main.py:109 | `s[:k]` is a prefix of `s` of length `min(k, len)` for `k >= 0`, and of length `len + k` (at least 0) for negative `k` |
| Recall.Candidates | main.py:108-109 | the candidates are exactly the memories of the first `recall_top_k` ranked entries |
| Recall.RerankIds | main.py:134-135 | a missing or empty reply, or one containing "None", gives no indices; otherwise it gives every digit run of the reply |
| Recall.PickCandidates | main.py:136-139 | picks at most one candidate per index, and picks only candidates |
| Recall.PickInRange | main.py:136-139 | when every index is in range, the pick is exactly `candidates[i]` for each index in order |
| Recall.PickOutOfRange | main.py:138 | out-of-range indices pick nothing |
| Recall.ParseRerank | main.py:134-139 | the reply-parsing loop returns the picks of the reply's indices |
| Recall.RerankRoundTrip | main.py:129-139 | a reply in the requested "0,2" format picks exactly the listed candidates in the listed order |
| Recall.NoneVetoes | main.py:134 | a reply mentioning "None" picks nothing, whatever digits it holds |
| Recall.RerankKeepsDuplicates | main.py:135-139 | "0,0,0,1" picks the first candidate three times, then the second |
| Recall.RerankFreeFormReply | main.py:135-139 | any non-digit separates indices and out-of-range indices are dropped: "2, 0 and 7" over three candidates picks the third and the first |
| Recall.RerankSelection | main.py:119 | reranking selects nothing without a reranker id or with at most one candidate; otherwise it selects exactly the candidates the reply's indices pick |
| Recall.Above | main.py:146 | the entries scoring at least the threshold, in ranking order; an entry is kept exactly when it scores at least the threshold |
| Recall.AboveCounts | main.py:146 | a kept entry keeps all its copies and a dropped one keeps none |
| Recall.AboveIsPrefix | main.py:144-150 | in a ranking the entries above a threshold form a prefix, and every later entry scores below it |
| Recall.FallbackShape | main.py:144-150 | the fallback is a prefix of the whole ranking. When some entry scores at least 15, it holds `min(inject_top_k, #strong)` entries (for a negative `inject_top_k`, `max(0, #strong + inject_top_k)`), all scoring at least 15. Otherwise it holds one entry exactly when the best entry scores above 0, and none otherwise |
| Recall.Fallback | main.py:144-150 | the fallback is no longer than the ranking, and each of its memories is that of a ranked entry with a positive score |
| Recall.FallbackNonEmpty | main.py:144-150 | a non-empty ranking of positive scores with `inject_top_k` at least 1 always yields a fallback |
| Recall.Selection | main.py:107-150 | the reranker's picks when there are any, else the fallback; either way every selected memory is that of an entry of the ranking |
| Recall.Recalled | main.py:73-150 | every memory selected for injection comes from the session's own bucket |
| Recall.RecalledNonEmpty | main.py:143-150 | a non-empty bucket with importances in 1..5 and `inject_top_k` at least 1 always yields something to inject |
| Recall.AppendInjection | main.py:166-167 | both branches give the old prompt followed by the block |
| Recall.MemoryLine | main.py:155 | the line starts with `- [时间:`, ends with the content, and holds a line break only when the timestamp or the content does |
| Recall.InjectionBlock | main.py:161-164 | the block opens with a blank line and closes with 46 `=` and a blank line |
| Recall.LinesReadBack | main.py:155 | memory lines without line breaks can be read back one by one from the joined context |
| Recall.Request.constructor | main.py:62 | the request carries the given system prompt |
| Recall.OnLlmRequest | main.py:61-167 | nothing changes when injection is off, the message is empty, the bucket is empty or nothing is selected; otherwise the system prompt becomes the old prompt followed by the block `\n\n`, 15 `=`, the title, 15 `=`, the instruction, one `- [时间:ts] content` line per selected memory and 46 `=` |
| Commands.EditKeepsTag | main.py:350-353 | a text of the form `[...提到]: x` whose tag has no `]` keeps its tag on every edit, and only the text after it changes |
| Commands.EditedContent | main.py:350-357 | the edited text always ends with `]: ` followed by exactly the new content |
| Commands.EditKeepsSenderTag | main.py:350-357 | a memory written by `/memory add` keeps its author's tag whoever edits it |
| Commands.EditKeepsToolTag | main.py:350-353 | a memory written by the `save_memory` tool keeps its tag whoever edits it |
| Commands.EditTagsUntagged | main.py:354-357 | an untagged memory is tagged with the editor's name and id |
| Commands.AddCommand | main.py:316-334 | empty stripped content is refused with no change; with management off nothing is stored; otherwise the stripped content tagged with sender name and id is added with importance 3 |
| Commands.EditMemory | main.py:336-360 | a 1-based index outside the visible bucket, or empty stripped content, is refused with no change; otherwise only that record's content changes, to the tag-preserving edit |
| Commands.UpdateImportanceCommand | main.py:383-394 | an importance outside 1..5 is refused before the store is asked; then a bad index is refused with no change; otherwise only that record's importance changes, to exactly the value given |
| Commands.ListedNumberIsNotCommandIndex | main.py:210-219 | `/memory list` numbers the importance-sorted view while `edit`, `remove` and `update` count stored positions, so after storing importance 3 then 5 the listed number 1 is the second record but command index 1 is the first |
| Commands.SaveGate | main.py:436-440 | the tool goes on to save exactly when auto-save is on and the importance is at least the threshold |
| Commands.SavedMeetsThreshold | main.py:436-440 | with a threshold in 1..5 every saved record's stored importance is at least the threshold |
| Commands.SaveMemoryTool | main.py:433-449 | a refused request changes nothing; with management off nothing is stored; otherwise the content tagged with the sender's name is added |
| Commands.AllowedGroups | main.py:205 | the listed groups are non-empty, carry no surrounding blanks and contain no comma; a text is listed exactly when it is non-empty and is the strip of some comma-separated piece of the setting |
| Commands.AllowedGroupsOfPadded | main.py:205 | a setting such as "123, 456", whose pieces have blanks around non-blank ids, lists exactly the stripped ids in order |
| Commands.Refused | main.py:203-207 | a group chat is refused exactly when the setting is not blank and no comma-separated piece strips to the group id; private chats are never refused |
| Commands.AllowedGroupsRoundTrip | main.py:205 | reading back a comma-joined list of clean group ids gives the same list |
| Commands.SeparatorsOnlyRefuseAll | main.py:203-207 | a setting of only commas and blanks (such as ",") is not blank yet lists nothing, so every group chat is refused |
| Commands.ListedGroupsAdmitted | main.py:203-207 | a group is refused under a comma-joined list exactly when the list is not blank and does not hold the group |

## Left out

- Loading and saving the JSON file, and creating the data directory (memory_manager.py:28-47, main.py:24-28). The constructor takes the loaded data. The `save_memories` calls after each command are not modelled.
- The clock. Timestamps and the id stamp are parameters of `AddMemory`. `strptime` and the age computation are replaced by a function from a timestamp string to its age in whole seconds, or `None` when it does not parse.
- The reranker call and its prompt text (main.py:120-133). The reply is an `Option<string>` input. A missing provider, an exception or an empty response is `None`.
- `avg_importance`, a float division rounded to two places. The statistics give the sum and the count instead.
- User-facing reply texts, star rendering, the help text and `get_config_summary`. Commands return an outcome value instead.
- The listing commands (`list`, `list_all`, `list_group`), the search and stats commands and the read-only LLM tools. They only format the store's views, which are modelled.
- The `remove` and `clear` commands. They are the store's `RemoveMemory` and `ClearMemories` behind the same 1-based index shift as `edit`.
- Wiring configuration into the store: `on_config_update`, `reset_config` and the constructor's default dictionary. The store's switch and capacity are fields set at construction.
- Recall.RecallConfig: main.py reads these settings straight from the configuration with `.get(key, default)`, without validation. The model takes them already typed. The truthiness of a non-bool value is not modelled.
- MemoryStore.Memory: a record always has an importance, so `m.get('importance', 1)` always finds one.
- MemoryStore.MemoryManager.AddMemory: requires that a bucket at capacity is non-empty. The source's `pop(0)` raises `IndexError` on an empty bucket when `max_memories` is 0 or less, and the model does not represent that exception.
- Recall.CleanQuery: `str.lower` and `str.isalnum` are modelled as ASCII case mapping plus "every non-ASCII character is alphanumeric". This covers CJK text but not non-ASCII letters with case or non-ASCII punctuation. `\d` is ASCII digits only.
- Aliasing: `get_memories` returns the stored list itself, and `edit_memory` writes through it. The model writes the store's map directly. Any other mutation by a caller of a returned list is not represented.
- The in-place `scored_memories.sort` in `on_llm_request` is modelled as the value-level `StableSort.SortBy`, which is proved equal to any stable sort.
- Async handlers, decorators, logging and admin-role checks. Every handler runs sequentially.
