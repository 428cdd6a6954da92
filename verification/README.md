# Layered configuration merging, modelled in Dafny

This project models the in-memory core of the `configuration` package, a
Python library that merges layers of nested dictionaries into one
configuration tree.

- **Base `Configuration`** (`python/configuration/configuration.py`, and its
  byte-identical copy `python/configuration.py`):
  - a tree of string-keyed dictionaries, addressed by separator-joined paths;
  - `merge` overrides leaves recursively and keeps every key a layer does not
    mention;
  - `_sources` records, for each leaf path, the identifier of the merge that
    wrote it. The identifier is the caller's `name`, or the merge ordinal when
    the name is falsy;
  - `get`, `set`, `source` and `sources` read and write that state.
  
  Rows below that cite one copy of the file hold for the other too (same
  lines).
- **Simple `Configuration`** (`python/configuration/simple_configuration.py`):
  - the same tree and override, with the merge order kept as a list
    (`merge_count`, `merge_order`);
  - provenance under a dictionary is purged when a leaf replaces that
    dictionary;
  - for a key that is not recorded, `source` gives the identifier of every
    recorded path that starts with the key as a string.
- **`AdvancedConfiguration`** (`python/configuration/advanced_configuration.py`),
  a small rule interpreter on top of the base class:
  - each key of a layer is parsed as `[modifiers][action][#]word` with a
    regular expression compiled from a symbol registry;
  - the keys of a layer are sorted by a rank built from an ordering list;
  - each key then passes through its modifier gates and its action (`+`,
    `-`, or a registered callable). It is written or merged recursively,
    its lock is staged, and its provenance list is appended to.
  - locked paths refuse both `merge` and `set`; staged locks become active
    once the merge completes.

Module layout:

| module | models |
|---|---|
| `Values` | the value tree, the exceptions, truthiness and `name or count` |
| `Paths` | `str.split`/`join`/`startswith` on key paths |
| `Tree` | `_walk`/`get`/`set` and the plain recursive override the base `_merge` performs |
| `Base`, `Simple` | the two base classes, as Dafny classes whose methods update their fields |
| `Grammar` | the key pattern of `_compile`/`_separate`, stated over characters |
| `Order` | `_sort_order` and the order `sorted` produces |
| `Actions` | `_add`, `_subtract`, `_exists`, `_not_exists` and the registry entries |
| `AdvancedMerge` | one advanced `_merge` as a function of its inputs, and what it may change |
| `Advanced` | the `AdvancedConfiguration` class; its imperative merge is proved to compute `AdvancedMerge`'s outcome |
| `AdvancedPlain` | the advanced merge of a layer without symbols, proved to be the base override |

The following are kept as the code has them where the code differs from its
comments:
- `+` on a missing (`None`) value is a TypeError, although the module
  docstring says it sets the value.
- During a merge, the lock check compares the exact key path, while `set`
  and `is_locked` check every segment prefix.
- Staged locks survive a merge that raises and are committed by the next
  merge that completes.
- `index_order=0` appends, because of `index_order or len(...)`.
- A modifier or action symbol missing from the ordering makes `list.index`
  raise ValueError, which the `except IndexError` clauses do not catch.
- In the base class, `from_dicts` pairs dictionaries with names by `zip`,
  so without names it merges nothing. The simple class uses `zip_longest`.
- Python 3 semantics throughout. For example, a layer holding both `x` and
  `#x` makes the sort compare `None` with `'#'`, which raises TypeError
  (Python 2 would order them).

## Model

| member | source | states |
|---|---|---|
| Values.Identifier | python/configuration/configuration.py:107 | the recorded identifier is the name when it is truthy, and the merge ordinal otherwise |
| Values.Truthy | python/configuration/configuration.py:107 | falsy exactly on `None`, `False`, `0`, `""`, `[]` and `{}` |
| Values.GetOrNone | python/configuration/advanced_configuration.py:271 | `dict.get`: a present key gives its value, a missing key reads as `None` |
| Paths.Split | python/configuration/configuration.py:167 | `str.split` never returns an empty list, no part holds the separator, and joining the parts gives the key back |
| Paths.JoinPath | python/configuration/simple_configuration.py:266 | a key path is the key itself at the top level; below that it is the parent path, the separator and the key, so it extends the parent path |
| Paths.SplitJoin | python/configuration/advanced_configuration.py:236-238 | splitting inverts joining when no part holds the separator |
| Paths.SplitNoSep | python/configuration/configuration.py:167 | a key without the separator splits into itself |
| Paths.SplitPrefix | python/configuration/advanced_configuration.py:236 | splitting `a + sep + b` with no separator in `a` puts `a` first, then the parts of `b` |
| Paths.SplitAppend | python/configuration/advanced_configuration.py:236 | the parts of `k + sep + rest` are the parts of `k` followed by the parts of `rest` |
| Paths.JoinPrefixIsPrefix | python/configuration/advanced_configuration.py:236-241 | joining the first n segments of a key gives a string prefix of the key |
| Paths.JoinTake | python/configuration/advanced_configuration.py:238-241 | the join of a prefix of a parts list is a string prefix of the join of the whole list |
| Tree.Walk | python/configuration/configuration.py:159-173 | `_walk` returns exactly the container reached by the leading segments. It raises KeyError at a missing segment and TypeError at a non-dictionary. |
| Tree.Descend | python/configuration/configuration.py:167-173 | an empty path gives the node itself, and walking fails only with KeyError or TypeError |
| Tree.Get | python/configuration/configuration.py:87-96 | `get` returns exactly the value at the whole path, with the same errors |
| Tree.DescendSplit | python/configuration/configuration.py:95-96 | reading a whole path is walking its leading segments, then indexing the container with the last one |
| Tree.KeyErrorIffMissingSegment | python/configuration/simple_configuration.py:288-294 | reading a path raises KeyError exactly when some dictionary on the way lacks the next segment |
| Tree.MissingAtShift | python/configuration/simple_configuration.py:291-292 | a missing segment further down is missing in the child the first segment leads to |
| Tree.SetAt | python/configuration/configuration.py:110-119 | `set` succeeds only on a dictionary, and the top-level keys gain at most the first segment |
| Tree.SetAtFailsLikeWalk | python/configuration/configuration.py:118-119 | `set` fails exactly when `_walk` fails (with `_walk`'s error) or reaches a non-dictionary (TypeError) |
| Tree.GetAfterSet | python/configuration/simple_configuration.py:211-220 | after a successful `set(k, v)`, `get(k)` returns `v` |
| Tree.SetOnlyWritesItsSlot | python/configuration/simple_configuration.py:219-220 | `set(k, v)` leaves every path that is neither a prefix nor an extension of `k` as it was; a path below `k` reads inside `v` |
| Tree.MergeEntry | python/configuration/configuration.py:150-157 | a slot the layer fills with a dictionary holds a dictionary afterwards, unless an empty layer dictionary met an existing scalar |
| Tree.MergeTree | python/configuration/configuration.py:150-157 | after the override the keys are the old keys plus the layer's. Keys the layer does not mention keep their values, and the layer's top-level leaves overwrite. A slot the layer fills with a dictionary holds a dictionary, unless an empty layer dictionary met an existing scalar. |
| Tree.MergeTreeReadsLayerLeaf | python/configuration/configuration.py:150-157 | every leaf of the layer, at any depth, reads the layer's value after the override |
| Tree.MergeTreeKeepsUnreached | python/configuration/configuration.py:150-157 | a path the layer has no key for, at any depth, reads after the override what it read before, value or error alike |
| Tree.MergeTreeGroupExample | python/configuration/configuration.py:30-40 | `{'group': {'two': 3}}` over `{'group': {'one': 1, 'two': 2}}` gives `group.two = 3` and keeps `group.one = 1` |
| Tree.MergeTreeIdempotent | python/configuration/configuration.py:143-157 | merging the same layer twice is the same as merging it once |
| Tree.MergeEntryIdempotent | python/configuration/configuration.py:152-154 | the per-slot half of idempotence, for a nested dictionary |
| Tree.ReplacedAreLeaves | python/configuration/simple_configuration.py:271-278 | every path where a leaf replaces a dictionary is a leaf path the merge writes |
| Tree.KeyReplacedAreLeaves | python/configuration/simple_configuration.py:271-278 | the same for one key of the layer |
| Tree.Restrict | python/configuration/configuration.py:150 | the layer restricted to the keys a loop has visited keeps their values |
| Tree.LeafSources | python/configuration/configuration.py:157 | the provenance a layer writes covers exactly its leaf paths, each mapped to the merge identifier |
| Tree.LeafPathsRestrictAdd | python/configuration/configuration.py:150-157 | visiting one more key adds exactly that key's leaf paths |
| Tree.ReplacedRestrictAdd | python/configuration/simple_configuration.py:265-278 | visiting one more key adds exactly that key's replaced paths |
| Tree.EmptyWritesNothing | python/configuration/simple_configuration.py:265-278 | an empty layer writes nothing, and nothing is replaced in an empty tree |
| Tree.MergedStep | python/configuration/configuration.py:150-157 | one more turn of `_merge`'s loop sets that key's slot to its merged value and keeps every other slot |
| Tree.MergedAll | python/configuration/configuration.py:150 | once every key has been visited, the tree is the override `MergeTree` |
| Tree.MergeTreeAt | python/configuration/configuration.py:150-157 | every slot of the override holds its merged value |
| Tree.MergeAll | python/configuration/configuration.py:195-197 | merging no layers leaves the tree as it was |
| Tree.MergeAllSnoc | python/configuration/configuration.py:196-197 | merging the layers up to `i`, then layer `i`, is merging the layers up to `i + 1` |
| Base.SourcesAfterSnoc | python/configuration.py:196-197 | the provenance after `i + 1` merges is the provenance after `i` merges overridden by the leaves of layer `i` under its identifier |
| Base.Configuration.constructor | python/configuration/configuration.py:46-58 | an empty configuration. A non-empty seed is merged under `name or 0` and counted as one merge. |
| Base.Configuration.Get | python/configuration/configuration.py:87-96 | `get` returns the value at the split key, or KeyError/TypeError as walking the path gives |
| Base.Configuration.Set | python/configuration/configuration.py:110-119 | `set` writes the slot that `SetAt` describes, or fails with `_walk`'s error and changes nothing |
| Base.Configuration.Merge | python/configuration/configuration.py:98-108 | the tree becomes the override, the layer's leaf paths record `name or _count`, and `_count` grows by exactly one |
| Base.Configuration.MergeInto | python/configuration.py:143-157 | `_merge` yields the override. It records the identifier for exactly the leaf paths it writes and leaves every other provenance entry untouched. |
| Base.Configuration.MergeNext | python/configuration/configuration.py:150-157 | one turn of `_merge`'s loop keeps the loop invariant for one more visited key |
| Base.Configuration.MergeKey | python/configuration.py:151-157 | one key: its slot takes the merged value, and its leaves are attributed to the identifier |
| Base.Configuration.Source | python/configuration.py:121-128 | `source` is an exact lookup: the recorded identifier, or KeyError for a dictionary or unknown path |
| Base.Configuration.Sources | python/configuration/configuration.py:130-141 | the identifiers that own a path are exactly the keys, and each list holds exactly that identifier's paths, once each |
| Base.Configuration.FromDicts | python/configuration/configuration.py:186-198 | the first `min(len(dicts), len(names))` dictionaries are merged in order under their names (`zip`), so without names nothing is merged |
| Base.MergeEnd | python/configuration.py:150 | after the last turn of `_merge`'s loop, the tree and the provenance are those of the whole layer |
| Base.LeafSourcesRestrictAdd | python/configuration.py:150-157 | one more visited key adds exactly that key's provenance |
| Simple.Expected | python/configuration/simple_configuration.py:271-278 | the keys of the determined provenance: surviving old paths plus every written path |
| Simple.SourcesUpdateDetermined | python/configuration/simple_configuration.py:265-278 | when no written path extends another replaced path as a string, the provenance after a merge is determined whatever the key order: old entries minus purged and rewritten ones, plus the identifier on every written path |
| Simple.SourcesUpdateNothing | python/configuration/simple_configuration.py:265 | visiting no key changes no provenance |
| Simple.SourcesUpdateCompose | python/configuration/simple_configuration.py:265-278 | two provenance updates by the same merge compose into one |
| Simple.PurgedUnion | python/configuration/simple_configuration.py:273 | purging by a union of paths is purging by either part |
| Simple.MergeStart | python/configuration/simple_configuration.py:265 | before `_merge`'s loop nothing is merged and nothing recorded |
| Simple.MergeEnd | python/configuration/simple_configuration.py:265-278 | after the loop the tree is the override and the provenance update is that of the whole layer |
| Simple.SourcesUpdateAdd | python/configuration/simple_configuration.py:265-278 | the update made so far, composed with one more key's update, is the update for the keys visited so far plus that key |
| Simple.Configuration.constructor | python/configuration/simple_configuration.py:53-65 | an empty configuration, or one with the seed merged as merge 0, its leaves recorded under `name or 0` |
| Simple.Configuration.Get | python/configuration/simple_configuration.py:187-196 | `get` returns the value at the split key, or the walk's KeyError/TypeError |
| Simple.Configuration.Set | python/configuration/simple_configuration.py:211-220 | `set` writes only the final slot, or fails and changes nothing |
| Simple.Configuration.Merge | python/configuration/simple_configuration.py:198-209 | the tree becomes the override, and one identifier (`name or len(_merge_order)`) is appended to the merge order. The provenance changes as `SourcesUpdate` allows, and every recorded identifier stays in the merge order. |
| Simple.Configuration.MergeInto | python/configuration/simple_configuration.py:258-278 | `_merge` yields the override, and the provenance changes only as the written leaves and the purges allow |
| Simple.Configuration.MergeNext | python/configuration/simple_configuration.py:265-278 | one turn of `_merge`'s loop keeps the loop invariant for one more visited key |
| Simple.Configuration.MergeKey | python/configuration/simple_configuration.py:266-278 | one key: its slot takes the merged value, and the provenance changes by that key's leaves and purges |
| Simple.Configuration.WriteLeaf | python/configuration/simple_configuration.py:271-278 | a leaf replacing a dictionary first removes every path that starts with its own, then the leaf is written under its key and recorded |
| Simple.Configuration.Purge | python/configuration/simple_configuration.py:273-275 | exactly the recorded paths that start with the prefix are removed |
| Simple.Configuration.Source | python/configuration/simple_configuration.py:222-243 | the identifier of a recorded path. For any other key, one identifier for each recorded path that starts with the key, each such path counted once. |
| Simple.Configuration.Sources | python/configuration/simple_configuration.py:245-256 | a list for every identifier in the merge order, even one with no paths. Each list holds exactly that identifier's paths, once each. |
| Simple.Configuration.FromDicts | python/configuration/simple_configuration.py:105-117 | every dictionary is merged in order, and one without a name gets its ordinal (`zip_longest`). A name without a dictionary ends in AttributeError after all merges. The provenance goes from empty to the final map through one `SourcesUpdate` per dictionary, each by that dictionary's leaves and purges over the tree merged so far. |
| Simple.ProvenanceChainSnoc | python/configuration/simple_configuration.py:115-116 | one more merge of `from_dicts` extends the per-dictionary provenance chain by one step |
| Simple.Configuration.MergeCount | python/configuration/simple_configuration.py:77-83 | `merge_count` is the length of the merge order |
| Simple.Configuration.MergeOrder | python/configuration/simple_configuration.py:86-92 | `merge_order` gives the identifiers in the order they were merged |
| Simple.LeafWriteAsWritten | python/configuration/simple_configuration.py:273-277 | as written, after a purge the leaf lands at the last purged path instead of its key; nothing else changes |
| Simple.AsWrittenKeepsReplacedDict | python/configuration/simple_configuration.py:273-277 | as written, a leaf that replaces a dictionary with recorded leaves leaves the dictionary in place |
| Simple.ShadowedKeyCounterexample | python/configuration/simple_configuration.py:273-277 | `{"a": {"x": 1}}` merged with `{"a": 2}`: as written "a" keeps the dictionary and "a.x" gets 2; the intended override gives `{"a": 2}` |
| Grammar.MatchWord | python/configuration/advanced_configuration.py:212 | `(\w+)$` matches a word, optionally followed by the one final newline `$` lets through |
| Grammar.MatchLock | python/configuration/advanced_configuration.py:211-212 | the optional lock group followed by the word spells the text it matched |
| Grammar.MatchAction | python/configuration/advanced_configuration.py:210-212 | the optional action symbol (from the table), the lock and the word spell the text matched |
| Grammar.ModifierRun | python/configuration/advanced_configuration.py:209 | the greedy modifier group takes the longest run of modifier symbols |
| Grammar.MatchFrom | python/configuration/advanced_configuration.py:209-212 | backtracking over shorter modifier groups: any match is well formed and spells the key |
| Grammar.Separate | python/configuration/advanced_configuration.py:304-320 | on success the groups come from the tables, the true key is a word and the groups concatenate back to the key; failure is ValueError |
| Grammar.SeparateComplete | python/configuration/advanced_configuration.py:317-320 | every key that decomposes as modifiers, optional action, optional lock and word separates, so `_separate` succeeds exactly on such keys |
| Grammar.ModifierRunCovers | python/configuration/advanced_configuration.py:209 | any run of modifier symbols at the front is within the greedy run |
| Grammar.MatchFromComplete | python/configuration/advanced_configuration.py:209-212 | backtracking finds a match when some shorter modifier group leads to one |
| Grammar.MatchFromSkips | python/configuration/advanced_configuration.py:209-212 | a modifier count that does not match passes on to one fewer |
| Grammar.MatchWordComplete | python/configuration/advanced_configuration.py:212 | every word, with or without a final newline, matches `(\w+)$` |
| Grammar.MatchLockComplete | python/configuration/advanced_configuration.py:211-212 | every optional lock followed by a word matches |
| Grammar.MatchActionComplete | python/configuration/advanced_configuration.py:210-212 | every optional registered action, lock and word matches |
| Grammar.SeparatePlainWord | python/configuration/advanced_configuration.py:317-320 | a plain word key separates into itself with no modifier, action or lock |
| Order.LexLessIrreflexive | python/configuration/advanced_configuration.py:346 | Python's list `<` is irreflexive |
| Order.LexLessTransitive | python/configuration/advanced_configuration.py:346 | Python's list `<` is transitive |
| Order.LexLessTotal | python/configuration/advanced_configuration.py:346 | any two different lists are ordered one way or the other |
| Order.Codes | python/configuration/advanced_configuration.py:346 | strings compare by their code points, one per character |
| Order.CodesInjective | python/configuration/advanced_configuration.py:346 | equal code points mean equal strings |
| Order.RankLess | python/configuration/advanced_configuration.py:346 | a sort tuple never sorts before itself |
| Order.Before | python/configuration/advanced_configuration.py:263 | the processing order is strict: a key never comes before itself |
| Order.BeforeIrreflexive | python/configuration/advanced_configuration.py:263 | no key is processed before itself |
| Order.BeforeTransitive | python/configuration/advanced_configuration.py:263 | the processing order is transitive |
| Order.RankLessTotal | python/configuration/advanced_configuration.py:346 | two different sort tuples are ordered one way or the other |
| Order.BeforeTotal | python/configuration/advanced_configuration.py:263 | keys with different raw text are always ordered |
| Order.Insert | python/configuration/advanced_configuration.py:263 | inserting adds exactly the one entry |
| Order.InsertSorted | python/configuration/advanced_configuration.py:263 | inserting into a sorted list keeps it sorted |
| Order.ConsSorted | python/configuration/advanced_configuration.py:263 | an entry before every element of a sorted list can be put in front |
| Order.Sort | python/configuration/advanced_configuration.py:263 | `sorted` gives an ascending permutation of its input |
| Order.SortedUnique | python/configuration/advanced_configuration.py:263 | two sorted lists of the same entries are equal, so the processing order does not depend on the order the keys came in |
| Order.SameEmptiness | python/configuration/advanced_configuration.py:263 | lists with the same elements are empty together |
| Order.ElementAfterHead | python/configuration/advanced_configuration.py:263 | in a sorted list the tail does not hold the head |
| Order.ElementBeyondHead | python/configuration/advanced_configuration.py:263 | an element other than the head lies in the tail |
| Order.SetToSeq | python/configuration/advanced_configuration.py:260 | the keys of a layer listed once each |
| Order.Arrange | python/configuration/advanced_configuration.py:263 | the processing order lists each separated key once, in ascending order |
| Order.CharIndex | python/configuration/advanced_configuration.py:333 | `list.index` gives the first position of the symbol, or fails exactly when it is absent |
| Order.ModIndexes | python/configuration/advanced_configuration.py:329-336 | one index per modifier, each its first position in the ordering; ValueError when one is absent |
| Order.RankOf | python/configuration/advanced_configuration.py:322-346 | the sort tuple is the true key, the lock flag, the action index (0 with no action) and the modifier indexes; ValueError exactly when a symbol is not in the ordering |
| Order.AddRanksLikePlain | python/configuration/advanced_configuration.py:338-343 | with the default ordering `+KEY` and `KEY` get the same action index 0 |
| Actions.PyEqReflexive | python/configuration/advanced_configuration.py:361 | every value equals itself under Python `==` |
| Actions.AddValues | python/configuration/advanced_configuration.py:353-354 | `+` succeeds exactly on two numbers, two strings or two lists; everything else is TypeError |
| Actions.IndexOf | python/configuration/advanced_configuration.py:361 | the first position holding an equal value, or none |
| Actions.RemoveFirst | python/configuration/advanced_configuration.py:363 | `list.remove` takes out exactly the first equal element, or raises ValueError when there is none |
| Actions.MultisetRemoveAt | python/configuration/advanced_configuration.py:363 | removing one position keeps all other elements |
| Actions.RemoveEach | python/configuration/advanced_configuration.py:360-361 | one removal per element, each taking one element; ValueError on a miss |
| Actions.RemoveEachMisses | python/configuration/advanced_configuration.py:360-361 | an element of the removed list that equals nothing in the original list makes the removal raise ValueError |
| Actions.RemoveEachExact | python/configuration/advanced_configuration.py:360-361 | when `==` is identity on the values involved, removing a list succeeds exactly when its multiset is contained in the original's, and leaves the multiset difference |
| Actions.SubtractValues | python/configuration/advanced_configuration.py:357-369 | a list minus a list is `RemoveEach`, a list minus anything else is one `list.remove`, numbers subtract, a string minus a string strips the suffix (the corrected `StripSuffix`, see Findings), and `None` or a dictionary comes back unchanged |
| Actions.PyEq | python/configuration/advanced_configuration.py:361-363 | Python `==` only equates values of the same kind (numbers with numbers, strings with strings, and so on) |
| Actions.CallAction | python/configuration/advanced_configuration.py:283-286 | calling the registered callable: `+` adds, `-` subtracts, and a custom callable gives its own result |
| Actions.StripSuffixAsWritten | python/configuration/advanced_configuration.py:367-368 | as written, a non-empty suffix strips like the corrected removal, and the empty suffix empties the string |
| Actions.Exists | python/configuration/advanced_configuration.py:376-377 | `_exists` is true exactly when the existing value is not `None` |
| Actions.NotExists | python/configuration/advanced_configuration.py:380-381 | `_not_exists` is the negation of `_exists` |
| Actions.StripSuffix | python/configuration/advanced_configuration.py:367-368 | the corrected suffix removal: a matching suffix is removed, any other string is unchanged |
| Actions.PySliceTo | python/configuration/advanced_configuration.py:368 | `s[:k]` is a prefix of `s` |
| Actions.StripEmptySuffixAsWritten | python/configuration/advanced_configuration.py:367-368 | as written, subtracting `""` empties a non-empty string; corrected, it leaves the string alone |
| Actions.SubtractUndoesAddStr | python/configuration/advanced_configuration.py:353-369 | on strings, `-` undoes `+`, the empty string included |
| Actions.SubtractUndoesAddNum | python/configuration/advanced_configuration.py:353-365 | on numbers `-` undoes `+` |
| Actions.SubtractUndoesAddList | python/configuration/advanced_configuration.py:353-361 | on lists, `-` removes what `+` appended when the value was not already present |
| Actions.AddToMissingFails | python/configuration/advanced_configuration.py:8 | `+` on a missing value raises TypeError, contrary to the docstring |
| Actions.ExistsModifiers | python/configuration/advanced_configuration.py:376-381 | `?` passes exactly when the key is present with a non-`None` value; `!` is its complement, and a missing key counts as `None` |
| AdvancedMerge.Deeper | python/configuration/advanced_configuration.py:290 | a nested merge has one level less to go |
| AdvancedMerge.EntryOf | python/configuration/advanced_configuration.py:260 | a key's entry separates that key, well formed |
| AdvancedMerge.Entries | python/configuration/advanced_configuration.py:260 | one well-formed entry per key of the layer |
| AdvancedMerge.Prepare | python/configuration/advanced_configuration.py:259-263 | separating and sorting fails only with ValueError or TypeError; otherwise it gives a sorted list of keys of the layer, each its own separation |
| AdvancedMerge.MergeOutcome | python/configuration/advanced_configuration.py:243-302 | whether it completes or raises, a merge into a dictionary leaves a dictionary holding at least the old keys, and a non-dictionary is left as it was |
| AdvancedMerge.SeqOutcome | python/configuration/advanced_configuration.py:265-302 | the same for the loop over the ordered keys |
| AdvancedMerge.KeyOutcome | python/configuration/advanced_configuration.py:266-302 | one key changes at most the slot of its own true key |
| AdvancedMerge.Place | python/configuration/advanced_configuration.py:288-293 | the true key's slot is written or merged into, and no other slot changes |
| AdvancedMerge.SeqOutcomeKeepsUnnamed | python/configuration/advanced_configuration.py:265-302 | the loop leaves every slot that no entry names as it was |
| AdvancedMerge.MergeOutcomeKeepsUnnamed | python/configuration/advanced_configuration.py:243-302 | a slot that no key of the layer separates into keeps its value, whether the merge completes or raises |
| AdvancedMerge.PrepareSpec | python/configuration/advanced_configuration.py:259-263 | separating and sorting fails with ValueError exactly on a key that does not separate or rank, and with TypeError exactly on mixed locks. Otherwise every key appears once, well formed, in ascending order. |
| AdvancedMerge.PrepareFits | python/configuration/advanced_configuration.py:260-263 | every prepared key is in the layer and its symbols are registered |
| AdvancedMerge.Record | python/configuration/advanced_configuration.py:301-302 | `setdefault(...).append(name)` appends the identifier to that path's list and changes no other list |
| AdvancedMerge.Finish | python/configuration/advanced_configuration.py:295-302 | a locked key is staged, and a modified or locked key gets the identifier appended |
| AdvancedMerge.GrowsTransitive | python/configuration/advanced_configuration.py:302 | provenance growth composes |
| AdvancedMerge.EffectTransitive | python/configuration/advanced_configuration.py:266-302 | the allowed effect of a merge composes over the loop |
| AdvancedMerge.RecordEffect | python/configuration/advanced_configuration.py:301-302 | recording an unlocked path is an allowed effect |
| AdvancedMerge.MergeOutcomeEffect | python/configuration/advanced_configuration.py:243-302 | whether it completes or raises, a merge only appends its own identifier to provenance lists and never touches a locked path's list. Staged locks only grow, never name a locked path, and each has a provenance entry. |
| AdvancedMerge.SeqOutcomeEffect | python/configuration/advanced_configuration.py:266-302 | the same for the loop over the ordered keys |
| AdvancedMerge.KeyOutcomeEffect | python/configuration/advanced_configuration.py:266-302 | the same for one key |
| AdvancedMerge.PlaceEffect | python/configuration/advanced_configuration.py:288-302 | the same for writing or recursing |
| AdvancedMerge.GrowsReflexive | python/configuration/advanced_configuration.py:302 | no change is allowed growth |
| AdvancedMerge.FinishEffect | python/configuration/advanced_configuration.py:295-302 | finishing an unlocked key is an allowed effect |
| AdvancedMerge.CompletedSeqAvoidsLocked | python/configuration/advanced_configuration.py:266-269 | a merge loop that completes visited no locked path |
| AdvancedMerge.KeyStagesLock | python/configuration/advanced_configuration.py:296-298 | a locked key without modifiers that the loop gets past adds its key path to the pending locks |
| AdvancedMerge.CompletedSeqStagesLocks | python/configuration/advanced_configuration.py:243-302 | a merge loop that completes leaves the key path of every locked key without modifiers of the layer among the pending locks |
| AdvancedMerge.LockedKeyStopsMerge | python/configuration/advanced_configuration.py:266-269 | a layer with a key at a locked path never completes |
| AdvancedMerge.LockedDepth | python/configuration/advanced_configuration.py:236-241 | the longest run of leading segments whose join is locked; no longer run is locked |
| AdvancedMerge.LockedPrefix | python/configuration/advanced_configuration.py:229-241 | `_get_locked_key` gives a locked path that is a prefix of the key |
| AdvancedMerge.LockCoversExtensions | python/configuration/advanced_configuration.py:229-241 | a locked path locks itself and every key below it |
| AdvancedMerge.ShorterKeysUnlocked | python/configuration/advanced_configuration.py:229-241 | a key shorter than every locked path is not locked, so locking `dict.str` does not lock `dict` |
| Advanced.DefaultTables | python/configuration/advanced_configuration.py:60-71 | `__init__` installs `+`/`-` actions, `!`/`?` modifiers, ordering `+-!?` and lock `#` |
| Advanced.Compile | python/configuration/advanced_configuration.py:205-212 | the pattern is built from the modifier and action symbols and the lock symbol; AttributeError while one is unset |
| Advanced.MergeStep | python/configuration/advanced_configuration.py:146-177 | a completed merge counts once, keeps the old locks and empties the staging set; a merge that raises counts nothing and adds no lock |
| Advanced.MergeStepKeeps | python/configuration/advanced_configuration.py:174-177 | a merge keeps every provenance list non-empty, only appends its own identifier, and leaves locked paths' lists alone. It only locks staged paths, and a failed merge keeps the staged ones. |
| Advanced.Replay | python/configuration.py:195-197 | after `from_dicts` completes, `count` has grown by the number of dictionaries merged |
| Advanced.InitAsWrittenRejectsSeeds | python/configuration/advanced_configuration.py:53-74 | as written, the constructor raises AttributeError exactly when it is given a non-empty seed |
| Advanced.SeedPrepared | python/configuration/advanced_configuration.py:259-263 | with the default tables, the seed `{"a": 1}` prepares to its one plain entry |
| Advanced.SeedKeyMerged | python/configuration/advanced_configuration.py:266-302 | that entry writes `a = 1` and records ordinal 0 |
| Advanced.SeedOutcome | python/configuration/advanced_configuration.py:243-302 | the whole seed merge gives `{"a": 1}` with provenance `[0]` |
| Advanced.MergeOutcomeOfOrder | python/configuration/advanced_configuration.py:259-266 | a layer that prepares cleanly is merged key by key in its order |
| Advanced.SeedMergesWhenTablesComeFirst | python/configuration/advanced_configuration.py:53-74 | with the tables installed first, the seed `{"a": 1}` merges, recorded as merge 0, with no lock |
| Advanced.InitAsWritten | python/configuration/advanced_configuration.py:53-74 | as written, an empty seed constructs, and any failure is AttributeError |
| Advanced.InsertIndex | python/configuration/advanced_configuration.py:113 | `index_order or len(...)`: no index or 0 appends, any other index is used as given |
| Advanced.Configuration.constructor | python/configuration/advanced_configuration.py:53-74 | an empty state with the default tables and no pattern |
| Advanced.Configuration.FromSeed | python/configuration/advanced_configuration.py:53-74 | the corrected constructor: the seed merged by `merge` once the tables exist |
| Advanced.Configuration.IsLocked | python/configuration/advanced_configuration.py:76-83 | true exactly when the key has a non-empty locked segment prefix |
| Advanced.Configuration.Locked | python/configuration/advanced_configuration.py:85-89 | the locked paths, as a value |
| Advanced.Configuration.LockKey | python/configuration/advanced_configuration.py:91-97 | the path is locked immediately; nothing else changes |
| Advanced.Configuration.RegisterAction | python/configuration/advanced_configuration.py:99-113 | with a symbol conflict and no `force`: ValueError, tables and ordering unchanged. Otherwise the symbol maps to the callable and is inserted once into the ordering at `index_order or len`. |
| Advanced.Configuration.RegisterModifier | python/configuration/advanced_configuration.py:115-129 | the same for the modifier table |
| Advanced.Configuration.SetOrdering | python/configuration/advanced_configuration.py:131-144 | the ordering becomes the given symbols |
| Advanced.Configuration.Merge | python/configuration/advanced_configuration.py:146-177 | the new state and exception are exactly `MergeStep`'s; tables unchanged, pattern compiled, provenance stays valid |
| Advanced.Configuration.Set | python/configuration/advanced_configuration.py:179-190 | ValueError before any change when the key has a non-empty locked prefix, otherwise the base `set` |
| Advanced.Configuration.Get | python/configuration.py:87-96 | the inherited `get` |
| Advanced.Configuration.Source | python/configuration.py:121-128 | the inherited exact lookup, here returning the whole provenance list |
| Advanced.Configuration.Sources | python/configuration/advanced_configuration.py:192-203 | paths grouped by the last identifier in their list; every path once, under exactly that identifier |
| Advanced.Configuration.LockedKey | python/configuration/advanced_configuration.py:229-241 | the popping loop returns the longest locked segment prefix |
| Advanced.Configuration.ApplyModifiers | python/configuration/advanced_configuration.py:214-227 | true exactly when every modifier of the key accepts |
| Advanced.Configuration.SortOrder | python/configuration/advanced_configuration.py:322-346 | the loop computes the sort tuple `RankOf` defines, ValueError included |
| Advanced.Configuration.SeparateAndSort | python/configuration/advanced_configuration.py:259-263 | separating and ordering the layer gives exactly `Prepare`'s result |
| Advanced.Configuration.SortKeys | python/configuration/advanced_configuration.py:260-263 | either ValueError when some key does not separate or rank, or a sorted list of exactly the layer's entries |
| Advanced.Configuration.SortNext | python/configuration/advanced_configuration.py:260 | one key separated, ranked and inserted in order |
| Advanced.Configuration.MergeInto | python/configuration/advanced_configuration.py:243-302 | `_merge` leaves exactly the tree, provenance, staged locks and exception of `MergeOutcome` |
| Advanced.Configuration.MergeSeq | python/configuration/advanced_configuration.py:265-302 | the loop over ordered keys computes `SeqOutcome`, stopping at the first exception |
| Advanced.Configuration.MergeKey | python/configuration/advanced_configuration.py:266-292 | one key computes `KeyOutcome`: a locked path raises, a refusing modifier skips the key, and the action transforms the value |
| Advanced.Configuration.PlaceValue | python/configuration/advanced_configuration.py:288-302 | a leaf is written and a dictionary merged into the node, as `Place` says |
| Advanced.Configuration.PlaceNode | python/configuration/advanced_configuration.py:289-290 | a dictionary merges into the node at the key (created when missing) as `Place` says |
| Advanced.Configuration.FinishKey | python/configuration/advanced_configuration.py:295-302 | a `#` key is staged, and a modified or locked key records the identifier |
| Advanced.Configuration.FromDicts | python/configuration.py:186-198 | `from_dicts` on the advanced class replays the `zip`-paired merges and stops at the first exception |
| Advanced.Configuration.ReplayNext | python/configuration.py:196-197 | one more dictionary merged extends the replay by one |
| Advanced.ListInsert | python/configuration/advanced_configuration.py:113 | `list.insert` adds the symbol at the clamped index and keeps the rest |
| Advanced.Clamp | python/configuration/advanced_configuration.py:113 | an insertion index ends up within the list |
| Advanced.AppendKeepsRanks | python/configuration/advanced_configuration.py:113 | registering at the default position appends, keeps every existing symbol's index, and gives the new symbol one |
| Advanced.InsertElements | python/configuration/advanced_configuration.py:263 | inserting adds exactly the inserted entry |
| Advanced.MixedLocksOfElements | python/configuration/advanced_configuration.py:263 | the loop's mixed-lock test over the list agrees with the one over the set |
| Advanced.ReplayStops | python/configuration.py:196-197 | after an exception, the remaining dictionaries are not merged |
| Advanced.ReplayStep | python/configuration.py:196-197 | replaying one more dictionary is one more `merge` unless an earlier one raised |
| Advanced.MergeCommit | python/configuration/advanced_configuration.py:174-177 | after `_merge`, `merge` commits the staged locks on success and keeps them on failure |
| Advanced.MergeStepLocksKeys | python/configuration/advanced_configuration.py:174-177 | after a `merge` that completes, the true key of every top-level layer key that separates with the lock symbol and no modifier is locked |
| Advanced.GrowsValid | python/configuration/advanced_configuration.py:302 | provenance growth keeps lists non-empty |
| Advanced.InsertEntry | python/configuration/advanced_configuration.py:260-263 | inserting the next key's entry keeps the list sorted and holding exactly the visited keys' entries |
| Advanced.EntriesAdd | python/configuration/advanced_configuration.py:260 | one more separated key adds its entry |
| Advanced.SeqOutcomeStep | python/configuration/advanced_configuration.py:265-302 | one turn of the loop is one key, then the rest unless it raised |
| Advanced.MergeOutcomeRefused | python/configuration/advanced_configuration.py:259-263 | a layer that fails to separate or sort raises before any change |
| Advanced.PlaceLeaf | python/configuration/advanced_configuration.py:291-293 | a non-dictionary value is written and finishes as modified |
| Advanced.PlaceTooDeep | python/configuration/advanced_configuration.py:289-290 | at the depth limit a dictionary value raises RecursionError |
| Advanced.PlaceNested | python/configuration/advanced_configuration.py:289-302 | a nested merge followed by the finish step is `Place` |
| AdvancedPlain.Recorded | python/configuration/advanced_configuration.py:301-302 | appending the identifier once to the list of each path in a set; other lists unchanged |
| AdvancedPlain.LeavesDisjoint | python/configuration/advanced_configuration.py:267 | the leaf paths of different plain keys of a node are different, so no path is recorded twice |
| AdvancedPlain.PlainPrepared | python/configuration/advanced_configuration.py:259-263 | a layer of plain word keys separates without error, every key into itself, and lists each key once |
| AdvancedPlain.EmptyMerge | python/configuration/advanced_configuration.py:259-266 | an empty layer changes nothing |
| AdvancedPlain.PlainMerge | python/configuration/advanced_configuration.py:243-302 | `_merge` of a plain layer over a compatible tree, touching no locked path and within the depth limit, completes; the tree becomes the base override `MergeTree` and exactly the layer's leaf paths get the identifier appended once |
| AdvancedPlain.PlainOrder | python/configuration/advanced_configuration.py:265-302 | the same for the loop over the whole processing order |
| AdvancedPlain.PlainSeq | python/configuration/advanced_configuration.py:265-302 | the same for the rest of the loop, from any point part-way |
| AdvancedPlain.PlainKeyStep | python/configuration/advanced_configuration.py:266-302 | one plain key sets its slot to the override's value and records exactly its own leaves |
| AdvancedPlain.PlainPlace | python/configuration/advanced_configuration.py:288-302 | a plain key's dictionary merges into the node (an empty one over a scalar leaves it) and records its leaves; a leaf is written and recorded once |
| AdvancedPlain.PlainMergeStep | python/configuration/advanced_configuration.py:146-177 | `merge` of such a layer completes, the tree becomes the base override, the merge is counted, the staged locks are committed, and the identifier `name or _count` is appended once to the list of every leaf path the layer writes and to no other list |
| AdvancedPlain.DefaultTablesPlain | python/configuration/advanced_configuration.py:60-71 | the default symbols `+`, `-`, `!`, `?` and `#` are not word characters |

## Findings

| source | as written | input that shows it | evidently intended | confidence | as-written member | corrected member |
|---|---|---|---|---|---|---|
| python/configuration/simple_configuration.py:273-277 | `for key in removed` rebinds `key`, so `dest[key] = value` writes under the last purged path | `{"a": {"x": 1}}` merged with `{"a": 2}` | the leaf replaces the dictionary: `{"a": 2}` (comment at :271) | not executed; high (reading of Python scoping) | Simple.ShadowedKeyCounterexample | Simple.Configuration.WriteLeaf |
| python/configuration/advanced_configuration.py:367-368 | `orig[:-len(new)]` with `new == ""` is `orig[:0]` | `"abc" - ""` gives `""` | the string is unchanged, since removing an empty suffix removes nothing | not executed; high | Actions.StripEmptySuffixAsWritten | Actions.SubtractUndoesAddStr |
| python/configuration/advanced_configuration.py:59 | `super().__init__` merges the seed, and `merge` calls `_compile` before `_modifiers`, `_actions` and `_lock_symbol` are assigned | `AdvancedConfiguration({"a": 1})` raises AttributeError | the seed is merged with the default tables | not executed; high | Advanced.InitAsWrittenRejectsSeeds | Advanced.SeedMergesWhenTablesComeFirst |

## Left out

- `from_files`, `_load_file`, `from_environment`: reading JSON files and environment variables is I/O.
- `cache`, `from_cache` and the class-level `_caches`: process-wide global state with no logic beyond a dictionary lookup.
- `as_dict`: a deep copy, which is the identity on the value tree.
- `__getitem__`, `__setitem__`, `__iter__`: plain delegation to `get`, `set` and the provenance keys.
- The `__main__` block, and the Python 2 `izip_longest` import shim.
- Floats: the value tree has no floats, so the float branch of `_subtract` is not modelled.
- Paths.Split: the separator is a single character; Python allows any non-empty string.
- Grammar.Separate: symbols are single characters, and `\w` is ASCII letters, digits and `_`. The model does not capture regex escaping of multi-character symbols. It also does not capture the malformed pattern an empty modifier or action table would produce.
- Advanced.Compile: every symbol is matched literally. In Python, `_compile` puts a backslash before each modifier and action symbol, so a letter or digit symbol becomes a regex escape (`d` turns into `\d`, any digit) or a `re.error`; the lock symbol is not escaped at all, so a regex metacharacter there changes the pattern. Only symbols that are no word characters and no metacharacters, as the defaults are, behave as modelled.
- Actions.CallAction: a registered callable is modelled as a pure function returning a value or an exception. Side effects and non-termination of caller code are not modelled.
- Actions.SubtractValues: list removal works on values. Python's `orig.remove` mutates the list in the tree in place, so a ValueError part-way through leaves the earlier removals visible. The model leaves the list as it was.
- Advanced.Configuration.MergeInto: a layer that is the same object as a node it is merged into (aliasing) is not modelled; layers and the tree are values.
- Order.Before: keys with equal sort tuples are ordered by their raw text. Python's stable `sorted` keeps dictionary insertion order, which a `map` does not have.
- AdvancedMerge.MergeOutcome: recursion depth is bounded by `RecursionLimit` (1000) and raises RecursionError past it. Python's real limit counts interpreter frames, so the depth at which it triggers differs.
- Base.Configuration.FromDicts: requires `ChainCompatible` over the merged dictionaries, for the same reason as `Merge` below.
- Simple.Configuration.FromDicts: requires `ChainCompatible`, for the same reason; its provenance is the chain of `SourcesUpdate` relations, one per dictionary.
- Base.Configuration.Merge: requires `Compatible` (no non-empty dictionary merged over an existing scalar) instead of modelling the exception that case raises: TypeError from `dest[key] = value` (`python/configuration/configuration.py:156`) for a leaf directly under the dictionary, AttributeError from `setdefault` (`:153`) for a deeper dictionary.
- Simple.Configuration.Merge: requires the same `Compatible`, in place of the exception. Here it is always AttributeError: `dest.get` (`python/configuration/simple_configuration.py:272`) for a leaf directly under the dictionary, and `setdefault` (`:268`) for a deeper dictionary. Its provenance is stated as the relation `SourcesUpdate`, not one map. When one written path extends another replaced path as a string, the purge depends on dictionary iteration order. `Simple.SourcesUpdateDetermined` pins the map down whenever that does not happen.
- Values.Identifier: an identifier is any value. In Python the identifiers become dictionary keys in `sources()`, so a list or dictionary name raises TypeError (unhashable), and `True` and `1` (or `False` and `0`) collapse into one key. The model keeps every value a distinct key and raises nothing.
- Base.Configuration.Sources: groups by identifier as values. It does not raise TypeError for an unhashable name, and keeps `True` and `1` apart.
- Simple.Configuration.Sources: the same for unhashable names and for `True`/`1`. It also requires `Valid()` (every recorded identifier is in the merge order), which every configuration built by the constructor and `Merge` keeps; otherwise Python raises KeyError.
- Advanced.Configuration.Sources: the same for unhashable names and for `True`/`1`. It also requires `Valid()` (every provenance list is non-empty), which the constructor and `Merge` keep.
