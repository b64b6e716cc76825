# A Dafny model of Scipion's set protocols, movie-alignment streaming and project settings

This project models three parts of the Scipion workflow engine and proves
properties about them.

- **Set protocols** (`pyworkflow/em/protocol/protocol_sets.py`):
  - *union* joins several sets into one. It keeps object ids until the first repeated id and clears every id after that. It can also renumber from one above the largest id.
  - *union of micrographs and CTFs* joins CTF sets and appends each CTF's micrograph under the same id.
  - *split* cuts a set into `n` consecutive chunks whose sizes differ by at most one, larger chunks first, and names them `output<Class>01`, `output<Class>02`, …
  - *subset* takes the elements of a full set whose ids appear in a second set, or a random sample of its positions.
  - Each protocol comes with its `_validate` rules.
- **Streaming alignment of movies** (`pyworkflow/em/protocol/protocol_align_movies.py`).
  - `_checkNewOutput` is one reconciliation pass. It reads the done list, finds the newly finished movies and writes their ids to the done list. It then appends an aligned movie and/or a micrograph per new movie to the output sets. It decides `finished`, sets the stream state of the outputs to OPEN or CLOSED, and releases a waiting join step.
  - The pass is specified as a function `Pass` on a `PassState`.
  - The protocol object `ProtAlignMovies` is a class whose `CheckNewOutput` is proved equal to `Pass`.
  - The lemmas about `Pass` show the following:
    - it keeps the done list and output sets consistent (each movie appears at most once, over any number of passes);
    - when the done ids all come from the input list and no id repeats, `finished` means "stream closed and every input movie done";
    - a finished protocol never changes again;
    - a repeated pass adds nothing;
    - the join step only moves from WAITING to NEW.
- **Project settings** (`pyworkflow/config.py`):
  - `loadSettings` expects exactly one stored settings object.
  - `SettingList` is a list with a current index.
  - `ProjectSettings` covers hosts, protocol menus and graph nodes:
    - hosts: add, look up by label, delete;
    - protocol menus: select one, and build them from the `[PROTOCOLS]` section with the recursive `add`;
    - graph nodes: add and look up by id.
  - `MenuConfig` and `ProtocolConfig` are the menu trees; `ProtocolConfig` supplies default icons and the open flag.
  - `NodeConfigList` is a list of nodes plus an id dictionary holding the same node objects.
  - The `isOn` helper is modelled too.

Objects that the source updates in place are Dafny classes with
`modifies` clauses:
- the output sets and the protocol during a pass;
- `SettingList`, `ProjectSettings`, `NodeConfig` and `NodeConfigList`.

Computations that only build values are functions on datatypes:
- menu trees;
- chunk sizes;
- validation rules.

Loops in the source are `while` loops with invariants, each proved against a specification function:
- the union loops;
- the split loop;
- the subset loops;
- the two append loops of `_checkNewOutput`;
- `getHostByLabel`, `updateDict`, and the menu loop of `addProtocols`.

Python behaviour that the model spells out:
- list indexing, including negative indices;
- `list.remove` removes only the first occurrence;
- `random.sample` raises unless `0 <= k <= n`;
- indexing an empty list raises;
- `range(n)` is empty for `n <= 0`;
- `[0] * k` is empty for negative `k`;
- `str()` of booleans, integers and `None`;
- `'%02d'` formatting;
- `str.replace(p, '')`.

## Model

| member | source | states |
|---|---|---|
| AlignMovies.FrameRange | pyworkflow/em/protocol/protocol_align_movies.py:193-203 | the range starts after `Frame0` dropped frames and ends `FrameN` frames before the end; its length is `n - Frame0 - FrameN` |
| AlignMovies.ZeroShifts | pyworkflow/em/protocol/protocol_align_movies.py:220-221 | `[0] * (last - first + 1)`: that many zeros, and none when the count is negative |
| AlignMovies.CreateOutputMovie | pyworkflow/em/protocol/protocol_align_movies.py:205-233 | the output is the input movie (id, micrograph name, frame count; file name not modelled) with an alignment over the align range; the ROI is the crop parameters; when the movie is saved, x and y shifts are the same all-zero list, one per aligned frame; otherwise the shifts come from the shifts hook |
| AlignMovies.Validate | pyworkflow/em/protocol/protocol_align_movies.py:177-189 | each of the three errors is reported exactly when its rule is broken, in rule order |
| AlignMovies.SumRangeInsideAlignRange | pyworkflow/em/protocol/protocol_align_movies.py:177-203 | for parameters without errors, the summed frame range lies inside the aligned frame range |
| AlignMovies.NewDone | pyworkflow/em/protocol/protocol_align_movies.py:124-125 | the list comprehension of new movies; its contract is stated by `NewDoneMembers` (exactly the done inputs not yet listed, in input order) and `NewDoneDistinct` |
| AlignMovies.NewDoneMembers | pyworkflow/em/protocol/protocol_align_movies.py:124-125 | the new items are exactly the input movies that are done and not in the done list; there are never more of them than inputs |
| AlignMovies.NewDoneDistinct | pyworkflow/em/protocol/protocol_align_movies.py:124-125 | inputs with distinct ids give new items with distinct ids |
| AlignMovies.Pass | pyworkflow/em/protocol/protocol_align_movies.py:117-173 | one `_checkNewOutput` pass on the protocol state; its contract is stated by `FinishedIsFinal`, `PassAppendsNewDone`, `PassFinishedAndStreamState`, `PassRelations`, `JoinStepGate`, `PassKeepsConsistent` and `PassIdempotent` |
| AlignMovies.PassDoneList | pyworkflow/em/protocol/protocol_align_movies.py:122-129 | after a pass the done list still has no duplicates, and every id in it was there before or is an input movie's id |
| AlignMovies.ExtendDoneList | pyworkflow/em/protocol/protocol_align_movies.py:122-129 | appending the ids of the newly done movies to a done list without duplicates keeps it without duplicates, and each id gained is an input movie's id |
| AlignMovies.PassKeepsConsistent | pyworkflow/em/protocol/protocol_align_movies.py:117-173 | a pass keeps the invariant: done list without duplicates, each enabled output set listing exactly the done ids in order, CLOSED output sets once finished |
| AlignMovies.RunAtMostOnce | pyworkflow/em/protocol/protocol_align_movies.py:117-173 | over any sequence of passes the invariant holds, so no movie is appended to an output set twice |
| AlignMovies.FinishedIsFinal | pyworkflow/em/protocol/protocol_align_movies.py:119-120 | a pass on a finished protocol changes nothing |
| AlignMovies.PassAppendsNewDone | pyworkflow/em/protocol/protocol_align_movies.py:124-168 | the done list grows by the new ids; each enabled output set keeps its old items and gains one item per new movie, in order, carrying that movie's id; with nothing new the done list is unchanged |
| AlignMovies.PassFinishedAndStreamState | pyworkflow/em/protocol/protocol_align_movies.py:131-136 | `finished` holds exactly when the stream is closed and the done count equals the input count; every written output set is CLOSED exactly when finished |
| AlignMovies.FinishedMeansAllProcessed | pyworkflow/em/protocol/protocol_align_movies.py:131-135 | when done ids come from the inputs and ids are distinct, the count comparison means "every input movie is done" |
| AlignMovies.PassRelations | pyworkflow/em/protocol/protocol_align_movies.py:138-168 | relations are only ever added, and only on a pass that starts with an empty done list: a transform relation for movies and a source relation for micrographs |
| AlignMovies.JoinStepGate | pyworkflow/em/protocol/protocol_align_movies.py:170-173 | the join step changes exactly when the pass finishes and the step was WAITING, and then it becomes NEW |
| AlignMovies.PassIdempotent | pyworkflow/em/protocol/protocol_align_movies.py:117-173 | a second identical pass leaves the done list, outputs, `finished` and join step as the first pass left them |
| AlignMovies.ProtAlignMovies.WriteDoneList | pyworkflow/em/protocol/protocol_align_movies.py:128-129 | the done list gains the ids of the given movies, in order |
| AlignMovies.ProtAlignMovies.LoadOutputSet | pyworkflow/em/protocol/protocol_align_movies.py:96-115 | an existing set file is resumed with its items and stream state; otherwise a fresh empty OPEN set is created |
| AlignMovies.ProtAlignMovies.AppendAlignedMovies | pyworkflow/em/protocol/protocol_align_movies.py:143-145 | the movie set gains one aligned movie per new movie, in order, and nothing else changes |
| AlignMovies.ProtAlignMovies.AppendMicrographs | pyworkflow/em/protocol/protocol_align_movies.py:154-164 | the micrograph set gains one micrograph per new movie, in order, with the movie's id and micrograph name |
| AlignMovies.ProtAlignMovies.UpdateMoviesOutput | pyworkflow/em/protocol/protocol_align_movies.py:138-149 | the movie output file becomes its old items plus the new aligned movies, with the pass's stream state; a transform relation is added on a first pass |
| AlignMovies.ProtAlignMovies.UpdateMicrographsOutput | pyworkflow/em/protocol/protocol_align_movies.py:151-168 | the micrograph output file becomes its old items plus the new micrographs, with the pass's stream state; a source relation is added on a first pass |
| AlignMovies.ProtAlignMovies.CheckNewOutput | pyworkflow/em/protocol/protocol_align_movies.py:117-173 | the new protocol state is `Pass` of the old state and input, so every lemma about `Pass` holds of the method; a finished protocol is left untouched |
| SetItems.OutputKey | pyworkflow/em/protocol/protocol_sets.py:388 | an output name always starts with `output` |
| SetItems.OutputKeyOfSetClass | pyworkflow/em/protocol/protocol_sets.py:388 | the key of `SetOf<Name>` is `output<Name>` when `<Name>` does not itself contain `SetOf` |
| UnionSets.MaxId | pyworkflow/em/protocol/protocol_sets.py:90-91 | the largest id is one of the ids and no id exceeds it |
| UnionSets.UnionLoopStep | pyworkflow/em/protocol/protocol_sets.py:97-112 | one iteration of the loop body (renumber, clear, detect a repeat, or record the id) keeps the loop state in step with `UnionOutput` |
| UnionSets.UnionId | pyworkflow/em/protocol/protocol_sets.py:84-111 | the id the union gives its `j`-th object; stated by `UnionKeepsIdsUntilFirstRepeat` and `RenumberedIds` |
| UnionSets.UnionOutput | pyworkflow/em/protocol/protocol_sets.py:96-112 | the appended objects, one per input object; stated by `UnionSizeAndOrder`, `UnionKeepsIdsUntilFirstRepeat` and `RenumberedIds` |
| UnionSets.UnionCreateOutput | pyworkflow/em/protocol/protocol_sets.py:75-114 | no input sets raises; renumbering with no objects raises (`max` of nothing); otherwise the output has the first set's class and every input object in order with the id `UnionId` gives it |
| UnionSets.UnionSizeAndOrder | pyworkflow/em/protocol/protocol_sets.py:96-112 | the union holds as many objects as all inputs together, in input order, each with its attributes |
| UnionSets.UnionKeepsIdsUntilFirstRepeat | pyworkflow/em/protocol/protocol_sets.py:84-111 | without renumbering, kept ids are the objects' own ids and never repeat; once an id is cleared every later id is cleared; inputs without repeated ids keep all their ids |
| UnionSets.RenumberedIds | pyworkflow/em/protocol/protocol_sets.py:88-103 | with renumbering, the first object gets an id above every input id and all others a cleared id |
| UnionSets.UnionMicCtfCreateOutput | pyworkflow/em/protocol/protocol_sets.py:174-210 | it fails exactly when there are no input sets; otherwise the CTFs follow the union id rule, and each micrograph is appended right after its CTF with the CTF's id as it stands before the CTF is appended (kept, or cleared), see Left out, so the two outputs pair up position by position |
| UnionSets.ValidateSameKind | pyworkflow/em/protocol/protocol_sets.py:120-135 | the shared `_validate` of both unions (also lines 216-231); stated by `SameKindAccepted` and `AllSameKindAccepted` |
| UnionSets.AllSameKindAccepted | pyworkflow/em/protocol/protocol_sets.py:120-135 | sets of one class, all non-empty, with the same attribute names on their first element pass validation |
| UnionSets.SameKindAccepted | pyworkflow/em/protocol/protocol_sets.py:216-231 | validation of either union accepts exactly the inputs of one class that are all non-empty and share the first element's attribute names |
| SplitSets.ChunkSizes | pyworkflow/em/protocol/protocol_sets.py:283-284 | the `ns` list, with one size per requested subset and none when `n <= 0`; further stated by `ChunkSizesPartition` and `ChunkSizesPrefixSum` |
| SplitSets.ChunkSizesPartition | pyworkflow/em/protocol/protocol_sets.py:283-284 | for `n > 0` the chunk sizes add up to the set's size, never increase, and differ by at most one |
| SplitSets.ChunkSizesPrefixSum | pyworkflow/em/protocol/protocol_sets.py:283-295 | the first `k` chunk sizes add up to where chunk `k` starts |
| SplitSets.AdvanceChunk | pyworkflow/em/protocol/protocol_sets.py:291-293 | when the current chunk is full and elements remain, a next chunk exists, starts at the current element and has room |
| SplitSets.ChunksAfterEnd | pyworkflow/em/protocol/protocol_sets.py:290-295 | once the elements run out, every later chunk is empty |
| SplitSets.Chunk | pyworkflow/em/protocol/protocol_sets.py:283-295 | chunk `k` holds exactly its chunk size of consecutive elements |
| SplitSets.SplitCreateOutput | pyworkflow/em/protocol/protocol_sets.py:270-302 | with `n <= 0` and elements present, `ns[pos]` raises; otherwise there is one subset per requested set, each of the input class, and subset `k` is the `k`-th run of consecutive elements |
| SplitSets.SplitOutputKeysDistinct | pyworkflow/em/protocol/protocol_sets.py:297-301 | each output name is the class key followed by the two-digit subset number, which reads back as `k + 1`; no two subsets share a name |
| SplitSets.ValidateSplit | pyworkflow/em/protocol/protocol_sets.py:305-310 | there is an error exactly when the set has fewer elements than the subsets requested |
| SplitSets.ValidateSplitAdmitsZeroSets | pyworkflow/em/protocol/protocol_sets.py:305-310 | as written, a request for zero subsets of a one-element set passes validation and the split then fails |
| SplitSets.ValidateSplitCorrected | pyworkflow/em/protocol/protocol_sets.py:305-310 | the corrected rule reports an error exactly when fewer than one subset, or more subsets than elements, are requested |
| SplitSets.ValidatedSplitFillsEverySubset | pyworkflow/em/protocol/protocol_sets.py:283-310 | after the corrected validation the split cannot fail and every subset gets at least one element |
| Numerals.TwoDigitsRoundTrip | pyworkflow/em/protocol/protocol_sets.py:297-301 | the `'%02d'` rendering of a subset number parses back to that number |
| SubSets.FindById | pyworkflow/em/protocol/protocol_sets.py:384-385 | `inputFullSet[id]` finds an element exactly when the id occurs, and the element found carries that id |
| SubSets.FindByIdOfMember | pyworkflow/em/protocol/protocol_sets.py:384 | in a set with distinct ids, looking up an element's id finds that very element |
| SubSets.SubsetCreateOutput | pyworkflow/em/protocol/protocol_sets.py:363-386 | the non-random output has the full set's class and holds, in subset order, the full-set element for each subset id that the full set has |
| SubSets.Intersect | pyworkflow/em/protocol/protocol_sets.py:380-386 | the by-subset output; stated by `IntersectSound`, `IntersectComplete` and `IntersectOfSubsetIds` |
| SubSets.IntersectSound | pyworkflow/em/protocol/protocol_sets.py:380-386 | every output element belongs to the full set and has an id from the subset; the output is never longer than the subset |
| SubSets.IntersectComplete | pyworkflow/em/protocol/protocol_sets.py:380-386 | with distinct full-set ids, every full-set element whose id is in the subset is in the output |
| SubSets.IntersectOfSubsetIds | pyworkflow/em/protocol/protocol_sets.py:380-386 | a subset whose ids all occur in the full set is returned in full, with the same ids in the same order |
| SubSets.SubsetRandomCreateOutput | pyworkflow/em/protocol/protocol_sets.py:372-376 | sampling succeeds exactly when `0 <= nElements <= size`; the output then holds exactly `nElements` elements, those at the sampled positions, in full-set order |
| SubSets.Pick | pyworkflow/em/protocol/protocol_sets.py:373-376 | the elements at the sampled positions, in set order; stated by `PickSample` and `SubsetRandomCreateOutput` |
| SubSets.PickSample | pyworkflow/em/protocol/protocol_sets.py:373-376 | a sample of positions within the set yields as many elements as positions |
| SubSets.ValidateSubset | pyworkflow/em/protocol/protocol_sets.py:395-438 | the subset `_validate`; stated by `ValidateSubsetRandom`, `ValidateSubsetClasses` and `AnyIncompatibleIsRejectedPair` |
| SubSets.AnyIncompatible | pyworkflow/em/protocol/protocol_sets.py:429-436 | the loop over the incompatibility table; stated by `AnyIncompatibleIsRejectedPair` |
| SubSets.AnyIncompatibleIsRejectedPair | pyworkflow/em/protocol/protocol_sets.py:429-436 | the table loop rejects exactly the eight listed unordered pairs of distinct classes |
| SubSets.IncompatibleIsRejectedPair | pyworkflow/em/protocol/protocol_sets.py:429-436 | each table entry rejects only listed pairs, and every listed pair is rejected by some entry |
| SubSets.ValidateSubsetRandom | pyworkflow/em/protocol/protocol_sets.py:399-404 | random mode passes exactly when the sample size is at most the full set's size |
| SubSets.ValidateSubsetClasses | pyworkflow/em/protocol/protocol_sets.py:422-438 | with two sets, validation fails exactly for two different classes forming a listed pair; the answer does not depend on which set is the full one |
| SubSets.ValidateSubsetAdmitsNegativeSample | pyworkflow/em/protocol/protocol_sets.py:399-404 | as written, a negative sample size passes validation although sampling then refuses it |
| SubSets.ValidateSubsetCorrected | pyworkflow/em/protocol/protocol_sets.py:399-404 | the corrected rule passes random mode exactly when sampling will succeed, and keeps the two-set checks |
| Settings.LoadSettings | pyworkflow/config.py:44-58 | loading succeeds exactly when one settings object is stored, and returns it; none and more than one are distinct errors, the latter carrying the count |
| Settings.SettingList.constructor | pyworkflow/config.py:63-65 | a new list is empty with current index 0 |
| Settings.SettingList.SetIndex | pyworkflow/config.py:70-71 | the current index becomes the given one |
| Settings.PyIndex | pyworkflow/config.py:73-75 | Python list indexing: the element at the index, counted from the end when negative, and an index error exactly when out of range |
| Settings.SettingList.Append | pyworkflow/config.py:167-168 | the list gains the item at the end (the `append` that `addHost` and `addProtocolMenu` call) |
| Settings.SettingList.GetItem | pyworkflow/config.py:73-75 | the item at the current index, counted from the end when negative; an index error exactly when it is out of range |
| Settings.ProjectSettings.constructor | pyworkflow/config.py:80-89 | fresh empty host, menu and node lists (the node dictionary in sync), runs view 1, not read-only |
| Settings.ProjectSettings.AddHost | pyworkflow/config.py:103-104 | the host is appended to the host list |
| Settings.HostByLabel | pyworkflow/config.py:112-116 | the first host with the label, and `None` exactly when no host has it |
| Settings.ProjectSettings.GetHostByLabel | pyworkflow/config.py:112-116 | the loop returns the first host with the label, or `None` |
| Settings.ProjectSettings.DeleteHost | pyworkflow/config.py:130-137 | a host not in the list is an error and leaves the list unchanged; otherwise the first occurrence is removed |
| Settings.RemoveFirst | pyworkflow/config.py:137 | `list.remove`: one element shorter; what it removes is stated by `RemoveFirstShape` and `RemoveFirstMultiset` |
| Settings.RemoveFirstShape | pyworkflow/config.py:137 | removal drops the first occurrence only and keeps the elements before and after it in order |
| Settings.RemoveFirstMultiset | pyworkflow/config.py:137 | removal takes away exactly one copy of the host |
| Settings.RemoveFirstAfterAppend | pyworkflow/config.py:103-137 | deleting a host just added to a list that did not hold it restores the list |
| Settings.ProjectSettings.GetCurrentProtocolMenu | pyworkflow/config.py:145-146 | the menu at the current index, or an index error exactly when the index is out of range |
| Settings.ProjectSettings.SetCurrentProtocolMenu | pyworkflow/config.py:148-153 | the index is stored and the menu now current is returned: the menu at that index, or an index error exactly when the index is out of range |
| Settings.ProjectSettings.AddProtocolMenu | pyworkflow/config.py:167-168 | the menu is appended to the protocol menu list |
| Settings.ProjectSettings.AddProtocols | pyworkflow/config.py:170-199 | on success, the menu list gains the protocol menus of the section, in order; it fails exactly when building one of them fails |
| Settings.ProtocolMenusOf | pyworkflow/config.py:193-199 | the protocol menus of the `[PROTOCOLS]` section, in order; stated by `ProtocolMenusOfMirrors` |
| Settings.ProtocolMenusOfMirrors | pyworkflow/config.py:193-199 | the section loads exactly when every item in it gives a `text` key (null allowed); there is then one open protocol menu per entry, named after the entry, whose submenu tree mirrors the items node by node: text, value, tag, icon (given, else by tag) and open flag (given, else open unless tagged `protocol_base`) |
| Settings.ProjectSettings.AddNode | pyworkflow/config.py:251-252 | a fresh node with the given id, position and flags is appended to the node list and entered in the dictionary under its id, where it is found; a synced dictionary stays synced |
| Settings.ProjectSettings.GetNodeById | pyworkflow/config.py:248-249 | the node the dictionary holds for the id, or `None` when it holds none |
| Settings.IsOn | pyworkflow/config.py:221 | `isOn`; stated by `IntIsOn`, `IsOnValues` and `IsOnIgnoresCase` |
| Settings.IntIsOn | pyworkflow/config.py:221 | a number is on exactly when it is 1 |
| Settings.IsOnValues | pyworkflow/config.py:221 | a boolean is on exactly when true, an integer exactly when 1, and `null` never; `TRUE`, `Yes` and `1` are on, while `on`, `0`, `no` and ` true` are off |
| Settings.IsOnIgnoresCase | pyworkflow/config.py:221 | strings that differ only in the case of their letters are on or off together |
| Menus.NewMenu | pyworkflow/config.py:268-308 | a menu has the given text, value, tag and icon and no children; a plain menu is open only when told; a protocol menu, unless told, is open exactly when its tag is not `protocol_base` |
| Menus.ProtocolIconArgs | pyworkflow/config.py:310-316 | an explicit icon is kept; otherwise tag `protocol` gets `python_file.gif`, tag `protocol_base` gets `class_obj.gif`, and any other tag gets none |
| Menus.AddSubMenu | pyworkflow/config.py:287-317 | the menu gains one last child of its own kind, so its length grows by one and it is no longer empty; earlier children are kept; the child's icon and open flag follow the rules of its kind |
| Menus.Add | pyworkflow/config.py:177-182 | the recursive `add`; stated by `AddMirrors` |
| Menus.AddAll | pyworkflow/config.py:181-182 | the children loop of `add` and the item loop of `addProtocols`; stated by `AddAllMirrors` |
| Menus.AddMirrors | pyworkflow/config.py:177-182 | `add` succeeds exactly when every item in the tree gives a `text` key (a null text is accepted, a missing key is an error); it then appends one submenu mirroring the item tree node by node (kind, text, value, tag, the icon and open-flag defaults of the menu's kind) and keeps the earlier children |
| Menus.AddAllMirrors | pyworkflow/config.py:181-182 | adding a list of items succeeds exactly when every item in each tree gives a `text` key; it then appends one submenu per item, in order, mirroring it node by node (kind, text, value, tag, icon and open flag), leaving the menu's own fields alone |
| Menus.ProtocolMenuOf | pyworkflow/config.py:195-198 | one `[PROTOCOLS]` entry as a protocol menu; stated by `ProtocolMenuOfMirrors` |
| Menus.ProtocolMenuOfMirrors | pyworkflow/config.py:195-198 | a protocol menu built from items that all give a `text` key is named after its entry, open, and has one submenu per item mirroring it node by node, icons and open flags included |
| NodeConfigs.NodeConfig.constructor | pyworkflow/config.py:323-333 | a node holds the given id, position and flags |
| NodeConfigs.NodeConfig.SetPosition | pyworkflow/config.py:350-355 | the position read back is the one set; the flags are unchanged |
| NodeConfigs.NodeConfig.SetSelected | pyworkflow/config.py:357-358 | the selected flag becomes the given value |
| NodeConfigs.NodeConfig.SetExpanded | pyworkflow/config.py:363-364 | the expanded flag becomes the given value |
| NodeConfigs.NodeConfigList.constructor | pyworkflow/config.py:375-377 | a new list and its dictionary are empty and in sync |
| NodeConfigs.NodeConfigList.GetNode | pyworkflow/config.py:379-380 | the node held for the id, or `None` exactly when the dictionary has no such id |
| NodeConfigs.NodeConfigList.AddNode | pyworkflow/config.py:382-386 | a fresh node is appended to the list and entered in the dictionary under its id; looking the id up finds it; a synced list stays synced |
| NodeConfigs.NodeConfigList.UpdateDict | pyworkflow/config.py:388-391 | the dictionary is rebuilt from the list: later nodes with the same id win |
| NodeConfigs.NodeConfigList.Clear | pyworkflow/config.py:393-395 | the list and the dictionary are both emptied |
| NodeConfigs.DictOfKeys | pyworkflow/config.py:388-391 | the rebuilt dictionary holds exactly the ids that occur in the list |
| NodeConfigs.DictOfLast | pyworkflow/config.py:388-391 | every id of the list maps to the last node in the list with that id |
| NodeConfigs.DictOfLastWins | pyworkflow/config.py:388-391 | the rebuilt dictionary holds exactly the ids of the list, each mapped to the last node with that id |
| NodeConfigs.GetNodeOfSynced | pyworkflow/config.py:379-391 | in a synced list, `getNode` finds every id of the list and returns the last node with it |

## Left out

- Database and file I/O: the sqlite mapper behind sets, the set and done-list files (`_readDoneList` becomes a field), `commit`, `write`, `mapper.delete` and `getHostById` are not modelled.
- `copyInfo` and the sampling rate (including `binFactor` in `_loadOutputSet`) are not modelled; they copy acquisition metadata that no property here depends on.
- `_defineOutputs`, `_defineCtfRelation`, `_defineSourceRelation` and `_defineTransformRelation` of the set protocols are not modelled, because registering outputs is framework code outside this model. The split's output names are modelled (`SplitOutputKeys`), and so are the relations recorded by `_checkNewOutput`.
- SplitSets.SplitCreateOutput: follows ascending id order only; the `RANDOM()` ordering of `randomize` is an SQL-side shuffle, and the model does not say which element lands in which subset in that mode.
- SubSets.SubsetRandomCreateOutput: randomness is outside the model; the positions returned by `random.sample` are a parameter, and the method is proved for every sample of the requested size.
- `_isMovieDone`, `_getMovieShifts`, `_doGenerateOutputMovies` and `_getFirstJoinStep` become parameters or fields; they are hooks or framework code defined outside the modelled files.
- `_updateOutputSet` is modelled inline: the stream state is set on the output set and the set is written back to its file. Whatever else the framework does there (defining the output, storing it) is not modelled.
- `_preprocessOutputMicrograph` is not modelled, and neither is the micrograph's file name. A micrograph carries only the movie's id and micrograph name; the hook does nothing in the base class.
- Output file names (`_getOutputMovieName`, `_getOutputMicName`, the `_aligned`/`_original` suffix) are left out: they only name files.
- AlignMovies.ProtAlignMovies.CheckNewOutput: one pass at a time; concurrent steps, and the streaming framework that refreshes `listOfMovies` between passes, are out of scope.
- `addHosts` is modelled only through `isOn`: the rest parses a file with `ConfigParser` and JSON, reads environment variables and calls `sys.exit`, which is I/O. Only the host label, name and path are modelled.
- `loadConfig`, `getConfig`, `getHosts`, `getNodes`, the runs-view and read-only getters and setters, and `runSelection` are not modelled: they are plain accessors or only call modelled operations.
- Settings.IsOnValues: lower-casing is modelled for ASCII letters only.
- Settings.IsOn: floating-point JSON values (`str(1.0)` is `1.0`) are not modelled; such a value is never on, because its printed form is none of the words for yes. Strings, booleans, integers and `null` are modelled.
- Menus.AddSubMenu: menu trees are values; a submenu returned by `addSubMenu` stays shared with its parent in the source, while the model returns the updated parent, so that aliasing is not captured.
- Menus.AddMirrors: a missing `text` key is the only failure of `add` modelled; other bad keywords, which Python would also reject, are not represented.
- AlignMovies.CreateOutputMovie: movies carry no file name, so the renaming of the output movie into the protocol's extra path when the movie is saved is not modelled; the contract covers the other fields and the alignment.
- UnionSets.UnionMicCtfCreateOutput: each micrograph takes its CTF's id as it stands before the CTF is appended (kept, or cleared), while the source copies the id after the append, when a cleared id has already been assigned by the output set. The micrograph ids agree with the CTF ids only if both fresh output sets assign cleared ids from the same sequence; id assignment (`pyworkflow/object.py`) is not part of this model.
- Settings.SettingList.GetItem: `pyworkflow/object.py` is not part of this model; `List` is assumed to index like a Python list, negative indices included.
- Settings.ProjectSettings.DeleteHost: `List` is assumed to remove like a Python list (first occurrence only), with host equality as value equality.
- Integers are unbounded, as Python's are.

## Findings

| source | as written | input that shows it | evidently intended | confidence | as-written member | corrected member |
|---|---|---|---|---|---|---|
| pyworkflow/em/protocol/protocol_sets.py:305-310 | `_validate` only rejects `size < numberOfSets` | a set of one element with `numberOfSets = 0`: validation passes, then `ns[pos]` on the empty `ns` raises `IndexError` | reject fewer than one subset as well | not executed | SplitSets.ValidateSplitAdmitsZeroSets | SplitSets.ValidateSplitCorrected |
| pyworkflow/em/protocol/protocol_sets.py:399-404 | random mode only rejects `nElements > len(fullSet)` | `nElements = -1` on a set of three: validation passes, then `random.sample` raises `ValueError` | reject negative sample sizes too | not executed | SubSets.ValidateSubsetAdmitsNegativeSample | SubSets.ValidateSubsetCorrected |
