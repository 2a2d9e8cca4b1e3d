# chef_auto_accumulator configuration-tree accumulator, in Dafny

The cookbook `chef_auto_accumulator` lets many Chef resources each edit one
fragment of a shared configuration tree. The tree is a nested structure of
Hashes, Arrays and scalars. It is held in a Chef template's variables and
written out once per run.

This project models both copies of the accumulator's core and proves
properties of it:

- the current library, under `libraries/chef_auto_accumulator/`;
- the older copy, under `libraries/`.

## Parts of the model

- **Tree** (`tree.dfy`): the tree value and the Ruby operations the library relies on.
  - The value is `Nil | Bool | Int | Str | Sym | Map | List`.
  - A Hash is an ordered sequence of entries.
  - `eql?` is structural equality, with the entries of a Hash compared in order (see "## Left out").
  - The modelled Ruby operations include `[]`, `fetch`, `dig`, `[]=`, `delete_at`, `merge!`, `push` and `concat`.
  - `select`, `uniq` and `delete_if` are in `lists.dfy`; `gsub`, `split`, `join` and `upcase` are in `text.dfy`.
  - A position inside the tree is a path of steps, addressed by `GetAt` and `PutAt`.
- **Shared tree** (`template.dfy`): the shared tree is the class `ConfigTemplate`. Its one field `content` is updated in place by:
  - the path-initialisation walk;
  - the contained-path search;
  - every accumulator action.

  Each method is proved equal to a function of the old content. The properties are proved about those functions.
- **Current library:**

  | file | models |
  |---|---|
  | `paths.dfy` | `accumulator_config_path_init`, `accumulator_config_containing_path_init`, `accumulator_config_path_filter` |
  | `accumulator.dfy` | `accumulator_config_array_index`, `accumulator_config_array_present?`, the push decision, every action of `accumulator_config` |
  | `contained.dfy` | the nested-spec test and the containing key |
  | `config_path.dfy` | the default and actual configuration paths |
  | `section_read.dfy` | the read side over an already-loaded tree |
  | `options.dfy` | the option validators |
  | `translation.dfy` | property-name translation |
  | `file_types.dfy` | file types, templates and `ENUM_DEEP_CLEAN` |
  | `state.dfy` | `run_state_cache` |
  | `utils.dfy` | `nil_or_empty?`, `multi_is_a?`, `kv_test_log` |

- **Legacy copy:**
  - `legacy_accumulator.dfy`: `accumulator_config`, `accumulator_config_path_init` and `resource_properties`.
  - `legacy_section_read.dfy`, `legacy_options.dfy`, `legacy_translation.dfy` and `legacy_file_types.dfy`: the legacy read side, options, translation and file types.
- **Helpers:**
  - `lists.dfy`: the `select`, `uniq`, `delete_if` and positional-delete helpers.
  - `text.dfy`: the string helpers (`gsub`, `split`, `join`, `upcase`).

Errors are values of a `Result` type:

- Ruby exceptions become tagged `Error` variants.
- A `NoMethodError` counts as a `NameError`, its superclass. This matters because `accumulator_config_containing_path_init` rescues `NameError`.
- Options are passed in as a Hash of entries. Only their validation is modelled.
- The configuration path, the resource's match map and its property names are parameters.

Where the specification and the code disagree, the model follows the code:

- The specification treats the options as already validated. The code validates them on each read, and the model carries that validation's error cases.
- The specification describes accumulation as idempotent. The legacy `append` and `push` are not: `LegacyAccumulator.AppendTwice` and `LegacyAccumulator.PushTwice` state what a repeat call does.
- The legacy `accumulator_config` is documented as returning nil. The code returns the value of its `case` expression, and the model returns that value.

There is one exception to following the code: the defects listed under "## Findings".

- A routine that holds such a defect has two members: one as written, and one corrected.
- The routines built on top of it use the corrected member. On the inputs a finding names, they compute what the authors evidently intended, not what the code does.
- Each such member has a line under "## Left out" that names the correction it follows.
- `Paths.ContainingPathInitAsWritten` raises the code's errors for both of the defects it meets: several matches and a mixed nested specification.
- `Accumulator.ArrayIndexAsWritten` raises the code's error for the Hash path types. It reaches the path through the corrected helpers.

## Model

| member | source | states |
|---|---|---|
| Utils.NilOrEmpty | libraries/chef_auto_accumulator/_utils.rb:29-31 | true iff some argument is nil or empty; false for no arguments |
| Utils.NilOrEmptySingle | libraries/_utils.rb:29-31 | for one argument: true exactly for nil, an empty String, Symbol, Hash or Array; never for an Integer or a boolean |
| Utils.MultiIsA | libraries/chef_auto_accumulator/_utils.rb:81-83 | true iff the object is an instance of at least one of the classes |
| Utils.KvTest | libraries/chef_auto_accumulator/_utils.rb:92-100 | `ArgumentError` for an object without `fetch`; on a Hash, the stored value `eql?` the expected one, and a missing key matches only nil |
| Lists.Select | libraries/chef_auto_accumulator/config/file.rb:90 | `select` on a non-collection is a `NameError`; on an Array or Hash it is the filtered elements |
| Lists.SelectItems | libraries/chef_auto_accumulator/config/file.rb:90 | succeeds iff every element can be indexed by the key; keeps exactly the elements whose value under the key `eql?` the match value, never more than there were |
| Lists.Uniq | libraries/chef_auto_accumulator/config/file.rb:82 | the same members without repeats, first element first, never longer |
| Lists.UniqAtMostOne | libraries/chef_auto_accumulator/config/file.rb:94 | `uniq` leaves at most one element iff all elements are equal, so identical duplicates are not ambiguous |
| Lists.AnyMatch | libraries/chef_auto_accumulator/resource.rb:227 | `match.any?` holds iff some pair of the match map matches the element; `ArgumentError` when a pair must be tested on an element without `fetch` |
| Lists.MatchIndices | libraries/chef_auto_accumulator/resource.rb:227-242 | index i is listed iff some match pair matches element i; the list is strictly descending |
| Lists.DeleteDescending | libraries/chef_auto_accumulator/resource.rb:190 | `delete_at` over strictly descending indices removes exactly those positions |
| Lists.WithoutMembers | libraries/chef_auto_accumulator/resource.rb:195 | an element survives iff it stood at a position that was not deleted |
| Lists.DeleteIfAnyIsUnion | libraries/chef_auto_accumulator/resource.rb:177 | one `delete_if` per match pair keeps exactly the elements that no pair matches |
| Text.SplitJoinIsSwap | libraries/chef_auto_accumulator/config/path.rb:40 | `split('_').join('.')` equals turning every `_` into `.` after dropping trailing `_` |
| Tree.MergeLookup | libraries/chef_auto_accumulator/resource.rb:163 | shallow `merge!`: a key is present iff it is in either Hash, and the merged-in Hash wins |
| Options.FileType | libraries/chef_auto_accumulator/resource/options.rb:34-41 | succeeds iff the option is a String or Symbol, giving its upcased Symbol; otherwise malformed |
| Options.BasePath | libraries/chef_auto_accumulator/resource/options.rb:47-56 | nil when absent, the String when a String, otherwise malformed |
| Options.PathOverride | libraries/chef_auto_accumulator/resource/options.rb:62-71 | nil when absent, the Array when an Array, otherwise malformed |
| Options.PathTypeOf | libraries/chef_auto_accumulator/resource/options.rb:77-84 | `:hash` when absent; fails iff the option names none of the four path types |
| Options.PathMatchKey | libraries/chef_auto_accumulator/resource/options.rb:90-97 | accepted iff a String, Symbol or Array, else malformed (absent included); an accepted key is truthy |
| Options.Required | libraries/chef_auto_accumulator/resource/options.rb:103-149 | the match value, contained key and config match key/value are returned when truthy and are "not defined" errors otherwise |
| Options.PropertiesSkip | libraries/chef_auto_accumulator/resource/options.rb:155-164 | nil when absent, the Array when an Array, otherwise malformed |
| Options.PropertyNameGsubAsWritten | libraries/chef_auto_accumulator/resource/options.rb:170-180 | as written: fails iff the option is set but is not two Strings, and then with `NameError` |
| Options.PropertyNameGsub | libraries/chef_auto_accumulator/resource/options.rb:170-180 | nil when absent; the pair when an Array of exactly two Strings; otherwise malformed |
| Options.GsubReadingsAgree | libraries/chef_auto_accumulator/resource/options.rb:170-180 | the two readings fail on the same options and agree wherever they succeed |
| Options.GsubMalformedRaisesNameError | libraries/chef_auto_accumulator/resource/options.rb:175 | a String gsub option raises `NameError` as written, and a malformed-option error as intended |
| Options.TranslationMatrix | libraries/chef_auto_accumulator/resource/options.rb:186-194 | nil when absent, the Hash when a Hash, otherwise malformed |
| Options.ResourceOptions | libraries/chef_auto_accumulator/resource/options.rb:200-225 | `{}` without options; the options merged with overrides on top; each error case of a non-Hash |
| Options.OverridesWin | libraries/chef_auto_accumulator/resource/options.rb:214-216 | every option read after the merge is the override's value when the override sets it, else the base value |
| LegacyOptions.FileType | libraries/resource/options.rb:34-41 | the upcased Symbol of a String or Symbol, otherwise `ArgumentError` |
| LegacyOptions.BasePath | libraries/resource/options.rb:47-56 | nil when absent, the String when a String, otherwise `ArgumentError` |
| LegacyOptions.PathOverride | libraries/resource/options.rb:62-71 | nil when absent, the Array when an Array, otherwise `ArgumentError` |
| LegacyOptions.PathTypeOf | libraries/resource/options.rb:77-84 | `:hash` when absent; `ArgumentError` iff the option names no path type |
| LegacyOptions.PathMatchKey | libraries/resource/options.rb:90-98 | accepted iff a String or Symbol; an Array is rejected |
| LegacyOptions.Required | libraries/resource/options.rb:104-150 | the value when truthy, otherwise `ArgumentError` |
| LegacyOptions.PropertiesSkip | libraries/resource/options.rb:156-165 | nil when absent, the Array when an Array, otherwise `ArgumentError` |
| LegacyOptions.PropertyNameGsub | libraries/resource/options.rb:171-182 | nil when absent; an Array of exactly two Strings; otherwise `ArgumentError` |
| LegacyOptions.TranslationMatrix | libraries/resource/options.rb:188-196 | nil when absent, the Hash when a Hash, otherwise `ArgumentError` |
| LegacyOptions.ResourceOptions | libraries/resource/options.rb:202-227 | `{}` without options; overrides merged on top; each error case of a non-Hash |
| LegacyOptions.AgreesWithCurrent | libraries/resource/options.rb:34-196 | where the legacy validators accept, they return what the current ones return; only the current path match key accepts an Array |
| Translation.FindValue | libraries/chef_auto_accumulator/resource/property_translation.rb:37-38 | `Hash#key`: the first entry holding the value, or none when no entry holds it |
| Translation.KeyOfLookup | libraries/chef_auto_accumulator/resource/property_translation.rb:37-38 | in an injective matrix, the key found for a key's own value is that key |
| Translation.ValueWith | libraries/chef_auto_accumulator/resource/property_translation.rb:61-70 | the matrix value for a known key, else the key, as a String, then the gsub pair replaced throughout |
| Translation.KeyWith | libraries/chef_auto_accumulator/resource/property_translation.rb:37-46 | the matrix key holding the value, else the value, as a String, then the reversed gsub pair replaced throughout |
| Translation.PropertyValue | libraries/chef_auto_accumulator/resource/property_translation.rb:57-74 | nil for a nil or false key; a malformed matrix or gsub option is its error; otherwise the translated name |
| Translation.PropertyKey | libraries/chef_auto_accumulator/resource/property_translation.rb:33-50 | nil for a nil or false value; option errors propagate; otherwise the untranslated name |
| Translation.NoOptionsIsToS | libraries/chef_auto_accumulator/resource/property_translation.rb:61-68 | without a matrix or gsub both directions are `to_s` |
| Translation.ReplaceChar | libraries/chef_auto_accumulator/resource/property_translation.rb:70 | replacing one character by another changes exactly its occurrences and keeps the length |
| Translation.GsubCharRoundTrip | libraries/chef_auto_accumulator/resource/property_translation.rb:46 | the reversed single-character gsub undoes the forward one when the target character was absent |
| Translation.MatrixRoundTrip | libraries/chef_auto_accumulator/resource/property_translation.rb:28-29 | with an injective String-valued matrix and no gsub, translating a key there and back gives `k.to_s` |
| Translation.GsubRoundTrip | libraries/chef_auto_accumulator/resource/property_translation.rb:46 | with a one-character gsub pair and no matrix, a name without the target character translates there and back to itself |
| LegacyTranslation.PropertyValue | libraries/resource/property_translation.rb:49-59 | nil for a falsy key; a matrix hit is returned as is; a miss is `to_s` with the gsub applied; errors are `ArgumentError` |
| LegacyTranslation.PropertyKey | libraries/resource/property_translation.rb:32-42 | nil for a falsy value; a matrix hit returns the key unconverted; a miss is `to_s` with the reversed gsub |
| LegacyTranslation.MatrixHitIgnoresGsub | libraries/resource/property_translation.rb:51-52 | a matrix hit bypasses the gsub entirely |
| LegacyTranslation.MatrixRoundTrip | libraries/resource/property_translation.rb:32-52 | with an injective matrix, translating a listed key there and back gives the key itself, not its String |
| LegacyTranslation.AgreesWithCurrentOnStrings | libraries/resource/property_translation.rb:49-59 | on a String-valued matrix hit without gsub, the legacy and current translations agree |
| ConfigPath.DottedIsSwap | libraries/chef_auto_accumulator/config/path.rb:34-40 | the dotted name is the type name, with the base path removed, trailing `_` dropped and every `_` turned into `.` |
| ConfigPath.DefaultPathAsWritten | libraries/chef_auto_accumulator/config/path.rb:32-46 | as written: fails only on a malformed base path, and is always the one-element path of the dotted name |
| ConfigPath.DefaultPath | libraries/chef_auto_accumulator/config/path.rb:32-46 | as intended: the one-element dotted path, raising when the dotted name is empty |
| ConfigPath.DefaultPathAgrees | libraries/chef_auto_accumulator/config/path.rb:40-43 | both readings agree except on an empty name, which as written yields `['']` |
| ConfigPath.EmptyNameSlipsThrough | libraries/chef_auto_accumulator/config/path.rb:40-43 | type `foo` with base path `foo` gives `['']` as written and raises as intended |
| ConfigPath.DefaultPathShape | libraries/chef_auto_accumulator/config/path.rb:37-40 | without a base path the default is one String as long as the type name, with `_` turned into `.` and nothing else changed |
| ConfigPath.ResourcePath | libraries/chef_auto_accumulator/config/path.rb:52-56 | a set override is returned unchanged; otherwise the default path |
| Contained.Classify | libraries/chef_auto_accumulator/config/accumulator.rb:36-43 | false iff no element is an Array; true iff all are and there is one; otherwise the mixed error |
| Contained.ContainedNestedWith | libraries/chef_auto_accumulator/config/accumulator.rb:35-46 | a bad match key propagates; a missing match value or contained key gives false; otherwise the classification of the triple, true only when all three are Arrays |
| Contained.NestedReadingsAgree | libraries/chef_auto_accumulator/config/accumulator.rb:40-41 | the as-written and intended nested tests agree except on a mixed triple, which raises `NameError` as written |
| Contained.MixedTupleRaisesNameError | libraries/chef_auto_accumulator/config/accumulator.rb:40-41 | an Array match key with scalar value and contained key raises `NameError` instead of the malformed-option error |
| Contained.ContainingKey | libraries/chef_auto_accumulator/config/accumulator.rb:52-54 | the last contained key when nested, the contained key itself when not, the error otherwise |
| FileTypes.ConfigFileType | libraries/chef_auto_accumulator/file.rb:48-54 | the file type iff it is INI, JSON, JSONC, TOML or YAML, else `ArgumentError` |
| FileTypes.TemplateForEachType | libraries/chef_auto_accumulator/file.rb:60-72 | `file_bare.erb` for JSON, `file.erb` for the other supported types, the type error otherwise |
| FileTypes.ShouldDeleteIff | libraries/chef_auto_accumulator/file.rb:41 | the proc deletes exactly nil, the empty Symbol, `{}` and `[]`, keeping every String |
| FileTypes.CleanIsTidy | libraries/chef_auto_accumulator/file.rb:38-42 | after cleaning, no nil or empty container is left at any depth |
| FileTypes.CleanItemsTidy | libraries/chef_auto_accumulator/file.rb:40 | a cleaned Array holds only tidy elements that the proc keeps |
| FileTypes.CleanEntriesTidy | libraries/chef_auto_accumulator/file.rb:40 | a cleaned Hash holds only tidy values that the proc keeps |
| FileTypes.CleanEntryTidy | libraries/chef_auto_accumulator/file.rb:39 | the value of a cleaned entry is tidy |
| FileTypes.TidyIsClean | libraries/chef_auto_accumulator/file.rb:38-42 | cleaning a tidy tree changes nothing |
| FileTypes.TidyItemsClean | libraries/chef_auto_accumulator/file.rb:40 | cleaning a tidy Array changes nothing |
| FileTypes.TidyEntriesClean | libraries/chef_auto_accumulator/file.rb:40 | cleaning a tidy Hash changes nothing |
| FileTypes.TidyEntryClean | libraries/chef_auto_accumulator/file.rb:39 | cleaning a tidy entry changes nothing |
| FileTypes.CleanIdempotent | libraries/chef_auto_accumulator/file.rb:38-42 | cleaning twice equals cleaning once |
| FileTypes.CleanItemsMembers | libraries/chef_auto_accumulator/file.rb:40-41 | children are cleaned before the container judges them: a kept element is the cleaned form of an original one that the proc does not delete |
| FileTypes.KeepsScalars | libraries/chef_auto_accumulator/file.rb:41 | every String (even empty), Integer, boolean and non-empty Symbol survives |
| FileTypes.NestedEmptiesRemoved | libraries/chef_auto_accumulator/file.rb:40-41 | an Array emptied by pruning is itself removed, while `""` stays |
| FileTypes.DeepClean | libraries/chef_auto_accumulator/file.rb:38-42 | the in-place pruning leaves the cleaned value and answers whether the parent deletes it |
| FileTypes.DeepCleanItems | libraries/chef_auto_accumulator/file.rb:40 | the `delete_if` loop over an Array keeps exactly the cleaned surviving elements |
| FileTypes.DeepCleanEntries | libraries/chef_auto_accumulator/file.rb:40 | the `delete_if` loop over a Hash keeps exactly the cleaned surviving entries |
| FileTypes.DeepCleanEntry | libraries/chef_auto_accumulator/file.rb:39-41 | the proc on a Hash pair judges the cleaned value |
| LegacyFileTypes.ConfigFileType | libraries/file.rb:34-40 | the file type iff supported, else `ArgumentError` |
| LegacyFileTypes.TemplateAgreesWithCurrent | libraries/file.rb:42-54 | the intended legacy mapping equals the current one; the as-written mapping differs exactly on `:YAML` |
| LegacyFileTypes.YamlHasNoTemplate | libraries/file.rb:46-50 | `config_file_type :yaml` raises `NameError` as written and yields `file.erb` as intended |
| State.CacheStep | libraries/chef_auto_accumulator/state.rb:40-48 | a populated Hash under the key is descended into unchanged; otherwise the key is set to `{}` and that is the new level |
| State.CacheWalk | libraries/chef_auto_accumulator/state.rb:37-49 | the walk ends at a Hash reached along exactly the given keys |
| State.CacheAsWritten | libraries/chef_auto_accumulator/state.rb:33-53 | as written: the result is a Hash reached along the keys |
| State.Cache | libraries/chef_auto_accumulator/state.rb:33-53 | as intended: the result is a Hash reached along the keys |
| State.PopulatedUnchanged | libraries/chef_auto_accumulator/state.rb:40-43 | when every level along the keys is a populated Hash, the cache is left unchanged |
| State.ResetToEmpty | libraries/chef_auto_accumulator/state.rb:47-48 | an absent, empty or non-Hash value is replaced by `{}`, which is returned |
| State.OneKeyAgrees | libraries/chef_auto_accumulator/state.rb:40 | with one key the two readings of the emptiness test coincide |
| State.AsWrittenResetsInner | libraries/chef_auto_accumulator/state.rb:40 | as written, keys `[:a, :b]` reset a populated inner Hash `{x: 1}` to `{}` |
| State.InnerHashReset | libraries/chef_auto_accumulator/state.rb:40 | the same cache is reset as written and left unchanged as intended |
| State.Node.RunStateCache | libraries/chef_auto_accumulator/state.rb:33-53 | as intended (the corrected `Cache`): creates the root entry if absent, updates only that entry of `run_state`, and returns the path of the Hash reached along the keys |
| Paths.Fresh | libraries/chef_auto_accumulator/resource.rb:346-350 | a new level is `[]` iff a list action is creating the last segment, otherwise `{}` |
| Paths.Level | libraries/chef_auto_accumulator/resource.rb:345-353 | one step of `||=`: a truthy child is kept as is; otherwise a fresh container is stored; the step then reaches the child |
| Paths.Attach | libraries/chef_auto_accumulator/resource.rb:345-353 | writing the rest of the walk back into a level keeps the path and the object reached |
| Paths.InitAt | libraries/chef_auto_accumulator/resource.rb:344-355 | an empty path reaches the start; a successful walk reaches an object along a path as long as the key list |
| Paths.PathInit | libraries/chef_auto_accumulator/resource.rb:334-356 | a successful initialisation returns a place that exists in the new tree |
| Paths.DigLocate | libraries/chef_auto_accumulator/resource.rb:340-341 | a Hash or Array found by `dig` is the object at the located place |
| Paths.DigAfterInit | libraries/chef_auto_accumulator/resource.rb:340-355 | after the walk, `dig` along the path finds the object the walk returned |
| Paths.InitAtIdempotent | libraries/chef_auto_accumulator/resource.rb:345-353 | walking the same path again, with any action, changes nothing and returns the same place |
| Paths.PathInitIdempotent | libraries/chef_auto_accumulator/resource.rb:337-355 | repeat initialisation creates no duplicate structure |
| Paths.ExistingPathUnchanged | libraries/chef_auto_accumulator/resource.rb:340-341 | an existing Hash or Array at the path is returned and the tree is unchanged |
| Paths.InitLeaf | libraries/chef_auto_accumulator/resource.rb:345-355 | the walk ends at the existing truthy value or else at a fresh `{}` or `[]` |
| Paths.EmptyDig | libraries/chef_auto_accumulator/resource.rb:340 | `dig` into an empty Hash or Array finds nil |
| Paths.Subjects | libraries/chef_auto_accumulator/resource.rb:432 | the filter block sees the Array's elements, or the Hash's keys |
| Paths.FilterFrom | libraries/chef_auto_accumulator/resource.rb:432 | succeeds iff every subject can be indexed; lists exactly the positions whose value `eql?` the filter value, in order |
| Paths.ItemPlace | libraries/chef_auto_accumulator/resource.rb:440 | the place of a matched Array element holds that element |
| Paths.FilterWith | libraries/chef_auto_accumulator/resource.rb:427-441 | `RuntimeError` for a non-collection; nil iff nothing matches; the error iff two match; otherwise the single match |
| Paths.DuplicateMatchRaisesArgumentError | libraries/chef_auto_accumulator/resource.rb:438 | two matching elements raise `ArgumentError` as written and `FilterError` as intended |
| Paths.FetchPlace | libraries/chef_auto_accumulator/resource.rb:407 | `fetch(ck)` reaches the value under the key, or fails as `fetch` does |
| Paths.ContainedWalk | libraries/chef_auto_accumulator/resource.rb:392-408 | with no tuples left or a nil search object the walk stops where it is |
| Paths.Rescue | libraries/chef_auto_accumulator/resource.rb:416-417 | `NameError` and `KeyError` become the no-parent-path error; other errors pass through |
| Paths.ContainingWith | libraries/chef_auto_accumulator/resource.rb:366-418 | option errors come first; the tree is the initialised parent path; an all-nil path returns the root; no bare `NameError` or `KeyError` escapes |
| Paths.MixedNestingReadsAsNoParent | libraries/chef_auto_accumulator/resource.rb:385-417 | a mixed nested specification: as written the rescued `NameError` reports the missing parent path, as intended the malformed option |
| Paths.ContainingIdempotent | libraries/chef_auto_accumulator/resource.rb:376-418 | a second containing-path initialisation returns the same tree and place |
| SectionRead.TranslatedKey | libraries/chef_auto_accumulator/config/file.rb:82 | nil for a falsy key, else the translated property name as a String |
| SectionRead.Section | libraries/chef_auto_accumulator/config/file.rb:49-59 | nil for a nil or empty tree, otherwise `dig` along the resource path |
| SectionRead.SectionUnderDottedName | libraries/chef_auto_accumulator/config/file.rb:54-55 | without an override the section is the value under the dotted type name |
| SectionRead.SettleUniq | libraries/chef_auto_accumulator/config/file.rb:94-95 | after `uniq`: none gives nil, all equal gives that element, otherwise the error |
| SectionRead.SelectHashes | libraries/chef_auto_accumulator/config/file.rb:90 | over Hashes, `select` succeeds and keeps exactly the Hashes holding the value |
| SectionRead.PickAmongHashes | libraries/chef_auto_accumulator/config/file.rb:90-95 | nil iff no Hash holds the value; the error iff two different ones do; otherwise one that holds it |
| SectionRead.Zip | libraries/chef_auto_accumulator/config/file.rb:74 | `zip` pads the shorter lists with nil |
| SectionRead.DropLast | libraries/chef_auto_accumulator/config/file.rb:74 | `slice(0...-1)` drops the last element |
| SectionRead.DescendLastLevel | libraries/chef_auto_accumulator/config/file.rb:80-85 | the last triple has no containing key, so its filtered `uniq` list is the result |
| SectionRead.TwoLevels | libraries/chef_auto_accumulator/config/file.rb:80-85 | with two triples the search descends into the first match's contained key; with no first match `fetch` on nil raises `NameError` |
| SectionRead.SearchNested | libraries/chef_auto_accumulator/config/file.rb:77-88 | the `while` loop over the triples computes the nested descent |
| SectionRead.SectionItem | libraries/chef_auto_accumulator/config/file.rb:66-100 | nil for a nil or empty section; section errors propagate |
| SectionRead.FlatSectionItem | libraries/chef_auto_accumulator/config/file.rb:89-95 | flat case over Hashes: nil iff none matches, `RuntimeError` iff two different ones match, otherwise a match |
| SectionRead.LoadSectionItem | libraries/chef_auto_accumulator/config/file.rb:66-100 | the imperative item loader computes the item |
| SectionRead.ContainedItem | libraries/chef_auto_accumulator/config/file.rb:107-125 | nil for a nil or empty item and for a missing contained key |
| SectionRead.ContainedItemUnique | libraries/chef_auto_accumulator/config/file.rb:116-124 | nil iff no contained Hash matches, `CurrentValueDoesNotExist` iff two different ones match, otherwise a match |
| Accumulator.Matching | libraries/chef_auto_accumulator/resource.rb:227 | the matched positions of a collection, strictly descending, each a position where some match pair holds |
| Accumulator.ArrayIndexWith | libraries/chef_auto_accumulator/resource.rb:216-246 | the Hash path types raise; a result exists only for the Array path types; any tree change is the path initialisation; under `:array` the result is the matching positions of the Array at the initialised path; under `:array_contained` it is nil for a falsy contained parent, otherwise the matching positions of `parent.fetch(key, [])` |
| Accumulator.HashPathIndexRaisesNameError | libraries/chef_auto_accumulator/resource.rb:238-239 | on a `:hash` resource the index raises `NameError` as written and `ArgumentError` as intended |
| Accumulator.PushDecision | libraries/chef_auto_accumulator/resource.rb:119-136 | create iff no match; merge iff one match, a Hash value and no force; replace iff several matches or force; otherwise `RuntimeError` |
| Accumulator.ForceWithoutMatchCreates | libraries/chef_auto_accumulator/resource.rb:119-127 | force with no match still creates; force with matches replaces |
| Accumulator.SetOn | libraries/chef_auto_accumulator/resource.rb:145-147 | `set` overwrites the key unconditionally, after which the key reads the value |
| Accumulator.DeleteOn | libraries/chef_auto_accumulator/resource.rb:148-150 | `delete` removes the key and keeps every other one; an absent key is a no-op |
| Accumulator.AppendToHash | libraries/chef_auto_accumulator/resource.rb:151-154 | `append` sets an absent key to the String, leaves a String already containing it alone, and otherwise concatenates |
| Accumulator.AppendTwice | libraries/chef_auto_accumulator/resource.rb:151-154 | a repeated `append` of the same String is a no-op |
| Accumulator.ReplaceIn | libraries/chef_auto_accumulator/resource.rb:164-166 | replace deletes the matched positions and pushes the value at the end |
| Accumulator.DeleteFrom | libraries/chef_auto_accumulator/resource.rb:195 | without matches nothing changes; with them exactly the matched positions go |
| Accumulator.MatchSelfOn | libraries/chef_auto_accumulator/resource.rb:173-177 | a nil or empty object is returned untouched; an empty match map changes nothing; a non-collection under the key raises `NameError` and changes nothing; only the collection under the key can change, so every other key of a Hash, and whether the key is present, stay as they were |
| Accumulator.KeyDeleteOn | libraries/chef_auto_accumulator/resource.rb:172 | without matches `key_delete` changes nothing |
| Accumulator.KeyDeleteMatches | libraries/chef_auto_accumulator/resource.rb:168-172 | `key_delete` removes exactly the matched elements of the Array under the key, keeps the others in order, and leaves every other key alone |
| Accumulator.ArrayDeleteOn | libraries/chef_auto_accumulator/resource.rb:195 | without matches `array_delete` changes nothing |
| Accumulator.Finish | libraries/chef_auto_accumulator/resource.rb:200-209 | the object the action left is found at its place in the tree (a detached object leaves the tree as it was); the result is the error, nil after an early return, `config_path[config_key]` when a key is given, and the object otherwise |
| Accumulator.ConfigPlace | libraries/chef_auto_accumulator/resource.rb:99-106 | every path type first initialises the path; the non-contained types act on the place it returns |
| Accumulator.Perform | libraries/chef_auto_accumulator/resource.rb:141-198 | an unsupported action raises `ArgumentError` and changes nothing |
| Accumulator.ConfigAt | libraries/chef_auto_accumulator/resource.rb:99-209 | succeeds only for a supported action on a place that was found; an unsupported action raises after the path initialisation, which is the only change it leaves |
| Accumulator.Config | libraries/chef_auto_accumulator/resource.rb:97-210 | `accumulator_config` succeeds only for a supported action, a valid configuration path and a valid path type; an invalid path raises before anything changes |
| Accumulator.DeleteAllLength | libraries/chef_auto_accumulator/resource.rb:165 | deleting n distinct descending positions shortens the list by n |
| Accumulator.MergeIntoMatch | libraries/chef_auto_accumulator/resource.rb:186-188 | merge keeps the length, changes only the matched element, and overwrites its top-level keys with the value's |
| Accumulator.ReplaceMatches | libraries/chef_auto_accumulator/resource.rb:189-191 | replace removes exactly the matched elements, keeps the rest in order and appends the value: length − matches + 1 |
| Accumulator.KeyPushCreates | libraries/chef_auto_accumulator/resource.rb:158-160 | create initialises a missing list to `[value]` and otherwise appends |
| Accumulator.KeyPushMerge | libraries/chef_auto_accumulator/resource.rb:161-163 | `key_push` merge keeps the length of the Array under the key, changes only the matched Hash, whose keys the value overwrites, and leaves every other key alone |
| Accumulator.KeyPushReplace | libraries/chef_auto_accumulator/resource.rb:164-166 | `key_push` replace removes exactly the matched elements under the key and appends the value: length − matches + 1 |
| Accumulator.DeleteMatches | libraries/chef_auto_accumulator/resource.rb:193-195 | `array_delete` removes exactly the matched elements and keeps the others in order |
| Accumulator.MatchSelfKeepsUnmatched | libraries/chef_auto_accumulator/resource.rb:173-177 | `key_delete_match_self` keeps exactly the elements that no match pair matches |
| Accumulator.ArrayIndexKeepsContent | libraries/chef_auto_accumulator/resource.rb:226 | after initialisation, computing the index changes no content |
| Accumulator.KeyDeleteOfNothing | libraries/chef_auto_accumulator/resource.rb:171 | `key_delete` on a nil or empty list returns nil and changes nothing |
| Accumulator.MatchSelfOfNothing | libraries/chef_auto_accumulator/resource.rb:176 | `key_delete_match_self` on a nil or empty object returns nil and changes nothing |
| Accumulator.SetThenResult | libraries/chef_auto_accumulator/resource.rb:145-205 | `set` with a key stores the value in place and returns it |
| Accumulator.ResultWithoutKey | libraries/chef_auto_accumulator/resource.rb:200-209 | without a key the result is the whole object the action left at its place |
| Template.DeleteIndices | libraries/chef_auto_accumulator/resource.rb:165 | the `delete_at` loop leaves the list with the listed positions deleted one after another |
| Template.DeleteMatching | libraries/chef_auto_accumulator/resource.rb:177 | the `delete_if` loop over the match pairs computes the union filter |
| Template.WalkStep | libraries/chef_auto_accumulator/resource.rb:345-353 | one iteration of the `path.each` loop preserves the remaining walk's outcome |
| Template.ConfigTemplate.Walk | libraries/chef_auto_accumulator/resource.rb:344-355 | the in-place `path.each` walk leaves the content and returns the place that the path walk specifies |
| Template.ConfigTemplate.PathInit | libraries/chef_auto_accumulator/resource.rb:334-356 | in-place path initialisation matches `Paths.PathInit` |
| Template.ConfigTemplate.Search | libraries/chef_auto_accumulator/resource.rb:392-408 | the `while filter_tuple.shift` loop computes the contained walk |
| Template.ConfigTemplate.ContainingPathInit | libraries/chef_auto_accumulator/resource.rb:366-418 | in place, it matches the containing-path specification |
| Template.ConfigTemplate.ArrayIndex | libraries/chef_auto_accumulator/resource.rb:216-246 | in place, it matches the index specification |
| Template.ConfigTemplate.Finish | libraries/chef_auto_accumulator/resource.rb:200-209 | writes the changed object back and returns `config_path[config_key]` or the object |
| Template.ConfigTemplate.Push | libraries/chef_auto_accumulator/resource.rb:155-192 | `key_push`/`array_push` once the index is known leave the content and result of `Accumulator.Pushed`, whose merge, replace and create effects `KeyPushMerge`, `KeyPushReplace`, `KeyPushCreates`, `MergeIntoMatch` and `ReplaceMatches` state |
| Template.ConfigTemplate.PushFound | libraries/chef_auto_accumulator/resource.rb:157-167 | the push sub-action for a computed index, as `Accumulator.Pushed` specifies; its effects under the key are `KeyPushMerge`, `KeyPushReplace` and `KeyPushCreates` |
| Template.ConfigTemplate.KeyDelete | libraries/chef_auto_accumulator/resource.rb:172 | `key_delete` once the index is known, as `Accumulator.KeyDeleted` specifies; the removal under the key is `KeyDeleteMatches` |
| Template.ConfigTemplate.MatchSelf | libraries/chef_auto_accumulator/resource.rb:176-177 | `key_delete_match_self` in place |
| Template.ConfigTemplate.ArrayDelete | libraries/chef_auto_accumulator/resource.rb:195 | `array_delete` once the index is known |
| Template.ConfigTemplate.PushAction | libraries/chef_auto_accumulator/resource.rb:119-192 | the push actions in place |
| Template.ConfigTemplate.HashAction | libraries/chef_auto_accumulator/resource.rb:145-154 | `set`, `delete` and `append` in place |
| Template.ConfigTemplate.KeyDeleteAction | libraries/chef_auto_accumulator/resource.rb:168-172 | `key_delete` with its early return, in place |
| Template.ConfigTemplate.MatchSelfAction | libraries/chef_auto_accumulator/resource.rb:173-177 | `key_delete_match_self` with its early return, in place |
| Template.ConfigTemplate.ArrayDeleteAction | libraries/chef_auto_accumulator/resource.rb:193-195 | `array_delete` in place |
| Template.ConfigTemplate.DeleteAction | libraries/chef_auto_accumulator/resource.rb:168-197 | the deleting actions and the unsupported-action error, in place |
| Template.ConfigTemplate.Perform | libraries/chef_auto_accumulator/resource.rb:141-198 | the `case action` dispatch in place |
| Template.ConfigTemplate.ConfigPlace | libraries/chef_auto_accumulator/resource.rb:99-106 | the path-type dispatch in place |
| Template.ConfigTemplate.ConfigAt | libraries/chef_auto_accumulator/resource.rb:99-209 | the whole action once path and path type are known |
| Template.ConfigTemplate.AccumulatorConfig | libraries/chef_auto_accumulator/resource.rb:97-210 | `accumulator_config` on the shared tree: new content and result as `Accumulator.Config` specifies |
| LegacyAccumulator.PathInit | libraries/resource.rb:169-183 | an all-nil path gives the root; an existing Hash at the path is returned with the tree unchanged; a `dig` error propagates |
| LegacyAccumulator.WalkIgnoresLast | libraries/resource.rb:177-180 | the legacy walk creates only `{}`, whatever the last segment |
| LegacyAccumulator.WalkExisting | libraries/resource.rb:177-180 | over an existing container the walk changes nothing and reaches it |
| LegacyAccumulator.AgreesWithCurrent | libraries/resource.rb:169-183 | the legacy initialisation equals the current one for a non-list action |
| LegacyAccumulator.SetOn | libraries/resource.rb:86-87 | `set` overwrites the key and returns the value |
| LegacyAccumulator.AppendOn | libraries/resource.rb:88-90 | `append` starts from `''` and always concatenates `value.to_s`; an Array under the key is a `TypeError` |
| LegacyAccumulator.Concat | libraries/resource.rb:90 | concatenation onto a String stores and returns the longer String |
| LegacyAccumulator.PushOn | libraries/resource.rb:91-93 | `push` starts from `[]` and always appends; a truthy non-Array is a `NameError` |
| LegacyAccumulator.Push | libraries/resource.rb:93 | pushing onto an Array stores and returns the longer Array |
| LegacyAccumulator.DeleteOn | libraries/resource.rb:94-95 | `delete` removes the key and returns the old value, keeps the rest; an absent key is a no-op returning nil |
| LegacyAccumulator.Act | libraries/resource.rb:85-98 | an unknown action is `ArgumentError`; a translation error stops a known one |
| LegacyAccumulator.Config | libraries/resource.rb:79-99 | an initialisation error, or an unknown action after it, leaves the initialised tree and reports the error |
| LegacyAccumulator.AppendTwice | libraries/resource.rb:88-90 | appending twice doubles the String: no idempotence |
| LegacyAccumulator.PushTwice | libraries/resource.rb:91-93 | pushing twice leaves a duplicate |
| LegacyAccumulator.PathInitOn | libraries/resource.rb:169-183 | the in-place path initialisation matches `LegacyAccumulator.PathInit` |
| LegacyAccumulator.AccumulatorConfig | libraries/resource.rb:79-99 | the in-place action matches `LegacyAccumulator.Config` |
| LegacyAccumulator.Reject | libraries/resource.rb:61 | `reject!` never lengthens the list |
| LegacyAccumulator.RejectMembers | libraries/resource.rb:61 | a name survives iff it is in the list and not skipped |
| LegacyAccumulator.RejectAppend | libraries/resource.rb:61 | rejection works element by element, so the order of the rest is kept |
| LegacyAccumulator.RejectNone | libraries/resource.rb:61 | with nothing to skip the list is unchanged |
| LegacyAccumulator.RejectNames | libraries/resource.rb:61 | the `reject!` loop computes the rejection |
| LegacyAccumulator.PropertiesAsWritten | libraries/resource.rb:58-70 | as written: without a skip option, the names minus the global skip list |
| LegacyAccumulator.Properties | libraries/resource.rb:58-70 | as intended: fails iff the skip option is malformed, and agrees with the as-written code when the option is unset |
| LegacyAccumulator.PropertiesMembers | libraries/resource.rb:61-65 | a name is kept iff it is a property, not globally skipped and not in the resource's skip list |
| LegacyAccumulator.PropertiesKeepOrder | libraries/resource.rb:61-65 | filtering keeps the properties' order |
| LegacyAccumulator.ResourceProperties | libraries/resource.rb:58-70 | the in-place filtering matches `LegacyAccumulator.Properties` |
| LegacyAccumulator.SkipListRaisesNameError | libraries/resource.rb:63-65 | skip list `[:port]` raises `NameError` as written and yields `[:bind]` from `[:owner, :port, :bind]` as intended |
| LegacySectionRead.Section | libraries/config/file.rb:50-60 | nil for a nil or empty tree, otherwise `dig` along the path |
| LegacySectionRead.SectionItem | libraries/config/file.rb:69-83 | nil for a nil or empty section; section errors propagate |
| LegacySectionRead.SectionItemUnique | libraries/config/file.rb:75-78 | nil iff no Hash matches, `RuntimeError` iff two different ones match, otherwise a match |
| LegacySectionRead.ContainedItem | libraries/config/file.rb:90-102 | nil for a nil or empty item |
| LegacySectionRead.MissingContainedKeyRaises | libraries/config/file.rb:95-97 | an item without the contained key makes `select` run on nil: `NameError` |
| LegacySectionRead.ContainedItemUnique | libraries/config/file.rb:97-101 | nil iff no contained Hash matches, `RuntimeError` iff two different ones match, otherwise a match |

## Left out

- Reading and writing files is not modelled, and neither is `load_file` or `save_file`. The read side takes the loaded tree as a parameter.
  - This covers `load_config_file`.
  - The format codecs (INI, JSON, TOML, YAML) are thin wrappers over external libraries.
- Chef runtime plumbing is not modelled: `init_config_template`, `config_template_exist?`, `config_file_template_content`, `find_resource!`, `resource_type_name` and property reflection.
  - The tree, the resource type name, the options, the match map and the property names are parameters.
  - The legacy `resource_config_path` is not part of this model, so the legacy path is a parameter.
- `load_current_value.rb`, `resource_property`, `gem_installed?` and `action_class?` are outside the modelled core.
- The current `resource_properties` and `resource_properties_map` are not modelled. They only reflect on Chef properties.
- Logging and message formatting are not modelled.
  - `log_chef` blocks are taken as not evaluated.
  - `Chef::Log` string interpolation is eager. It is kept only where evaluating it can raise.
  - `debug_var_output` is not modelled.
- Regular expressions are treated as literal text.
  - `Regexp.new(base_path)` is literal removal.
  - `String#match?(value)` in `append` is substring containment.
- Aliasing is not modelled. The tree is a value; a handle into it is a path of steps.
  - Sharing of nested containers, or of the caller's `value` object, between two places in the tree is not captured.
  - The result of an action is a copy, not a live reference.
- `accumulator_config_present?` is not part of the named core.
- Accumulator.Perform: `String#[]=` on a String container is modelled as a `TypeError` rather than a character-level update.
- Paths.InitAt: a String level is not walked. Ruby would read a character from it and carry on, or assign into it with `String#[]=`. The model reports `TypeError` instead.
- Accumulator.ConfigPlace: the `ArgumentError` for an unknown path type cannot arise, because the path type is validated when it is read.
- Contained.ContainedNestedAsWritten: the message arguments of the malformed-option error are not modelled. The raise is a `NameError` either way.
- The property-name translation result is a fresh String that never aliases the input. The model has no object identity, so this is not stated.
- Lists.Uniq: two Hashes are equal here only when their entries come in the same order. Ruby's `Hash#eql?` and `Hash#hash` ignore insertion order.
  - So `uniq` keeps one of `{a: 1, b: 2}` and `{b: 2, a: 1}`, and the model keeps both.
  - The same order-sensitive equality is used by Utils.KvTest, Lists.Test, Lists.SelectItems, Paths.FilterFrom, SectionRead.Settle, SectionRead.PickAmongHashes, SectionRead.ContainedItemUnique, LegacySectionRead.SectionItemUnique and LegacySectionRead.ContainedItemUnique.
  - On trees holding such reordered Hashes, the read side reports two different matches where Ruby finds one.
- Text.UpcaseChar: only the ASCII letters are upcased. Ruby's `String#upcase` also maps non-ASCII letters.
- Text.ReplaceAll: the replacement is inserted literally. Ruby's `String#gsub` reads `\0`, `\&` and `\\` in a String replacement as back-references and escapes.

These members build on the corrected member of a finding. On the input that finding names, each computes the intended result, not the code's:

- ResourcePath (ConfigPath.ResourcePath): follows the corrected `DefaultPath`. An empty dotted name raises `RuntimeError`; the code returns the path `[""]`.
- Section (SectionRead.Section): digs along the corrected `ResourcePath`. For an empty dotted name it raises instead of digging `[""]`.
- ContainingKey (Contained.ContainingKey): follows the corrected nested test. A mixed nested specification is a malformed option; the code raises `NameError`.
- SectionItem (SectionRead.SectionItem): follows the corrected `ResourcePath` and nested test.
- LoadSectionItem (SectionRead.LoadSectionItem): is proved equal to `SectionItem`, so it follows the same corrections.
- ContainedItem (SectionRead.ContainedItem): builds on `SectionItem` and the corrected nested test.
- TranslatedKey (SectionRead.TranslatedKey), PropertyValue and PropertyKey (Translation): follow the corrected `Options.PropertyNameGsub`. A malformed gsub option is reported as malformed; the code raises `NameError`.
- ContainingWith (Paths.ContainingWith): takes the error for several matches and the error for a mixed nested specification as parameters. `Paths.ContainingPathInitAsWritten` passes the code's errors.
- ContainingPathInit (Paths.ContainingPathInit and Template.ConfigTemplate.ContainingPathInit): follows the corrected `Filter` and nested test. It reports `FilterError` for several matches and a malformed option for a mixed specification; the code raises `ArgumentError` and reports the missing parent path.
- ArrayIndexWith (Accumulator.ArrayIndexWith): reaches the path through the corrected `ResourcePath` and `ContainingPathInit`, and the contained key through the corrected `ContainingKey`.
- ArrayIndex (Accumulator.ArrayIndex and Template.ConfigTemplate.ArrayIndex): follows the corrected error for the Hash path types. It raises `ArgumentError`; the code raises `NoMethodError`.
- ConfigPlace (Accumulator.ConfigPlace and Template.ConfigTemplate.ConfigPlace): `:array_contained` goes through the corrected `ContainingPathInit`.
- Perform (Accumulator.Perform and Template.ConfigTemplate.Perform): the push and delete actions compute the match index with the corrected `ArrayIndex`.
- PushAction (Template.ConfigTemplate.PushAction): computes the match index with the corrected `ArrayIndex`.
- KeyDeleteAction (Template.ConfigTemplate.KeyDeleteAction): computes the match index with the corrected `ArrayIndex`.
- ArrayDeleteAction (Template.ConfigTemplate.ArrayDeleteAction): computes the match index with the corrected `ArrayIndex`.
- DeleteAction (Template.ConfigTemplate.DeleteAction): dispatches to the two actions above, so it follows the corrected `ArrayIndex`.
- ConfigAt (Accumulator.ConfigAt and Template.ConfigTemplate.ConfigAt): builds on the corrected `ConfigPlace`, `TranslatedKey` and `Perform`.
- AccumulatorConfig (Template.ConfigTemplate.AccumulatorConfig, proved equal to Accumulator.Config): builds on the corrected `ResourcePath` and `ConfigAt`.
- RunStateCache (State.Node.RunStateCache): is proved equal to the corrected `Cache`. With keys `[:a, :b]`, a populated inner Hash is kept; the code, which tests the top level, resets it. `State.CacheAsWritten` is the code's reading.
- ResourceProperties (LegacyAccumulator.ResourceProperties): is proved equal to the corrected `Properties`. A set skip option filters; the code raises `NameError`. `LegacyAccumulator.PropertiesAsWritten` is the code's reading.

## Findings

| source | as written | input that shows it | evidently intended | confidence | as-written member | corrected member |
|---|---|---|---|---|---|---|
| libraries/chef_auto_accumulator/state.rb:40 | the emptiness test reads `run_state[KEY][k]`, the top level, rather than the current level | keys `[:a, :b]` with cache `{a: {b: {x: 1}}}` reset the inner Hash to `{}` | test the current level `init_key[k]`, so a populated inner Hash is kept | not executed | State.CacheAsWritten, State.InnerHashReset | State.Cache |
| libraries/file.rb:46-50 | `when :INI, :JSONC, :TOML, YAML` lists the bare constant `YAML`; `:YAML` falls through to a message naming the undefined `type` | `config_file_type :yaml` raises `NameError` | `:YAML` maps to `file.erb` | not executed | LegacyFileTypes.TemplateDefaultAsWritten, LegacyFileTypes.YamlHasNoTemplate | LegacyFileTypes.TemplateDefault |
| libraries/resource.rb:63-65 | the debug line interpolates the undefined `skip_properties` | skip list `[:port]` raises `NameError` | properties minus the skip list, `[:bind]` from `[:owner, :port, :bind]` | not executed | LegacyAccumulator.PropertiesAsWritten, LegacyAccumulator.SkipListRaisesNameError | LegacyAccumulator.Properties |
| libraries/chef_auto_accumulator/resource.rb:239 | `raise ArgumentError "..."` calls a method named `ArgumentError` | `accumulator_config_array_index` on a `:hash` resource raises `NameError` (`NoMethodError`) | `ArgumentError` | not executed | Accumulator.ArrayIndexAsWritten, Accumulator.HashPathIndexRaisesNameError | Accumulator.ArrayIndex |
| libraries/chef_auto_accumulator/resource/options.rb:175 | the error names the undefined `property_name_gsub` | `property_name_gsub: '_'` raises `NameError` | the malformed-option error | not executed | Options.PropertyNameGsubAsWritten, Options.GsubMalformedRaisesNameError | Options.PropertyNameGsub |
| libraries/chef_auto_accumulator/config/accumulator.rb:40-41 | `ResourceOptionMalformedError` is not in scope in `Config::Accumulator` | match key `['a']`, match value `'v'`, contained key `'c'` raise `NameError` | the malformed-option error | not executed | Contained.ContainedNestedAsWritten, Contained.MixedTupleRaisesNameError | Contained.ContainedNested |
| libraries/chef_auto_accumulator/error.rb:32 | `FilterError` calls the one-argument `debug_var_output` with two arguments | Array `[{name: 'a'}, {name: 'a'}]` filtered on `name == 'a'` raises `ArgumentError` | `FilterError` | not executed | Paths.FilterAsWritten, Paths.DuplicateMatchRaisesArgumentError | Paths.Filter |
| libraries/chef_auto_accumulator/config/path.rb:40-43 | `nil_or_empty?` tests the wrapping one-element Array, never empty | type `foo` with base path `foo` gives `['']` | raise on an empty name | not executed | ConfigPath.DefaultPathAsWritten, ConfigPath.EmptyNameSlipsThrough | ConfigPath.DefaultPath |
