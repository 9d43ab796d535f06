# Knowledge Curator, modelled in Dafny

Knowledge Curator is an Obsidian plugin. It finds the unresolved wiki links of a vault: links whose target note does not exist yet. It counts them and remembers which notes refer to them. It sorts and groups them for a sidebar view. It then asks a language model to write the missing notes from prompt templates. This project models the data core of the plugin and proves what it promises.

- **VaultScanner** (`vault_scanner.dfy`, imperative). `ScanUnresolvedLinks` walks the files and their cached links. It skips links that resolve and accumulates the others in a `Map` keyed by link text (display text when non-empty, else the link). The walk is a pair of nested loops over an insertion-ordered map (`OrderedMaps`). It is proved equal to a declarative `ScanResult`, about which the counting, deduplication and ordering properties are proved. `SortLinks` copies the entries into an array and sorts it in place with a stable sort (`ArraySort`: the stability `Array.prototype.sort` has had since ECMAScript 2019). `GroupLinksByFolder` fills a map of arrays keyed by the folder of each entry's first source file.
- **I18n** (`i18n.dfy`, mixed). The English and Chinese string tables are constant data. `T` follows the fallbacks of `t` and interpolates `{name}` placeholders in a loop. `Translate` is its declarative specification.
- **GeneratorService** (`generator_service.dfy`, pure). It projects the template list for the drop-down and renders `{{title}}` into the prompt. `GenerateForNoteTitle` models generation with the API call as a function parameter.
- **Plugin** (`plugin.dfy`, imperative). The `KnowledgeCurator` class has its settings, view and link-cache fields. It has the cache operations and the template-list edits of the settings tab (`push`, `splice`, index assignment). The `TemplateModal` class has the non-empty check of its Save button. `Settings` (`settings.dfy`) holds the settings record and its defaults.
- **Supporting modules.**
  - `JsStrings` covers the ECMAScript string built-ins used: `lastIndexOf`, `substring`, and global `replace` with a fixed pattern. It has both the literal substitution and the `$`-pattern expansion of a replacement string.
  - `Seqs` covers first-seen deduplication and counting.
  - `Wrappers` holds `Option` and `Result`.

`Interpolate`, `Translate`, `InterpolateAsWritten`, `TranslateAsWritten`, `ScanResult`, `EntryFor`, `Members`, `StableSorted`, `ReplaceAll`, `ReplaceAllFrom`, `ReplaceAllAsWritten` and `Expand` are specification functions. Their own contracts are at most preconditions and, for `StableSorted`, that the length is kept. What they mean is stated by the lemmas and method contracts below.

## Model

| member | source | states |
|---|---|---|
| VaultScanner.LinkText | VaultScanner.ts:46 | A reference is keyed by its display text when that is non-empty, and by its link otherwise. |
| VaultScanner.ScanUnresolvedLinks | VaultScanner.ts:26-67 | The returned entries are exactly `ScanResult(files)`. There is one entry per distinct key of the unresolved references, in the order the keys were first met. Each entry has the number of references with that key and the distinct files they came from. |
| VaultScanner.ScanFile | VaultScanner.ts:37-62 | Walking one file's cached links leaves the map holding exactly the entries for all references walked so far. |
| VaultScanner.RegistersStep | VaultScanner.ts:48-60 | One update of the map (`frequency++` and `push`, or `set` of a fresh entry) keeps it equal to the entries of the references walked, this one included. |
| VaultScanner.EntryForSnocNew | VaultScanner.ts:54-59 | A key met for the first time gets frequency 1 and its file as the only source. |
| VaultScanner.EntryForSnocSeen | VaultScanner.ts:48-53 | A key met again gets its frequency raised by one. Its file is appended only when not yet listed. |
| VaultScanner.EntryForSnocOther | VaultScanner.ts:48-60 | A reference leaves the entries of every other key unchanged. |
| VaultScanner.ScanLinkTextsDistinct | VaultScanner.ts:48-66 | No two entries of the result have the same link text. |
| VaultScanner.ScanFirstSeenOrder | VaultScanner.ts:55-66 | An entry listed earlier has a key first met earlier in the walk. |
| VaultScanner.ScanCoversUnresolved | VaultScanner.ts:44-60 | A key has an entry if and only if some unresolved reference has that key. |
| VaultScanner.CountOccurrences | VaultScanner.ts:30-62 | The references with a key, as the walk meets them, are as many as an independent count over files and links gives. |
| VaultScanner.ScanFrequency | VaultScanner.ts:50-57 | An entry's frequency is the number of unresolved references with its key across the vault. One file may count several times. |
| VaultScanner.SourcesOfCount | VaultScanner.ts:50-53 | Counting a file once per reference gives the frequency, so the distinct files are never more. |
| VaultScanner.SourcesOfHead | VaultScanner.ts:58 | The first file listed for a key is the file of its first reference. |
| VaultScanner.ScanSourceFiles | VaultScanner.ts:51-58 | An entry's source files have no duplicates, are between 1 and the frequency in number, start with the first file that had the key, and list a file exactly when it holds a reference with that key. |
| VaultScanner.ResolvedLinksIgnored | VaultScanner.ts:39-44 | Removing every link that resolves from every file does not change the result. |
| VaultScanner.UncachedFileSkipped | VaultScanner.ts:31-35 | A file without cached links can be removed from the vault without changing the result. |
| VaultScanner.ByFrequency | VaultScanner.ts:82-84 | An entry goes before another exactly when its frequency is higher. |
| VaultScanner.Alphabetically | VaultScanner.ts:85-88 | An entry goes before another exactly when `localeCompare` puts its link text first. |
| VaultScanner.ComparatorFor | VaultScanner.ts:81-94 | `"alphabetical"` orders by `localeCompare` of the link texts. `"frequency"` and every other policy order by descending frequency. |
| VaultScanner.ComparatorConsistent | VaultScanner.ts:81-94 | The frequency comparator is a strict weak order, and so is the alphabetical one over a consistent collation. |
| VaultScanner.SortLinks | VaultScanner.ts:75-96 | The result is the stable sort of a copy of the input, a permutation of it. For `"frequency"` and any unknown policy, frequencies are non-increasing and entries of equal frequency keep their input order. For `"alphabetical"` over a consistent collation, link texts are non-decreasing. |
| VaultScanner.SortLinksIdempotent | VaultScanner.ts:81-94 | Sorting the result again under the same policy changes nothing. |
| VaultScanner.GroupLinksByFolder | VaultScanner.ts:105-133 | The groups are the distinct group keys in first-seen order. Each group holds exactly the entries with that key, in input order. |
| VaultScanner.GroupStep | VaultScanner.ts:119-129 | Creating the group when missing and pushing the entry keeps the map equal to the grouping of the entries seen so far. |
| VaultScanner.FolderOf | VaultScanner.ts:114-117 | The folder is the part of the path before its last `/`, and `""` when the path has no `/`. |
| VaultScanner.GroupKey | VaultScanner.ts:111-117 | An entry with source files is grouped under the folder of the first one: the prefix of that path before its last `/`, or `""` without a `/`. An entry without source files is grouped under `"No Source Folder"`. |
| VaultScanner.MembersMembership | VaultScanner.ts:110-131 | An entry is in a group exactly when it is in the input and that group is its key, so every entry is in exactly one group. |
| VaultScanner.GroupSizesSum | VaultScanner.ts:110-131 | The group sizes add up to the number of input entries. |
| VaultScanner.GroupFirstSeenOrder | VaultScanner.ts:119-121 | A group listed earlier had its first entry earlier in the input. |
| VaultScanner.ScannedEntriesHaveFolders | VaultScanner.ts:111-117 | Every entry the scan produces has a first source file, so it is grouped under that file's folder. |
| VaultScanner.SentinelSharedWithFolder | VaultScanner.ts:124-129 | The `"No Source Folder"` key is also the key of a real folder with that name, so the two groups merge. |
| ArraySort.Sort | VaultScanner.ts:83 | The array, sorted in place, equals the stable sort of its old contents. |
| ArraySort.InsertAt | VaultScanner.ts:83 | Inserting one element into the sorted prefix gives the next insertion-sort step and leaves the rest of the array alone. |
| ArraySort.InsertPast | VaultScanner.ts:83 | An element strictly less than every element after some position, and not less than the one before it, is inserted at that position. |
| ArraySort.SortPermutes | VaultScanner.ts:79-95 | Sorting is a permutation: same multiset of entries. |
| ArraySort.SortedIsOrdered | VaultScanner.ts:83 | Under a strict weak order, no element of the result is strictly less than one before it. |
| ArraySort.SortIsStable | VaultScanner.ts:83 | For every class of tied elements, the result lists them in input order. |
| ArraySort.SortIdempotent | VaultScanner.ts:81-94 | Sorting a sorted sequence again changes nothing. |
| Seqs.DedupMembership | VaultScanner.ts:48-60 | Deduplication keeps exactly the elements of its input. |
| Seqs.DedupNoDup | VaultScanner.ts:51-53 | Deduplication leaves no element twice. |
| Seqs.DedupFirstSeenOrder | VaultScanner.ts:55-66 | Deduplication keeps elements in the order of their first occurrence. |
| Seqs.CountPositive | VaultScanner.ts:50-58 | An element is counted at least once exactly when it occurs. |
| OrderedMaps.OrderedMap.Set | VaultScanner.ts:55-59 | `Map.set` stores the value. A new key goes to the end of the insertion order; an existing key keeps its place. |
| OrderedMaps.SetTwice | VaultScanner.ts:119-122 | Setting a key twice is setting it to the second value. |
| JsStrings.LastIndexOf | VaultScanner.ts:116 | The result is the last position of the character, or -1 when it does not occur. |
| JsStrings.Substring | VaultScanner.ts:116 | `substring` with ECMA-262 rules: in-range bounds give that slice, swapped bounds give the same slice, bounds at or below 0 give `""`, and the result is never longer than the string. |
| JsStrings.ExpandWithoutDollar | GeneratorService.ts:47 | A replacement string without `$` expands to itself. |
| JsStrings.ExpandDollarAmpersand | GeneratorService.ts:47 | The replacement string `$&` expands to the matched text. |
| JsStrings.ReplaceAllFromMatch | i18n.ts:160-163 | At a match, the global replace as written emits the expanded replacement and resumes after the match. |
| JsStrings.ReplaceAllFromSkipOne | i18n.ts:160-163 | Where no match starts, the global replace as written copies one character and moves on. |
| JsStrings.ReplaceAllFromWithoutDollar | i18n.ts:160-163 | From any position, with a replacement holding no `$`, the replace as written is plain substitution on the rest of the text. |
| JsStrings.ReplaceAllNoMatch | GeneratorService.ts:47 | Text without the pattern is unchanged by a global replace. |
| JsStrings.ReplaceAllLeftmost | i18n.ts:160-163 | The leftmost occurrence is replaced first, and the scan resumes after it. |
| JsStrings.ReplaceAllJoin | i18n.ts:160-163 | Every occurrence is replaced and nothing else changes: brace-free pieces around the pattern become the same pieces around the value. |
| JsStrings.ReplaceAllKeepsOtherPlaceholder | i18n.ts:159-165 | Replacing one placeholder leaves a different placeholder verbatim. |
| JsStrings.ReplaceAllOnce | GeneratorService.ts:47 | One occurrence between brace-free text becomes the value, whatever the value holds. |
| JsStrings.AsWrittenWithoutDollar | GeneratorService.ts:47 | With a replacement holding no `$`, `String.prototype.replace` is plain substitution. |
| JsStrings.DollarAmpersandKeepsMatch | GeneratorService.ts:47 | `replace` with the replacement `$&` puts the matched text back, so the placeholder survives. |
| JsStrings.DollarAmpersandLiteral | GeneratorService.ts:47 | Literal substitution of `$&` inserts those two characters. |
| JsStrings.OccursInside | GeneratorService.ts:59-65 | Text placed inside a message occurs in it. |
| I18n.English | i18n.ts:49-88 | The `en` table, with every string non-empty. |
| I18n.EnglishToolbar | i18n.ts:50-66 | The view title and toolbar strings in English, all non-empty. |
| I18n.EnglishContent | i18n.ts:67-71 | The content-area strings in English, all non-empty. |
| I18n.EnglishPlainNotice | i18n.ts:72-88 | The English notices without parameters, all non-empty. |
| I18n.EnglishParameterNotice | i18n.ts:73-86 | The English notices with parameters, all non-empty. |
| I18n.Chinese | i18n.ts:90-125 | The `zh` table, with every string non-empty. |
| I18n.KeyListed | i18n.ts:1-46 | Every key of the interface is among the keys both tables define. |
| I18n.TablesComplete | i18n.ts:48-126 | Both tables define every key, with a non-empty string. |
| I18n.TranslationsEnglishComplete | i18n.ts:49-88 | English defines every key with a non-empty string, so the English fallback always ends. |
| I18n.StoredString | i18n.ts:141-156 | The string `t` starts from is never empty. |
| I18n.T | i18n.ts:136-167 | `t` returns `Translate`: the language's own string if present and non-empty, else the English one, with each parameter value in turn inserted literally into every occurrence of its placeholder. |
| I18n.InterpolateAgreesWithoutDollar | i18n.ts:159-164 | When no parameter value holds `$`, interpolation as written equals literal interpolation. |
| I18n.TranslateAgreesWithoutDollar | i18n.ts:136-167 | When no parameter value holds `$`, `t` as written returns what `T` returns. |
| I18n.StoredStringOfTranslations | i18n.ts:141-156 | With the plugin's tables, `zh` reads the Chinese strings and every other language the English ones. |
| I18n.UnknownLanguageIsEnglish | i18n.ts:141-147 | A language without a table answers exactly as `t("en", key, params)`. |
| I18n.MissingStringIsEnglish | i18n.ts:149-155 | A missing or empty string in a known language answers exactly as English does. |
| I18n.WithoutParamsIsStored | i18n.ts:157-166 | Without parameters, or with none in the record, the stored string comes back unchanged. |
| I18n.InterpolateAbsent | i18n.ts:157-164 | Parameters whose placeholders do not occur leave the string as it is. |
| I18n.UnknownPlaceholderKept | i18n.ts:159-165 | A placeholder that no parameter names is left verbatim. The text around it is interpolated as if it were not there. |
| I18n.FillsEveryOccurrence | i18n.ts:159-164 | A parameter replaces every occurrence of its placeholder, and nothing else. |
| I18n.FillsOnePlaceholder | i18n.ts:160-163 | One placeholder between brace-free text becomes its value. |
| I18n.LaterParameterFillsEarlierValue | i18n.ts:159-164 | An example of parameters applying in turn to the text so far: `{title}` with `title` set to `{count}` and then `count` set to `3` gives `3`. |
| I18n.PlaceholderShape | i18n.ts:161 | `{name}` with a brace-free name is a placeholder. |
| I18n.FrenchReadsEnglish | i18n.ts:141-147 | With the plugin's tables, `t("fr", sortLabel)` is `"Sort:"`. |
| I18n.ScanCompleteShapeChinese | i18n.ts:114 | The Chinese scan notice is brace-free text around one `{count}`. |
| I18n.ScanCompleteNoticeChinese | i18n.ts:114 | With the plugin's tables, the Chinese scan notice with count 5 reads `扫描完成。找到 5 个悬空链接。`. |
| I18n.GeneratingForShape | i18n.ts:82 | The English generating notice is brace-free text around one `{title}`. |
| I18n.DollarValueKeepsPlaceholder | i18n.ts:160-163 | For the value `$&`, interpolation as written leaves any placeholder between brace-free text in place. Literal interpolation inserts `$&`. |
| I18n.DollarTitleInNotice | i18n.ts:160-163 | For the title `$&`, interpolation as written leaves the generating notice unchanged, placeholder included. Literal interpolation shows the title. |
| GeneratorService.GetAvailableTemplates | GeneratorService.ts:20-28 | There is one option per template, in the same order, with `name` the template's name and `path` its prompt. |
| GeneratorService.AvailableTemplatesAppend | GeneratorService.ts:24-27 | The projection distributes over concatenation, so appending templates appends their options. |
| GeneratorService.PathsArePrompts | GeneratorService.ts:24-27 | A path is offered exactly when it is the prompt of some template, and two options share a path exactly when their templates share a prompt. |
| GeneratorService.RenderFillsEveryTitle | GeneratorService.ts:47 | Every `{{title}}` becomes the title, and the brace-free text around them is untouched. |
| GeneratorService.RenderWithoutTitle | GeneratorService.ts:47 | A prompt without `{{title}}` is sent unchanged. |
| GeneratorService.AsWrittenAgreesWithoutDollar | GeneratorService.ts:47 | For a title without `$`, the rendering as written equals literal substitution. |
| GeneratorService.DollarTitleRendering | GeneratorService.ts:47 | For the title `$&`, the rendering as written keeps `{{title}}`, while literal substitution inserts `$&`. |
| GeneratorService.DefaultTemplateRendering | main.ts:28-40 | The default settings offer one option, `Default Summary`. Its prompt, for any title, is the summary request followed by the title and a full stop. |
| GeneratorService.Settle | GeneratorService.ts:49-66 | The result is a success exactly when the API returned text, and then it is that text. |
| GeneratorService.GenerateForNoteTitle | GeneratorService.ts:36-68 | An empty prompt is refused with the fixed message, whatever the API would do. Success happens exactly when the API returns text for the prompt with the title inserted literally, and that text is returned as it is. |
| GeneratorService.GenerateForNoteTitleAsWritten | GeneratorService.ts:36-68 | The same, for the prompt the service sends as written, with the title's `$` patterns expanded. |
| GeneratorService.GenerateAgreesWithoutDollar | GeneratorService.ts:47 | For a title without `$`, generation as written and with literal insertion give the same result. |
| GeneratorService.FailureNamesTitle | GeneratorService.ts:55-66 | Every failure after the prompt check names the title, and an `Error` failure also carries the API's message. |
| Plugin.SpliceOne | main.ts:339-342 | `splice(start, 1)` with ECMA-262 rules. A start inside the list removes that element. A negative start counts from the end. A start past the end removes nothing. |
| Plugin.SpliceOneRemovesIndex | main.ts:339-342 | Deleting at an index of the list removes exactly that template. The others keep their relative order. |
| Plugin.KnowledgeCurator.constructor | main.ts:42-45 | The plugin starts with no view and an empty (`null`) cache. |
| Plugin.KnowledgeCurator.GetCachedLinks | main.ts:139-141 | Returns the cache as it stands. |
| Plugin.KnowledgeCurator.SetCachedLinks | main.ts:143-145 | The next read returns the links just set, whatever was cached before, so a second set overwrites the first. Settings and view are unchanged. |
| Plugin.KnowledgeCurator.ClearCachedLinks | main.ts:147-149 | The next read finds no cache. Settings and view are unchanged. |
| Plugin.KnowledgeCurator.AddTemplate | main.ts:361-364 | The new template is appended and earlier templates are unchanged. The drop-down gains its option at the end. |
| Plugin.KnowledgeCurator.DeleteTemplateAt | main.ts:339-342 | The template list becomes its `splice(index, 1)`. Nothing else changes. |
| Plugin.KnowledgeCurator.ReplaceTemplateAt | main.ts:314-317 | Only the slot at `index` changes, and the length is kept. |
| Plugin.TemplateModal.constructor | main.ts:156-164 | The editor opens on the given template, or on an empty one. |
| Plugin.TemplateModal.SetName | main.ts:180-182 | Editing the name field changes the name only. |
| Plugin.TemplateModal.SetPrompt | main.ts:192-193 | Editing the prompt field changes the prompt only. |
| Plugin.TemplateModal.Save | main.ts:207-213 | The template is handed on exactly when both its name and its prompt are non-empty, and then unchanged. |

## Left out

- CuratorView.ts is not part of this model. It builds the DOM, shows notices, asks for confirmations and writes notes.
- ApiService.ts is not part of this model. It is an HTTP call. Generation takes its outcome as the `generateContent` function parameter: text, an `Error` with a message, or any other thrown value.
- Obsidian's vault and metadata cache are inputs. The vault is a sequence of files, each with its cached links or `None` when it has none. Each link carries whether `getFirstLinkpathDest` resolves it.
- `localeCompare` is a function parameter. Its order is assumed only where a contract says so (`IsCollation`).
- `async`/`await`, `console.warn` and `console.error` are left out, and so are notices. The functions are synchronous.
- The plugin lifecycle is left out: `onload`, `onunload`, `activateView`, the commands, `loadSettings` and `saveSettings`. So are the settings tab's widget wiring and the other settings fields' change handlers (endpoint, key, model name, default folder, language). The `KnowledgeCurator` constructor takes the loaded settings.
- The template editor's rendering (`onOpen`, `onClose`, heading, textarea resizing) is left out. `DeleteTemplateAt` is the branch taken after `confirm` answers yes.
- `Plugin.KnowledgeCurator.ReplaceTemplateAt`: requires an index of the list. An assignment past the end would leave holes, which a sequence cannot hold. The settings tab only passes indices of listed templates.
- The cache's values are typed `any`. They are modelled as the link groups `groupLinksByFolder` builds, as the field's comment says.
- `I18n.T`: inserts each parameter value literally, the corrected half of the `$` finding below. `t` as written expands `$` patterns in the values; that is `TranslateAsWritten`, and `TranslateAgreesWithoutDollar` proves the two agree when no value holds `$`.
- `GeneratorService.GenerateForNoteTitle`: sends the prompt with the title inserted literally, the corrected half of the `$` finding below. The service as written is `GenerateForNoteTitleAsWritten`, and `GenerateAgreesWithoutDollar` proves the two agree for titles without `$`.
- `I18n.T`: requires the English table to define every key with a non-empty string. Otherwise `t("en", key)` calls itself forever. The plugin's own table meets this (`TranslationsEnglishComplete`).
- In `t`, parameter names are plain text. A name holding RegExp metacharacters is not modelled. Values arrive already converted by `String(...)`. The parameter record is a sequence in its `for...in` enumeration order, and `None` stands for an absent record.
- The `{{title}}` pattern is matched as fixed text, which is what the regular expression matches.
- `VaultScanner.SortLinks`: order properties are stated for consistent comparators only. For an inconsistent `localeCompare`, ECMA-262 leaves the order implementation-defined. The model then still gives insertion sort's permutation.
- Frequencies are unbounded naturals. JavaScript numbers are exact far beyond any link count.
- The code has no search filter over link texts, so none is modelled. A link whose display text and link are both empty is keyed by `""`, not skipped.

## Findings

| source | as written | input that shows it | evidently intended | confidence | as-written member | corrected member |
|---|---|---|---|---|---|---|
| GeneratorService.ts:47 | `selectedPrompt.replace(/{{title}}/g, title)` passes the title as a replacement string. Its `$&`, `$$`, `` $` `` and `$'` patterns are expanded. | A note titled `$&` with a prompt `a{{title}}b` (`a`, `b` without braces): the prompt keeps `{{title}}` and never names the note. | The title inserted literally, giving `a$&b`. | not executed | GeneratorService.RenderPromptAsWritten, GeneratorService.DollarTitleRendering | GeneratorService.RenderPrompt, GeneratorService.RenderFillsEveryTitle |
| i18n.ts:160-163 | `str.replace(new RegExp(...), String(value))` expands `$` patterns in parameter values. | The English generating notice with the parameter `title` set to `$&` stays `Generating for "[[{title}]]"...`. | `Generating for "[[$&]]"...` | not executed | I18n.InterpolateAsWritten, I18n.DollarTitleInNotice | I18n.Interpolate, I18n.FillsEveryOccurrence |
