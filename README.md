# zk-vscode note list, modelled in Dafny

The zk-vscode extension shows the notes of a `zk` notebook in a side bar and
in a quick-pick finder. Its `ZkNotes` class (src/ZkNotes.ts) runs
`zk list -f json`, decodes the records and builds the list of notes:

- records with an empty title are dropped;
- each remaining record becomes one note for its title, followed by one note
  per alias;
- the result is sorted newest first.

The class holds that list in `notes`. It projects the list into tree items and
quick-pick items, and picks a random note from it.

This project models that core and proves what it promises.

| file | models |
|---|---|
| `Wrappers.dfy` | `Option` and `Result` |
| `JsString.dfy` | `String.prototype.split` on one character, `Array.prototype.join`, and `String.prototype.trim` with ECMAScript white space |
| `NotePipeline.dfy` | the `filter` / `flatMap` over decoded records: dropping untitled records and expanding the rest by their aliases |
| `NoteOrder.dfy` | the stable newest-first `notes.sort`, as a specification function `SortDesc` and as an in-place insertion sort on an `array` |
| `ZkNotes.dfy` | `ZkNote.toTreeItem` / `toQuickPickItem`, `retrieveNotes` with its error path, the static `rootPath`, the option-driven constructor, `withNotes`, the `notes` holder with `toTreeItems`, `toQuickPickItems` and `randomNote`, and the assignment done by `ZkListProvider.refresh` |

Abstractions:

- File URIs are their paths.
- Dates are integer timestamps: `getTime()` of the parsed `modified` field.
- The process outcome is a parameter `run`.
- `JSON.parse` is a parameter `parse`. A failure stands for any exception thrown while decoding or reading the records.
- `workspace.asRelativePath` is a parameter `relativePath`.
- The value of `Math.random()` is a parameter `draw` in [0, 1).
- The text passed to `showErrorMessage` is returned as `shown`.

Points of the code that the model keeps as they are:

- Only the record title is filtered. An alias list may contain `""`, and an
  alias string such as `"a,,b"` gives an alias note with an empty title
  (`EmptyAliasPieceKept`).
- `randomNote` on an empty list returns `undefined`, modelled as `None`.
- A missing root path is interpolated into the command as the text
  `undefined`. The command string itself is left out of the model, as listed
  below.

## Model

| member | source | states |
|---|---|---|
| JsString.Split | src/ZkNotes.ts:110 | `aliases.split(",")` always returns at least one piece, even for `""` |
| JsString.JoinSplit | src/ZkNotes.ts:110 | joining the pieces of a split with the separator gives back the original string |
| JsString.SplitPieces | src/ZkNotes.ts:110 | a split gives one piece more than the string has separators, and no piece contains the separator |
| JsString.SplitJoin | src/ZkNotes.ts:110 | splitting a join of separator-free pieces (at least one) gives back exactly those pieces |
| JsString.TrimStart | src/ZkNotes.ts:110 | the result is a suffix of the input, everything cut off is white space, and it does not start with white space |
| JsString.TrimEnd | src/ZkNotes.ts:110 | the result is a prefix of the input, everything cut off is white space, and it does not end with white space |
| JsString.Trim | src/ZkNotes.ts:110 | `alias.trim()` is a substring with white space only before and after it, and it neither starts nor ends with white space |
| JsString.TrimUnique | src/ZkNotes.ts:110 | any substring with only white space around it and none at its ends is `trim` of the string |
| JsString.TrimOfTrimmed | src/ZkNotes.ts:110 | a string without white space at either end trims to itself |
| JsString.TrimIdempotent | src/ZkNotes.ts:110 | trimming twice is trimming once |
| NotePipeline.AliasTitles | src/ZkNotes.ts:107-111 | the alias titles of a record by the shape of its alias field; their meaning is given by `AliasStringTitles`, `AliasListUntrimmed` and `AliasOtherTitleOnly` |
| NotePipeline.AliasStringTitles | src/ZkNotes.ts:107-111 | a string alias, split on `,` and each piece trimmed (`.map(alias => alias.trim())`), gives one title per comma-separated piece, in order: commas + 1 titles, each trimmed, comma-free, and a substring of its piece with only white space around it |
| NotePipeline.AliasListUntrimmed | src/ZkNotes.ts:107-108 | a list alias gives one alias note per element, in list order, titled by the element as given (untrimmed), on the record's file |
| NotePipeline.AliasOtherTitleOnly | src/ZkNotes.ts:111 | an alias value that is neither a list nor a string gives only the title note |
| NotePipeline.ExpandTitles | src/ZkNotes.ts:98-121 | a record gives `1 + aliases` notes: first its title, then its aliases in order, all sharing its path, timestamp and body |
| NotePipeline.KeepTitled | src/ZkNotes.ts:95 | the filter keeps no more records than it was given, and a record is kept exactly when it is in the input and its title is not empty |
| NotePipeline.KeepTitledAppend | src/ZkNotes.ts:95 | the filter maps a concatenation of record lists to the concatenation of what it keeps of each, so the input order is kept |
| NotePipeline.KeepTitledSingle | src/ZkNotes.ts:95 | a single record is kept exactly when its title is not empty; with `KeepTitledAppend` this fixes the filter's whole output |
| NotePipeline.ExpandRecord | src/ZkNotes.ts:96-121 | the notes of one record: `ExpandTitles` with the record's alias titles; its meaning is given by `ExpandTitles` and `ExpandRecordDerived` |
| NotePipeline.ExpandAll | src/ZkNotes.ts:96-122 | the `flatMap`: the expansions of the records, concatenated in order; its meaning is given by `ExpandAllAppend` |
| NotePipeline.ExpandAllAppend | src/ZkNotes.ts:96-122 | the `flatMap` of a concatenation is the concatenation of the `flatMap`s |
| NotePipeline.ExpandNotes | src/ZkNotes.ts:94-122 | the unsorted note list: the filter followed by the `flatMap`; its meaning is given by the lemmas below |
| NotePipeline.ExpandNotesAppend | src/ZkNotes.ts:94-122 | the pipeline maps a concatenation of record lists to the concatenation of their note lists |
| NotePipeline.ExpandNotesSingle | src/ZkNotes.ts:94-122 | one record gives nothing if its title is empty and its own expansion otherwise |
| NotePipeline.DropsEmptyTitle | src/ZkNotes.ts:95 | inserting a record with an empty title anywhere leaves the output unchanged, so neither its title nor any alias of it appears |
| NotePipeline.KeepsTitledRecord | src/ZkNotes.ts:95-122 | a titled record contributes exactly its own expansion, at its own position among the others |
| NotePipeline.ExpandNotesLength | src/ZkNotes.ts:94-122 | the unsorted list has one note per titled record plus one per alias of it |
| NotePipeline.ExpandRecordDerived | src/ZkNotes.ts:98-121 | every note of a titled record's expansion carries its title or one of its aliases, and its path, timestamp and body |
| NotePipeline.ExpandNotesProvenance | src/ZkNotes.ts:94-122 | every output note comes from a record with a non-empty title, whose path, timestamp and body it carries, and whose title or alias it bears |
| NotePipeline.AliasStringTwo | src/ZkNotes.ts:109-110 | `x + ", " + y` for trimmed, comma-free `x` and `y` gives exactly the aliases `x` and `y` (so `"bar, baz"` gives `"bar"`, `"baz"`) |
| NotePipeline.EmptyAliasPieceKept | src/ZkNotes.ts:95-110 | `x + ",," + y` gives the aliases `x`, `""`, `y`: an empty piece still yields an alias, since only record titles are filtered |
| NotePipeline.TitleThenTwoAliases | src/ZkNotes.ts:94-122 | a titled record with alias string `x + ", " + y` gives exactly three notes on its file: its title, `x`, then `y` |
| NoteOrder.Insert | src/ZkNotes.ts:124-126 | inserting one note lengthens the list by one |
| NoteOrder.InsertSorted | src/ZkNotes.ts:124-126 | inserting into a newest-first list keeps it newest first |
| NoteOrder.InsertPermutes | src/ZkNotes.ts:124-126 | inserting adds exactly that note to the multiset of notes |
| NoteOrder.InsertStamped | src/ZkNotes.ts:124-126 | inserting into a sorted list puts the note after every note with the same timestamp |
| NoteOrder.SortDesc | src/ZkNotes.ts:124-126 | sorting keeps the length |
| NoteOrder.SortDescSorted | src/ZkNotes.ts:124-126 | the sorted list is newest first: no note is followed by a strictly newer one |
| NoteOrder.SortDescPermutes | src/ZkNotes.ts:124-126 | the sorted list is a permutation of the input |
| NoteOrder.SortDescStable | src/ZkNotes.ts:124-126 | for every timestamp, the notes with that timestamp appear in the same relative order as in the input (stability) |
| NoteOrder.StableSortUnique | src/ZkNotes.ts:124-126 | two newest-first lists with the same notes per timestamp in the same order are equal, so every stable sort with this comparator returns `SortDesc` |
| NoteOrder.SortByModified | src/ZkNotes.ts:124 | the in-place sort leaves the array equal to `SortDesc` of its old contents |
| NoteOrder.InsertNext | src/ZkNotes.ts:124 | one insertion step: the note at `i` is inserted into the sorted prefix, and the rest of the array is unchanged |
| NoteOrder.ShiftOlder | src/ZkNotes.ts:124 | the notes before `i` that are strictly older than the note being placed move one slot right; the rest stays put |
| ZkNotes.ToTreeItem | src/ZkNotes.ts:30-39 | the tree item is labelled by the title, points at the note's file, and runs `vscode.open` on it with title `<title> is opened` |
| ZkNotes.ToQuickPickItem | src/ZkNotes.ts:41-51 | the quick-pick item has the title as label, the relative path as description, the body as detail, the note's file as uri, default kind, and is neither picked nor always shown |
| ZkNotes.ErrorText | src/ZkNotes.ts:128-131 | the shown text starts with `Error executing command`, and is exactly that text when the thrown value is not an `Error` |
| ZkNotes.ErrorTextInjective | src/ZkNotes.ts:128-131 | two thrown values with the same shown text have the same message |
| ZkNotes.RetrieveNotes | src/ZkNotes.ts:89-134 | on a process or parse failure the same error is raised, no list is produced and the error text is shown; otherwise nothing is shown and the result is the stable newest-first sort of the expanded titled records, sorted and a permutation of them |
| ZkNotes.RootPathSetting.constructor | src/ZkNotes.ts:58 | the static root path starts undefined |
| ZkNotes.RootPathSetting.Resolve | src/ZkNotes.ts:82-88 | a set root path is kept; an unset one becomes the first workspace folder, or stays unset when there is none |
| ZkNotes.NotesAfter | src/ZkNotes.ts:61-78 | the held list after applying the options in order; its meaning is given by `NotesAfterLast` and `NotesAfterNone` |
| ZkNotes.RootAfter | src/ZkNotes.ts:61-71 | the shared root path after applying the options in order; its meaning is given by `RootAfterLast` and `RootAfterNone` |
| ZkNotes.RootAfterLast | src/ZkNotes.ts:61-71 | after applying the options in order, the root path is the one given by the last `withRootPath` option |
| ZkNotes.RootAfterNone | src/ZkNotes.ts:61-71 | without a `withRootPath` option the root path stays as it was |
| ZkNotes.NotesAfterLast | src/ZkNotes.ts:61-78 | after applying the options in order, the held list is the one given by the last `withNotes` option |
| ZkNotes.NotesAfterNone | src/ZkNotes.ts:59-65 | without a `withNotes` option the held list stays as it was |
| ZkNotes.ZkNotes.constructor | src/ZkNotes.ts:59-71 | the object starts with an empty list and applies each option in turn: `withNotes` replaces the list, `withRootPath` sets the shared root path |
| ZkNotes.WithNotesOption | src/ZkNotes.ts:73-78 | `withNotes()` yields an option carrying the retrieved, sorted list with nothing shown; on a process or parse failure it fails with that same error, after its text is shown |
| ZkNotes.ZkNotes.Refresh | src/ZkLsProvider.ts:25-28 | a refresh replaces the list with the freshly retrieved, sorted one and returns it with nothing shown; on a process or parse failure it passes on that same error, with its text shown, and leaves the list exactly as it was |
| ZkNotes.ZkNotes.ToTreeItems | src/ZkNotes.ts:152-154 | one tree item per note, in list order, with that note's title and file |
| ZkNotes.ZkNotes.ToQuickPickItems | src/ZkNotes.ts:156-158 | one quick-pick item per note, in list order, with that note's title, file and body |
| ZkNotes.ZkNotes.RandomNote | src/ZkNotes.ts:160-162 | the pick is undefined exactly when the list is empty; otherwise it is one of the notes, and the only one when there is one |
| ZkNotes.PickIndex | src/ZkNotes.ts:161 | `Math.floor(draw * n)` for a draw in [0, 1) is a valid index whenever `n > 0` |
| ZkNotes.PickIndexReaches | src/ZkNotes.ts:161 | every index `i < n` is picked by the draw `i / n`, so no note is unreachable |

## Left out

- The child process of `executeCommand` (src/ZkNotes.ts:137-150) and the command string of src/ZkNotes.ts:91-93 are left out, including the text `undefined` interpolated for a missing root. Both are operating-system I/O. Their outcome enters as the parameter `run`.
- `JSON.parse` is a parameter. The code throws a `TypeError` for a `null` record (at the title filter) and for a titled record without a `metadata` field (when its aliases are read); an untitled record without `metadata` is dropped by the filter before that read. The model folds these throws into a failure of `parse`. Non-string elements of an alias list are not modelled: alias lists are `seq<string>`.
- `new Date(...)` parsing is left out, and with it invalid dates. An invalid date gives `NaN` in the comparator, which the integer timestamps cannot express.
- `vscode.Uri.file`, `workspace.asRelativePath`, `showErrorMessage` and the `TreeItem` constructor are editor APIs and are left out. Only the fields the projections copy are modelled. `asRelativePath` is a parameter, and the shown text is an output.
- ZkNotes.RetrieveNotes: does not run the lazy root-path lookup of src/ZkNotes.ts:82-88 before retrieving. `RootPathSetting.Resolve` models that lookup on its own, and no retrieval sets the shared root, because the root only feeds the command string, which is left out.
- `Math.random` is taken as an exact real `draw` in [0, 1). Floating-point rounding of `draw * n` is not modelled.
- `ZkNote` is never changed after construction, so it is a datatype, not a class.
- V8's sort algorithm is not visible. The model sorts by insertion. `StableSortUnique` shows that every stable newest-first sort gives the same result.
- Strings are sequences of `char`. UTF-16 surrogate pairs are not distinguished from single code points, and `trim` only ever removes single-unit white space.
- src/extension.ts is not part of this model: it starts the language client and registers commands. The event emitter and command registration of src/ZkLsProvider.ts are not part of it either; only the assignment in `refresh` is.
- Overlapping asynchronous refreshes are not modelled: each retrieval is one atomic step.
