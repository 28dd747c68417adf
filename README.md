# JabRef core logic, modelled in Dafny

This project models five small pieces of sequential logic from JabRef, the BibTeX reference manager, and proves properties of them:

- **HTMLParagraphs** is the layout formatter that turns a field's text into HTML paragraphs. It trims the text and cuts it at every blank line, found with the regular expression `(.*?)\n\s*\n`. Each piece is wrapped in `<p>` … `</p>`.
  - The regular expression is modelled as an explicit scan (`MatchAt`, `Find`).
  - The matcher loop is the imperative method `Format`, proved equal to the specification function `Formatted`.
- **NameFieldAutoCompleter** is the completer for name fields.
  - Its constructor fixes the completion directions from the preferences.
  - `addBibtexEntry` pushes each author's name forms to the completion index.
  - `complete` splits the typed text at the last name delimiter into a prefix and the part still to be completed.
- **AbstractLabelPattern** is the table from entry type to citation-key pattern, with an optional default pattern.
- **BibteXMLImporter** recognises the BibTeXML format by a marker on some line.
- **MainTable** is the central entry table, limited to its decision logic:
  - which renderer a cell gets, and how a cell's field is classified;
  - the float-search and float-grouping switches and the comparators they install;
  - column widths;
  - the initial sort columns read from the preferences, and the sort order written back to them;
  - `getSortingColumn` and `mixColors`.

The modules are laid out as follows:

- `wrappers.dfy` holds `Option`, six facts about sequence slices and concatenation, and one about multiplication (`MulSucc`).
- `java_strings.dfy` models the `java.lang` operations the classes rely on:
  - `String.trim`, `toLowerCase` on ASCII, `indexOf`/`lastIndexOf`/`startsWith`/`endsWith`;
  - `Integer.parseInt`, with `Integer.toString` as its inverse.
- There is one module per modelled class.

One behaviour of the code is worth naming: `getCellStatus` returns REQUIRED for the key column even when the entry has no type. The `||` short-circuits before the type is dereferenced, so no NullPointerException is raised and the catch that gives OTHER is not reached.

## Model

| member | source | states |
|---|---|---|
| JavaStrings.Trim | src/main/java/net/sf/jabref/exporter/layout/format/HTMLParagraphs.java:35 | `String.trim`: the result is a substring of the input whose prefix and suffix in the input are blank (every character at most U+0020); it is empty exactly when the input is blank, and otherwise starts and ends with a character above U+0020 |
| JavaStrings.TrimIdempotent | src/main/java/net/sf/jabref/exporter/layout/format/HTMLParagraphs.java:35 | trimming twice gives the same as trimming once |
| JavaStrings.TrimIgnoresPadding | src/main/java/net/sf/jabref/exporter/layout/format/HTMLParagraphs.java:35 | blank text added before and after does not change what trim returns |
| JavaStrings.ToLower | src/main/java/net/sf/jabref/logic/autocompleter/NameFieldAutoCompleter.java:136 | `toLowerCase` keeps the length and lowers every character |
| JavaStrings.ToLowerSlice | src/main/java/net/sf/jabref/logic/autocompleter/NameFieldAutoCompleter.java:136-139 | lowering a substring is the same as taking the substring of the lowered text, so positions found in the lowered text cut the original |
| JavaStrings.LastIndexOf | src/main/java/net/sf/jabref/logic/autocompleter/NameFieldAutoCompleter.java:136 | `lastIndexOf` is -1 exactly when the pattern does not occur; otherwise the pattern occurs there and at no later position |
| JavaStrings.ParseInt | src/main/java/net/sf/jabref/gui/MainTable.java:383 | `Integer.parseInt` gives a value only for an optional sign followed by digits, and that value is the signed decimal value of the text, within 32 bits; syntactically valid text is refused exactly when its value lies outside the 32-bit range |
| JavaStrings.ParseIntString | src/main/java/net/sf/jabref/gui/MainTable.java:383 | `parseInt` inverts `Integer.toString` on every 32-bit integer |
| HtmlParagraphs.MatchAt | src/main/java/net/sf/jabref/exporter/layout/format/HTMLParagraphs.java:42 | a match of `(.*?)\n\s*\n` at a position is found exactly when one exists, and the found one is the one Java picks: group 1 without line terminators, and the longest `\s*` that still ends on a newline |
| HtmlParagraphs.Find | src/main/java/net/sf/jabref/exporter/layout/format/HTMLParagraphs.java:45-47 | `Matcher.find` from a position gives the leftmost match, and it is maximal there; None means no match starts at or after the position |
| HtmlParagraphs.SplitFrom | src/main/java/net/sf/jabref/exporter/layout/format/HTMLParagraphs.java:47-57 | the paragraphs the loop emits: one more body than separators |
| HtmlParagraphs.Render | src/main/java/net/sf/jabref/exporter/layout/format/HTMLParagraphs.java:50-57 | the wrapped output always starts with `<p>\n` and ends with `\n</p>` |
| HtmlParagraphs.Formatted | src/main/java/net/sf/jabref/exporter/layout/format/HTMLParagraphs.java:33-60 | the output is empty exactly when the input is blank; otherwise it starts with `<p>\n` and ends with `\n</p>` |
| HtmlParagraphs.Format | src/main/java/net/sf/jabref/exporter/layout/format/HTMLParagraphs.java:33-60 | the imperative find/append loop computes exactly `Formatted` |
| HtmlParagraphs.SplitCoversText | src/main/java/net/sf/jabref/exporter/layout/format/HTMLParagraphs.java:47-56 | the paragraphs and the dropped separators, put back together, give back the text from the append position on |
| HtmlParagraphs.SeparatorsAreBlankLines | src/main/java/net/sf/jabref/exporter/layout/format/HTMLParagraphs.java:42-53 | every dropped separator is two newlines with only whitespace between them |
| HtmlParagraphs.BodiesAreNotBlank | src/main/java/net/sf/jabref/exporter/layout/format/HTMLParagraphs.java:48-56 | in trimmed text no paragraph is blank |
| HtmlParagraphs.FormattedParagraphs | src/main/java/net/sf/jabref/exporter/layout/format/HTMLParagraphs.java:33-60 | for input that is not blank, the output wraps non-blank paragraphs; the paragraphs and blank-line separators give back the trimmed text |
| HtmlParagraphs.ParagraphCount | src/main/java/net/sf/jabref/exporter/layout/format/HTMLParagraphs.java:47-57 | there is one paragraph more than there are matches whose group 1 is not blank |
| HtmlParagraphs.FormattedParagraphCount | src/main/java/net/sf/jabref/exporter/layout/format/HTMLParagraphs.java:47-57 | the output of text that is not blank consists of 1 + n wrapped paragraphs, where n counts the matches with non-blank group 1 |
| HtmlParagraphs.FormattedIgnoresPadding | src/main/java/net/sf/jabref/exporter/layout/format/HTMLParagraphs.java:35 | leading and trailing whitespace does not change the output: `format(s) == format(trim(s))` |
| HtmlParagraphs.MatchIsBlankLine | src/main/java/net/sf/jabref/exporter/layout/format/HTMLParagraphs.java:42 | every match contains a blank line: a newline, optional whitespace and another newline |
| HtmlParagraphs.NoBlankLineOneParagraph | src/main/java/net/sf/jabref/exporter/layout/format/HTMLParagraphs.java:42-57 | trimmed text without a blank line gives exactly `<p>\n` + text + `\n</p>` |
| HtmlParagraphs.SplitAtSeparator | src/main/java/net/sf/jabref/exporter/layout/format/HTMLParagraphs.java:47-57 | text made of a line, one blank-line separator and a tail without newlines splits into exactly those two paragraphs |
| HtmlParagraphs.TwoParagraphs | src/main/java/net/sf/jabref/exporter/layout/format/HTMLParagraphs.java:47-57 | such a text becomes two `<p>` blocks and the separator is dropped |
| HtmlParagraphs.CrLfBlankLineOneParagraph | src/main/java/net/sf/jabref/exporter/layout/format/HTMLParagraphs.java:42-49 | a blank line written with `\r\n` line ends never splits: group 1 is then empty, so the text stays one paragraph |
| NameFieldAutoCompleter.Directions | src/main/java/net/sf/jabref/logic/autocompleter/NameFieldAutoCompleter.java:55-64 | at least one direction is on. First-last is on unless only last-first completion is asked for, and last-first is on unless first-last completion is asked for |
| NameFieldAutoCompleter.ModeItemsCount | src/main/java/net/sf/jabref/logic/autocompleter/NameFieldAutoCompleter.java:96-121 | a first-name mode adds one form (abbreviated or full) or both |
| NameFieldAutoCompleter.SplitAtLastDelimiter | src/main/java/net/sf/jabref/logic/autocompleter/NameFieldAutoCompleter.java:135-144 | prefix + remainder is the input. Without a case-insensitive occurrence of the delimiter the prefix is empty and the remainder is the input. Otherwise the prefix ends with the delimiter and the remainder contains none |
| NameFieldAutoCompleter.PrefixEndsAtLastDelimiter | src/main/java/net/sf/jabref/logic/autocompleter/NameFieldAutoCompleter.java:136-139 | the prefix ends just after the last occurrence of the delimiter |
| NameFieldAutoCompleter.Completer.constructor | src/main/java/net/sf/jabref/logic/autocompleter/NameFieldAutoCompleter.java:49-66 | the constructor stores the fields and the mode, sets the directions by `Directions`, and starts with an empty prefix and index |
| NameFieldAutoCompleter.Completer.Single | src/main/java/net/sf/jabref/logic/autocompleter/NameFieldAutoCompleter.java:45-47 | the one-field constructor: entry-editor mode on that field |
| NameFieldAutoCompleter.Completer.IsSingleUnitField | src/main/java/net/sf/jabref/logic/autocompleter/NameFieldAutoCompleter.java:69-79 | a single unit field is exactly one whose names are separated by " and ", that is, not last-name-only mode |
| NameFieldAutoCompleter.Completer.GetFieldName | src/main/java/net/sf/jabref/logic/autocompleter/NameFieldAutoCompleter.java:158-160 | the first field name; none for an empty field list |
| NameFieldAutoCompleter.Completer.GetPrefix | src/main/java/net/sf/jabref/logic/autocompleter/NameFieldAutoCompleter.java:163-165 | the prefix of the last completion |
| NameFieldAutoCompleter.Completer.PerAuthor | src/main/java/net/sf/jabref/logic/autocompleter/NameFieldAutoCompleter.java:92-122 | with the constructor's directions, every author adds at least one item |
| NameFieldAutoCompleter.Completer.AddItemToIndex | src/main/java/net/sf/jabref/logic/autocompleter/NameFieldAutoCompleter.java:93 | the item is appended to the index and nothing else changes |
| NameFieldAutoCompleter.Completer.AddAuthor | src/main/java/net/sf/jabref/logic/autocompleter/NameFieldAutoCompleter.java:91-123 | one author appends exactly their items: the last name in search mode; otherwise the last-first forms, then the first-last forms, by mode |
| NameFieldAutoCompleter.Completer.AddAuthors | src/main/java/net/sf/jabref/logic/autocompleter/NameFieldAutoCompleter.java:89-124 | the authors of a field append their items in author order |
| NameFieldAutoCompleter.Completer.AddBibtexEntry | src/main/java/net/sf/jabref/logic/autocompleter/NameFieldAutoCompleter.java:82-127 | the index grows by exactly the entry's items: nothing for a null entry or a missing field, otherwise field after field |
| NameFieldAutoCompleter.Completer.AuthorItemsCount | src/main/java/net/sf/jabref/logic/autocompleter/NameFieldAutoCompleter.java:92-122 | every author adds the same number of items |
| NameFieldAutoCompleter.Completer.AuthorsItemsCount | src/main/java/net/sf/jabref/logic/autocompleter/NameFieldAutoCompleter.java:90-124 | n authors add n times that many items |
| NameFieldAutoCompleter.Completer.AuthorsItemsBlock | src/main/java/net/sf/jabref/logic/autocompleter/NameFieldAutoCompleter.java:90-124 | the j-th author's items are the j-th block of that size |
| NameFieldAutoCompleter.Completer.LastFirstBeforeFirstLast | src/main/java/net/sf/jabref/logic/autocompleter/NameFieldAutoCompleter.java:95-122 | with both directions on, an author's last-first forms come before their first-last forms |
| NameFieldAutoCompleter.Completer.LastNameOnlyItems | src/main/java/net/sf/jabref/logic/autocompleter/NameFieldAutoCompleter.java:92-93 | in last-name-only mode exactly one item is added per author, their last name |
| NameFieldAutoCompleter.Completer.NoFieldsNoItems | src/main/java/net/sf/jabref/logic/autocompleter/NameFieldAutoCompleter.java:86-88 | an entry without any of the completer's fields adds nothing |
| NameFieldAutoCompleter.Completer.DeterminePrefixAndReturnRemainder | src/main/java/net/sf/jabref/logic/autocompleter/NameFieldAutoCompleter.java:135-144 | the prefix is set and the remainder returned as `SplitAtLastDelimiter` says; prefix + remainder is the input |
| NameFieldAutoCompleter.Completer.Complete | src/main/java/net/sf/jabref/logic/autocompleter/NameFieldAutoCompleter.java:147-156 | the split uses " " in last-name-only mode and " and " otherwise; prefix + query is the input |
| LabelPattern.LabelPatternTable.constructor | src/main/java/net/sf/jabref/logic/labelPattern/AbstractLabelPattern.java:30-35 | a new table has no patterns and no default |
| LabelPattern.LabelPatternTable.AddLabelPattern | src/main/java/net/sf/jabref/logic/labelPattern/AbstractLabelPattern.java:37-39 | the type maps to the split pattern, overwriting any earlier one; it is no longer default; every other type is unchanged |
| LabelPattern.LabelPatternTable.RemoveLabelPattern | src/main/java/net/sf/jabref/logic/labelPattern/AbstractLabelPattern.java:46-50 | the type is dropped and becomes default. An absent type leaves the table unchanged. Every other type is unchanged |
| LabelPattern.LabelPatternTable.IsDefaultValue | src/main/java/net/sf/jabref/logic/labelPattern/AbstractLabelPattern.java:68-71 | a type is default exactly when it is not among the keys |
| LabelPattern.LabelPatternTable.GetDefaultValue | src/main/java/net/sf/jabref/logic/labelPattern/AbstractLabelPattern.java:78-80 | the default pattern, none until one is set |
| LabelPattern.LabelPatternTable.SetDefaultValue | src/main/java/net/sf/jabref/logic/labelPattern/AbstractLabelPattern.java:86-88 | the default becomes the split pattern and the per-type patterns are unchanged |
| LabelPattern.LabelPatternTable.GetAllKeys | src/main/java/net/sf/jabref/logic/labelPattern/AbstractLabelPattern.java:90-92 | exactly the types that have a pattern |
| BibteXmlImporter.IsRecognizedFormat | src/main/java/net/sf/jabref/importer/fileformat/BibteXMLImporter.java:68-81 | the input is recognised exactly when some line contains `<bibtex:file `, the space included |
| BibteXmlImporter.EmptyInputNotRecognized | src/main/java/net/sf/jabref/importer/fileformat/BibteXMLImporter.java:75-80 | input with no lines is not recognised |
| BibteXmlImporter.RecognizedKeptByMoreLines | src/main/java/net/sf/jabref/importer/fileformat/BibteXMLImporter.java:75-78 | further lines after recognised input keep it recognised |
| BibteXmlImporter.MarkerWithoutSpaceNotRecognized | src/main/java/net/sf/jabref/importer/fileformat/BibteXMLImporter.java:73 | a line made of `<bibtex:file` followed by anything but a space, with no marker later in it, is not recognised |
| BibteXmlImporter.SplitMarkerNotRecognized | src/main/java/net/sf/jabref/importer/fileformat/BibteXMLImporter.java:73-76 | the marker cut into two lines at any point is not recognised, although the joined text contains it |
| BibteXmlImporter.CliIdIsLoweredName | src/main/java/net/sf/jabref/importer/fileformat/BibteXMLImporter.java:51-62 | the command-line id `bibtexml` is the lower-cased format name `BibTeXML` |
| MainTable.GetCellStatus | src/main/java/net/sf/jabref/gui/MainTable.java:528-543 | REQUIRED exactly for the key column or a required field of a present entry; OPTIONAL exactly for an optional field that is neither; OTHER otherwise, including a null entry or type; never BOOLEAN |
| MainTable.MarkIndex | src/main/java/net/sf/jabref/gui/MainTable.java:325-350 | the marked-renderer index `min(marking, MARK_COLOR_LEVELS) - 1` always lies within the renderer array |
| MainTable.Refreshed | src/main/java/net/sf/jabref/gui/MainTable.java:180-205 | `refreshSorting`: the marking layer is set by FLOAT_MARKED_ENTRIES; the search and group layers hold exactly the current comparators; nothing else changes |
| MainTable.FloatSearchShown | src/main/java/net/sf/jabref/gui/MainTable.java:211-221 | switching on sets the flag and hit-or-miss comparator, leaves the grouping state alone, keeps the state consistent, and does nothing when already on |
| MainTable.FloatSearchStopped | src/main/java/net/sf/jabref/gui/MainTable.java:226-234 | switching off clears the flag, matcher, comparator and search layer, leaves the grouping state alone, and does nothing when already off |
| MainTable.FloatGroupingShown | src/main/java/net/sf/jabref/gui/MainTable.java:244-252 | the same as `FloatSearchShown`, for grouping |
| MainTable.FloatGroupingStopped | src/main/java/net/sf/jabref/gui/MainTable.java:257-265 | the same as `FloatSearchStopped`, for grouping |
| MainTable.SwitchesIdempotent | src/main/java/net/sf/jabref/gui/MainTable.java:211-265 | each of the four switches is idempotent |
| MainTable.StopUndoesShow | src/main/java/net/sf/jabref/gui/MainTable.java:211-265 | stopping a float that was just switched on returns to the earlier state, with the layers refreshed |
| MainTable.ShowFloatsCommute | src/main/java/net/sf/jabref/gui/MainTable.java:211-252 | the two floats can be switched on in either order |
| MainTable.Table.constructor | src/main/java/net/sf/jabref/gui/MainTable.java:133-175 | the table starts with no float, matcher or comparator, in a consistent refreshed state |
| MainTable.Table.RefreshSorting | src/main/java/net/sf/jabref/gui/MainTable.java:180-205 | the new state is `Refreshed` of the old one |
| MainTable.Table.ShowFloatSearch | src/main/java/net/sf/jabref/gui/MainTable.java:211-221 | the new state is `FloatSearchShown` of the old one, and consistency is preserved |
| MainTable.Table.StopShowingFloatSearch | src/main/java/net/sf/jabref/gui/MainTable.java:226-234 | the new state is `FloatSearchStopped` of the old one, and consistency is preserved |
| MainTable.Table.ShowFloatGrouping | src/main/java/net/sf/jabref/gui/MainTable.java:244-252 | the new state is `FloatGroupingShown` of the old one, and consistency is preserved |
| MainTable.Table.StopShowingFloatGrouping | src/main/java/net/sf/jabref/gui/MainTable.java:257-265 | the new state is `FloatGroupingStopped` of the old one, and consistency is preserved |
| MainTable.Table.GetCellRenderer | src/main/java/net/sf/jabref/gui/MainTable.java:285-355 | the full decision table, stated by what the score means. In columns other than 0, a marked row gets the marked renderer, overriding gray and colour codes. Failing an active group float is very grayed out; passing it but failing an active search float is grayed out; with no float on, nothing is gray. Column 0 is ordered incomplete, then marked, then complete. Otherwise colour codes go by cell status. Marked indices are in range, and the Boolean renderer is never chosen |
| MainTable.FieldWidth | src/main/java/net/sf/jabref/gui/MainTable.java:381-389 | a field column gets its stored width when there is one and it parses as an integer, and DEFAULT_FIELD_LENGTH when it is missing or does not parse |
| MainTable.FieldWidthRoundTrip | src/main/java/net/sf/jabref/gui/MainTable.java:383 | a width stored as an integer's text comes back unchanged |
| MainTable.SetWidths | src/main/java/net/sf/jabref/gui/MainTable.java:357-390 | column 0 gets the number-column width. Icon columns below padleft get the ranking or icon width, with min and max pinned. Every later column gets its `FieldWidth` |
| MainTable.IconColumnIndex | src/main/java/net/sf/jabref/gui/MainTable.java:477-482 | the first column whose type equals the field, or -1 exactly when there is none |
| MainTable.FindIconColumn | src/main/java/net/sf/jabref/gui/MainTable.java:477-482 | the search loop with `break` returns `IconColumnIndex` |
| MainTable.InitialSortKeys | src/main/java/net/sf/jabref/gui/MainTable.java:472-487 | at most one comparator per sort field, each for a column index of at least 0; which fields contribute and in what order is stated by `InitialSortKeysByField` |
| MainTable.InstallInitialSort | src/main/java/net/sf/jabref/gui/MainTable.java:472-487 | the loop appends exactly `InitialSortKeys` |
| MainTable.InitialSortKeysFromFields | src/main/java/net/sf/jabref/gui/MainTable.java:472-487 | every appended comparator is the column one of the sort fields names, with that field's direction |
| MainTable.FieldsNamingColumns | src/main/java/net/sf/jabref/gui/MainTable.java:472-487 | the sort fields whose column lookup gives an index of at least 0: exactly those, in increasing order |
| MainTable.InitialSortKeysByField | src/main/java/net/sf/jabref/gui/MainTable.java:472-487 | the appended comparators are, one for one and in preference order, those of the fields that name a column, each with that field's column and direction |
| MainTable.InitialSortKeysComplete | src/main/java/net/sf/jabref/gui/MainTable.java:472-487 | every sort field that names a column has its comparator appended, with its direction |
| MainTable.GetCurrentSortOrder | src/main/java/net/sf/jabref/gui/MainTable.java:404-411 | one reverse flag per sorting column, in order |
| MainTable.SortFieldNames | src/main/java/net/sf/jabref/gui/MainTable.java:413-423 | never more fields than sorting columns |
| MainTable.GetCurrentSortFields | src/main/java/net/sf/jabref/gui/MainTable.java:413-423 | the loop returns `SortFieldNames`: the lower-cased types of the sorting columns that have one |
| MainTable.SortFieldNamesAllTyped | src/main/java/net/sf/jabref/gui/MainTable.java:413-423 | when every sorting column has a type, there is one field per column, in order |
| MainTable.SortPreferencesAfterSort | src/main/java/net/sf/jabref/gui/MainTable.java:497-521 | with count = min(fields, order): slot i gets field i and direction i when count > i. The secondary and tertiary slots are reset to "" and false otherwise. The primary slot is unchanged when count is 0 |
| MainTable.SortWriteBackIdempotent | src/main/java/net/sf/jabref/gui/MainTable.java:497-521 | writing the same sort order back twice is the same as once |
| MainTable.SortFieldsReadBack | src/main/java/net/sf/jabref/gui/MainTable.java:497-521 | after sorting by three or more typed columns, the next start reads their lower-cased types back as sort fields |
| MainTable.SortDirectionOfUntypedColumnShifts | src/main/java/net/sf/jabref/gui/MainTable.java:498-504 | a sorting column without a type drops out of the fields but not of the directions, so the next field is stored with the wrong direction |
| MainTable.GetSortingColumn | src/main/java/net/sf/jabref/gui/MainTable.java:763-770 | the column at that position of the sort hierarchy, or -1 when fewer columns are sorted |
| MainTable.SortingColumnAbsent | src/main/java/net/sf/jabref/gui/MainTable.java:763-770 | with column numbers only, -1 means exactly that the position is not sorted |
| MainTable.Mix | src/main/java/net/sf/jabref/gui/MainTable.java:714-715 | the integer mean of two components lies between them and is rounded down |
| MainTable.MixColors | src/main/java/net/sf/jabref/gui/MainTable.java:713-716 | each component of the mix is a valid colour component lying between the two inputs; mixing a colour with itself gives it back |
| MainTable.MixColorsCommute | src/main/java/net/sf/jabref/gui/MainTable.java:713-716 | the order of the two colours does not matter |

## Left out

- **HTMLParagraphs**
  - `appendReplacement` treats `$` and `\` in group 1 as replacement syntax. The model copies group 1 literally, so it describes text without those two characters.
  - Java strings are UTF-16 code units. The model works on Unicode scalar values, which agree on the ASCII text the model is meant for.
- **`Integer.parseInt`** is modelled on the ASCII digits `0`-`9`. Java also accepts other Unicode decimal digits (`Character.digit`); the model refuses them.
- **`toLowerCase`** is modelled on ASCII only. Locale rules and Unicode case folding are left out, so lowering keeps the length.
- **NameFieldAutoCompleter**
  - `AuthorList` name parsing is a parameter `authorsOf`, and each author is given by the name forms the completer reads. The parsing code is not part of this model.
  - The completion index and `AbstractAutoCompleter.complete` live in the superclass. The index is a log of the items passed to `addItemToIndex`. The superclass lookup that `complete` ends with is not modelled, so `Complete` returns the query it would be given.
- **AbstractLabelPattern**
  - `getAllKeys` returns an `Enumeration` of the table's keys. The model gives the key set, so the order in which the keys are enumerated is not modelled.
  - `LabelPatternUtil.split` is an uninterpreted function fixed when the table is built.
  - `getValue` is abstract in this class, so there is nothing to model.
- **BibteXMLImporter**
  - `BufferedReader.readLine` line splitting is not modelled; the input is the sequence of lines.
  - `importEntries` is left out: it is SAX parsing done by a handler that is not part of this model.
  - An I/O exception while reading is not modelled.
  - `getFormatName` and `getCLIId` are the constants `FormatName` and `CliId`.
- **MainTable**
  - Swing and GlazedLists are left out: renderer construction (`updateRenderers`), `setNumber` and alignment calls on renderers, scrolling (`scrollTo` in `showFloatSearch`), fonts, drag and drop, and the sorting that the sorted lists and the comparator chooser perform. Comparators and matchers are opaque tokens.
  - The read/write locks around comparator changes are not modelled; the model is sequential.
  - Preferences are a map from key to value. The default values the store falls back on are not modelled.
  - The constant values of other classes (MARK_COLOR_LEVELS, KEY_FIELD, ICON_COLUMN_PREFIX, the icon widths, DEFAULT_FIELD_LENGTH) are parameters. `GetCellRenderer` requires MARK_COLOR_LEVELS to be at least 1, because the renderer arrays have that length.
  - `tableFormat.getColumnIndex`, `getColumnType` and `isRankingColumn`, and the comparator chooser's sorting columns and reverse flags, are parameters.
  - The row facts that `getCellRenderer` asks for are inputs: the search and group hits, completeness and marking.
  - Swing's clamping of a preferred width to a column's minimum and maximum is not modelled.
  - A null sort-field preference, which would make `startsWith` throw, is not modelled.
  - `getComparatorForColumn` is left out: it is a lookup in the comparator chooser.
- NameFieldAutoCompleter.Completer.GetFieldName: returns None for an empty field list, where Java throws ArrayIndexOutOfBoundsException on `fieldNames[0]`.
- NameFieldAutoCompleter.Completer.GetPrefix: a plain getter of the field. What the field holds is stated by `DeterminePrefixAndReturnRemainder`.
- MainTable.SetWidths: requires at least one column and `padleft` at most the column count. Otherwise the Java code fails on `getColumn`.
- MainTable.GetSortingColumn: takes a non-negative position. A negative one makes `List.get` throw in Java.
