# batch-mockup-generator data scripts, modelled in Dafny

The repository prepares the inputs of a batch mockup generator. This model covers eight
small Python scripts that move product data between CSV exports, a text list of image
names and `config.json`:

- `extract/extract_art/extract_images.py` collects the image names in a CSV `Images`
  column. It removes a base URL and a `.webp` extension, then writes the sorted names under
  a count line.
- `process_extracted_to_config.py` reads that list back. It splits each name at its first
  `_` into an input file (`.png`) and a mockup (`.psd`), and writes `config.json`. The file
  holds metadata first, then the input keys in numeric-first order, each with its sorted
  mockups.
- `check_files_existence.py` and `check_file_completeness.py` compare `config.json` with the
  `input` and `mockup` folders. The first skips `_` metadata keys and reports missing and
  extra files. The second counts every key and writes a report of missing files.
- `update_prices.py`, `update_categories.py`, `update_zestawy_plakatow.py` and
  `update_csv_categories.py` rewrite CSV rows or whole CSV texts:
  - a new regular price from the sale price plus `4.06504065`;
  - a category prefix;
  - poster-set codes with `+` instead of `_`;
  - renamed category names.

## How the model is built

There is one Dafny module per script, plus shared modules for the Python semantics the
scripts rely on:

- `Common`: `Option`, `Result`, and a CSV row as `map<string, string>`.
- `Text`: `str.strip`, `split`, `count`, `replace`, and the lines of a file.
- `Numbers`: `str(n)`, `int(s)` and `isdigit` over ASCII digits.
- `Sorting`: Python's `str` order and `sorted` over lists and sets.
- `Decimals`: the decimal numbers of `update_prices.py`. They are finite, with 28-digit
  half-even rounding and the `Decimal(text)` and `str(d)` conversions.
- `ConfigJson`: a parsed JSON value and a folder listing.

The model keeps the form of each script:

- Loops that mutate rows in place are methods over `array<Row>`, with `modifies` clauses.
- Loops that accumulate sets, lists or texts are methods with loop invariants. Each is
  proved equal to a recursive reference function.
- The pure parts are functions. The properties the scripts promise are lemmas about those
  functions.

Two lemmas state that files written by one script are read correctly by another:

- `extract_images.py` and `process_extracted_to_config.py`: the count line and the blank
  line that the extractor writes are skipped by the parser.
- `process_extracted_to_config.py` and `check_files_existence.py`: the generated config
  loads, and its input and mockup sets are exactly the parsed keys and values.

One lemma states where the two audit scripts differ on the generated config.
`check_file_completeness.py` takes the metadata key `_comment` for an input file. It also
takes the first `_notes` sentence for a mockup file. `check_files_existence.py` takes
neither.

## Model

| member | source | states |
|---|---|---|
| `Text.Strip` | process_extracted_to_config.py:26 | the stripped text occurs in the line between a run of leading and a run of trailing white space, and has no white space at either end |
| `Text.StripBlank` | extract/extract_art/extract_images.py:25 | a text strips to empty exactly when every character is white space |
| `Text.StripAppendSpace` | process_extracted_to_config.py:25-26 | the trailing line break a file line keeps never survives `strip` |
| `Text.StripTrimmed` | update_prices.py:21 | a text with no white space at either end is its own strip |
| `Text.IndexOf` | process_extracted_to_config.py:38 | the index is the first occurrence of the character, or -1 exactly when it is absent |
| `Text.SplitOnce` | process_extracted_to_config.py:38-43 | `split('_', 1)` gives two parts exactly when the text holds `_`; then the first part has no `_` and the parts joined by `_` are the text; otherwise the one part is the text |
| `Text.JoinSplit` | extract/extract_art/extract_images.py:27 | joining the pieces of `split(', ')` with the separator gives the cell back |
| `Text.SplitCount` | extract/extract_art/extract_images.py:27 | a split gives one more piece than `str.count` counts separators |
| `Text.SplitPiecesFree` | extract/extract_art/extract_images.py:27 | no piece of a split contains the separator |
| `Text.CountZeroIffAbsent` | update_csv_categories.py:33-34 | `content.count(old)` is zero exactly when `old in content` is false |
| `Text.ReplaceAbsent` | update_zestawy_plakatow.py:46-47 | replacing a pattern that does not occur leaves the text unchanged |
| `Text.ReplaceLength` | update_csv_categories.py:33-36 | `replace` trades each occurrence that `count` reports for one copy of the new text, so the length changes by count × (new length − old length) |
| `Text.ReplaceSelf` | update_csv_categories.py:36 | replacing a pattern by itself changes nothing |
| `Text.ConcatLines` | process_extracted_to_config.py:25 | iterating over a file's lines reads every character once, in order |
| `Text.LinesShape` | process_extracted_to_config.py:25 | every line is non-empty and holds at most one line break, at its end; only the last line may lack one |
| `Numbers.NatToStringValue` | extract/extract_art/extract_images.py:59 | `int(str(n)) == n` |
| `Numbers.NatToStringInjective` | check_file_completeness.py:55 | two different counts never print the same |
| `Numbers.DigitsValueAppend` | process_extracted_to_config.py:88 | the value of a digit string is that of its front shifted past its back |
| `Numbers.LeadingZeros` | process_extracted_to_config.py:88 | leading zeros do not change `int(s)` |
| `Sorting.LessIrreflexive` | extract/extract_art/extract_images.py:47 | no string sorts before itself |
| `Sorting.LessTransitive` | extract/extract_art/extract_images.py:47 | Python's string order is transitive |
| `Sorting.LessTotal` | process_extracted_to_config.py:94 | of any two different strings, one sorts before the other |
| `Sorting.Sort` | process_extracted_to_config.py:94 | `sorted(list)` is ordered and a permutation of the list |
| `Sorting.SortedSet` | check_file_completeness.py:58 | `sorted(set)` is increasing and has exactly the set's elements, as many as the set has |
| `Sorting.StrictlySortedUnique` | extract/extract_art/extract_images.py:47 | two increasing sequences with the same elements are equal, so `sorted(set)` has one result |
| `Sorting.SortSet` | check_file_completeness.py:66 | inserting the elements one at a time gives `sorted(set)` |
| `FilesExistence.GetFolderFiles` | check_files_existence.py:18-25 | a name is returned exactly when the folder exists and the name is a regular file in it |
| `FilesExistence.LoadConfigMappings` | check_files_existence.py:27-44 | loading succeeds exactly when every non-metadata value can be iterated. The input set is then the keys without a leading `_`. The mockup set is the union of their values |
| `FilesExistence.Compare` | check_files_existence.py:69-74 | missing ⊆ config and extra ⊆ folder, and the two are disjoint. A name in the config is missing exactly when the folder lacks it. A name in the folder is extra exactly when the config lacks it |
| `FilesExistence.AllGood` | check_files_existence.py:77-91 | `all_good` is true exactly when both missing sets are empty |
| `FilesExistence.CheckFilesExistence` | check_files_existence.py:46-112 | the run succeeds exactly when the config is an object whose non-metadata values iterate. Both differences compare the config's names with the folders' regular files. The result is true exactly when every name the config gives is present |
| `FilesExistence.ExtraFilesNeverFail` | check_files_existence.py:93-103 | adding files to either folder never turns a passing check into a failing one |
| `FilesExistence.MetadataIgnored` | check_files_existence.py:35-36 | changing or adding a `_` key leaves loading, the input set and the mockup set as they were |
| `FileCompleteness.ListNames` | check_file_completeness.py:26-29 | a value that is not a list adds nothing; a list adds exactly its string items |
| `FileCompleteness.Listdir` | check_file_completeness.py:32-42 | a missing folder lists nothing; an existing one lists every entry, directories included |
| `FileCompleteness.CollectMockups` | check_file_completeness.py:25-29 | the loop's set is the union of every list value in the config, metadata included |
| `FileCompleteness.WriteSection` | check_file_completeness.py:54-68 | one folder's section: the ✅ line with the expected count when nothing is missing; otherwise the ❌ line with both counts, one `  - name` line per missing name in sorted order, and a blank line |
| `FileCompleteness.CheckFileCompleteness` | check_file_completeness.py:4-72 | a missing or malformed config ends with its error message and no report. A config that is not an object, or a list holding a non-string, raises. Otherwise the report compares all keys (metadata included) with the `input` listing and the list items with the `mockup` listing |
| `FileCompleteness.ReportFrame` | check_file_completeness.py:50-70 | the report opens with its title and the date line and closes with its end marker |
| `FileCompleteness.InputCompleteIff` | check_file_completeness.py:54-57 | the input section opens with the ✅ line exactly when every expected input is present |
| `FileCompleteness.ListedIff` | check_file_completeness.py:45-68 | a report line `  - f` exists exactly when f is expected and missing in either folder |
| `FileCompleteness.SectionListed` | check_file_completeness.py:58-59 | within one section, `  - f` is listed exactly when f is missing |
| `FileCompleteness.MissingFolderListsAll` | check_file_completeness.py:33-60 | when the input folder is missing and some input is expected, the input section is the ❌ line counting all expected inputs as missing, then one bullet per expected input in sorted order, then a blank line; a name is listed there exactly when it is expected |
| `Decimals.RescaleKeepsValue` | update_prices.py:29 | writing a decimal with a smaller exponent keeps its value |
| `Decimals.ExactSumValue` | update_prices.py:29 | the unrounded sum stands for the sum of the two values |
| `Decimals.RoundHalfEven` | update_prices.py:29 | the quotient is within half a unit of n/p, and a tie goes to the even neighbour |
| `Decimals.Round` | update_prices.py:29 | a rounded coefficient has at most 28 digits; a coefficient that already fits is unchanged |
| `Decimals.RoundedBelow` | update_prices.py:29 | rounding away k digits from a (28 + k)-digit coefficient never exceeds 10^28 |
| `Decimals.AddExact` | update_prices.py:29 | when the exact sum fits in 28 digits, `a + b` is the exact sum, at the smaller exponent |
| `Decimals.ParseExponent` | update_prices.py:27 | an exponent is accepted exactly when it is digits, optionally after a sign |
| `Decimals.ParseFormat` | update_prices.py:27-32 | `Decimal(str(d)) == d`: the text `str()` writes reads back as the same coefficient and exponent |
| `Prices.AdditionText` | update_prices.py:28 | `Decimal('4.06504065')` is 406504065 × 10^-8 |
| `Prices.UpdatedRow` | update_prices.py:21-36 | a row is updated exactly when its stripped `Sale price` is non-empty and parses as a finite decimal (the exponent limit of the decimal context is not modelled; see "Left out") |
| `Prices.UpdatedRowShape` | update_prices.py:32-33 | an updated row keeps its columns and gains the two price columns. `Sale price` becomes empty. Every other column keeps its value |
| `Prices.RegularPriceIsSum` | update_prices.py:27-32 | the new regular price reads back as the sale price plus 4.06504065, rounded to 28 digits half-even, and equals it exactly whenever the sum fits in 28 digits (sums past the decimal context's exponent limit are not modelled; see "Left out") |
| `Prices.ProcessAt` | update_prices.py:20-36 | one pass of the loop updates row i as the rule says and leaves every other row alone |
| `Prices.ProcessCsvFile` | update_prices.py:19-44 | every row becomes its updated form; the count returned is the number of rows updated |
| `Prices.SecondRunChangesNothing` | update_prices.py:24-33 | a second run leaves every row as it is |
| `Prices.SecondRunCountsZero` | update_prices.py:19-34 | a second run over a whole file reports zero modified rows |
| `Prices.OldRegularPriceIgnored` | update_prices.py:32 | the previous regular price is overwritten, never read |
| `Categories.UpdatedRow` | update_categories.py:18-27 | an update changes the `Categories` column only |
| `Categories.PrependRule` | update_categories.py:18-27 | the two branches form one rule. A `variable` row whose categories do not start with the prefix gets the prefix in front of them. An empty value becomes the prefix alone. No other row changes |
| `Categories.UpdatedCategories` | update_categories.py:21-26 | updated categories start with the prefix and end with the old text |
| `Categories.Idempotent` | update_categories.py:21-27 | a second run changes no row |
| `Categories.SecondRunCountsZero` | update_categories.py:16-27 | a second run over a whole file reports zero modified rows |
| `Categories.UpdateCsvCategories` | update_categories.py:16-35 | every row becomes its updated form; the count returned is the number of rows updated |
| `PosterSets.UpdateColumn` | update_zestawy_plakatow.py:44-47 | only the given column may change; an absent or empty value is left alone |
| `PosterSets.ProcessRow` | update_zestawy_plakatow.py:42-55 | a row keeps its columns, and every column other than `SKU` and `Parent` keeps its value |
| `PosterSets.UpdateField` | update_zestawy_plakatow.py:45-48 | the table's entries are applied in order, each to the previous result. Entry j is counted exactly when its key occurs after the earlier entries were applied |
| `PosterSets.UpdateRow` | update_zestawy_plakatow.py:43-55 | `SKU` is updated first, then `Parent`. Each column's counters record the keys found in it |
| `PosterSets.UpdateAt` | update_zestawy_plakatow.py:42-55 | one pass of the row loop updates row i in place, reports the keys found in each column, and leaves every other row alone |
| `PosterSets.UpdateRows` | update_zestawy_plakatow.py:36-55 | every row becomes its updated form. `changes_by_column[c][key]` is the number of rows in which the key was found, not the number of occurrences; the Parent counters are stated both over the SKU-updated rows the loop sees and over the input rows |
| `PosterSets.TotalChanges` | update_zestawy_plakatow.py:65-71 | `total_changes` is the sum of all the counters of both columns |
| `PosterSets.ParentHitsUnaffected` | update_zestawy_plakatow.py:42-55 | updating SKU first never changes a Parent counter: the Parent hits of the SKU-updated rows equal those of the input rows |
| `PosterSets.ColumnHits` | update_zestawy_plakatow.py:46-48 | a counter never exceeds the number of rows |
| `PosterSets.TableUnderscores` | update_zestawy_plakatow.py:10-14 | every table entry only turns underscores into plus signs |
| `PosterSets.ReplaceUnderscores` | update_zestawy_plakatow.py:47 | replacing a key by a value that only turns `_` into `+` does just that to the whole field |
| `PosterSets.ApplyUnderscores` | update_zestawy_plakatow.py:45-47 | applying such a table keeps a field's length and changes only underscores, into plus signs |
| `PosterSets.FieldUnderscores` | update_zestawy_plakatow.py:42-55 | the update of a field only turns some of its underscores into plus signs |
| `PosterSets.NoUnderscoreUntouched` | update_zestawy_plakatow.py:45-48 | a field without `_` is left as it was and counts for no key |
| `CategoryText.RenameContent` | update_csv_categories.py:29-36 | the renames are applied in order, each to the previous result. Each reported count is the number of occurrences in the text that rename sees |
| `CategoryText.RenameLength` | update_csv_categories.py:33-36 | each rename changes the length by its reported count times the difference in length, so the counts are the replacements made |
| `CategoryText.UpdateFile` | update_csv_categories.py:23-44 | a file is written exactly when it exists and the renaming changes it; then it holds the renamed text, and otherwise nothing changes |
| `CategoryText.UpdatePaths` | update_csv_categories.py:22-46 | over distinct paths, each existing file ends renamed and is written exactly when it changed; other files keep their contents |
| `CategoryText.UpdateFiles` | update_csv_categories.py:6-46 | the three listed files end renamed; missing files are skipped; a file is rewritten exactly when its content changed |
| `CategoryText.ReplaceAfter` | update_csv_categories.py:36 | a replacement never reaches into a front part that holds no first character of the pattern |
| `CategoryText.PrefixRenamed` | update_csv_categories.py:13-16 | the categories prefix written by `update_categories.py` comes out of the renaming as `Obrazy i plakaty chrześcijańskie, ` |
| `ExtractImages.CleanUrl` | extract/extract_art/extract_images.py:32-40 | the loop over the bases stops at the first that matches, and gives the cleaned name |
| `ExtractImages.CleanedInside` | extract/extract_art/extract_images.py:32-40 | the URL is the cleaned name between at most one base URL in front and at most one `.webp` behind |
| `ExtractImages.BaseInside` | extract/extract_art/extract_images.py:33-36 | the base removed, if any, is one of those tried and is the front of the URL |
| `ExtractImages.CleanedBuilt` | extract/extract_art/extract_images.py:9-13 | a URL built from either base, a name and `.webp` cleans back to the name |
| `ExtractImages.UrlImagesMembers` | extract/extract_art/extract_images.py:29-44 | the names a list of URLs adds are exactly the non-empty cleaned forms of its non-empty URLs |
| `ExtractImages.AddUrls` | extract/extract_art/extract_images.py:29-44 | the inner loop adds exactly the names of the cell's URLs |
| `ExtractImages.ImagesOfMembers` | extract/extract_art/extract_images.py:22-44 | the set gathered over the rows is the union of what each row's cell adds |
| `ExtractImages.NoEmptyImage` | extract/extract_art/extract_images.py:43-44 | the empty name is never added |
| `ExtractImages.SplitNoComma` | extract/extract_art/extract_images.py:27 | a cell without a comma is a single URL |
| `ExtractImages.BlankCellAddsNothing` | extract/extract_art/extract_images.py:23-25 | the blank-cell guard only saves work: a blank cell would add nothing anyway |
| `ExtractImages.WriteOutput` | extract/extract_art/extract_images.py:58-61 | the writes are the count line, a blank line, then one name per line |
| `ExtractImages.Extract` | extract/extract_art/extract_images.py:16-61 | the names are `sorted(unique_images)` over all the rows, and the output text is written from them |
| `ExtractImages.ExtractedNames` | extract/extract_art/extract_images.py:16-47 | every name comes from some row's cell; the names are in increasing order, with no repeats and no empty name |
| `ExtractedConfig.ParsedPairShape` | process_extracted_to_config.py:26-47 | a line counts exactly when it strips to a non-empty text that is not the count line and holds `_`; the `len(parts) != 2` branch is never taken. The key is the text before the first `_` plus `.png`; the value is all after it plus `.psd` |
| `ExtractedConfig.KeyNotMetadata` | process_extracted_to_config.py:33-46 | a parsed key never starts with `_`, so the audit scripts never take it for metadata |
| `ExtractedConfig.Append` | process_extracted_to_config.py:50-51 | the `defaultdict` access creates an empty list for a new key and records its insertion order; the value is appended only when new |
| `ExtractedConfig.ParseLine` | process_extracted_to_config.py:26-51 | one pass of the line loop |
| `ExtractedConfig.ParseExtractedImages` | process_extracted_to_config.py:18-53 | the loop over the file's lines builds the mapping of its lines |
| `ExtractedConfig.Dedup` | process_extracted_to_config.py:50-51 | dropping repeats keeps the same elements and leaves none twice |
| `ExtractedConfig.ParseIsDedup` | process_extracted_to_config.py:22-53 | the keys are in first-seen order without repeats. Each key's list is its values in first-seen order without repeats |
| `ExtractedConfig.ListsNonEmptyDistinct` | process_extracted_to_config.py:50-51 | every key has at least one value and no value twice |
| `ExtractedConfig.ParsedMembers` | process_extracted_to_config.py:38-51 | a value is listed under a key exactly when some line names that pair |
| `ExtractedConfig.ValuesArePsd` | process_extracted_to_config.py:47 | every parsed value ends in `.psd` |
| `ExtractedConfig.TotalInputsCount` | process_extracted_to_config.py:79 | `_totalInputFiles` is the number of distinct keys the lines name |
| `ExtractedConfig.TotalCombinationsCount` | process_extracted_to_config.py:80 | `_totalCombinations` is the number of distinct (key, value) pairs the lines name |
| `ExtractedConfig.BeforeIrreflexive` | process_extracted_to_config.py:84-90 | no sort key comes before itself |
| `ExtractedConfig.BeforeTransitive` | process_extracted_to_config.py:84-90 | the order of `sort_key` tuples is transitive |
| `ExtractedConfig.BeforeTotal` | process_extracted_to_config.py:84-90 | of two different sort keys one comes first |
| `ExtractedConfig.SortBy` | process_extracted_to_config.py:92 | `sorted(keys, key=sort_key)` is a permutation of the keys |
| `ExtractedConfig.SortSorted` | process_extracted_to_config.py:92 | the sorted keys are ordered by `sort_key` |
| `ExtractedConfig.SortStable` | process_extracted_to_config.py:92 | keys with equal sort keys (such as `1.png` and `01.png`) keep their dictionary order |
| `ExtractedConfig.SortByKeyMembers` | process_extracted_to_config.py:92 | the sorted keys are exactly the mapping's keys |
| `ExtractedConfig.NumericFirst` | process_extracted_to_config.py:84-92 | keys whose base name is all digits come before all others. Those rise by value, the others by string order |
| `ExtractedConfig.MetadataMarked` | process_extracted_to_config.py:60-81 | every metadata entry's name starts with `_` |
| `ExtractedConfig.WriteEntry` | process_extracted_to_config.py:94 | a key's entry holds its mockups in sorted order |
| `ExtractedConfig.AddMappings` | process_extracted_to_config.py:92-94 | the loop appends one entry per key in the given order |
| `ExtractedConfig.CreateConfigJson` | process_extracted_to_config.py:55-94 | the config is the metadata followed by the entries of the sorted keys |
| `ExtractedConfig.ToObjectLookup` | process_extracted_to_config.py:98 | a key is in the loaded object exactly when some entry names it. When every entry naming it carries the same value, that value is loaded |
| `ExtractedConfig.PlainLookup` | process_extracted_to_config.py:92-98 | a key without `_` is in the loaded config exactly when it is a parsed key |
| `ExtractedConfig.PlainValue` | process_extracted_to_config.py:94-98 | such a key loads with its own sorted list |
| `ExtractedConfig.GeneratedConfigAudit` | process_extracted_to_config.py:55-98 | the generated config loads in `check_files_existence.py`. Its input files are the parsed keys. Its mockup files are the values the lines name |
| `ExtractedConfig.OutputLines` | extract/extract_art/extract_images.py:59-61 | the file the extractor writes reads back as the count line, a blank line and one line per name |
| `ExtractedConfig.CountLineSkipped` | process_extracted_to_config.py:29-30 | the parser skips the extractor's count line, whatever the count |
| `ExtractedConfig.BlankLineSkipped` | process_extracted_to_config.py:29-30 | the parser skips the blank line after the count line |
| `ExtractedConfig.BlankSkipped` | process_extracted_to_config.py:26-30 | a line of white space only is skipped |
| `ExtractedConfig.WrittenThenParsed` | process_extracted_to_config.py:24-51 | reading back the extractor's file gives the mapping of the name lines alone |
| `ExtractedConfig.AuditsDisagreeOnMetadata` | process_extracted_to_config.py:60-81 | on the generated config, `check_file_completeness.py` counts `_comment` as an expected input and the first note as an expected mockup. `check_files_existence.py` counts neither |

## Left out

- File and folder I/O and every `print`. A folder is a map from names to entry kinds, or
  `None` when it does not exist; a file is its text, and a CSV file is its parsed rows.
  `os.path.exists` is membership in a file map (`CategoryText.UpdateFile`) or a folder
  being present (`FilesExistence.GetFolderFiles`). The absolute paths are kept only in
  `CategoryText.FilesToUpdate`, as the keys of update_csv_categories.py's three files; the
  other scripts' paths and folder locations are dropped. A file's text is taken after Python's universal-newline translation, so
  `Text.Lines` splits on `\n` only; a lone `\r` in the file on disk has already become
  `\n`.
- CSV tokenising and quoting, and `DictWriter` output. A row is a map from column to text,
  so the model does not track column order, `None` cells from short rows, or cells that
  span several lines. Writing a row with a column the first row lacks raises in the
  source; that error is not modelled.
- `json.load` and `json.dump` text formatting. A config is a parsed JSON value. Loading a
  written list of entries is modelled as an object in which a later entry wins. Numbers
  are integral; floats are not modelled.
- `datetime.now()`: the date in `config.json` and the timestamp in the completeness report
  are parameters.
- `main` in `process_extracted_to_config.py`, its statistics, the preview of the first five
  mappings, and the file-size print. They only print.
- FilesExistence.LoadConfigMappings: a list item that is not a string makes loading fail.
  In the source a number, boolean or `null` item would be added to the mockup set, and only
  a nested list or object raises.
- FileCompleteness.CheckFileCompleteness: a list item that is not a string is treated as
  raising, as nested lists do in the source. The source would add a number, boolean or
  `null` item to the expected mockups.
- Prices.UpdatedRow: `Decimal(text)` is modelled for finite numbers only. Text with
  underscores, non-ASCII digits, `NaN` or `Infinity` is treated as not a number, so the row
  is left unchanged; the source would accept it. A sum whose adjusted exponent exceeds
  999999 raises `Overflow` in the source, so the row stays unchanged and is not counted;
  the model updates and counts it.
- Prices.RegularPriceIsSum: it holds for every finite sale price, including a sum past the
  decimal context's exponent limit, where the source raises `Overflow` and writes no new
  price.
- Decimals.Round: the exponent limits of the decimal context and the sign of a zero result
  are not modelled.
- Numbers.DigitsValueAppend: `str.isdigit` and `int` are modelled for ASCII digits only.
- copy_mockup_files_with_suffix.py, convert to webp/converter.py and convert to
  webp/converter_clean.py are not part of this model. They copy and convert image files.
