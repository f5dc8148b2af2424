# Letterboxd diary import, modelled in Dafny

This project models the core of the "Letterboxd import" plugin for
Obsidian (`main.js`). The plugin reads a Letterboxd diary export (a CSV
file) and keeps one Markdown note per film. Each note has:

- a YAML front-matter block holding every non-empty column of the row,
  the poster URL, a `watches:` counter and the configured tags;
- the row's `content`;
- a `## Watch History` section with one `### <date>` entry per viewing.

When a film's note already exists, the duplicate-handling setting
decides what happens:

- skip: the row is skipped;
- append: a new dated entry is added and the counter is raised, unless
  that date is already there;
- update: the note is rewritten from the row, keeping the old history
  verbatim.

The model is a set of pure functions over strings, one module per part
of the plugin:

| module | file | what it holds |
|---|---|---|
| `Text` | text.dfy | JavaScript's `trim` (its whitespace and line-terminator set), `split`/`join` on one character, `indexOf`/`includes`, quote doubling |
| `Numbers` | numbers.dfy | decimal digits, `parseInt` on a digit run, number rendering |
| `Csv` | csv.dfy | `parseCSVLine` (the character loop, proved equal to a tokenizer-based reference definition) and `parseCSV` |
| `Naming` | naming.dfy | `sanitizeFilename`, `getTagsArray` |
| `FrontMatter` | frontmatter.dfy | the `^---\n(.*?)\n---` block and the `watches: (\d+)` counter |
| `Document` | document.dfy | the note `createNewMovieFile` writes, with readers that read the front-matter block and the watch history back |
| `Merge` | merge.dfy | `appendWatchEntry`, including ECMAScript's expansion of `$` patterns in replacement strings |
| `Update` | update.dfy | `updateMovieFile` |
| `Importer` | importer.dfy | the loop of `processCsvData` over rows, with the vault as a map from paths to note texts |

Some things become parameters rather than being modelled:

- The poster lookup (a network call) is a function argument.
- The vault's read, create and modify calls are map lookups and updates.

Header names are cut at every comma (main.js:98-100) and have one pair
of enclosing quotes stripped; the quote-aware field splitter is not used
for them.

## Model

| member | source | states |
|---|---|---|
| `Text.Trim` | main.js:93 | the result has no whitespace at either end |
| `Text.TrimIsInfix` | main.js:93 | what `trim` keeps is an infix of its input, and everything it removes on either side is whitespace |
| `Text.TrimEmptyIff` | main.js:106 | a line trims to nothing exactly when it is all whitespace, which is when the data loop skips it |
| `Text.Split` | main.js:93 | there is one piece more than the separator occurs, and no piece holds the separator |
| `Text.SplitConcat` | main.js:93 | a separator between two texts splits them apart: the pieces of the whole are those of the first followed by those of the second |
| `Text.IndexOf` | main.js:334 | a result is an occurrence at or after the start with none between the start and it; no result means there is no occurrence from the start on |
| `Text.SplitThenJoin` | main.js:93 | splitting on a character and joining back with it gives the original text |
| `Numbers.NatToString` | main.js:316 | the rendering is a non-empty run of digits, with a leading zero only for 0 |
| `Numbers.NatToStringRoundTrip` | main.js:316 | the rendered counter, read back with `parseInt`, is the number that was rendered |
| `Csv.Fields` | main.js:125-151 | a line has one field more than it has commas outside quotes, and every field is trimmed |
| `Csv.ParseLine` | main.js:125-151 | the source's character loop returns exactly the reference fields of the line |
| `Csv.ScanMatchesFields` | main.js:130-149 | from any index, quoting state and partial field, the loop finishes with the reference result |
| `Csv.QuotedLineRoundTrip` | main.js:134-146 | trimmed fields written in RFC 4180 quoting and joined with commas are read back unchanged, whatever commas and quotes they hold |
| `Csv.QuotedCommaExample` | main.js:134-140 | `"Smith, ""Bob"""` is the single field `Smith, "Bob"` |
| `Csv.UnquotedFields` | main.js:141-146 | on a line without quotes the splitter is a plain comma split, each piece trimmed |
| `Csv.Unquote` | main.js:99 | a header inside one pair of quotes with no line break between them loses the quotes; any other header is unchanged |
| `Csv.UnquotedHeaders` | main.js:98-100 | on a header line without quotes the naive header split and the field splitter agree |
| `Csv.Get` | main.js:285-286 | the value of the first entry with the key, and the empty text when there is none |
| `Csv.GetFirst` | main.js:204-207 | the value under the first name whose value is non-empty, and the empty text exactly when every name gives the empty text |
| `Csv.Zip` | main.js:115-118 | the row's keys are the headers in order and its values the line's fields in order |
| `Csv.RowsOfOneLine` | main.js:105-119 | a data line gives a row exactly when it is not blank and has as many fields as the header, and nothing otherwise |
| `Csv.RowsOfConcat` | main.js:104-120 | rows come out in line order |
| `Csv.RowsOfLength` | main.js:104-120 | there are never more rows than data lines |
| `Csv.RowsOfKeys` | main.js:115-119 | every row is keyed by exactly the header names |
| `Csv.ParseCsv` | main.js:92-123 | fails, with the source's message, exactly when the trimmed text has no second line; otherwise the rows are those the data lines give under the first line's headers, each keyed by those headers |
| `Naming.ReplaceForbidden` | main.js:39 | same length; every forbidden character becomes `-` and every other character stays in place |
| `Naming.SanitizeFilename` | main.js:38-40 | the name has no forbidden character and no whitespace at either end |
| `Naming.SanitizeIdempotent` | main.js:38-40 | sanitizing a sanitized name changes nothing |
| `Naming.SanitizeTrimmed` | main.js:215-218 | sanitizing the trimmed title gives the same name as sanitizing the title |
| `Naming.NonEmpty` | main.js:49 | the kept tags are the non-empty ones, and every non-empty one is kept |
| `Naming.NonEmptyConcat` | main.js:49 | filtering two lists in sequence gives the kept items of the first followed by those of the second |
| `Naming.TagsOf` | main.js:42-50 | every tag is non-empty, trimmed and free of commas, and every non-empty trimmed piece of the setting is a tag |
| `Naming.TagsOfJoin` | main.js:42-50 | two settings joined with a comma give the tags of the first followed by those of the second |
| `Naming.TagsRoundTrip` | main.js:46-49 | such tags, joined with commas as a setting, are read back as the same list |
| `Naming.BlankGuardRedundant` | main.js:43-49 | the blank-setting guard gives what the general split, trim and filter would give |
| `FrontMatter.FrontMatterEnd` | main.js:310 | a match needs the opening fence; it ends at the first closing delimiter after it, and there is none when nothing matches |
| `FrontMatter.FrontMatterOfBlock` | main.js:310-312 | a block whose body has no closing delimiter is found again with that body, whatever follows |
| `FrontMatter.FirstCounter` | main.js:315 | the match is a `watches: ` followed by a digit, and there is none earlier |
| `FrontMatter.DigitRunEnd` | main.js:315 | the greedy `\d+`: all digits, followed by a non-digit or the end |
| `FrontMatter.IncrementCounterValue` | main.js:315-317 | the counter read back goes up by exactly one; only the digits after the first `watches: ` change, into other digits; text without a counter is unchanged |
| `FrontMatter.CounterLineValue` | main.js:271 | a `watches: N` line reads back as N |
| `FrontMatter.CounterAfterPlainText` | main.js:368 | after text without `watches: `, the first counter is the one that follows |
| `FrontMatter.IncrementCounterLine` | main.js:315-317 | after text without `watches: `, a `watches: N` line followed by a line break or the end becomes `watches: N+1`, and nothing else changes |
| `FrontMatter.NoKeyNoCounter` | main.js:368-369 | text without `watches: ` has no counter |
| `Document.NewDocument` | main.js:260-296 | read back, the new note gives the row's non-empty fields, the poster exactly when there is one, the count 1 and the tags; its body's history holds exactly one watch, the row's date, rating and review |
| `Document.NewDocumentShape` | main.js:260-296 | a new note opens the front-matter block and holds the history heading and its date's heading |
| `Document.FrontMatterCounter` | main.js:261-281 | the block's counter reads back as the count it was written with |
| `Document.Filled` | main.js:263 | every field that gets a line is a field of the row with a non-empty value, and every such field gets one |
| `Document.ReadQuotedRoundTrip` | main.js:264-265 | a value with every `'` doubled, then the closing quote, reads back as the value in YAML single-quoted style |
| `Document.FilledConcat` | main.js:262-267 | the lines written for two rows in sequence are those of the first followed by those of the second |
| `Document.ReadEntryLine` | main.js:265 | one `key: 'value'` line reads back as its field, followed by the fields of the lines after it |
| `Document.EntryLinesRoundTrip` | main.js:262-267 | the entry lines, up to the counter line, read back as the row's non-empty fields, in order |
| `Document.FrontMatterReadBack` | main.js:260-281 | the whole block reads back as the row's non-empty fields, a poster field exactly when there is a poster, the count and the tags, with the text after the block untouched |
| `Document.BodyNoClosing` | main.js:261-282 | what the writer puts between the delimiters holds no `\n---` when the header lines and the tags hold none, so the block ends where the writer closed it |
| `Document.HistoryOfBody` | main.js:288-296 | after text without a history heading, the history read back is that of the entries after the heading |
| `Document.HistoryEntryRoundTrip` | main.js:288-292 | a history entry reads back as its date, rating and review; the rating and review lines are there exactly when those are non-empty |
| `Merge.ExpandPlainPrefix` | main.js:326 | in a replacement string, text without `$` passes through unchanged |
| `Merge.ExpandPlain` | main.js:326 | a replacement string without `$` is inserted literally |
| `Merge.ExpandEscaped` | main.js:326 | a replacement string with every `$` doubled expands to the text before doubling, whatever the match and groups |
| `Merge.RaiseCounterValue` | main.js:314-320 | the counter rises by one; a front matter without `watches:` gets 2; one with `watches:` but no number is left alone |
| `Merge.AddPosterKeepsCounter` | main.js:322-324 | adding the poster line keeps the counter |
| `Merge.RewriteCounter` | main.js:312-324 | the rewritten front matter's counter is the old one plus one, or 2 when `watches:` was missing |
| `Merge.RewriteWithoutNumber` | main.js:314-317 | `watches:` with no number after it, and no poster to add: the front matter comes back unchanged, still without a counter |
| `Merge.RewritePoster` | main.js:322-324 | after the rewrite there is a `poster:` entry whenever there is a poster; without a poster, or when one exists, the result is the counter step alone; otherwise the counted text is kept and `poster: '<url>'` follows it |
| `Merge.RewriteBody` | main.js:312-324 | rewriting a written block with count N gives the written block with count N+1, when no poster is added or the block has one |
| `Merge.WithoutFrontMatter` | main.js:310-311 | a note without a front-matter block keeps its text |
| `Merge.WithFrontMatterShape` | main.js:310-327 | the new front matter sits where the old one was and is found again; everything after the block is kept |
| `Merge.FrontMatterStepCounter` | main.js:310-327 | read back, the rewritten block's counter is the old counter plus one, or 2 when there was no `watches:` |
| `Merge.InsertEntryPlacement` | main.js:334-338 | the entry goes right after the first heading-and-blank-line, and the text on both sides is kept |
| `Merge.WrittenFrontMatterStep` | main.js:310-327 | on a note whose block was written with count N, the front-matter step gives the note with the block for N+1, the text after it kept |
| `Merge.InsertBeforeFirstEntry` | main.js:334-338 | the entry goes right after the first history heading, ahead of the entries already there |
| `Merge.InsertEntryNewSection` | main.js:339-341 | without a history heading, a new section with the entry is added at the end |
| `Merge.InsertEntryAddsWatch` | main.js:329-341 | read back, the literal insertion puts the entry's watch first in the history, ahead of the watches already there; without a heading the history is that watch alone |
| `Merge.InsertEntryKeepsEntry` | main.js:334-341 | the entry is in the note afterwards, except when the heading lacks its blank line; then the text is unchanged |
| `Merge.AppendWatchEntry` | main.js:298-345 | the append is refused exactly when a non-empty date already has its `### ` heading in the note |
| `Merge.AppendWatchEntryAsWritten` | main.js:298-345 | with the source's `$` expansion, the append is refused exactly when a non-empty date already has its heading |
| `Merge.AppendToNewNote` | main.js:298-345 | appending a new date to the note the first import wrote gives that note with `watches: 2` and the new entry ahead of the first one |
| `Merge.SecondWatchCounter` | main.js:314-317 | that note counts two watches |
| `Merge.SecondWatchHistory` | main.js:334-338 | its history reads the new watch, then the first one |
| `Merge.AppendAfterCreate` | main.js:298-345 | a second import of a film under the append policy, on the note the first import wrote: the append is done, the counter reads 2, the history reads the new watch then the first, and the block reads back with the first row's fields, its poster and the tags |
| `Merge.AppendThenDuplicate` | main.js:303-341 | appending the same date a second time is refused as a duplicate |
| `Merge.ExpandedEntryDiffers` | main.js:335-338 | with the source's expansion, a `$&` in the entry becomes the heading, while the literal insertion keeps it |
| `Merge.ExpandedFrontMatterDiffers` | main.js:326 | with the source's expansion, a `$$` in the front matter is written back as one `$` |
| `Merge.NoDollarSameAppend` | main.js:326-338 | without dollar signs the source's append and the literal one agree |
| `Update.UpdateDocument` | main.js:347-386 | read back, the rewritten note gives the row's non-empty fields, the poster exactly when there is one, the next count and the tags, and its body is the row's `content` followed by the old history |
| `Update.UpdateKeepsWatches` | main.js:350-354 | the rewritten body holds the same watches as the old note |
| `Update.UpdateCounter` | main.js:367-370 | the rewritten note's counter is the old note's first counter plus one, or 1 when there is none |
| `Update.UpdateKeepsHistory` | main.js:350-383 | the old history, from its heading to the end, closes the new note unchanged after a blank line; without a heading there is no history |
| `Update.UpdateDependsOnCounterAndHistory` | main.js:347-386 | notes with the same counter and the same history are rewritten alike: the old front matter and body are dropped |
| `Update.UpdateTwiceKeepsHistory` | main.js:351-354 | updating an updated note finds the same history again |
| `Update.UpdateHistoryFromFrontMatter` | main.js:351-354 | when the new block itself spells the history heading, a later rewrite keeps a history that starts inside that block |
| `Update.UpdateAfterCreate` | main.js:368-370 | a note that is created and then updated counts two watches |
| `Importer.TargetPathCollisions` | main.js:215-219 | titles that differ only in surrounding whitespace, or in which forbidden character stands at a place, share one path |
| `Importer.TargetPathOfTrimmed` | main.js:215-219 | the trimmed title gives the same path as the title |
| `Importer.HandleExisting` | main.js:223-239 | an existing note is left alone exactly under the skip policy, or under the append policy when its date is already there |
| `Importer.ImportAt` | main.js:221-243 | a new note is created exactly when the path is free; only that path changes; a skipped row changes nothing |
| `Importer.ImportRow` | main.js:203-248 | an untitled row is skipped and changes nothing; a note is created exactly for a titled row whose path is free; only the row's path can change |
| `Importer.ReimportSkipped` | main.js:227-234 | under the append policy, importing a dated row again right after its note was created is skipped and changes nothing |
| `Importer.ImportRowUpdates` | main.js:235-238 | under the update policy an existing note is replaced by the rewritten note and the row counts as updated |
| `Importer.ImportRows` | main.js:198-248 | every row is counted exactly once; notes are only added, one per creation |
| `Importer.SkipKeepsNotes` | main.js:224-226 | under the skip policy no note that existed before is changed |
| `Importer.ProcessCsvData` | main.js:186-258 | nothing is imported, with the parse error, exactly when the CSV has no data line; otherwise the counts add up to the row count |
| `Importer.CreatedDateMissesLowercase` | main.js:284 | a row dated only in a lower-case `date` column gets a note whose entry heading has no date |

## Left out

- The vault's I/O is not modelled: creating the output folder (main.js:194-196), reading, creating and modifying notes. The vault is a map, and `createNewMovieFile` on a path that is a folder is not modelled.
- The poster lookup (main.js:52-90) goes to the network. It is a parameter `poster: string -> string` that is called with the trimmed title.
- Notices, console output and the progress notice every ten notes (main.js:245-247) are left out. So are the file picker (main.js:153-184), the settings tab and settings persistence.
- Errors other than the CSV parse failure are left out; the model has no failing vault call that the outer `catch` (main.js:254-257) would see.
- `duplicateHandling` is one of the three values the settings tab offers. A stored value outside those three (a create on an existing path) is not modelled.
- JavaScript strings are sequences of UTF-16 code units; here they are sequences of characters.
- `parseInt` is exact: precision loss above 2^53 is not modelled.
- `Csv.Zip`: a row keeps one entry per header, in header order. A JavaScript object instead merges repeated header names and lists integer-like keys first, so the model is stated for distinct, non-numeric header names.
- `updateMovieFile` reads the note twice (main.js:348 and 367). The model assumes both reads return the same text.
- `Document.ReadQuotedRoundTrip`: the reader is the model's own partner for the writer. It does not fold line breaks inside quoted scalars the way a YAML parser would.
- `Document.EntryLinesRoundTrip`: requires header names without `:`, because the reader cuts the key at the first colon.
- `Document.FrontMatterCounter`: requires that no row value, and not the poster URL, spells `watches: `. If one does, the source's counter search finds that text first.
- `Update.UpdateCounter`: the same requirement, for the same reason. It also carries over to `Update.UpdateAfterCreate`.
- `Merge.AppendThenDuplicate`: requires that the first append did not lose its entry. A note whose history heading lacks the blank line after it drops the entry (main.js:334-338), yet the append is still counted; `Merge.InsertEntryKeepsEntry` states that case.
- `Merge.WithFrontMatterShape`: requires that the new front matter holds no `\n---`, since the block could otherwise not be found again.
- `Document.ReadEntryLine`: requires a key without `:`, because the reader cuts the key at the first colon; a header name holding a colon is not read back.
- `Document.FrontMatterReadBack`: requires keys without `:`, a poster URL without `'` (main.js:269 writes it unescaped) and tags without line breaks. Outside those, the block is not read back.
- `Document.NewDocument`: the read-back needs the same conditions. The history is stated only for a date, rating and review without line breaks and a `content` without a history heading of its own.
- `Update.UpdateDocument`: the read-back needs the same conditions as `Document.FrontMatterReadBack`.
- `Update.UpdateKeepsWatches`: requires that the row's `content` holds no history heading, since the next search would stop there.
- `Update.UpdateTwiceKeepsHistory`: requires that the new block and body hold no history heading. When a row value does, the next rewrite keeps a longer history that starts inside the block, as `Update.UpdateHistoryFromFrontMatter` states.
- `Merge.FrontMatterStepCounter`: requires that the rewritten block holds no `\n---`. Otherwise the block found again would end at that delimiter, and its counter is not stated.
- `Merge.AppendAfterCreate`: requires that the second import brings no poster or the note has one. When a note written without a poster gets one, the poster line goes after the tags (main.js:322-324), and that note is not stated. The same holds for `Merge.AppendToNewNote`, `Merge.WrittenFrontMatterStep` and `Merge.RewriteBody`.
- `Merge.AppendToNewNote`: requires header lines without `\n---` or `watches: `, single-line tags and no history heading before the history. Otherwise the rewrite stops at, or counts, the wrong text.
- `Merge.InsertEntryAddsWatch`: requires a date, rating and review without line breaks, and states the new history only when the old one reads back.
- `Importer.ImportRow`: the loop uses the corrected writers. A new note's entry carries the loop's date, with its lower-case `date` fallback, and an append inserts the entry and the front matter literally. The source's writer drops that fallback (main.js:284) and its append expands `$` patterns (main.js:326, 335-338). So when a row dated only in `date` is imported again, the source appends a second entry where the model skips, and text holding `$` comes out differently. `Document.NewDocumentAsWritten` and `Merge.AppendWatchEntryAsWritten` model the source's writers; see Findings.
- `Importer.ImportAt`: the same deviation as `Importer.ImportRow`, for the row at a given path.
- `Importer.HandleExisting`: appends with the literal insertion and the loop's date, not with the source's `$` expansion.
- `Importer.ReimportSkipped`: stated for a note created by the first import. An appended note is covered by `Merge.AppendThenDuplicate`.
- `Importer.ImportRowUpdates`: states that the note becomes the rewritten note. Its counter is stated by `Update.UpdateCounter`.

## Findings

| source | as written | input that shows it | evidently intended | confidence | as-written member | corrected member |
|---|---|---|---|---|---|---|
| main.js:335-338 | the new entry goes in through `replace` with the replacement string `$1<entry>`, so `$` patterns in the entry are expanded | a review `a $& b`, appended to a note with a history | the entry inserted verbatim | not executed | `Merge.ExpandedEntryDiffers` (of `Merge.AppendWatchEntryAsWritten`) | `Merge.InsertEntryPlacement` (of `Merge.AppendWatchEntry`) |
| main.js:326 | the new front matter goes in through `replace` with a replacement string, so `$$` in an old value becomes `$` | a note whose front matter holds `Name: 'A$$B'` | the front matter written back as it was rewritten | not executed | `Merge.ExpandedFrontMatterDiffers` (of `Merge.AppendWatchEntryAsWritten`) | `Merge.WithFrontMatterShape` (of `Merge.AppendWatchEntry`) |
| main.js:284 | the note-writer reads the date from `Watched Date` or `Date` only, while the import loop (main.js:207) also reads `date` | header `Name,date`, row `Heat,2024-01-01`: the note's entry heading is `### ` with no date | the loop's date, so the entry is `### 2024-01-01` | not executed | `Importer.CreatedDateMissesLowercase` (of `Document.NewDocumentAsWritten`) | `Importer.ReimportSkipped` (of `Importer.ImportRow`, which passes the loop's date to `Document.NewDocument`) |

The import loop (`Importer.ImportRow`) uses the corrected members, with
literal insertion and the loop's date.
