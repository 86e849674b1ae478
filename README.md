# Template variables and single-brace conversion, in Dafny

This project models two text-processing parts of a small DOCX templating service and proves
properties of the model.

**Variable extraction** (`app.py`). `extract_template_variables` starts from the joined
document text. It scans the text with three regular expressions:

- `{{ name | filter }}`;
- `{% for x in name %}`;
- `{% if name %}`.

It then walks the set of names found and builds a catalog `root -> {type, fields?}`, where the
type is `simple`, `boolean`, `array` or `object`. Finally it turns every field set into a
sorted list. The same file holds the extension check `allowed_file`, and the session file
name `session_{YYYYmmdd_HHMMSS}_{filename}`: where it is built, and where the original name
is recovered from it.

**Single-brace conversion** (`convert_brackets.py`, `convert_brackets_v2.py`,
`convert_brackets_final.py`). These scripts rewrite every `{x}` tag of a document into the
Jinja2 tag `{{x}}`:

- the first version keeps the name as it is;
- the second collapses whitespace runs to `_`;
- the final one collapses whitespace and hyphen runs to `_`.

Each paragraph's runs are rewritten in place. Tables are visited row by row, cell by cell.
The document conversion counts changed paragraphs and changed tables, and merges the rename
maps. The second version also has a read-only preview; the final version also has a JSON
sample-data generator.

## Layout

All files are under `src/`; each file is one module.

- **`wrappers.dfy`** (`Wrappers`): `Option`.
- **`chars.dfy`** (`Chars`): character classes (`\s`, `[a-zA-Z0-9_]`, `\w`), and the element set and distinctness of a sequence.
- **`order.dfy`** (`StringOrder`): Python's `<` on `str`, and `sorted(list(s))` as a method.
- **`scanner.dfy`** (`Scanner`): the three patterns of app.py:69, 72 and 75 as longest-run matchers. Each pattern is deterministic, so greedy, lazy and possessive repetition agree. Also `re.findall` over them.
- **`catalog.dfy`** (`Catalog`): one step of the classification loop, the loop as a fold over an explicit iteration order, and an order-free description of the catalog (`SpecCatalog`). It also holds the theorem that ties them together, and the intended, order-free classification.
- **`extract.dfy`** (`Extract`): `extract_template_variables` as imperative methods over `map`s, proved against `Catalog`.
- **`uploads.dfy`** (`Uploads`): `allowed_file`, `strftime('%Y%m%d_%H%M%S')`, the session file name and its recovery.
- **`normalize.dfy`** (`Normalize`): `normalize_variable_name` for the three versions.
- **`single_brace.dfy`** (`SingleBrace`): the pattern `(?<!\{)\{([^{}]+)\}(?!\})`.
  - The text is scanned into literal characters and tags, as `re.sub` and `re.findall` scan it.
  - It has three renderings: the original text, the converted text and the matched names.
- **`docx.dfy`** (`Docx`): a `Paragraph` class whose `runs` field the converters overwrite. Tables are rows of cells of paragraph references.
- **`converter.dfy`** (`Converter`): `process_paragraph`, `process_table` and `convert_document`, as methods parameterised by the version.
- **`preview.dfy`** (`Preview`): `show_preview` of the second version.
- **`json_template.dfy`** (`JsonTemplate`): `generate_json_template`.

## Model

| member | source | states |
|---|---|---|
| Scanner.MatchSubstitution | app.py:69 | A match of `{{ name }}`, with or without a filter, starts at a `{`, ends after it, and captures a name that starts with a letter or `_` and holds only `[a-zA-Z0-9_.]` |
| Scanner.MatchForLoop | app.py:72 | A match of `{% for x in NAME %}` starts at a `{` and captures an undotted identifier |
| Scanner.MatchIfGuard | app.py:75 | A match of `{% if NAME %}` starts at a `{` and captures an undotted identifier |
| Scanner.FindAllShape | app.py:69-75 | Every name `re.findall` returns has the shape of its pattern |
| Scanner.FindAllSound | app.py:69-75 | Every name `re.findall` returns is the name captured by a match of its pattern at some position of the text |
| Scanner.FindAllLeftmost | app.py:69-75 | Matches are taken leftmost and without overlap: when the first position at or after the scan's start where the pattern matches is `q`, the names are that match's name followed by the names found from the match's end |
| Scanner.FindAllNoMatch | app.py:69-75 | When the pattern matches at no position from the scan's start on, `re.findall` returns nothing |
| Scanner.NoBraceNoVariables | app.py:69-78 | Text without `{` yields no names at all |
| Scanner.ControlNamesUndotted | app.py:72-75 | Loop collections and if-guards never contain a dot |
| Scanner.SubstitutionScanned | app.py:69 | For any text opening with `{{`, spaces, a name, spaces, an optional filter (a bar, then no `}`), and `}}`, the first name found is that name and the scan resumes right after `}}` |
| Scanner.ForLoopScanned | app.py:72 | For any text opening with `{%`, `for`, word characters, `in`, a name and `%}`, with any spacing that the pattern's `\s*` and `\s+` admit (none or several spaces, tabs, line breaks), the first name found is the collection and the scan resumes after `%}` |
| Scanner.IfGuardScanned | app.py:75 | For any text opening with `{%`, `if`, a name and `%}`, with any spacing that the pattern's `\s*` and `\s+` admit, the first name found is the guard and the scan resumes after `%}` |
| Scanner.SubstitutionAt | app.py:69 | The substitution pattern matches at any position where the text has `{{`, spaces, a name, spaces, an optional filter and `}}`; it captures exactly that name and ends right after `}}` |
| Scanner.ForLoopAt | app.py:72 | The loop pattern matches at any position where the text has `{%`, `for`, word characters, `in`, a name and `%}`, whatever the spacing its `\s*` and `\s+` admit; it captures the name after `in` and ends right after `%}` |
| Scanner.IfGuardAt | app.py:75 | The if pattern matches at any position where the text has `{%`, `if`, a name and `%}`, whatever the spacing its `\s*` and `\s+` admit; it captures that name and ends right after `%}` |
| Scanner.SubstitutionSound | app.py:69 | Conversely, wherever the substitution pattern matches, the text there has that layout (`{{`, spaces, a name, spaces, an optional filter, `}}`), the captured name is the name in it and the match ends right after its `}}`; with `Scanner.SubstitutionAt`, the pattern matches exactly at the texts of that layout |
| Scanner.ForLoopSound | app.py:72 | Conversely, wherever the loop pattern matches, the text there has the loop layout with some spacing, the captured name is the collection after `in` and the match ends right after `%}` |
| Scanner.IfGuardSound | app.py:75 | Conversely, wherever the if pattern matches, the text there has the if layout with some spacing, the captured name is the guard and the match ends right after `%}` |
| Scanner.SubstitutionFound | app.py:69 | `{{name}}` followed by any text yields `name` first, then the names of the rest |
| Scanner.FilteredSubstitutionFound | app.py:69 | `{{ name }}` with a filter yields `name` first; the filter is skipped |
| Scanner.ForLoopFound | app.py:72 | `{% for item in name %}` yields the collection `name` first, not the loop variable |
| Scanner.IfGuardFound | app.py:75 | `{% if name %}` followed by any text yields `name` first, then the names of the rest |
| Scanner.CyrillicNameIgnored | app.py:69 | A Cyrillic name in `{{ }}` is not found: the name classes are ASCII only |
| Catalog.Split | app.py:91 | `split('.')` yields at least one part, none with a dot, and two or more exactly when the name has a dot |
| Catalog.JoinSplit | app.py:105 | Joining the parts of `split('.')` with `.` gives the name back |
| Catalog.RestIsSuffix | app.py:92-105 | The root is the text before the first dot and the remainder the text after it |
| Catalog.ClassifyCharacterised | app.py:84-119 | The walk in any order of the distinct names yields `SpecCatalog`, unless a bare root that is not a loop collection comes before every dotted name under it; then it raises |
| Catalog.LoopMetaIgnored | app.py:86-87 | A `loop.` name leaves the catalog as it is |
| Catalog.LoopCollectionIsArray | app.py:108-111 | A `{% for %}` collection name gets an `array` entry |
| Catalog.DottedUnderLoopIsArray | app.py:94-100 | A dotted name under a loop collection makes the root an `array` that holds `parts[1]`; its fields never contain a dot |
| Catalog.DottedOutsideLoopIsObject | app.py:101-105 | A dotted name under any other root makes it an `object` that holds the whole remainder `'.'.join(parts[1:])` |
| Catalog.BareNamePrecedence | app.py:106-119 | A bare name is `array` if a loop collection, else `object` if dotted names share its root, else `boolean` if an if-guard, else `simple`; exactly `boolean` and `simple` carry no `fields` |
| Catalog.ConflictFreeNoCrash | app.py:114-119 | Without a root used both bare (outside loops) and dotted, the walk cannot raise |
| Catalog.OrderIndependent | app.py:84-119 | Without such a conflict, any two orders of the same names give the same catalog |
| Catalog.BareFirstRaises | app.py:103-105 | A bare root met before its dotted names makes `fields[root]['fields']` raise |
| Catalog.DottedFirstIsObject | app.py:101-105 | A dotted name met before its bare root makes the root an `object` |
| Catalog.ConflictOrderMatters | app.py:84-119 | The two orders of `c` (an if-guard) and `c.n` give `None` and `{c: object [n]}` |
| Catalog.FirstWriteWins | app.py:94-119 | Along the walk, an entry once created keeps its type |
| Catalog.StepIntendedAgrees | app.py:101-105 | Wherever the written step does not raise, the intended step returns the same catalog |
| Catalog.ClassifyIntendedIsSpec | app.py:84-119 | The intended walk yields `SpecCatalog` for every order |
| Extract.ExtractTemplateVariables | app.py:66-135 | The result is `{}` when the order makes the walk raise; otherwise it is `SpecCatalog` of the scanned names with every field set as a sorted list |
| Extract.ClassifyAll | app.py:84-119 | The loop over the names computes the fold `Classify` in the given order |
| Extract.ClassifyName | app.py:84-119 | One pass of the loop body is one `Step` |
| Extract.RaisedStaysRaised | app.py:133-135 | Once the walk has raised, no later name brings the catalog back |
| Extract.FinalizeAll | app.py:121-131 | Every key is kept, with its type, and its field set is turned into a sorted list |
| Extract.Finalize | app.py:123-129 | The entry's `fields` set becomes a strictly sorted list of the same members; entries without `fields` stay without |
| Extract.FinalizedUnique | app.py:126 | The finalised form of an entry is unique |
| Extract.FinalizedCatalogUnique | app.py:121-131 | Two conversions of the same catalog return the same dictionary |
| Extract.FinalizedNoDuplicates | app.py:126 | A `fields` list holds no name twice |
| Extract.NoBraceEmptyCatalog | app.py:78-131 | Text without `{` yields the empty catalog |
| StringOrder.BelowIrreflexive | app.py:126 | Python's `<` on `str` is irreflexive |
| StringOrder.BelowTransitive | app.py:126 | Python's `<` on `str` is transitive |
| StringOrder.BelowTotal | app.py:126 | Python's `<` on `str` is total on distinct strings |
| StringOrder.Insert | app.py:126 | Inserting into a strictly sorted list keeps it strictly sorted, with the element added |
| StringOrder.SortedList | app.py:126 | `sorted(list(s))` is strictly increasing and holds exactly the members of `s` |
| StringOrder.SortedUnique | app.py:126 | Two strictly sorted lists with the same members are equal |
| Uploads.AfterLastDot | app.py:30 | `rsplit('.', 1)[1]` is the dot-free suffix after the last dot |
| Uploads.Lower | app.py:30 | Lower-cases ASCII capitals and keeps every other character. This is not all of `str.lower`, which can also change other characters and lengthen a string. It decides the comparison with `docx` as `str.lower` does: no other character lowers to `d`, `o`, `c` or `x`, and the only character that lowers to two characters (U+0130) yields neither of them |
| Uploads.AllowedFileIff | app.py:27-30 | A name is allowed exactly when it ends in `.` and four characters that spell `docx` in any case |
| Uploads.Digits | app.py:163 | `%0wd` prints exactly `w` digits |
| Uploads.ValueDigits | app.py:163 | Zero-padded printing of a number that fits the width loses nothing |
| Uploads.FormatTimestamp | app.py:163 | The stamp is fifteen characters: digits around one `_` at position 8 |
| Uploads.ParseFormat | app.py:163 | The stamp of a valid moment reads back to that moment |
| Uploads.SessionFilename | app.py:172 | The session name starts with `session_` and is 24 characters longer than the uploaded name |
| Uploads.RemoveAll | app.py:206 | `replace(pat, '')` never lengthens the text |
| Uploads.RemoveAllIdentity | app.py:206 | `replace` changes the text exactly when the pattern occurs in it |
| Uploads.RemoveAllSkips | app.py:206 | A text that cannot start an occurrence passes through `replace` unchanged |
| Uploads.IndexOf | app.py:206 | `find` returns the first position of the character, or none when it is absent |
| Uploads.RemovePrefixOfSession | app.py:206 | `replace('session_', '')` on a session name drops the leading prefix and nothing in the stamp |
| Uploads.ThirdFieldOfStamp | app.py:206 | `split('_', 2)[2]` after a stamp is the text that follows the stamp's separator |
| Uploads.RecoverSession | app.py:206 | Recovery returns the uploaded name with every `session_` removed |
| Uploads.RecoverSessionRoundTrip | app.py:206 | Recovery returns the uploaded name exactly when that name does not contain `session_` |
| Uploads.RecoverLosesSession | app.py:206 | An upload named `session_x` is recovered as `x` |
| Uploads.RecoverIntendedRoundTrip | app.py:206 | The intended recovery returns every uploaded name |
| Normalize.Collapse | convert_brackets_final.py:22 | `re.sub(CLASS + '+', '_', s)` introduces no character other than `_` |
| Normalize.CollapseRun | convert_brackets_final.py:22 | A run of separators on its own becomes a single `_` |
| Normalize.CollapseConcat | convert_brackets_final.py:22 | The substitution works piece by piece: two texts cut anywhere but inside a run collapse to the two collapsed texts |
| Normalize.CollapseSeparatorRun | convert_brackets_final.py:22 | A run of separators between two pieces becomes exactly one `_` in its place, and the pieces around it collapse on their own |
| Normalize.NormalizeJoins | convert_brackets_final.py:14-27 | Two words joined by any run of separators come out joined by one `_` |
| Normalize.NormalizeDropsEdges | convert_brackets_final.py:22-24 | Separators before the first and after the last character of a name are dropped |
| Normalize.RenameFinalExample | convert_brackets_final.py:14-27 | The final version renames ` first - name ` to `first_name` |
| Normalize.RenameV2Examples | convert_brackets_v2.py:11-19 | The second version renames `first  name` to `first_name` and leaves `first-name` unchanged |
| Normalize.CollapseNoSeparator | convert_brackets_final.py:22 | No whitespace (nor `-` for the final version) is left after the collapse |
| Normalize.CollapseNoDouble | convert_brackets_final.py:26 | No `__` is left after collapsing runs of `_` |
| Normalize.StripShape | convert_brackets_final.py:24 | `strip('_')` leaves no `_` at either end |
| Normalize.NormalizeCanonical | convert_brackets_final.py:21-26 | The result has no separator, no `_` at either end and no `__` |
| Normalize.CanonicalFixed | convert_brackets_final.py:14-27 | A name already in that form is returned unchanged |
| Normalize.NormalizeIdempotent | convert_brackets_final.py:14-27 | Normalising twice is normalising once |
| Normalize.NormalizeKeeps | convert_brackets_final.py:14-27 | Every character other than a separator or `_` survives, in its original order |
| Normalize.V2KeepsHyphens | convert_brackets_v2.py:13-14 | The second version keeps every character but whitespace and `_`, hyphens included; the final one leaves no hyphen |
| Normalize.Rename | convert_brackets_final.py:47 | The new name of a tag holds only `_` and characters of the original name |
| SingleBrace.BraceFreeLen | convert_brackets_final.py:35 | `[^{}]+` consumes the longest brace-free prefix |
| SingleBrace.ParseOriginal | convert_brackets_final.py:35 | The scan partitions the text: literal characters and `{x}` tags give the text back |
| SingleBrace.TagNamesShape | convert_brackets_final.py:35 | Every matched name is non-empty and brace-free |
| SingleBrace.TagAtClose | convert_brackets_final.py:35 | Where the pattern matches, its group is the longest brace-free run after the `{`, which the scan also takes |
| SingleBrace.ParseReads | convert_brackets_final.py:35-52 | The scan yields a tag at every position where the pattern matches: a `{` not preceded by `{`, a non-empty brace-free group, then a `}` not followed by `}`. The scan resumes after the match. It yields a literal character at every position where the pattern does not match. That includes every `{` the lookbehind or lookahead rejects |
| SingleBrace.ReadsUnique | convert_brackets_final.py:35-52 | At most one sequence of tags and literals reads a text in that way |
| SingleBrace.ParseIsTheReading | convert_brackets_final.py:35-52 | Pieces read a text in that way exactly when they are the scan's result |
| SingleBrace.TagMatched | convert_brackets_final.py:35 | `{x}` with a non-empty brace-free `x`, not followed by `}`, at the start of a text is matched as the tag `x`, and the scan goes on after it as from a fresh start |
| SingleBrace.TagConverted | convert_brackets_final.py:44-52 | Such a `{x}` becomes `{{name}}` with the version's new name, and `findall` reports `x` before the names of the rest. This covers convert_brackets.py:20-27 and convert_brackets_v2.py:27-44 as well |
| SingleBrace.ClosingPair | convert_brackets_final.py:35 | `}}` is read as two literal characters, and the scan then goes on as from a fresh start |
| SingleBrace.OpeningPair | convert_brackets_final.py:35 | `{{` is read as two literal characters, the second one with the lookbehind `(?<!\{)` in force |
| SingleBrace.DoubleBracesUntouched | convert_brackets.py:19-20 | A `{{name}}` tag is read as literal text and never matched |
| SingleBrace.NoTagUnchanged | convert_brackets_final.py:38-39 | A text without a tag is left as it is |
| SingleBrace.RenameBraceFree | convert_brackets_final.py:47 | Normalising a brace-free name keeps it brace-free |
| SingleBrace.ConvertedHasNoTag | convert_brackets_final.py:52 | The converted text holds no single-brace tag, whatever the lookbehind state |
| SingleBrace.ConvertIdempotent | convert_brackets.py:20-27 | A converter run over its own output finds no tag |
| Docx.JoinFirstOnly | convert_brackets_final.py:54-62 | Runs that are all empty but the first have the first run's text as the paragraph text |
| Converter.ProcessParagraph | convert_brackets_final.py:30-64 | Changed exactly when the text has a tag; the replacements map each matched name to its new name; no tag leaves the runs untouched; after a change every run is emptied and the first run (or a new one when there was none) holds the converted text; in both cases the runs are `AfterRuns` of the runs before. The version parameter also covers convert_brackets.py:13-39 (name kept) and convert_brackets_v2.py:22-56 (whitespace only). For convert_brackets.py the returned map is extra: that version returns only the flag, and its convert_document (convert_brackets.py:66-76) merges no map |
| Converter.ReplaceRuns | convert_brackets_final.py:54-62 | Every run is emptied and the first (or a new one when there is none) holds the new text |
| Converter.RecordReplacements | convert_brackets_final.py:44-52 | The callback records every matched name with its new name |
| Converter.ProcessTable | convert_brackets_final.py:67-80 | Changed exactly when some cell paragraph has a tag; the replacements are those of all cell paragraphs; each cell paragraph holds its converted text, and its runs are those process_paragraph leaves (kept when it has no tag, otherwise emptied with the converted text in the first run). Also convert_brackets.py:42-50 and convert_brackets_v2.py:59-72 |
| Converter.ProcessCells | convert_brackets_final.py:72-79 | The nested loops over rows, cells and paragraphs compute the flag and the merged map; each paragraph ends with its converted text and with the runs process_paragraph leaves |
| Converter.ConvertDocument | convert_brackets_final.py:94-120 | The count is the changed top-level paragraphs plus the tables with a changed paragraph; the replacements are those of every paragraph; every paragraph, top-level or in a table, holds its converted text and the runs process_paragraph leaves: a paragraph without a tag keeps its runs, one with a tag has every run emptied and the converted text in the first. Also the counts of convert_brackets.py:66-76 and convert_brackets_v2.py:88-103 |
| Converter.ConvertTopLevel | convert_brackets_final.py:97-102 | The loop over top-level paragraphs counts and merges them and leaves each with its converted text and the runs process_paragraph leaves; the tables' paragraphs keep their runs |
| Converter.ConvertParagraphs | convert_brackets_final.py:98-102 | The count and replacements of a sequence of paragraphs; each ends with its converted text and the runs process_paragraph leaves |
| Converter.ConvertTables | convert_brackets_final.py:104-109 | Each table with a changed paragraph counts once; the tables' replacements are merged; every table paragraph ends with its converted text and the runs process_paragraph leaves |
| Converter.VisitTable | convert_brackets_final.py:105-109 | One table step adds its count and replacements, and rewrites the runs of exactly that table's paragraphs as process_paragraph does |
| Converter.AfterRunsText | convert_brackets_final.py:54-62 | The runs process_paragraph leaves join to the converted text of the runs before |
| Converter.AfterRunsShape | convert_brackets_final.py:38-39 | Runs whose text has no tag are left as they were; otherwise every run is emptied and the first (or a new one) holds the converted text (lines 54-62) |
| Converter.RewrittenIsAfterRuns | convert_brackets_final.py:54-62 | Any runs rewritten this way to hold the converted text are exactly the runs `AfterRuns` gives, so the runs left are determined |
| Converter.RenameMapUnion | convert_brackets_final.py:78 | `update` of two rename maps is the rename map of all their names, whichever wins |
| Converter.HasTagIffNames | convert_brackets_final.py:38 | `re.search` succeeds exactly when `re.findall` yields a name |
| Converter.CountTaggedBounds | convert_brackets_final.py:97-102 | The paragraph count is at most the number of paragraphs, and positive exactly when one has a tag |
| Converter.AnyTaggedIffTags | convert_brackets_final.py:117 | Some paragraph changes exactly when the replacements are not empty |
| Converter.CountTablesBound | convert_brackets_final.py:104-109 | The table count is at most the number of tables |
| Converter.SecondRunQuiet | convert_brackets_final.py:83-126 | A second conversion of a converted document counts nothing and records nothing |
| Preview.ShowPreview | convert_brackets_v2.py:123-146 | `found_tags` maps every name matched in any paragraph or table cell to its normalised name, without changing the document |
| Preview.CollectParagraphs | convert_brackets_v2.py:134-137 | The loop over paragraphs adds each of their matches |
| Preview.CollectText | convert_brackets_v2.py:135-137 | The loop over one paragraph's matches adds each with its new name |
| Preview.CollectTables | convert_brackets_v2.py:140-146 | The nested loops over tables add every cell paragraph's matches |
| Preview.CollectTable | convert_brackets_v2.py:141-146 | One table adds its cell paragraphs' matches |
| Preview.TablesTagsIffCounted | convert_brackets_v2.py:140-146 | The tables yield no name exactly when no table would be counted as changed |
| Preview.PreviewEmptyIffNothingToConvert | convert_brackets_v2.py:148-158 | The preview finds no tag exactly when the conversion would change nothing |
| JsonTemplate.GenerateJsonTemplate | convert_brackets_final.py:129-134 | The loop builds `Template`, where the later original wins a shared new name |
| JsonTemplate.TemplateKeys | convert_brackets_final.py:132-133 | The keys are the new names of the originals visited |
| JsonTemplate.TemplateKeysAreNewNames | convert_brackets_final.py:129-134 | The keys are exactly the values of `replacements` |
| JsonTemplate.TemplateLastWins | convert_brackets_final.py:132-133 | Each entry is `<o>` for the last original `o` that maps to its key |
| JsonTemplate.TemplateInjective | convert_brackets_final.py:129-134 | When no two originals share a new name, every original has its own entry `<original>` |
| JsonTemplate.PlaceholderInjective | convert_brackets_final.py:133 | The original can be read back from `<original>` |

## Left out

- Reading and writing `.docx` files, Flask, the filesystem, the clock and `print` are not modelled. The document is a value built from `Paragraph` objects; the time is a `Timestamp` parameter. The text gathering at app.py:52-66 is not modelled either: the extraction starts from the joined text.
- `secure_filename` is not modelled: the session name takes the already-cleaned name as input.
- Python's `set` and `dict` iteration order is not modelled as such: the walk over `all_vars` and the loop over `replacements.items()` take an explicit order as a parameter.
- Exceptions are not modelled, except the KeyError of app.py:105. A failing `Document(...)`, for instance, is left out.
- The `arrays` set at app.py:82, 96 and 109 is written and never read, so it is not modelled.
- `\w` at app.py:72 is Unicode-aware in Python. The model takes ASCII letters, digits, `_` and the Cyrillic letters U+0400-U+0481 and U+048A-U+04FF. U+0482-U+0489 are excluded, because they are a symbol and combining marks, which `\w` does not match. Other scripts are not modelled, so a loop variable written in them is not recognised.
- The name classes at app.py:69-75 are ASCII only. test_parser.py:86-124 expects Cyrillic names to be found. The model follows the code (`Scanner.CyrillicNameIgnored`).
- Scanner.ForLoopFound: states only the first name found, not the continuation; `Scanner.ForLoopScanned` states the continuation for any text of that shape.
- Scanner.FilteredSubstitutionFound: states only the first name found, not the continuation; `Scanner.SubstitutionScanned` states the continuation for any text of that shape.
- Merged table cells are not modelled. python-docx returns the same paragraph for every grid cell a merged cell spans, so the source converts it again (and finds nothing). The model requires distinct paragraphs (`Docx.Separate`).
- The nested loops over rows and cells are modelled as one loop over a table's paragraphs in row-major order, which is the order those loops visit them.
- Formatting of runs is not modelled: a run is its text. The text of a paragraph is taken to be its runs joined. In python-docx 1.x `paragraph.text` also includes the text of hyperlinks, which `paragraph.runs` does not list; emptying the runs then leaves the hyperlink text in place, which the model does not capture.
- `show_preview` of convert_brackets.py (a plain set of names) is not modelled.
- The printing, sorting and comparison of `found_tags` in the second preview are not modelled; it reports only whether the map is empty (`Preview.PreviewEmptyIffNothingToConvert`).
- The `output_path` computation and `doc.save` of `convert_document` are not modelled, nor the `__main__` blocks and the JSON file written from the template.
- Uploads.ParseFormat: holds for years 1 to 9999, where `%Y` prints four digits.

## Findings

| source | as written | input that shows it | evidently intended | confidence | as-written member | corrected member |
|---|---|---|---|---|---|---|
| app.py:103-105 | A root first met bare (an if-guard or plain substitution) gets an entry without `fields`. A later dotted name under it then reads `fields[root]['fields']` and raises KeyError. The whole catalog becomes `{}`, depending on the set's iteration order. | `{% if c %}{{ c.n }}`, with `c` walked before `c.n` | The root becomes an `object` holding `n` in every order | not executed | Catalog.ConflictOrderMatters | Catalog.ClassifyIntendedIsSpec |
| app.py:206 | `replace('session_', '')` removes every occurrence, including those in the uploaded name | an upload named `session_x` is recovered as `x` | Only the leading prefix is dropped, and every name comes back unchanged | not executed | Uploads.RecoverLosesSession | Uploads.RecoverIntendedRoundTrip |
