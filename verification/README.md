# sme-sum dataset build, modelled in Dafny

The dataset of the sme-sum summariser is built by three scripts that run one
after another.

1. `sme_archive_downloader.py` goes through pages of the SME news listing.
   For each article teaser it asks the Wayback Machine whether a snapshot of
   the article exists, and appends the snapshot URLs to a URL file.
2. `sme_archive_parser.py` reads that file line by line. For each URL it:
   - derives the article index and category from the URL with two regular
     expressions;
   - fetches the page and extracts title, perex and body;
   - either writes a JSON record named after the index, or routes the URL by
     the exception that stopped it: appended to the "failed" file, appended
     to the "premium" file, or only logged.
3. `sme_archive_postprocessing.py` reads each record. It normalises the
   three text fields (punctuation, case, digits, stop words, one-character
   tokens), adds a lemmatised copy of the body and writes the record again.
   Exceptions it does not catch escape the worker.

`src/utils.py` supplies the file helpers, the `readline` generator,
`to_flat_list` and the pretty-printer `to_json`.

The model has eight modules, one file each:

- `Python` (`python.dfy`):
  - Option/Result;
  - the exception classes and their subclass relation (`PremiumSiteError`
    and `JSONDecodeError` are `ValueError`s);
  - how an exception is dispatched to the first matching `except` clause;
  - Python objects as a `Value` datatype, with dicts as ordered items;
  - `str.join`, `str.split` and `str(int)`.
- `LazySearch` (`lazy_search.dfy`): `re.search` for the one pattern shape
  the parser uses, fixed atoms around a lazy group `(.+?)`. It follows the
  backtracking order of the engine.
- `Dom` (`dom.dfy`): an abstract BeautifulSoup tree with `findAll`, `find`
  and `.text`.
- `Utils` (`utils.dfy`):
  - a file system as a map from paths to text;
  - `write_files`, `write_file` and `write_json`;
  - the newline translation of a file opened in text mode, and the
    `readline` loop over the translated text, as a method;
  - `to_flat_list`.
- `ToJson` (`to_json.dfy`): `to_json`.
- `ArchiveDownloader`, `ArchiveParser` and `Postprocessing`: the three
  scripts.

Network answers are inputs, and so is everything the scripts call but
cannot be seen: the parsed page, the class-attribute test, polyglot's
segmentation, `str.lower`, `\d`, the lemmatiser and the text `json.dump`
writes.

## Model

| member | source | states |
|---|---|---|
| Python.HandlingClause | dataset-build/sme_archive_parser.py:84-104 | the clause an exception lands in is one whose class the exception is an instance of |
| Python.HandlingClauseSpec | dataset-build/sme_archive_parser.py:84-104 | the chosen clause is the first matching one, and the exception escapes exactly when no clause matches |
| Python.FirstHandlingClause | dataset-build/sme_archive_parser.py:84-104 | any clause that matches with no matching clause before it is the one chosen |
| Python.FindKey | dataset-build/sme_archive_downloader.py:41-42 | the position found holds the key |
| Python.FindKeyMissing | dataset-build/sme_archive_downloader.py:41-42 | nothing is found exactly when the key is absent |
| Python.FindKeyIsFirst | dataset-build/sme_archive_downloader.py:41-42 | the position found is the first item holding the key, and any such first position is the one found |
| Python.Subscript | dataset-build/sme_archive_downloader.py:41-43 | `d[k]` succeeds exactly on a dict holding `k` and yields its item; otherwise it raises `KeyError` on a dict and `TypeError` on anything else |
| Python.SetItem | dataset-build/sme_archive_parser.py:78-79 | item assignment keeps the key order, appends a new key at the end, stores the value and leaves every other item in place |
| Python.SubscriptSetItem | dataset-build/sme_archive_postprocessing.py:77-80 | after `d[k] = x`, `d[k]` gives `x` and every other key gives what it gave before, its item or `KeyError` |
| Python.Join | dataset-build/sme_archive_parser.py:54 | the joined text is as long as the parts plus one separator between each two |
| Python.Split | dataset-build/sme_archive_postprocessing.py:103 | splitting gives at least one piece, and no piece contains the separator |
| Python.JoinSplit | dataset-build/sme_archive_postprocessing.py:103 | joining the pieces of a split gives back the text |
| Python.SplitJoin | dataset-build/sme_archive_postprocessing.py:103 | splitting a join of separator-free parts gives back the parts |
| Python.SplitAtFirst | dataset-build/sme_archive_postprocessing.py:103 | the first piece of a split ends at the first separator |
| Python.IndexOf | dataset-build/sme_archive_postprocessing.py:103 | the index found is that of the first occurrence of the separator |
| Python.NatToString | dataset-build/src/utils.py:112-113 | `str` of a natural number is a non-empty string of decimal digits |
| Python.IntToString | dataset-build/src/utils.py:112-113 | `str(i)` is non-empty and starts with `-` exactly for negative `i` |
| Python.DigitsValueNatToString | dataset-build/src/utils.py:112-113 | the digits of `str(n)` have the value `n` |
| Python.IntToStringRoundTrip | dataset-build/src/utils.py:112-113 | `int(str(i)) == i` for every int |
| LazySearch.Search | dataset-build/sme_archive_parser.py:66-70 | a found group is non-empty and holds no newline |
| LazySearch.GroupLengthSpec | dataset-build/sme_archive_parser.py:66-67 | the lazy group takes the shortest length that lets the rest of the pattern match, and fails only when no length does |
| LazySearch.SearchFromSpec | dataset-build/sme_archive_parser.py:66-67 | scanning from a start position finds the first position where the pattern matches, with its shortest group |
| LazySearch.SearchIsLeftmostShortest | dataset-build/sme_archive_parser.py:66-72 | `re.search` reports the leftmost match with the shortest group there, and reports none exactly when the pattern matches nowhere |
| LazySearch.LiteralAt | dataset-build/sme_archive_parser.py:66-67 | a literal run of atoms matches exactly where the literal text occurs |
| Dom.Descendants | dataset-build/sme_archive_parser.py:50-53 | a walk of the descendants starts at the first node |
| Dom.DescendantsAppend | dataset-build/sme_archive_parser.py:50-53 | the descendants of two node lists are those of the first followed by those of the second |
| Dom.Select | dataset-build/sme_archive_parser.py:50-53 | `findAll` keeps exactly the elements with the tag name and matching attributes |
| Dom.SelectAppend | dataset-build/sme_archive_parser.py:50-53 | selection distributes over concatenation, so document order is kept |
| Dom.FindAllAppend | dataset-build/sme_archive_parser.py:43-53 | the matches in a document made of two parts are those of the first part, then those of the second |
| Utils.ToFlatList | dataset-build/src/utils.py:76-77 | the flattened list has as many elements as all parts together |
| Utils.ToFlatListAppend | dataset-build/src/utils.py:76-77 | flattening distributes over concatenation of the list of parts |
| Utils.ToFlatListIndex | dataset-build/src/utils.py:76-77 | element `j` of part `i` sits in the flat list after all elements of the earlier parts |
| Utils.ToFlatListMembership | dataset-build/src/utils.py:76-77 | an element is in the flat list exactly when it is in one of the parts |
| Utils.Terminated | dataset-build/src/utils.py:50-51 | each item is written followed by a newline |
| Utils.WriteFiles | dataset-build/src/utils.py:45-51 | the file holds its old content (append) or nothing (overwrite), then one terminated line per item; no other file changes |
| Utils.WriteFile | dataset-build/src/utils.py:54-59 | the content is written verbatim, after the old content in append mode; no other file changes |
| Utils.WriteJson | dataset-build/src/utils.py:62-67 | the dumped object replaces the file in mode `'w'`; no other file changes |
| Utils.WriteJsonLastWins | dataset-build/src/utils.py:62-67 | writing a record twice to the same file leaves only the second |
| Utils.Universal | dataset-build/src/utils.py:32 | the text a file opened with `'r'` reads holds no `\r`, is no longer than the stored content, and is empty only when that is |
| Utils.UniversalKeepsPlainText | dataset-build/src/utils.py:32 | content without `\r` is read exactly as stored |
| Utils.UniversalAppend | dataset-build/src/utils.py:32 | the translation of two pieces is that of the first then that of the second, unless the first ends in a `\r` the second could pair with |
| Utils.UniversalEndsLine | dataset-build/src/utils.py:32 | content that ends a line still ends a line after the translation |
| Utils.UniversalExample | dataset-build/src/utils.py:30-36 | a file holding `a\rb\r\nc` yields the lines `a\n`, `b\n` and `c` |
| Utils.LineEnd | dataset-build/src/utils.py:33-36 | the first line of non-empty translated text has a length between one and the text's length |
| Utils.LineEndSpec | dataset-build/src/utils.py:33-36 | the first line holds no newline before its last character, and ends with a newline unless it runs to the end of the text |
| Utils.LineEndAt | dataset-build/src/utils.py:33-36 | any length with those two properties is the first line's length |
| Utils.ReadLine | dataset-build/src/utils.py:33-36 | `readline` on the text read after newline translation stays inside it and returns empty exactly at the end |
| Utils.ReadLinesAreLines | dataset-build/src/utils.py:30-36 | the lines yielded are non-empty, concatenate to the file, and each but the last ends in its only newline |
| Utils.LinesOfUnique | dataset-build/src/utils.py:30-36 | those properties determine the lines: any such cut of the text is what the generator yields |
| Utils.LoadLines | dataset-build/src/utils.py:30-36 | the `readline` loop yields the lines of the text read from the file after newline translation, each with its terminator, and nothing else |
| Utils.ReadLinesAppend | dataset-build/src/utils.py:30-36 | text that ends a line followed by more text reads as the lines of the first part, then those of the second |
| Utils.ReadOneLine | dataset-build/src/utils.py:30-36 | a text that is one terminated line reads as that line |
| Utils.ReadTerminated | dataset-build/src/utils.py:45-51 | items written by `write_files` read back one per line, each with its newline |
| Utils.TerminatedEndsLine | dataset-build/src/utils.py:45-51 | what `write_files` writes always ends a line |
| Utils.AppendedLinesRead | dataset-build/src/utils.py:30-51 | for any items, a file that ended a line reads back after an append as its old lines followed by the lines of the appended text |
| Utils.WriteFilesThenRead | dataset-build/src/utils.py:30-51 | appending items without `\n` or `\r` to a file that ends a line adds exactly those items, each with its newline, as the last lines read back |
| Utils.TerminatedHasNoCR | dataset-build/src/utils.py:50-51 | items without `\r` are written without `\r` |
| Utils.WriteFilesCommute | dataset-build/src/utils.py:30-51 | two appends in either order leave the same multiset of lines read back |
| Utils.ReadAfterTwoAppends | dataset-build/src/utils.py:30-51 | a file that ended a line, read after two appends the first of which ends a line, yields its old lines, then the lines of each append |
| Utils.AppendTwice | dataset-build/src/utils.py:45-51 | two appends leave the old content followed by both batches, in order |
| Utils.ReadLinesOfThree | dataset-build/src/utils.py:30-36 | reading three line-ended texts one after another gives their lines in order |
| ToJson.Spaces | dataset-build/src/utils.py:81-82 | `SPACE * n` is `n` spaces |
| ToJson.Render | dataset-build/src/utils.py:80-127 | `to_json` either raises `TypeError` or `StopIteration`, or returns non-empty text that does not start with a newline |
| ToJson.RenderItems | dataset-build/src/utils.py:98-109 | one printed item per list element, unless a failure stops the printing |
| ToJson.RenderFields | dataset-build/src/utils.py:85-95 | one printed entry per dict item, unless a failure stops the printing |
| ToJson.RenderSucceedsIffPrintable | dataset-build/src/utils.py:80-127 | `to_json` succeeds exactly on objects with no empty list and no unsupported type anywhere inside |
| ToJson.ItemsSucceedIffPrintable | dataset-build/src/utils.py:98-109 | a list or tuple prints exactly when every element is printable |
| ToJson.FieldsSucceedIffPrintable | dataset-build/src/utils.py:85-95 | a dict prints exactly when every value is printable |
| ToJson.RenderItemsElementwise | dataset-build/src/utils.py:98-109 | printed item `k` is element `k` printed one level deeper, indented when the list is laid out in block form |
| ToJson.RenderFieldsElementwise | dataset-build/src/utils.py:88-93 | printed entry `k` is the indented, quoted key, `": "` and the value printed one level deeper |
| ToJson.RenderScalars | dataset-build/src/utils.py:96-97 | strings are quoted without escaping, booleans print as `true`/`false`, `None` as `null`, and other types raise `TypeError` |
| ToJson.RenderIntReadsBack | dataset-build/src/utils.py:112-113 | an int prints as decimal text that parses back to the same int |
| ToJson.ListLayoutFollowsFirstItem | dataset-build/src/utils.py:98-109 | a list is laid out as a block exactly when its first element is a list |
| ToJson.EmptySequences | dataset-build/src/utils.py:98-123 | the empty tuple prints `[]`, while the empty list raises `StopIteration` |
| ToJson.DictLayout | dataset-build/src/utils.py:85-95 | a dict prints as `{`, the entries indented three spaces per level and separated by `,` and a newline, then `}` at the dict's own indentation |
| ArchiveParser.ArticleIdentity | dataset-build/sme_archive_parser.py:66-72 | the URL has an identity exactly when both searches match; the index and category are non-empty and newline-free |
| ArchiveParser.IndexRunsToNextSlash | dataset-build/sme_archive_parser.py:66-69 | the match is at the leftmost `c/` that can match; the index is non-empty, holds no newline, and runs to the first `/` after its first character, which may itself be a `/` |
| ArchiveParser.IndexOfUrl | dataset-build/sme_archive_parser.py:66-69 | for any URL of the shape prefix, `c/`, a slash-free index, `/`, rest, where the prefix holds no `c/`, the index found is exactly that index |
| ArchiveParser.CategoryOfUrl | dataset-build/sme_archive_parser.py:67-70 | for any URL of the shape prefix, `/https://`, category, then any character followed by `sme`, where the prefix holds no `/h` and no `sme` starts at the category's third character or later (the character after the category counting as part of it), the category found is exactly that category |
| ArchiveParser.SnapshotIdentity | dataset-build/sme_archive_parser.py:66-72 | every Wayback snapshot URL `http://web.archive.org/web/<digits>/https://<category>.sme.sk/c/<index>/<rest>` with a slash-free index and a slash-free, newline-free category in which no `sme` starts at the third character or later (the `.` after it counting as part of it) yields exactly that index and that category |
| ArchiveParser.GroupRunsToSlash | dataset-build/sme_archive_parser.py:66 | the lazy group of `c/(.+?)/` stops at the first `/` |
| ArchiveParser.CategoryWildcardExample | dataset-build/sme_archive_parser.py:67 | the unescaped `.` of `.sme` matches any character, so a snapshot of `https://domovsme.sk/c/1/` yields the category `domo` |
| ArchiveParser.SmenaExample | dataset-build/sme_archive_parser.py:66-72 | a snapshot of `https://smena.sme.sk/c/1/x` yields the category `smena` whole, because the lazy group holds at least one character |
| ArchiveParser.IdentityExample | dataset-build/sme_archive_parser.py:66-72 | the snapshot URL `http://web.archive.org/web/20190320101553/https://domov.sme.sk/c/22123456/x.html` yields the index `22123456` and the category `domov` |
| ArchiveParser.PlainTexts | dataset-build/sme_archive_parser.py:54 | keeping the attribute-free paragraphs never adds any |
| ArchiveParser.PlainTextsOfOne | dataset-build/sme_archive_parser.py:54 | one paragraph contributes its text exactly when it is an element with no attributes |
| ArchiveParser.PlainTextsAppend | dataset-build/sme_archive_parser.py:54 | the comprehension over two runs of paragraphs is that over the first run, then that over the second |
| ArchiveParser.PlainTextsSelect | dataset-build/sme_archive_parser.py:53-54 | filtering the `p` elements for empty `attrs` gives the texts of exactly the attribute-free `p` elements, in document order |
| ArchiveParser.ParseHtml | dataset-build/sme_archive_parser.py:43-60 | each outcome exactly when its condition holds: `PremiumSiteError` on a page with the premium marker; otherwise `IndexError` when heading or perex is missing; otherwise `AttributeError` when there is no `article`; otherwise success, with title and introduction the texts of the first heading and the first perex |
| ArchiveParser.DocumentIsFirstArticlesPlainParagraphs | dataset-build/sme_archive_parser.py:52-54 | on success there is an `article`, and the document is the texts of the attribute-free `p` descendants of the first one, in document order, joined by single spaces |
| ArchiveParser.ParseHtmlIgnoresLaterContent | dataset-build/sme_archive_parser.py:47-60 | once a page parses, appending content without a premium marker changes nothing |
| ArchiveParser.PreprocessArchivedUrl | dataset-build/sme_archive_parser.py:63-104 | the handler lets an exception escape exactly when the URL has no identity, and then it is a `ValueError` |
| ArchiveParser.RoutingTable | dataset-build/sme_archive_parser.py:73-104 | a transport fault sends the URL to the failed file; a bad status is only logged; a premium page goes to the premium file; a missing heading, perex or article is only logged; a parsed page is written as `<index>.json` |
| ArchiveParser.HandlerClauseIndices | dataset-build/sme_archive_parser.py:84-104 | each exception of the `try` body lands in its own clause, in order |
| ArchiveParser.PremiumClauseComesFirst | dataset-build/sme_archive_parser.py:38-40 | `PremiumSiteError` is a `ValueError` but is caught by its own clause because that clause comes first; with the clauses swapped the `ValueError` clause would take it |
| ArchiveParser.RecordKeys | dataset-build/sme_archive_parser.py:56-60 | the record has the keys title, introduction, document, category and url, in that order; title, introduction and document hold the extracted texts, category the category and url the URL |
| ArchiveParser.RecordShape | dataset-build/sme_archive_parser.py:66-82 | a record is written exactly when the URL has an identity, the response is ok and the page parses; it is named after the index and holds the five keys with the category and the URL |
| ArchiveParser.OneEffectPerUrl | dataset-build/sme_archive_parser.py:82-92 | handling a URL changes at most one file: the record file is overwritten, or the URL is appended verbatim to the failed or premium file |
| ArchiveParser.AppendedUrlIsOwn | dataset-build/sme_archive_parser.py:84-92 | the URL appended to the failed or premium file is the URL being handled |
| ArchiveParser.EffectOnFiles | dataset-build/sme_archive_parser.py:82-92 | a record effect overwrites the record file with the dump, an append effect adds its URL at the end of its sink, and the other effects change no file |
| ArchiveDownloader.IsWaybackArchiveAvailable | dataset-build/sme_archive_downloader.py:39-44 | the only exception that escapes is `TypeError` |
| ArchiveDownloader.AvailabilityDecoding | dataset-build/sme_archive_downloader.py:39-44 | a missing key at any of the three levels gives `(False, None)`; a non-dict at any level raises `TypeError`; otherwise the result is the snapshot's `available` and `url` |
| ArchiveDownloader.AvailabilityExample | dataset-build/sme_archive_downloader.py:39-44 | a typical availability answer yields its URL, and an empty `archived_snapshots` yields not available |
| ArchiveDownloader.NewsHref | dataset-build/sme_archive_downloader.py:53 | the link is the `href` of the teaser's second child; a missing child raises `IndexError`, a missing attribute `KeyError`, and a child that is not an element `AttributeError` |
| ArchiveDownloader.Step | dataset-build/sme_archive_downloader.py:52-69 | a teaser not answered by a not-ok response succeeds only if the later teasers do, with one more lookup and at most one more URL; a not-ok response ends the loop with one lookup and no URL; a failure is a link or decoding error or the later teasers' failure |
| ArchiveDownloader.Discover | dataset-build/sme_archive_downloader.py:47-71 | no more lookups than teasers and no more URLs than lookups; the exceptions that escape are the link and decoding errors |
| ArchiveDownloader.FaultStep | dataset-build/sme_archive_downloader.py:58-69 | a lookup that fails in transport leaves the later teasers' outcome as it is, plus one lookup |
| ArchiveDownloader.OkStep | dataset-build/sme_archive_downloader.py:62-65 | an answered lookup puts the snapshot URL in front of the later teasers' URLs exactly when `available` is truthy, plus one lookup |
| ArchiveDownloader.Reported | dataset-build/sme_archive_downloader.py:62-65 | one lookup contributes at most one URL |
| ArchiveDownloader.UrlsAreReportedInOrder | dataset-build/sme_archive_downloader.py:51-65 | the URLs collected are those of the lookups made, in teaser order; the loop stops only after a not-ok response or at the last teaser |
| ArchiveDownloader.ContinuedLoop | dataset-build/sme_archive_downloader.py:51-69 | the loop summary carries over one teaser whose response was not a not-ok |
| ArchiveDownloader.NotOkStopsTheLoop | dataset-build/sme_archive_downloader.py:59-61 | after a not-ok response the remaining teasers do not matter |
| ArchiveDownloader.FaultIsSkipped | dataset-build/sme_archive_downloader.py:67-69 | a lookup that fails in transport adds a lookup but no URL, and otherwise the loop goes on as if that teaser were absent |
| ArchiveDownloader.ExtractUrls | dataset-build/sme_archive_downloader.py:47-71 | the imperative loop computes the same result as the recursive definition |
| ArchiveDownloader.Candidates | dataset-build/sme_archive_downloader.py:50-51 | there is one candidate per teaser `div` found |
| ArchiveDownloader.StringPrefix | dataset-build/src/utils.py:50-51 | the lines written before a non-string URL stops `write_files` are the leading strings, in order |
| ArchiveDownloader.WriteUrls | dataset-build/sme_archive_downloader.py:80 | writing succeeds exactly when every URL is a string, and otherwise raises `TypeError` after the leading strings are written |
| ArchiveDownloader.DownloadPage | dataset-build/sme_archive_downloader.py:74-87 | a listing fault changes nothing, only the URL file changes, and the exceptions that escape are the link, decoding and writing errors |
| ArchiveDownloader.DownloadAppendsUrlLines | dataset-build/sme_archive_downloader.py:74-80 | one page appends its snapshot URLs to the URL file, one line each, in order |
| ArchiveDownloader.PagesCommute | dataset-build/sme_archive_downloader.py:90-98 | two pages processed in either order leave the same multiset of URL lines |
| Postprocessing.Keep | dataset-build/sme_archive_postprocessing.py:53-57 | a filtering comprehension keeps only elements of its input that satisfy the condition |
| Postprocessing.KeepAppend | dataset-build/sme_archive_postprocessing.py:53-57 | filtering distributes over concatenation |
| Postprocessing.Map | dataset-build/sme_archive_postprocessing.py:54-55 | a mapping comprehension keeps the length, and element `k` is the function of element `k` |
| Postprocessing.Delete | dataset-build/sme_archive_postprocessing.py:41-46 | deleting characters never lengthens the text and leaves only characters of the input that are not deleted |
| Postprocessing.RemovePunctuation | dataset-build/sme_archive_postprocessing.py:41-42 | no mark of the class survives, and nothing new appears |
| Postprocessing.RemoveNumbers | dataset-build/sme_archive_postprocessing.py:45-46 | no digit survives, and nothing new appears |
| Postprocessing.PunctuationClass | dataset-build/sme_archive_postprocessing.py:42 | the class holds the acute accent, the quote and `]`, but not `-`, `_` or the backslash |
| Postprocessing.DeleteIsCharacterwise | dataset-build/sme_archive_postprocessing.py:41-46 | deletion works one character at a time and leaves text with nothing to delete unchanged |
| Postprocessing.PunctuationExample | dataset-build/sme_archive_postprocessing.py:41-42 | `a-b!` loses its `!` but keeps its hyphen |
| Postprocessing.NumbersExample | dataset-build/sme_archive_postprocessing.py:45-46 | `x19` becomes `x` |
| Postprocessing.NormalizeToken | dataset-build/sme_archive_postprocessing.py:53-57 | a token that survives has at least two characters, no digit, and is no stop word |
| Postprocessing.Normalized | dataset-build/sme_archive_postprocessing.py:53-57 | every token that survives is clean in that sense |
| Postprocessing.NormalizedAppend | dataset-build/sme_archive_postprocessing.py:53-58 | normalisation distributes over concatenation |
| Postprocessing.SentenceTokensAppend | dataset-build/sme_archive_postprocessing.py:53-57 | the five comprehensions distribute over concatenation |
| Postprocessing.SentenceTokensOfOne | dataset-build/sme_archive_postprocessing.py:53-57 | on one token, the five comprehensions give what the single-token normalisation gives |
| Postprocessing.PassesAreTokenwise | dataset-build/sme_archive_postprocessing.py:53-57 | the five passes over a sentence equal one pass that normalises token by token |
| Postprocessing.TokensCons | dataset-build/sme_archive_postprocessing.py:52-58 | the tokens of the sentences are those of the first sentence, then those of the rest |
| Postprocessing.TokensIgnoreSentences | dataset-build/sme_archive_postprocessing.py:52-58 | sentence boundaries do not matter: the result is the normalisation of all tokens in order |
| Postprocessing.Preprocess | dataset-build/sme_archive_postprocessing.py:49-60 | `_preprocess` fails exactly when segmentation fails |
| Postprocessing.PreprocessedTokens | dataset-build/sme_archive_postprocessing.py:49-60 | the result is the surviving tokens joined by spaces, and every one is clean |
| Postprocessing.PreprocessExample | dataset-build/sme_archive_postprocessing.py:49-60 | `Ahoj , svet 123 !` with the stop word `svet` becomes `ahoj` |
| Postprocessing.TokenKept | dataset-build/sme_archive_postprocessing.py:53-57 | a token with no mark whose lowercase form has no digit, is no stop word and has two characters or more becomes that lowercase form |
| Postprocessing.NormalizeMark | dataset-build/sme_archive_postprocessing.py:53 | a lone punctuation mark is dropped |
| Postprocessing.NormalizeTokenIdempotent | dataset-build/sme_archive_postprocessing.py:63-65 | a surviving token normalises to itself again when lowercasing adds no punctuation and leaves it unchanged |
| Postprocessing.NormalizedIdempotent | dataset-build/sme_archive_postprocessing.py:63-65 | normalising normalised tokens changes nothing, under the same condition |
| Postprocessing.ReprocessingIsStable | dataset-build/sme_archive_postprocessing.py:63-65 | running `_preprocess` on its own output, as `_lemmatize` does, gives the same text, provided segmentation gives the same tokens back, lowercasing adds no punctuation mark, and lowercasing leaves every surviving token unchanged |
| Postprocessing.Lemmatize | dataset-build/sme_archive_postprocessing.py:63-70 | `_lemmatize` fails exactly when `_preprocess` does |
| Postprocessing.LemmaPerToken | dataset-build/sme_archive_postprocessing.py:63-70 | when no surviving token contains a space, `_lemmatize` gives one lemma per surviving token, joined by spaces; with no token it lemmatises the empty word |
| Postprocessing.TransformRecord | dataset-build/sme_archive_postprocessing.py:76-80 | a transformed record comes from a dict and is a dict; a non-dict raises `TypeError` |
| Postprocessing.TransformedRecordValues | dataset-build/sme_archive_postprocessing.py:76-80 | the transform succeeds exactly when the three keys are present, the three `_preprocess` calls succeed and `_lemmatize` of the new document succeeds; then title, introduction and document hold the preprocessed old values and `document_lemma` the lemmatised new document |
| Postprocessing.MissingFieldIsKeyError | dataset-build/sme_archive_postprocessing.py:76-80 | a key missing when its line is reached raises `KeyError`; when segmentation never raises `KeyError` itself, that is the only way to a `KeyError` |
| Postprocessing.TransformedRecordShape | dataset-build/sme_archive_postprocessing.py:76-80 | a missing title raises `KeyError`; otherwise the keys are kept in order with `document_lemma` added at the end if new, other items are unchanged, and title and lemma hold strings |
| Postprocessing.SetFieldsKeys | dataset-build/sme_archive_postprocessing.py:77-80 | the four assignments add at most `document_lemma`, at the end |
| Postprocessing.SetItemKeys | dataset-build/sme_archive_postprocessing.py:77-80 | one assignment adds its key at the end exactly when the key was missing |
| Postprocessing.SetFieldsHold | dataset-build/sme_archive_postprocessing.py:77-80 | after the assignments the new title and lemma are in the record |
| Postprocessing.SetItemKeepsItem | dataset-build/sme_archive_postprocessing.py:77-80 | assigning one key leaves the item of another key in place |
| Postprocessing.SetFieldsKeepOthers | dataset-build/sme_archive_postprocessing.py:77-80 | every item whose key is not one of the four assigned stays where and as it was |
| Postprocessing.PreprocessFile | dataset-build/sme_archive_postprocessing.py:73-94 | an escaping exception is one no clause catches and changes nothing; only the output file can change |
| Postprocessing.PreprocessFileRouting | dataset-build/sme_archive_postprocessing.py:73-94 | a transformed record is dumped to the output file; `pycld2.error` and every `ValueError`, `JSONDecodeError` included, are only logged; every other exception, whatever its class, escapes and writes nothing |
| Postprocessing.PostClausesCatch | dataset-build/sme_archive_postprocessing.py:84-94 | the clauses catch exactly `pycld2.error` and the `ValueError` family |
| Postprocessing.StopWords | dataset-build/sme_archive_postprocessing.py:103 | the stop words are the lines of the file: at least one, newline-free, and joined by newlines they give the file back |

## Left out

- The `__main__` blocks are not modelled: argument parsing, the thread and process pools, `os.scandir`, `os.cpu_count`, and the count of URLs printed before parsing. A pool runs the same per-item function in some order. Order is covered only by `ArchiveDownloader.PagesCommute` and `Utils.WriteFilesCommute`, which show that appends in either order leave the same multiset of lines. Interleaving inside a single write is not modelled.
- HTTP requests, timeouts and the random `sleep` calls are not modelled. A fetch is an input: `Fetch`, `Listing` and `LookupOutcome`.
- Logging, `print` and the text of log messages are not modelled. They change no file the pipeline reads. `get_logger` is not modelled for the same reason.
- HTML parsing is not modelled: the page is an abstract `Dom` tree. BeautifulSoup's match of a multi-word `class` value is the parameter `Dom.ClassTest`.
- polyglot and pycld2 (segmentation and language detection), `str.lower`, the `\d` class and `lemmsk.lemmatize` are foreign. They are the fields of `Postprocessing.Tools`.
- `json.dump` and `json.load` are not modelled. The text a dump writes is the parameter `dump`. The object `read_json` returns, or the exception it raises, is the input `loaded`.
- `read_file` and `read_json` are file reads. Their results are inputs.
- `os.path.join` and the creation of a missing directory are not modelled: a `Utils.Path` is a directory and a name.
- The `str.format` URL templates of the downloader are not modelled. The availability lookup for a teaser is an input indexed by its position.
- `ArchiveDownloader.Discover` treats an ok response (status below 400) whose body is not JSON as `LookupFault`, skipped like a transport failure. From `requests` 2.27 on, the `JSONDecodeError` that `.json()` raises is a `RequestException` and the same clause catches it. Older versions raise a plain `ValueError` that escapes; that is not modelled.
- `ToJson.Render` does not model the `float` and `numpy.ndarray` branches, because their `%.7g` formatting is floating point. `Value` has no float or array. It also does not model `str(k)` of non-string dict keys, because `Value` dicts have string keys only.
- `LazySearch.Search` does not model regular expressions in general: it covers only the two patterns the parser uses.
- `ArchiveParser.IndexOfUrl` is stated only for URLs whose prefix holds no `c/`, and `ArchiveParser.CategoryOfUrl` only for prefixes without `/h`. `ArchiveParser.SnapshotIdentity` applies both to every Wayback snapshot URL of an article, and `ArchiveParser.IndexRunsToNextSlash` describes the index of every URL that has one, without naming it in advance.
- `Utils.WriteFilesThenRead` is stated only for items without `\r`: text mode reads a written `\r` as a line break, so such an item comes back as more than one line. `Utils.AppendedLinesRead` covers every item.
- Writes are modelled as on POSIX, where text mode stores `\n` as written. On Windows text mode stores `\r\n` instead; the lines read back are the same, through `Utils.Universal`, but the stored bytes differ.
