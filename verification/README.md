# folder_search, modelled in Dafny

The repository holds scripts that work on a corpus of website privacy
policies. The corpus is a directory tree of Markdown files, one per site, each named
`<site>.md` (for example `google.com.md`). This project models the parts of
those scripts that carry logic and proves properties about them:

- **the domain resolver** (`Resolver`). It picks one corpus file for a
  website name. A file of the target domain with suffix `com` wins at once.
  Otherwise the first match met is kept. There are two variants:
  `findExactMatchInDirTLD` in gatherPopularSites.py (`Gather`) and
  `findExactMatchInDir` in checkSheetItems.py (`Sheet`). They differ only in
  when a path returned by a sub-directory ends the search.
- **the capped scans** of gatherPopularSites.py (`Scans`):
  - the exact scan and the substring scan, which collect at most five files
    per domain;
  - the scan that files every corpus file under its suffix;
  - `fuzzyMatchIndex`.
- **the sheet transform** of checkSheetItems.py (`Sheet`). Every column gets
  a companion " Exists" column filled by the resolver.
- **the chunker** of convert_corpus.py (`Chunker`):
  - `handleLongSentence`, which packs the words of an over-long sentence
    into pieces bounded by the token budget;
  - `splitIntoChunks`, which packs sentences into chunks paragraph by
    paragraph;
  - `addAnnotations`.
- **corpus input and Markdown stripping** of count_corpus.py (`Corpus`,
  `Markdown`). These functions are the same in convert_corpus.py.

The external services are parameters:

- `tldextract.extract` becomes a function `string -> Parts`.
- tiktoken's token count, nltk's sentence segmenter and nltk's word
  segmenter become the three functions of `Chunker.Nlp`.

The directory tree is a value (`Tree.Entry`) whose entries come in the
order `os.scandir` yields them. A path is the list of its components.

Supporting modules:

- `Options`: an option type.
- `Text`: strings, including `str.lower`, `str.strip`, `str.split`,
  `str.join` and `os.path.splitext`.
- `Tree`: directory entries and the depth-first list of files (`Tree.Files`).
  Most properties are stated against `Tree.Files`.

Where the code does something other than what its documentation says, the
model follows the code:

- **`Gather` skips sub-directory `.com` matches that have a subdomain.**
  - The docstring of `findExactMatchInDirTLD` promises to prioritise `.com`
    domains.
  - It does return a `.com` file met directly, and a bare `.com` path
    returned by a sub-directory.
  - The code returns a path found in a sub-directory only when it has suffix
    `com` *and* an empty subdomain.
  - Inside a directory, it returns a `.com` file whatever its subdomain.
  - So a `.com` match in the tree does not always win. In a tree with
    `a/site.org.md`, `b/www.site.com.md` and `b/site.com.md`, neither
    variant returns `site.com.md`. `Gather` returns
    the `.org` file and `Sheet` returns `www.site.com.md`
    (`Resolver.VariantsPart`).
  - The two variants agree whenever every `.com` match has an empty
    subdomain (`Resolver.GatherAgreesWithSheet`).
- **An unused variable.** `foundComPath` is never assigned, so the final
  `foundComPath or foundOtherPath` is just `foundOtherPath`.
- **Chunks can exceed the budget.** `splitIntoChunks` appends the paragraph
  marker `"\n"` to a non-empty chunk without measuring it. So a flushed chunk
  that ends with the marker can exceed `maxTokens`. With a
  character-counting tokenizer and a budget of 3, the text "abc\nd" chunks
  into `["", "abc \n", "d"]`, and the middle chunk has five characters
  (`Chunker.OverBudgetExample`). The budget is guaranteed only for chunks
  whose last entry is a sentence (`Chunker.Budgeted`).
- **Empty chunks.** A sentence arriving at an empty chunk is measured as
  `' ' + sentence`. When `count(' ' + sentence) > maxTokens >= count(sentence)`,
  the empty chunk is flushed first as `''`. A character counter gives this
  for every sentence whose length is exactly the budget; whether a real
  tokenizer does depends on how it counts the leading space
  (`Chunker.EmptyChunkExample`).
- **The fenced-code pass never fires.** The last pass of `stripMarkdown`
  runs after every backtick has been deleted, so it never matches
  (`Markdown.FencePassIsNoOp`).
- **Duplicates in the substring scan.** `scanDir` loops over the websites
  rather than over the distinct domains. Two websites with the same domain
  offer each file twice to that domain's list: with websites `a.com` and
  `a.org` and a single file `a.md`, the list of `a` holds its path twice
  (`Scans.DuplicateSitesExample`). The five-file property of the substring
  scan is therefore stated for distinct domains.

## Model

| member | source | states |
|---|---|---|
| Tree.JustUrlOfCorpusFile | gatherPopularSites.py:269-279 | for a file named `<site>.<ext>` whose extension has no dot and whose `<site>` is not made only of dots, `justURL` gives back `<site>` whatever directory the file is in |
| Tree.JustUrl | gatherPopularSites.py:269-279 | `justURL` is a prefix of the path's base name (the name up to its extension); Tree.JustUrlOfCorpusFile says which prefix |
| Tree.Files | gatherPopularSites.py:88-91 | the files the recursive scans visit, in `os.scandir` order with each sub-directory's files where the sub-directory stands; Tree.FilesBelow says every one extends the starting directory |
| Tree.FilesBelow | gatherPopularSites.py:88-91 | every file path reached by the recursive scan extends the directory the scan started from |
| Text.Strip | convert_corpus.py:259 | `strip()` cuts only whitespace from both ends, and the result neither starts nor ends with whitespace |
| Text.SplitJoin | convert_corpus.py:267 | splitting on a character inverts joining pieces that do not contain it |
| Text.StemOfExtension | gatherPopularSites.py:109-110 | `splitext` of `base.ext` gives `base` when the extension has no dot and `base` is not made only of dots |
| Resolver.Target | gatherPopularSites.py:79-84 | the searched domain is tldextract's domain when the name holds a dot and the name itself otherwise, lower-cased, and holds no upper-case letter |
| Resolver.Find | gatherPopularSites.py:66-122 | both resolvers (`findExactMatchInDirTLD`, and `findExactMatchInDir` at checkSheetItems.py:13-69): the scan started with no candidate, then the returned path or the recorded candidate. What it picks is stated by Resolver.FindSound, Resolver.SheetPrefersFirstCom and Resolver.GatherPrefersFirstBareCom |
| Resolver.Scan | gatherPopularSites.py:88-119 | the loop over one directory's entries, with its early returns and the recorded `foundOtherPath`. How it ends is stated by Resolver.ScanAppend, Resolver.DecisiveEntryStops and Resolver.SheetScanOutcome |
| Resolver.FindSound | gatherPopularSites.py:66-122 | either variant answers `None` exactly when no file of the tree has the target domain, and otherwise returns a file of the tree with that domain |
| Resolver.SheetPrefersFirstCom | checkSheetItems.py:13-69 | the sheet resolver returns the first `.com` file of the target domain in depth-first order, or failing that the first file of the domain |
| Resolver.SheetScanOutcome | checkSheetItems.py:35-69 | the top-level sheet loop returns early exactly when the tree holds a `.com` match, and then returns the first one in depth-first order; otherwise it ends holding the first match of any suffix, or nothing |
| Resolver.GatherAgreesWithSheet | gatherPopularSites.py:94-104 | when every `.com` match has an empty subdomain, the stricter sub-directory test of `findExactMatchInDirTLD` makes no difference: both variants give the same answer |
| Resolver.GatherPrefersFirstBareCom | gatherPopularSites.py:66-122 | when every `.com` match has an empty subdomain, `findExactMatchInDirTLD` returns the first `.com` match in depth-first order, or else the first match |
| Resolver.FirstMatchWithoutCom | gatherPopularSites.py:102-104 | without any `.com` match, both variants return the first match in depth-first order, because the recorded other path is never replaced |
| Resolver.ScanAppend | gatherPopularSites.py:88-122 | scanning two runs of entries is scanning the first and then, unless it returned early, the second with the candidate it recorded |
| Resolver.DecisiveEntryStops | gatherPopularSites.py:99-115 | a `.com` file of the target domain, or a sub-directory whose answer short-circuits, ends the scan there: the entries after it are never looked at |
| Resolver.VariantsPart | gatherPopularSites.py:99-104 | in a concrete tree, `Gather` returns an earlier `.org` file and `Sheet` returns a `.com` file with a subdomain, and neither returns the bare `.com` file |
| Scans.Fresh | gatherPopularSites.py:226-228 | the start dictionaries hold exactly the domains, each with an empty list and a zero count |
| Scans.FindMatchingFiles | gatherPopularSites.py:213-237 | the result has exactly one key per domain, and no list is longer than five |
| Scans.ScanTree | gatherPopularSites.py:156-211 | `findExactMatchInDir` and `scanDir` over the tree, threading both dictionaries: it keeps every requested domain's entries, and adds no key. Scans.ScanKeepsCap and Scans.ScanCollectsFirstHits state what it collects |
| Scans.ExactFile | gatherPopularSites.py:173-180 | the file branch of the exact scan keeps the dictionaries' keys; Scans.ExactFileAt states which list it extends |
| Scans.FuzzyFile | gatherPopularSites.py:199-211 | the file branch of `scanDir`, one website at a time, keeps the dictionaries' keys; Scans.FuzzyFileAt states which lists it extends |
| Scans.ScanKeepsCap | gatherPopularSites.py:169-211 | both scans keep every count equal to its list's length and at most five |
| Scans.ExactFileAt | gatherPopularSites.py:175-180 | an exact file step appends the file to its domain's list only if the list has room, and counts it |
| Scans.FuzzyFileAt | gatherPopularSites.py:201-211 | a substring file step offers the file to each domain the file name contains, once when the domains are distinct |
| Scans.ScanCollectsFirstHits | gatherPopularSites.py:156-211 | each domain's list grows by the first hits among the tree's files in depth-first order, as many as its count leaves room for |
| Scans.FindMatchingFilesFirstFive | gatherPopularSites.py:213-237 | `findMatchingFiles` returns per domain the first five files in depth-first order: in exact mode those whose extracted domain matches, in substring mode those whose name contains the domain |
| Scans.ByTLDs | gatherPopularSites.py:239-267 | `findFilesByTLDs` has a list for every requested suffix |
| Scans.TLDScan | gatherPopularSites.py:253-265 | the loop of `findFilesByTLDs` keeps a list for every requested suffix; Scans.TLDScanLists states its contents |
| Scans.TLDFile | gatherPopularSites.py:259-265 | the file branch of `findFilesByTLDs` keeps a list for every requested suffix; Scans.TLDFileAt states that each requested list gains the path exactly when the path has that suffix |
| Scans.ByTLDsListsAll | gatherPopularSites.py:239-267 | each suffix's list is exactly the tree's files whose extracted suffix it is, in depth-first order, with no cap |
| Scans.TLDScanLists | gatherPopularSites.py:253-265 | merging the lists a sub-directory returns extends each list by that sub-directory's files, in order |
| Scans.DuplicateSitesExample | gatherPopularSites.py:203-211 | with websites `a.com` and `a.org` and the single file `a.md`, the substring scan lists `a.md` twice for `a` |
| Scans.FuzzyMatchIndex | gatherPopularSites.py:281-296 | the returned index is the least one whose element has the query as its extracted domain, or -1 when none has |
| Sheet.ExpandHeaders | checkSheetItems.py:86-91 | the header row doubles, and each header is followed by itself plus " Exists" |
| Sheet.Cell | checkSheetItems.py:99-109 | a companion cell is empty exactly when its cell is; Sheet.CellMeaning states the rest |
| Sheet.CheckRow | checkSheetItems.py:94-111 | each cell is kept and followed by its companion cell |
| Sheet.Process | checkSheetItems.py:83-111 | there is no result exactly when the sheet has no header row; otherwise the output has one row per input row, starting with the expanded header |
| Sheet.ProcessKeepsInput | checkSheetItems.py:88-98 | dropping the companion columns gives back the input table |
| Sheet.CellMeaning | checkSheetItems.py:99-109 | a companion cell is empty exactly when its cell is, and is "None" when the resolver finds nothing; otherwise it is the path of a file in the tree |
| Chunker.LongGroups | convert_corpus.py:237-262 | the word groups of the chunks `handleLongSentence` emits, each round taking up to `spaceLeft` words; Chunker.LongGroupsFlatten and Chunker.LongGroupsShape state their contents |
| Chunker.HandleLongSentence | convert_corpus.py:215-264 | `handleLongSentence`; Chunker.HandleLongSentenceSplitsWords states what it returns, and Chunker.HandleLongSentenceLoop shows the loops as written compute it |
| Chunker.LongGroupsFlatten | convert_corpus.py:237-254 | the word groups of `handleLongSentence`, read in order, are exactly the remaining words |
| Chunker.LongGroupsShape | convert_corpus.py:237-262 | every group is non-empty, and every group but the last reached the token budget |
| Chunker.HandleLongSentenceSplitsWords | convert_corpus.py:215-264 | the chunks are the stripped renderings of non-empty groups that together are the sentence's words. Every chunk but the last reached the budget, and no words give no chunks |
| Chunker.RenderSnoc | convert_corpus.py:244-251 | appending a word extends the rendered chunk by the bare word when it is punctuation or the chunk is empty, and by a space and the word otherwise |
| Chunker.RenderPlainWords | convert_corpus.py:244-251 | a chunk with no punctuation word renders as its words joined by single spaces |
| Chunker.AppendSegment | convert_corpus.py:244-251 | the inner loop extends the chunk's pieces by those of the segment |
| Chunker.RoundKeeps | convert_corpus.py:237-262 | one round of the outer loop keeps the chunks emitted plus the chunks still to come equal to the final result, whether or not it flushes |
| Chunker.Rendered | convert_corpus.py:239-259 | the joined pieces are the rendering whose tokens the loop counts, and their strip is the chunk |
| Chunker.HandleLongSentenceLoop | convert_corpus.py:227-264 | the loops as written compute the group-based definition of `handleLongSentence` |
| Chunker.SentenceStep | convert_corpus.py:274-291 | the routing of one sentence; Chunker.SentenceStepKeepsInv and Chunker.SentenceStepConserves state what it keeps |
| Chunker.ParagraphsStep | convert_corpus.py:271-295 | the loop over paragraphs with the paragraph marker; Chunker.ParagraphsKeepInv and Chunker.ParagraphsConserve state what it keeps |
| Chunker.Fold | convert_corpus.py:266-295 | the whole loop from no chunks and an empty buffer; Chunker.FoldRoutes and Chunker.FoldKeepsOrder state what it keeps |
| Chunker.SplitIntoChunks | convert_corpus.py:266-301 | `splitIntoChunks`: the emitted blocks rendered in order, then the stripped remaining buffer; Chunker.FoldKeepsOrder, Chunker.NoSentencesNoChunks and the two examples state its behaviour |
| Chunker.SentenceStepKeepsInv | convert_corpus.py:274-291 | routing one sentence keeps the buffer within the budget when it ends with a sentence, and sends over-budget sentences to `handleLongSentence` alone |
| Chunker.ParagraphsKeepInv | convert_corpus.py:271-295 | the routing invariant survives every paragraph and its marker |
| Chunker.FoldRoutes | convert_corpus.py:266-299 | no over-budget sentence enters a chunk. Every non-empty flushed chunk starts with a sentence; every sentence in a flushed chunk is within the budget, and the chunk is within the budget unless it ends with the marker |
| Chunker.SentenceStepConserves | convert_corpus.py:273-291 | routing a sentence adds exactly that sentence, at the end, to the sentences emitted and buffered |
| Chunker.ParagraphEndConserves | convert_corpus.py:293-295 | the paragraph marker adds no sentence |
| Chunker.ParagraphsConserve | convert_corpus.py:271-295 | the paragraphs' sentences are passed along in order |
| Chunker.FoldKeepsOrder | convert_corpus.py:266-299 | reading the emitted chunks and then the last one gives every sentence of every paragraph exactly once, in document order |
| Chunker.NoSentencesNoChunks | convert_corpus.py:266-301 | a text in which the segmenter finds no sentence gives no chunks |
| Chunker.EmptyChunkExample | convert_corpus.py:284-291 | with a character-counting tokenizer and a budget of 3, the text "abc" chunks into `["", "abc"]` |
| Chunker.OverBudgetExample | convert_corpus.py:284-299 | with a character-counting tokenizer and a budget of 3, the text "abc\nd" chunks into `["", "abc \n", "d"]`, whose middle chunk is over the budget |
| Chunker.AddAnnotations | convert_corpus.py:303-329 | nine prompts are produced per chunk |
| Chunker.AnnotationAt | convert_corpus.py:316-327 | prompt `9*i + j` is "Annotate:" + chunk `i` + " " + parameter `j` + "--->" |
| Chunker.AnnotationsByIndex | convert_corpus.py:303-329 | prompt `k` is for chunk `k / 9` and parameter `k % 9`, chunk-major |
| Corpus.InputFromCsv | count_corpus.py:87-96 | the loops return the table's cells that are non-empty and end in ".md", row by row, in order |
| Corpus.KeepMdCells | count_corpus.py:93-95 | the inner loop adds one row's Markdown cells after those kept before |
| Corpus.MdCellsCount | count_corpus.py:92-95 | every Markdown cell is returned as often as it occurs in the table, and no other cell is returned |
| Corpus.MdCellsByRow | count_corpus.py:92-95 | the first row's Markdown cells come first, followed by those of the remaining rows |
| Corpus.InputFromTranco | count_corpus.py:54-72 | one path is taken from each site with a truthy value, in dictionary order, and the counter equals the number of paths |
| Corpus.PicksSnoc | count_corpus.py:61-68 | a site contributes its path, the string itself or the list's first element, exactly when its value is truthy |
| Corpus.PicksAll | count_corpus.py:61-68 | when every site has a path, one path per site is returned, in order |
| Markdown.DeleteChar | count_corpus.py:211-221 | after a `#+`, `\*+` or backtick pass the character no longer occurs |
| Markdown.StripMarkdown | count_corpus.py:186-232 | the nine passes in the source's order; Markdown.StripMarkdownClean, Markdown.StripMarkdownDeletes and Markdown.StripMarkdownPlainText state what it does |
| Markdown.DeleteFences | count_corpus.py:230 | the fenced-code pass never lengthens the text, and when it changes the text it removes at least the two fences of a match |
| Markdown.FencesNoOp | count_corpus.py:230 | without backticks the fenced-code pass changes nothing |
| Markdown.FencePassIsNoOp | count_corpus.py:221-230 | the fenced-code pass runs after every backtick is deleted, so it never changes the text |
| Markdown.StripMarkdownClean | count_corpus.py:211-230 | no `#`, `*` or backtick survives `stripMarkdown` |
| Markdown.StripMarkdownDeletes | count_corpus.py:197-232 | every pass only deletes, so the result is a subsequence of the input |
| Markdown.DeleteMarkup | count_corpus.py:211-221 | the three character passes together remove exactly the characters `#`, `*` and backtick |
| Markdown.StripMarkdownPlainText | count_corpus.py:197-232 | on a text where none of the five regular-expression passes matches, `stripMarkdown` removes exactly the markup characters |

## Left out

- Network access: the Tranco list download, `findTopSites` and the progress
  bars (`tqdm`). `inputFromTranco` takes the dictionary `findTopSites`
  returns as its input.
- File I/O:
  - reading and writing the CSV files (`readCSV`, `writeCSV`);
  - reading corpus files;
  - `dataInput`, `main`, `createNewSubdir`, `checkCSVFile`, `writeToCSV`
    and the console output.
  The modelled functions take the rows or the text as values.
- `os.scandir`. The entry order is whatever the file system yields; the
  model takes it as the given order of `Tree.Entry` lists.
- `os.path.join` special cases (absolute components, trailing separators).
  Paths are lists of components, and `Tree.PathString` joins them with `/`.
- `tldextract`, tiktoken and nltk. They are not modelled; they are
  parameters about which nothing is assumed except that the tokenizer counts
  no tokens in the empty string.
- `str.lower`: only ASCII upper-case letters are lowered, with no Unicode
  case mapping.
- The regular expressions of five `stripMarkdown` passes:
  - the leading block quote;
  - images;
  - links;
  - block-quote markers;
  - horizontal rules.
  Their matches are given as deletion masks (`Markdown.Patterns`). The
  `#+`, `\*+`, backtick and fenced-code passes are modelled exactly.
- `findMatchingFilesSlow`, an `os.walk` variant of the substring scan that
  nothing calls. It matches on the text before a site's first dot rather
  than on the extracted domain, and it has no cap.
- Chunker.HandleLongSentence and Chunker.SplitIntoChunks require a
  positive budget and a tokenizer that gives the empty string no tokens
  (`Chunker.Ready`). The source's `while` ends under a weaker condition:
  - an empty word list, for which the loop never runs and the result is
    `[]`;
  - or `countTokens('') < maxTokens`. Then `spaceLeft` is at least 1 in
    every round, because a chunk that was not flushed stays below the budget.
  With a non-empty word list and `countTokens('') >= maxTokens` the loop
  never ends: the index stands still or moves backwards. So `count("") == 0`
  is stronger than termination needs, and the model does not cover a
  tokenizer that gives the empty string some tokens below the budget, or a
  non-positive budget with no words.
- Scans.FindMatchingFilesFirstFive: in substring mode the five-file
  property is stated only for distinct domains. With repeated domains,
  `scanDir` offers a file once per website, so one file can fill several
  places of a list. `Scans.ScanKeepsCap` still bounds every list by five in
  that case.
