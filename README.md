# Travel-guide content pipeline: document rendering, file naming and outline traversal

This project models the core of a travel-guide generator's backend, which turns
an outline tree into one article per node. For each node it renders the
article's markup into a Word document, gives the document a unique file name,
and assembles an HTML preview, a map from node id to download link, and a
zip archive of all documents.

What is modelled:

- **`_add_rich_text`** (`DocxService.AddRichText`, `DocxService.ApplyToken`).
  It splits a line on `<[^>]+>` with the delimiters kept (`Markup.Split`) and
  walks the tokens. Three flags (bold, italic, highlight) start false, and tags
  switch them. Every other non-empty token that does not start with `<` and does
  not mention `background-color` becomes a run carrying the current flags.
  The loop is specified by the function `DocxService.Scan` and its
  reference meaning `DocxService.FormatAfter` / `DocxService.RunsFrom`.
- **`create_docx`** (`DocxService.CreateDocx`, `DocxService.AddLines`,
  `DocxService.AddLine`).
  - It splits the content on `\n`, strips each line and classifies it. A line
    holding `<h2>` or starting with `# ` becomes a level-1 heading. A line
    holding `<li>` or starting with `- ` becomes a bullet paragraph. A line with
    text besides its tags becomes a plain paragraph. Blank lines add nothing.
  - The document is a `Document` object whose `blocks` sequence the method
    extends; it is specified by `DocxService.Render`.
  - A heading whose text is empty once tags and `# ` are deleted (`<h2></h2>`,
    `# <br>`) makes python-docx create a heading with no run, and `h.runs[0]`
    raises `IndexError`. The model returns no path then
    (`DocxService.EmptyHeading`, `DocxService.RenderFails`), and both endpoints
    answer HTTP 500.
  - Without a file name the name is `{location}_{safe_title}.docx`, where only
    the title loses the characters `\/*?:"<>|`; the location goes in
    unchanged. `.docx` is appended when missing, and the path is
    `outputs/<name>` (`DocxService.DocxName`, `DocxService.DocxPath`).
- **`get_unique_filename`** (`GenerateContent.ContentRequest.GetUniqueFilename`).
  - It sanitises the title with `str.isalnum` plus space, `.`, `_`, `-`, then
    `strip()`. An empty result becomes `article`.
  - It then tries `{location}_{base}.docx`, `{location}_{base}_1.docx`, ...
    against the request's set of used names.
  - The loop is proved against `Filenames.Allocate`. Its termination argument
    is that the counter never exceeds the number of names in use.
- **`traverse`** (`GenerateContent.ContentRequest.Traverse` and `.Visit`). It is
  a method of the `ContentRequest` class, whose fields are the request's mutable
  state: used names, generated files, node downloads and HTML. It is proved
  against `GenerateContent.ProcessAll` over the pre-order of the outline
  (`GenerateContent.PreOrder`).
- **`api_generate_content`** (`GenerateContent.ApiGenerateContent`). It
  traverses every root, lists the archive entries and builds the response,
  or answers HTTP 500 when some document cannot be built.
- **`api_generate_single_content`** (`GenerateContent.ApiGenerateSingleContent`).
  It sanitises the whole `{location}_{title}.docx` string and writes one
  document, or answers HTTP 500 when that document cannot be built.
- **`OutlineNode`** (`backend/models.py:4-8`) is the datatype `Models.OutlineNode`.

The Python string and path operations the code relies on are written out in
`PyStr` and `PosixPath`:

- `str.strip` with Python's whitespace set;
- `split('\n')`, `replace(old, '')`, `in`, `startswith`, `endswith`;
- `str(int)`;
- POSIX `os.path.join` and `os.path.basename`.

`re.split(r'(<[^>]+>)', ...)` and `re.sub(r'<[^>]+>', '', ...)` are written out
by hand in `Markup`. Python's Unicode `str.isalnum` is the parameter `isAlnum`.
The article generator `generate_article` is the parameter `gen`.

The docstring of `_add_rich_text` (`backend/services/docx_service.py:66-69`)
names `<strong>`, `<b>`, `<i>` and `<span style="background-color: ...">` as
the supported tags. The code does more and less than that, and the model
follows the code:

- Any token containing `background-color` switches highlight on and adds no
  run: not only a `<span style=...>` tag but any other tag or a text token.
- A text token that starts with `<` is dropped, for example `<3` right after a
  tag. So the runs spell out the tag-stripped line only when no text piece is
  dropped. `DocxService.RichTextShowsStrippedLine` states that precondition.

Other behaviours of the code that the model keeps:

- Headings and bullet items delete every `# ` or `- ` in the line, not only the
  leading marker.
- Only the literal `<h2>` marks a heading: a line such as `<h2 class="x">Tips</h2>`
  does not contain it and becomes a plain paragraph.
- A heading with no text makes `create_docx` raise, so one such line in one
  article turns the whole batch request into HTTP 500.
- Sanitising keeps whatever `str.isalnum` accepts, so titles in non-Latin
  scripts are kept rather than dropped.
- The batch endpoint puts the location into file names unsanitised. Archive
  names are still distinct (`GenerateContent.ArchiveNamesDistinct`): every file
  name is the location followed by a tail without `/`, so the base names differ
  in their tails even when the location holds `/`.
- `generate_article` never raises in the code: it returns error markup
  instead. So a traversal is aborted only by `create_docx`.

## Model

| member | source | states |
|---|---|---|
| DocxService.AddRichText | backend/services/docx_service.py:65-105 | the runs added to the paragraph are `RichText(text)`: the loop over the split tokens with flags that start false |
| DocxService.ApplyToken | backend/services/docx_service.py:79-105 | one token switches bold/italic/highlight or adds one run with the current flags, exactly as `Step` says; empty tokens and unknown tags change nothing |
| DocxService.Paragraph.AddRun | backend/services/docx_service.py:99-105 | a run is appended after the runs already in the paragraph |
| DocxService.ScanFlags | backend/services/docx_service.py:75-96 | the flags after any token list are the reference flags: an attribute is on iff some token opened it and no later token closed it |
| DocxService.RunsInTokenOrder | backend/services/docx_service.py:79-105 | runs come out in token order, one per text token that is not dropped, each carrying the flags set by the tokens before it |
| DocxService.StepCloses | backend/services/docx_service.py:85-94 | a closing tag only switches its own flag off, never raises, adds no run, and leaves the state unchanged when the flag was already off |
| DocxService.StepBackgroundColor | backend/services/docx_service.py:91-92 | any token mentioning `background-color`, even text, switches highlight on and adds no run |
| DocxService.StepOtherTag | backend/services/docx_service.py:95-96 | any other token starting with `<` changes no flag and adds no run |
| DocxService.BoldSpellingsAgree | backend/services/docx_service.py:83-86 | `<b>`/`</b>` have exactly the effect of `<strong>`/`</strong>` on flags and runs |
| DocxService.PlainLineOneRun | backend/services/docx_service.py:73-105 | a line without `<` or `background-color` gives one unformatted run equal to the line, or none when it is empty |
| DocxService.NoTagLineIsPlain | backend/services/docx_service.py:73-105 | a line with no tag gives at most one run, and it is unformatted |
| DocxService.RichTextShowsStrippedLine | backend/services/docx_service.py:73-105 | when no text piece is dropped, the runs' texts concatenate to the line with its tags deleted |
| DocxService.PriceExample | backend/services/docx_service.py:83-105 | `<strong>Price</strong>: 100` gives `Price` in bold, then `: 100` unformatted |
| DocxService.BoldThenPlain | backend/services/docx_service.py:83-105 | text in `<strong>` followed by text gives a bold run, then an unformatted one |
| Markup.SplitSpec | backend/services/docx_service.py:73 | the split alternates text and tag pieces, starts and ends with text, and its pieces concatenate back to the line |
| Markup.StripTagsIsSplitText | backend/services/docx_service.py:25 | deleting tags leaves exactly the text pieces of the split, in order |
| Markup.StripTagsLeavesNoTag | backend/services/docx_service.py:25 | after deleting tags no tag is left |
| Markup.TagLenIsTag | backend/services/docx_service.py:73 | what the pattern matches at the start of a string is a tag: `<`, then at least one character other than `>`, then `>` |
| Markup.TagLenUnique | backend/services/docx_service.py:73 | that match is the only prefix of the string that is a tag |
| DocxService.CreateDocx | backend/services/docx_service.py:8-63 | a path is returned iff no line is a heading with no text; then the document is the title as a level-0 heading followed by the blocks of the lines in order, and the path is `DocxPath(location, title, filename)`; otherwise the document ends with the blocks up to and including the first such heading |
| DocxService.AddLines | backend/services/docx_service.py:17-45 | the loop adds the blocks of the lines in order and succeeds iff no line is a heading with no text; on failure it stops right after the first such heading |
| DocxService.SaveDocx | backend/services/docx_service.py:8-63 | what a caller gets: a path iff the content renders, and then exactly `DocxPath(location, title, filename)` |
| DocxService.EmptyHeadingIff | backend/services/docx_service.py:24-27 | a line makes `h.runs[0]` fail exactly when its block is a level-1 heading with empty text |
| DocxService.EmptyHeadingExample | backend/services/docx_service.py:24-27 | `<h2></h2>` is such a line |
| DocxService.FirstEmptyHeading | backend/services/docx_service.py:17-27 | the index of the first failing line: every earlier line succeeds and that line fails, or it is the number of lines |
| DocxService.FirstEmptyHeadingFound | backend/services/docx_service.py:17-27 | a first failing line exists iff some line fails |
| DocxService.SomeLineFailsIff | backend/services/docx_service.py:17-27 | the list fails iff some line in it is a heading with no text |
| DocxService.RenderFailsIff | backend/services/docx_service.py:17-27 | `create_docx` raises on a content iff one of its newline-separated lines is a heading with no text |
| DocxService.AddLine | backend/services/docx_service.py:18-45 | one line adds exactly its classified block, if any, at the end of the document; it reports failure iff the block is a heading with no text |
| DocxService.Document.AddHeading | backend/services/docx_service.py:12 | a heading is appended after the blocks already there |
| DocxService.Document.AddParagraph | backend/services/docx_service.py:35-45 | a paragraph with its runs is appended after the blocks already there |
| DocxService.Render | backend/services/docx_service.py:12-45 | the document starts with the title heading and has at most one block per line |
| DocxService.RenderInLineOrder | backend/services/docx_service.py:17-45 | blocks keep the order of their lines: content `a\nb` renders as `a`'s document followed by `b`'s blocks |
| DocxService.LineBlockShape | backend/services/docx_service.py:19-45 | only a non-blank line adds a block; headings have level 1 and no tag; bullet items have at most one unformatted run; plain paragraphs need text besides tags |
| DocxService.BlankLineAddsNothing | backend/services/docx_service.py:19-21 | a whitespace-only line adds no block |
| DocxService.MarkdownHeading | backend/services/docx_service.py:24-26 | `# t` becomes a level-1 heading reading `t` |
| DocxService.MarkdownBullet | backend/services/docx_service.py:33-36 | `- t` becomes a bullet paragraph with one unformatted run reading `t` |
| DocxService.HeadingExample | backend/services/docx_service.py:24-26 | `# Overview` is a heading reading `Overview` |
| DocxService.BulletExample | backend/services/docx_service.py:33-36 | `- Try the noodles` is a bullet item with one plain run |
| DocxService.SafeTitle | backend/services/docx_service.py:54 | a character is in the result iff it is in the title and is not one of `\/*?:"<>|` |
| DocxService.SafeTitleAppend | backend/services/docx_service.py:54 | cleaning works character by character: the cleaned `a + b` is the cleaned `a` followed by the cleaned `b` |
| DocxService.SafeTitleChar | backend/services/docx_service.py:54 | one character is kept iff it is not one of `\/*?:"<>|` |
| DocxService.DocxName | backend/services/docx_service.py:52-59 | the name ends in `.docx`; with no or an empty name it is exactly `{location}_{SafeTitle(title)}.docx`, the location unchanged; otherwise it starts with the given name |
| DocxService.DocxNameIdempotent | backend/services/docx_service.py:58-59 | a given name already ending in `.docx` is used exactly as given |
| DocxService.DocxNameAppendsExtension | backend/services/docx_service.py:58-59 | a given non-empty name not ending in `.docx` gets exactly `.docx` appended |
| PyStr.StripProperties | backend/services/docx_service.py:19 | a stripped line has no whitespace at either end, and stripping again changes nothing |
| PyStr.StripEmptyIff | backend/services/docx_service.py:19-21 | a line strips to nothing iff it is all whitespace |
| PyStr.SplitOnAppend | backend/services/docx_service.py:17 | splitting `a\nb` on newlines gives the lines of `a` then the lines of `b` |
| PyStr.RemoveAll | backend/services/docx_service.py:25 | deleting a pattern keeps only characters of the original and never lengthens it |
| PyStr.RemoveAllPrefix | backend/services/docx_service.py:25 | a leading occurrence of the pattern is deleted: `(pat + s)` with the pattern deleted is `s` with it deleted |
| PyStr.RemoveAllAbsent | backend/services/docx_service.py:25 | a string not containing the pattern is unchanged |
| PyStr.DecimalRoundTrip | backend/main.py:113 | `str(counter)` reads back as the counter |
| PyStr.DecimalInjective | backend/main.py:113 | different counters print differently |
| PosixPath.BasenameIsLastPart | backend/main.py:130 | the base name has no `/`, ends the path, and is the whole path or follows a `/` |
| PosixPath.BasenameOfJoin | backend/main.py:130 | the base name of a path joined under a directory is the file's own base name |
| PosixPath.BasenameOfJoinedTail | backend/main.py:130 | a path ending in a tail without `/` has as base name the base name of the rest followed by that tail |
| PosixPath.JoinInjective | backend/services/docx_service.py:61 | joining under `outputs` never maps two names to one path |
| Filenames.KeepFilenameCharsSpec | backend/main.py:108 | the filter keeps exactly the alphanumeric characters and space, `.`, `_`, `-` |
| Filenames.SanitizeSpec | backend/main.py:108 | a sanitised label holds only allowed characters and has no whitespace at its ends |
| Filenames.SanitizeIdempotent | backend/main.py:108 | sanitising twice gives what sanitising once gives |
| Filenames.SanitizeClean | backend/main.py:108 | an already clean label is kept verbatim |
| Filenames.BaseLabel | backend/main.py:108-109 | the label is never empty: `article` replaces an empty sanitised title |
| Filenames.CandidateInjective | backend/main.py:110-113 | different counters give different candidate names |
| Filenames.TriedBound | backend/main.py:112-114 | the counter never exceeds the number of names in use, so the loop ends |
| Filenames.FreeIndexSpec | backend/main.py:110-114 | the chosen counter's name is free, and every smaller counter's name was taken: it is the first free one |
| Filenames.FreeIndexIs | backend/main.py:110-114 | the first free counter is unique |
| Filenames.AllocateFresh | backend/main.py:110-116 | the name returned was not in use, and the next call, for any title, returns a different name |
| Filenames.AllocateShape | backend/main.py:110-113 | every name starts with `{location}_` (location unsanitised) and ends with `.docx` |
| Filenames.CandidateAfterLocation | backend/main.py:110-113 | with `/` not alphanumeric, every candidate is the location followed by a tail without `/` |
| Filenames.TokyoFoodExample | backend/main.py:107-116 | three calls for `Food` in `Tokyo` give `Tokyo_Food.docx`, `Tokyo_Food_1.docx`, `Tokyo_Food_2.docx` |
| GenerateContent.ContentRequest.GetUniqueFilename | backend/main.py:107-116 | returns `Allocate(old used, ...)`, adds exactly that name to the set, and changes nothing else |
| GenerateContent.ContentRequest.Visit | backend/main.py:121-133 | a visit succeeds iff the node's article renders; then it allocates a name, appends `outputs/<name>`, sets the node's link and appends the node's section: the state becomes `Process(old state, n)`; on failure only the allocated name has been added |
| GenerateContent.ContentRequest.Traverse | backend/main.py:118-137 | succeeds iff every article of the node's subtree renders; then the state becomes the old state with the subtree visited in pre-order |
| GenerateContent.ContentRequest.constructor | backend/main.py:100-105 | a request starts with no files, no links, no page and no names in use |
| GenerateContent.TraverseOutline | backend/main.py:139-140 | succeeds iff every article of the outline renders; then the roots are traversed in order and the result is the visit of the whole outline's pre-order |
| GenerateContent.ApiGenerateContent | backend/main.py:92-157 | status 500 iff some article of the outline fails to render, else 200 and: the page is the sections in pre-order; the links are keyed by exactly the node ids; one distinct file per node, named after its title; each node's link is its own file's unless a later node reuses its id; the archive lists every file under its base name, in order, at `outputs/{location}_guide.zip`, and no two entries share a name |
| GenerateContent.ArchiveEntries | backend/main.py:146-148 | one entry per file, in order, named by the file's base name |
| GenerateContent.ApiGenerateSingleContent | backend/main.py:67-89 | status 500 iff the article fails to render, else 200 with the node's wrapped article as page and `/outputs/` and the sanitised `{location}_{title}.docx` as link |
| GenerateContent.SingleNameUsed | backend/main.py:77-80 | the sanitised single-node name keeps `.docx`, so `create_docx` saves under exactly it, never its default name |
| GenerateContent.PreOrderAppend | backend/main.py:136-140 | each subtree is finished before the next sibling starts |
| GenerateContent.ProcessAllAppend | backend/main.py:136-140 | visiting `a + b` is visiting `a`, then `b` |
| GenerateContent.ProcessAllHtml | backend/main.py:133 | the page grows by each visited node's wrapped article, in visiting order |
| GenerateContent.ProcessAllKeepsFilesRegistered | backend/main.py:125-127 | the files stay pairwise distinct, each under a registered name |
| GenerateContent.ProcessAllFiles | backend/main.py:125-127 | one file per visited node, in order, named after the node's title; earlier files are untouched |
| GenerateContent.ProcessAllKeys | backend/main.py:130 | the links are keyed by exactly the earlier keys plus the visited nodes' ids |
| GenerateContent.IdsMember | backend/main.py:130 | an id has a link iff some visited node has it |
| GenerateContent.ProcessAllLinks | backend/main.py:130 | a node's link is its own file's `/outputs/` base name unless a later node reuses its id |
| GenerateContent.AllRenderIff | backend/main.py:118-140 | the traversal succeeds on a list of nodes iff every node's article renders |
| GenerateContent.AllRenderAppend | backend/main.py:136-140 | a traversal of `a + b` succeeds iff those of `a` and of `b` do |
| GenerateContent.NodeRenders | backend/main.py:118-137 | a subtree succeeds iff its root's article renders and all its children's subtrees do |
| GenerateContent.SubtreeRenders | backend/main.py:139-140 | if the whole outline succeeds, so does each root's subtree |
| GenerateContent.RequestFilesAndLinks | backend/main.py:125-130 | from an empty request, file i belongs to node i and each node's link points at its own file |
| GenerateContent.ArchiveNamesDistinct | backend/main.py:146-148 | for every location, even one holding `/`, no two archive entries share a name |
| GenerateContent.EmptyOutline | backend/main.py:139-154 | an empty outline visits nothing: empty page and no ids |

## Left out

- `generate_article` and the rest of the AI service are not part of this model.
  The article is the function parameter `gen`. The code never raises from it,
  so the model has no generation-failure path.
- Python's Unicode `str.isalnum` is the parameter `isAlnum`. Results that depend
  on particular characters state what they require of it.
- Python's regular-expression engine is replaced by hand-written functions for
  the one pattern used, `<[^>]+>`, in both split and substitution.
- File system effects are left out: `os.makedirs`, `document.save` and the zip
  bytes. The disk is represented by the returned path and by the list of
  `(file, archive name)` entries.
- Of the exceptions mapped to HTTP 500, only the one `create_docx` raises on a
  heading with no text is modelled. Failing file-system calls are not: the
  model has no disk.
- python-docx rejects text holding a character XML cannot carry, such as the
  control characters `\x0c` or `\x1c`: it raises `ValueError`, and the
  endpoints answer HTTP 500. The model renders such text as an ordinary run,
  so for such content it answers 200 where the code answers 500.
- `node_downloads` is a Python dict, so the JSON response lists its ids in
  pre-order of first appearance. The model's `map` has no order; it states
  only which ids are keys and which link each one holds.
- After a failure the partial state is not exposed: the documents already
  saved stay on disk in the code, and the model returns only status 500.
- python-docx presentation settings are left out: colours, `Pt(24)`, bold on
  section headings, highlight colour and line spacing 1.5. Only the structure
  is modelled: heading levels, paragraph styles and runs with their three flags.
- FastAPI routing, request/response schemas other than `OutlineNode`, and the
  other endpoints are not part of this model.
- GenerateContent.ApiGenerateContent: does not state the empty-outline case
  itself. `GenerateContent.EmptyOutline` gives it together with the method's
  other clauses: no sections, no ids, and so no files and no archive entries.
- GenerateContent.ApiGenerateSingleContent: the link is stated exactly only when
  `d`, `o`, `c`, `x` are alphanumeric and `/` is not, as `str.isalnum` says.
  Otherwise the contract gives only the page.
- GenerateContent.ApiGenerateContent: archive names are stated distinct only
  when `/` is not alphanumeric, as `str.isalnum` says.
- DocxService.RichTextShowsStrippedLine: holds only when no text piece between
  tags is dropped, which is the code's behaviour for text starting with `<`.
