# LLMLOG tools in Dafny

LLMLOG blocks are small self-delimited records embedded in ordinary text, in
markdown and in exported conversations. A block opens with a marker line
`LLMLOG/<major>.<minor> BEGIN <key=value header>`. Labelled `entry:`,
`mission:` and `outcome:` sections follow, and a line `LLMLOG/<version> END`
closes it. The repository ships four small Python tools around this format,
and this project models each of them and proves what it does:

- `tools/llmlog_parse.py`, the reference parser (module `LlmlogParse`).
  - `parse_kv` reads the header: whitespace tokens split at the first `=`,
    spelling and legacy aliases folded into `organisation`, tags normalised.
  - `extract_blocks` pairs each BEGIN line with the first END line after it.
  - `grab` pulls a labelled section out of a block's body.
- `tools/llmlog_parse_chatgpt.py`, the parser for conversation exports
  (module `LlmlogParseChatgpt`).
  - A non-overlapping BEGIN…END scan cuts the blocks out of the text.
  - `parse_begin_kvs` parses the header with the stricter `key=value` grammar.
  - `parse_body` removes fences and runs a line state machine that collects
    the three sections.
  - `records_from_conversation` builds one output row per block that parses.
- `tools/llmlog_validate.py`, the validator (module `LlmlogValidate`).
  - It counts BEGIN and END lines and checks the header keys.
  - It chooses the exit status 0, 1 or 2.
- `tools/llmlog_gen.py`, the generator (module `LlmlogGen`).
  - `norm` is a character-class substitution followed by lowercasing.
  - It builds the tag string from a set, and renders the BEGIN line and the
    fixed block layout.

Shared parts:

- `Text`: the ASCII `str` operations the tools use.
- `Tags`: the tag rule both parsers share. Split on `,`, strip, drop empty
  pieces, lowercase, keep the first occurrence.
- `Markers`: the marker-line grammar of the reference parser and the validator.
- `Roundtrip`: how the tools fit together. A generated block passes the
  validator, and the reference parser reads a generated block back as one
  record: the header into the generator's values, and each section into its
  stripped value, cleaned of quote characters at its ends.

The code that works step by step is written as methods with loops, each proved
equal to a specification function:

- the `seen`/`out` loop of `_normalise_tags`;
- the dictionary loop of `parse_kv`;
- the generator loop of `extract_blocks` with its linear END search;
- the `findall` loop of `parse_begin_kvs`;
- the line loop of `parse_body`;
- the try/continue loop of `records_from_conversation`.

The properties the tools promise are then lemmas about those functions.

Some behaviours of the code are easy to miss, and the two parsers do not
always agree. The model states each one as the code has it:

- **A BEGIN without its own END.** `extract_blocks` pairs every BEGIN line
  with the first END line after it, even across another BEGIN. A BEGIN left
  without its own END shares the next block's END, so such a document yields
  two records, and the first record's body runs across the second block
  (`LlmlogParse.SharedEnd`).
- **Blank lines in `grab`.** The lazy `(?:.+\n)*?` of the reference parser's
  `grab` cannot step over an empty line. A section with an empty line inside
  is lost and comes back as `""` (`LlmlogParse.GrabBlankLineLosesSection`).
  The export parser keeps interior blank lines
  (`LlmlogParseChatgpt.JoinKeepsInterior`).
- **`starship` kept.** `parse_kv` removes only the alias it moved into
  `organisation`. When `organization` supplied the value, a `starship` key
  stays in the record (`LlmlogParse.ResolveAliases`).
- **Two organisation rules.** `parse_kv` falls back to `starship` when
  neither spelling of `organisation` is given. The export path's `org_key`
  looks only at `organisation` and `organization`
  (`LlmlogParseChatgpt.OrgIgnoresStarship`).
- **Quote stripping.** Only the reference parser's `grab` strips quote
  characters from section lines; `parse_body` keeps them.
- **Fence removal.** Only `parse_body` removes a surrounding fence. For the
  reference parser a fence line is an ordinary line.

## Model

| member | source | states |
|---|---|---|
| Tags.Clean | tools/llmlog_parse.py:21 | the comprehension `[t.strip().lower() for t in pieces if t.strip()]` over a list of pieces; its shape and members are stated by `CleanShape` and `CleanMembers` |
| Tags.CleanPieces | tools/llmlog_parse.py:21 | the cleaned pieces of `s.split(',')`, in order, empty pieces dropped |
| Tags.NormalisedTags | tools/llmlog_parse.py:20-26 | what `_normalise_tags(s)` returns: the cleaned pieces at their first occurrence; `NormaliseTags` is proved equal to it, and `NormalisedTagsShape`, `NormalisedTagsMembers`, `NormalisedTagsOrder` and `NormaliseIdempotent` state its properties |
| Tags.NormaliseTags | tools/llmlog_parse.py:20-26 | `_normalise_tags` returns the comprehension's pieces passed through the first-occurrence filter `Dedupe` |
| Tags.KeepFirst | tools/llmlog_parse.py:22-25 | the `seen`/`out` loop yields exactly `Dedupe(tags)`, keeping `seen` equal to the set of kept tags |
| Tags.Dedupe | tools/llmlog_parse.py:22-25 | the kept list has exactly the input's elements and no element twice |
| Tags.DedupeOrder | tools/llmlog_parse.py:22-25 | kept elements appear in the order of their first occurrence in the input |
| Tags.CleanShape | tools/llmlog_parse.py:21 | every cleaned piece is non-empty, stripped, lowercase and comma-free |
| Tags.CleanMembers | tools/llmlog_parse.py:21 | a tag comes out of the comprehension exactly when some piece strips to a non-empty string that lowercases to it |
| Tags.NormalisedTagsShape | tools/llmlog_parse.py:20-26 | normalised tags are non-empty, stripped, lowercase, comma-free and pairwise distinct |
| Tags.NormalisedTagsMembers | tools/llmlog_parse.py:20-26 | a tag is in the result exactly when some piece of `s.split(',')` yields it |
| Tags.NormalisedTagsOrder | tools/llmlog_parse.py:20-26 | the result lists tags in the order of their first appearance among the cleaned pieces |
| Tags.NormaliseJoinFixed | tools/llmlog_parse.py:20-26 | a list of distinct clean tags joined with `,` normalises back to itself |
| Tags.NormaliseIdempotent | tools/llmlog_parse.py:20-26 | normalising `",".join(result)` gives the result again |
| Tags.FirstIndex | tools/llmlog_parse.py:23-25 | the first occurrence of a present element: in range, equal to it, and absent before |
| LlmlogParse.ParsedKv | tools/llmlog_parse.py:28-46 | what `parse_kv(s)` returns: the token bindings collected into a dict, then the alias and tags fix-ups; `ParseKv` is proved equal to it, and `ParsedKvPlainKey` and `ParsedKvOrganisation` state its keys and values |
| LlmlogParse.Collect | tools/llmlog_parse.py:31-35 | the dict the token loop fills, each binding in turn overwriting its key; `CollectKeys` and `CollectLastWins` state it, `CollectTokens` proves the loop equal to it |
| LlmlogParse.TokenSplit | tools/llmlog_parse.py:34 | `split("=", 1)` cuts at the first `=`: key, `=`, value rebuild the token; the key has no `=` while the value may |
| LlmlogParse.Bindings | tools/llmlog_parse.py:32-35 | one contribution per token, in order: the stripped key and value for a token with `=`, nothing otherwise |
| LlmlogParse.CollectKeys | tools/llmlog_parse.py:32-35 | a key is in the filled dictionary exactly when some token assigns it |
| LlmlogParse.CollectLastWins | tools/llmlog_parse.py:35 | the last token that assigns a key gives its value: later duplicates overwrite earlier ones |
| LlmlogParse.CollectTokens | tools/llmlog_parse.py:32-35 | the token loop fills exactly the dictionary `Collect` describes |
| LlmlogParse.ResolveAliases | tools/llmlog_parse.py:37-40 | `organisation` present: unchanged; else `organization` moved in (key removed, `starship` kept); else `starship` moved in; `organisation` present afterwards exactly when one of the three was; every other key kept |
| LlmlogParse.AsStrings | tools/llmlog_parse.py:31 | every dictionary value as a string, with the same keys |
| LlmlogParse.ResolveTags | tools/llmlog_parse.py:42-45 | when `tags or tag` is a non-empty string, `tags` becomes its normalised list and `tag` is removed; otherwise the dictionary is untouched; other keys never change |
| LlmlogParse.ParseKv | tools/llmlog_parse.py:28-46 | `parse_kv` equals the token loop followed by the alias and tag fix-ups |
| LlmlogParse.FixupsKeepPlainKey | tools/llmlog_parse.py:37-45 | the fix-ups leave every key other than the five alias and tag keys, and its value, alone |
| LlmlogParse.ParsedKvPlainKey | tools/llmlog_parse.py:28-46 | an ordinary key is in `parse_kv`'s result exactly when some token assigns it, with the last such token's value as a string |
| LlmlogParse.ParsedKvOrganisation | tools/llmlog_parse.py:37-40 | `organisation` is in the result exactly when some token assigns `organisation`, `organization` or `starship`: it is never invented |
| LlmlogParse.BindingOfPair | tools/llmlog_parse.py:33-35 | a whitespace-free `k=v` token with an `=`-free key binds `k` to `v` |
| LlmlogParse.LeadingEquals | tools/llmlog_parse.py:33-35 | a token that starts with `=` assigns the empty key |
| LlmlogParse.EmptyKey | tools/llmlog_parse.py:28-46 | a header `=v` parses to exactly the empty key bound to `v` |
| LlmlogParse.FixupsIgnoreEmptyKey | tools/llmlog_parse.py:37-45 | a dictionary holding only the empty key passes the fix-ups unchanged |
| LlmlogParse.GrabLines | tools/llmlog_parse.py:57-62 | `grab(label)` over the body's lines: `""` when the pattern matches no line, else the matched value lines cleaned, joined and stripped; `GrabValue`, `GrabMissing`, `GrabSection` and `GrabIndented` state it |
| LlmlogParse.Grab | tools/llmlog_parse.py:57-62 | `grab(label)` on the body text, split into lines at `\n` |
| LlmlogParse.WordRun | tools/llmlog_parse.py:58 | the maximal run of `\w` characters at the start of a line |
| LlmlogParse.SkipBlank | tools/llmlog_parse.py:58 | `\s*\n` after the label line skips every following all-whitespace line but never the last line |
| LlmlogParse.ValueEnd | tools/llmlog_parse.py:58 | the lazy `(?:.+\n)*?` stops at the first line where `(?=^\w+:\|\Z)` holds, crossing only non-empty lines |
| LlmlogParse.FindLabel | tools/llmlog_parse.py:58 | `re.search` finds a line where the whole pattern matches |
| LlmlogParse.FindLabelIsFirst | tools/llmlog_parse.py:58 | that line is the first where the pattern matches, and nothing is found only when no line matches |
| LlmlogParse.FindLabelAt | tools/llmlog_parse.py:58 | with no label line before `k` and a match at `k`, the search finds `k` |
| LlmlogParse.ValueEndAt | tools/llmlog_parse.py:58 | non-empty, non-`word:` lines up to a stopping line make the value end there |
| LlmlogParse.CleanLines | tools/llmlog_parse.py:61 | each value line is whitespace-stripped, then stripped of `“”"` |
| LlmlogParse.Terminated | tools/llmlog_parse.py:58 | the text of `(?:.+\n)*` ends in `\n` when it has a line |
| LlmlogParse.TerminatedJoin | tools/llmlog_parse.py:58-60 | the matched lines, each with its `\n`, are their `\n`-join plus a final `\n` |
| LlmlogParse.ValueLines | tools/llmlog_parse.py:60-61 | `strip("\n")` then `splitlines()` gives the matched lines back |
| LlmlogParse.GrabValue | tools/llmlog_parse.py:57-62 | `grab` is `""` without a matching label line; otherwise the cleaned lines from the first non-blank line after it up to the next `word:` line or the end, joined with `\n` and stripped |
| LlmlogParse.GrabValueAt | tools/llmlog_parse.py:58-62 | the value read after a label line whose content runs from line `q` to line `e` |
| LlmlogParse.GrabMissing | tools/llmlog_parse.py:59 | without a `name:` line, `grab` returns `""` |
| LlmlogParse.GrabSection | tools/llmlog_parse.py:57-62 | for a section laid out as intended, `grab` returns exactly its content lines, cleaned, joined and stripped; any `word:` line ends it, not only the three labels |
| LlmlogParse.GrabBlankLineLosesSection | tools/llmlog_parse.py:58-59 | an empty line inside the only section of a name makes `grab` return `""` |
| LlmlogParse.IsBeginLine | tools/llmlog_parse.py:17 | `BEGIN_RE` matches the line: a marker `LLMLOG/<d>.<d> BEGIN ` followed by at least one character, as `(?P<kv>.+)` needs; `MarkerLines` and `BeginIsNotEnd` state its relation to the other markers |
| LlmlogParse.BeginMatches | tools/llmlog_parse.py:49 | `BEGIN_RE.finditer` lists exactly the BEGIN lines, in line order |
| LlmlogParse.BeginMatchesMembers | tools/llmlog_parse.py:49 | a match is listed exactly when its line is a BEGIN line |
| LlmlogParse.EndLines | tools/llmlog_parse.py:50 | `END_RE.finditer` lists exactly the END lines, in increasing order |
| LlmlogParse.FirstEnd | tools/llmlog_parse.py:53 | the first END line at or after a line, or none when there is no END line there |
| LlmlogParse.FirstAfter | tools/llmlog_parse.py:53 | `next(...)` gives a listed END after the BEGIN line, or none when every listed END is at or before it |
| LlmlogParse.FindEnd | tools/llmlog_parse.py:53 | the linear scan over `ends` returns `FirstAfter` |
| LlmlogParse.FirstAfterLeast | tools/llmlog_parse.py:53 | over sorted END lines, the END found is the least one after the BEGIN |
| LlmlogParse.FirstAfterIsFirstEnd | tools/llmlog_parse.py:50-53 | over the text's END lines, `next(...)` is the first END line after the BEGIN line |
| LlmlogParse.OffsetOrder | tools/llmlog_parse.py:52-53 | `e.start() > b.end()` holds exactly when the END line comes after the BEGIN line |
| LlmlogParse.BodySlice | tools/llmlog_parse.py:56 | `text[b.end():e.start()]` is the `\n` ending the BEGIN line, then every line in between with its `\n` |
| LlmlogParse.BodyLines | tools/llmlog_parse.py:56-58 | the body's lines are an empty line, the lines between the markers, and an empty line |
| LlmlogParse.Pairs | tools/llmlog_parse.py:49-55 | the pairs `extract_blocks` forms on a text's lines, each valid; `PairsSpec` states exactly which they are and `PairsOrdered` their order |
| LlmlogParse.PairsOf | tools/llmlog_parse.py:51-55 | at most one pair per BEGIN match, each pairing it with `next(...)`'s END |
| LlmlogParse.PairsOfMembers | tools/llmlog_parse.py:51-55 | a pair is formed exactly for a BEGIN match with an END after it, with the first such END |
| LlmlogParse.PairsOfOrdered | tools/llmlog_parse.py:51 | pairs come in BEGIN order |
| LlmlogParse.PairsSpec | tools/llmlog_parse.py:49-55 | a pair is formed exactly for each BEGIN line of the text that has an END line after it, with the first such END |
| LlmlogParse.PairsOrdered | tools/llmlog_parse.py:51 | records come in the order of their BEGIN lines |
| LlmlogParse.SharedEnd | tools/llmlog_parse.py:53 | two BEGIN lines with no END between them are both paired with the first END after the second: ENDs are not consumed |
| LlmlogParse.PairedBefore | tools/llmlog_parse.py:53 | a BEGIN with no END line between it and END line `e` is paired with `e` |
| LlmlogParse.PairedWithFirstEnd | tools/llmlog_parse.py:53 | a BEGIN line is paired with the first END line after it |
| LlmlogParse.FirstAfterNone | tools/llmlog_parse.py:54-55 | when `next(...)` finds nothing, no END line follows the BEGIN, so the BEGIN yields nothing |
| LlmlogParse.RecordAt | tools/llmlog_parse.py:56-70 | the record a pair yields: `parse_kv` of the BEGIN group and the three `grab`s of the body slice, assembled; `BlockRecord` and `RecordIs` state it |
| LlmlogParse.Assemble | tools/llmlog_parse.py:64-70 | the record has the header's keys plus the four fixed ones; the three sections override header keys; `version` comes from the marker unless the header has one |
| LlmlogParse.BlockRecord | tools/llmlog_parse.py:56-70 | one record: `parse_kv` on the `kv` group and `grab` on `text[b.end():e.start()]`, assembled |
| LlmlogParse.Records | tools/llmlog_parse.py:48-70 | the records `extract_blocks(text)` yields; `ExtractBlocks` is proved equal to it, `RecordsOfAt` gives each record and `PairsSpec` which BEGIN lines yield one |
| LlmlogParse.PairUp | tools/llmlog_parse.py:51-70 | the loop over the BEGIN matches yields the records of exactly the formed pairs, in order |
| LlmlogParse.ExtractBlocks | tools/llmlog_parse.py:48-70 | `extract_blocks` yields one record per BEGIN line that has an END after it, in BEGIN order |
| LlmlogParse.RecordsOf | tools/llmlog_parse.py:51-70 | as many records as pairs |
| LlmlogParse.RecordsOfAt | tools/llmlog_parse.py:51-70 | record `i` is the record of pair `i`: one record per pair, in pair order |
| LlmlogParse.OneBlock | tools/llmlog_parse.py:49-55 | a text whose only BEGIN line comes before its only END line forms exactly that one pair and yields its record |
| LlmlogParse.BeginMatchesFrom | tools/llmlog_parse.py:49 | with one BEGIN line, `finditer` from line `j` on finds it exactly when `j` is not past it |
| LlmlogParse.EndLinesFrom | tools/llmlog_parse.py:50 | with one END line, the END matches from line `j` on are that line exactly when `j` is not past it |
| LlmlogParse.RecordIs | tools/llmlog_parse.py:63-70 | a record is assembled from the marker's version, `parse_kv` of the group and the three `grab` results |
| LlmlogParse.GrabIndented | tools/llmlog_parse.py:57-62 | `grab(name)` on a `name:` line, one indented stripped value line, then a `word:` line or the end, gives the value cleaned of quotes and stripped, and `""` for an empty value |
| LlmlogParseChatgpt.MarkerEnd | tools/llmlog_parse_chatgpt.py:22 | `LLMLOG/1\.0\s+<word>` at a position ends within the text, past the magic, a whitespace and the word |
| LlmlogParseChatgpt.FirstMarker | tools/llmlog_parse_chatgpt.py:22 | the first marker at or after a position is a marker there |
| LlmlogParseChatgpt.FirstMarkerIsFirst | tools/llmlog_parse_chatgpt.py:22 | no marker lies between the start and the one found |
| LlmlogParseChatgpt.FirstMarkerNone | tools/llmlog_parse_chatgpt.py:22 | when none is found, no marker occurs at or after the start |
| LlmlogParseChatgpt.RunStart | tools/llmlog_parse_chatgpt.py:22 | where the leading `\s*` of a leftmost match starts: all whitespace up to the marker, and leftmost |
| LlmlogParseChatgpt.NextSpan | tools/llmlog_parse_chatgpt.py:22 | the next match lies past the scan position, with its markers in order |
| LlmlogParseChatgpt.NextSpanIsBlock | tools/llmlog_parse_chatgpt.py:22 | the next match is whitespace, a BEGIN marker, text without an END marker, the first END marker and all trailing whitespace |
| LlmlogParseChatgpt.SpaceTail | tools/llmlog_parse_chatgpt.py:22 | the greedy `\s*` after `END` ends at the first non-whitespace character |
| LlmlogParseChatgpt.BlockSpans | tools/llmlog_parse_chatgpt.py:57-59 | every match lies within the text, after the scan position |
| LlmlogParseChatgpt.Blocks | tools/llmlog_parse_chatgpt.py:57-59 | the texts `extract_blocks_from_text` yields, one per `BLOCK_RE` match in order; `BlocksAreBlocks` states each one's shape and `Swallowed` that a nested BEGIN opens no block |
| LlmlogParseChatgpt.SpansDisjoint | tools/llmlog_parse_chatgpt.py:58 | the matches do not overlap: each ends before the next starts |
| LlmlogParseChatgpt.SpansAreBlocks | tools/llmlog_parse_chatgpt.py:22 | every match the scan reports has the shape of a `BLOCK_RE` match |
| LlmlogParseChatgpt.BlocksAreBlocks | tools/llmlog_parse_chatgpt.py:57-59 | each yielded block is the text of such a match |
| LlmlogParseChatgpt.Swallowed | tools/llmlog_parse_chatgpt.py:22 | a BEGIN between a block's BEGIN and its END opens no block of its own |
| LlmlogParseChatgpt.InsideOne | tools/llmlog_parse_chatgpt.py:58 | in non-overlapping matches, a position inside one is the BEGIN of none |
| LlmlogParseChatgpt.Unfence | tools/llmlog_parse_chatgpt.py:80-90 | the text `parse_body` goes on with after its fence handling with the fence marker `` ``` ``; `UnfenceFenced` states it |
| LlmlogParseChatgpt.Unwrap | tools/llmlog_parse_chatgpt.py:80-90 | that fence handling for a marker `f`: the block unchanged unless its stripped text starts with `f`, else its lines without the first and without a last line that starts with `f`, rejoined; `UnwrapFencedLines` and `UnwrapOf` state it |
| LlmlogParseChatgpt.UnfenceFenced | tools/llmlog_parse_chatgpt.py:80-88 | a block wrapped in a fence line and a closing fence loses exactly those two lines |
| LlmlogParseChatgpt.UnwrapFencedLines | tools/llmlog_parse_chatgpt.py:80-88 | the fence handling keeps the lines between the fences, rejoined with `\n` |
| LlmlogParseChatgpt.UnwrapOf | tools/llmlog_parse_chatgpt.py:82-88 | a stripped fenced text whose last line is a fence loses its first and last lines |
| LlmlogParseChatgpt.LineRun | tools/llmlog_parse_chatgpt.py:20 | `[^\n\r]+` takes the longest run without a line break |
| LlmlogParseChatgpt.KvsStart | tools/llmlog_parse_chatgpt.py:20 | the greedy `\s+` after `BEGIN` gives back characters until the `kvs` group can start on a non-break character |
| LlmlogParseChatgpt.BeginAt | tools/llmlog_parse_chatgpt.py:20 | a `BEGIN_RE` match at a position has its `kvs` group after the start and before the end |
| LlmlogParseChatgpt.SearchBegin | tools/llmlog_parse_chatgpt.py:93 | `BEGIN_RE.search` finds the first position where a match starts, or reports that none does |
| LlmlogParseChatgpt.IsEndLine | tools/llmlog_parse_chatgpt.py:21 | `END_RE.search(raw)` on one line: optional whitespace, `LLMLOG/1.0`, whitespace, `END`, then only whitespace; `StopAt` and `SectionIgnoresRest` state the loop's stop at it |
| LlmlogParseChatgpt.LabelOf | tools/llmlog_parse_chatgpt.py:107 | a stripped line that `LABEL_RE` matches is one of the three names and a colon |
| LlmlogParseChatgpt.KindOf | tools/llmlog_parse_chatgpt.py:105-110 | a line stops the loop, switches to one of the three sections, or is content |
| LlmlogParseChatgpt.StopAt | tools/llmlog_parse_chatgpt.py:105-106 | the loop breaks at the first END line |
| LlmlogParseChatgpt.Owner | tools/llmlog_parse_chatgpt.py:102-109 | `current` at a line is the name of some label line before it, or none |
| LlmlogParseChatgpt.Sections | tools/llmlog_parse_chatgpt.py:103 | the `sections` map has exactly the three names, each holding its section's lines |
| LlmlogParseChatgpt.CollectSections | tools/llmlog_parse_chatgpt.py:102-114 | the line loop collects exactly `Sections(lines)` |
| LlmlogParseChatgpt.SectionLoop | tools/llmlog_parse_chatgpt.py:102-114 | the loop ends with each section holding the dedented content lines its labels own before the first END line |
| LlmlogParseChatgpt.Visit | tools/llmlog_parse_chatgpt.py:104-114 | one line: stop exactly at the first END line, otherwise advance `current` and the sections by that line |
| LlmlogParseChatgpt.Step | tools/llmlog_parse_chatgpt.py:107-114 | a label line switches `current` and is not content; a content line goes to the current section, if there is one |
| LlmlogParseChatgpt.DedentLine | tools/llmlog_parse_chatgpt.py:113-114 | a content line as stored: one two-space indent removed when present, then `rstrip` |
| LlmlogParseChatgpt.SectionMembers | tools/llmlog_parse_chatgpt.py:104-114 | a section holds exactly the dedented content lines that one of its labels owns before the first END; label lines are never content, and lines before the first label belong nowhere |
| LlmlogParseChatgpt.SectionGrows | tools/llmlog_parse_chatgpt.py:103-114 | sections only grow: a repeated label appends to its section and never resets it |
| LlmlogParseChatgpt.NoLabelYet | tools/llmlog_parse_chatgpt.py:102-111 | before the first label line every section is empty |
| LlmlogParseChatgpt.SectionIgnoresRest | tools/llmlog_parse_chatgpt.py:105-106 | whatever follows the first END line changes no section |
| LlmlogParseChatgpt.DedentOnce | tools/llmlog_parse_chatgpt.py:113 | exactly one two-space indent is removed; a deeper indent keeps its extra spaces |
| LlmlogParseChatgpt.DedentUnindented | tools/llmlog_parse_chatgpt.py:113-114 | a line without the indent is only right-stripped |
| LlmlogParseChatgpt.JoinAll | tools/llmlog_parse_chatgpt.py:117 | each section is `\n`-joined and stripped, under the same keys |
| LlmlogParseChatgpt.Body | tools/llmlog_parse_chatgpt.py:103-117 | the body always has the three section keys |
| LlmlogParseChatgpt.JoinKeepsInterior | tools/llmlog_parse_chatgpt.py:117 | the final strip trims only the ends: interior blank lines are kept |
| LlmlogParseChatgpt.KeyRun | tools/llmlog_parse_chatgpt.py:23 | `[A-Za-z_-]*` takes the longest run of key characters |
| LlmlogParseChatgpt.KvAt | tools/llmlog_parse_chatgpt.py:23 | a `KV_RE` match has a key of the required shape and a non-empty whitespace-free value |
| LlmlogParseChatgpt.KvAtText | tools/llmlog_parse_chatgpt.py:23 | the text a match covers is `key=value` |
| LlmlogParseChatgpt.KvMatches | tools/llmlog_parse_chatgpt.py:63 | every pair `findall` returns has a key of the required shape and a non-empty whitespace-free value |
| LlmlogParseChatgpt.NoEqualsNoPairs | tools/llmlog_parse_chatgpt.py:63 | text without `=` yields no pair: bare words such as `IGNORE_META` contribute nothing |
| LlmlogParseChatgpt.BeginKvs | tools/llmlog_parse_chatgpt.py:61-73 | what `parse_begin_kvs` returns: the `KV_RE` pairs, the last of a key winning, with `tags` normalised; `ParseBeginKvs` is proved equal to it, and `BeginKvsKeys`, `BeginKvsKeyShape` and `BeginKvsLastWins` state it |
| LlmlogParseChatgpt.ParseBeginKvs | tools/llmlog_parse_chatgpt.py:61-73 | `parse_begin_kvs` equals the dictionary fold of the matches followed by the `tags` normalisation |
| LlmlogParseChatgpt.BeginKvsKeys | tools/llmlog_parse_chatgpt.py:62-64 | a key is present exactly when some match has it |
| LlmlogParseChatgpt.BeginKvsKeyShape | tools/llmlog_parse_chatgpt.py:63-64 | every key present has the shape `KV_RE` demands |
| LlmlogParseChatgpt.BeginKvsLastWins | tools/llmlog_parse_chatgpt.py:63-72 | the last match with a key gives its value: verbatim for every key but `tags` (`tag` included), normalised for `tags` |
| LlmlogParseChatgpt.ParsedBody | tools/llmlog_parse_chatgpt.py:75-118 | what `parse_body` returns or raises: `Err` without a BEGIN match, else the BEGIN text, its pairs and the three joined sections; `ParseBody` is proved equal to it and `ParsedBodyOutcome` states both outcomes |
| LlmlogParseChatgpt.ParseBody | tools/llmlog_parse_chatgpt.py:75-118 | `parse_body` removes fences, searches the BEGIN line, parses its pairs and runs the section loop, as `ParsedBody` states |
| LlmlogParseChatgpt.ParsedBodyOutcome | tools/llmlog_parse_chatgpt.py:93-103 | `parse_body` raises exactly when no position of the unfenced block starts a BEGIN match; otherwise the body has the three sections |
| LlmlogParseChatgpt.OrgKey | tools/llmlog_parse_chatgpt.py:129 | `org_key` is `organisation` when present, else `organization` when present, else `""` |
| LlmlogParseChatgpt.OrgIgnoresStarship | tools/llmlog_parse_chatgpt.py:129-130 | `org` and `org_key` are the same whatever `starship` holds |
| LlmlogParseChatgpt.RowOf | tools/llmlog_parse_chatgpt.py:128-143 | the row dict built for a parsed block: the conversation id and title, the organisation by `OrgKey`, `""` for missing keys, the tags rejoined with `,`, the three sections and the stripped BEGIN text |
| LlmlogParseChatgpt.Outcomes | tools/llmlog_parse_chatgpt.py:123-125 | `parse_body` is tried on every block, in order |
| LlmlogParseChatgpt.RowsOf | tools/llmlog_parse_chatgpt.py:123-144 | at most one row per block |
| LlmlogParseChatgpt.RecordsFromBlocks | tools/llmlog_parse_chatgpt.py:122-145 | the try/continue loop returns one row per block that parses, in order, and skips any block that raises |
| LlmlogParseChatgpt.Rows | tools/llmlog_parse_chatgpt.py:120-145 | the rows `records_from_conversation` returns for a list of blocks, at most one per block; `RecordsFromBlocks` is proved equal to it, `RowsSingle` and `RowsConcat` state it |
| LlmlogParseChatgpt.RowsOfStep | tools/llmlog_parse_chatgpt.py:124-144 | one more block adds its row when it parses and nothing when it raises |
| LlmlogParseChatgpt.RowsAppend | tools/llmlog_parse_chatgpt.py:123-127 | rows distribute over concatenation: a failing block stops nothing |
| LlmlogParseChatgpt.RowsConcat | tools/llmlog_parse_chatgpt.py:123-145 | the rows of two lists of blocks are the rows of each, one after the other |
| LlmlogParseChatgpt.RowsSingle | tools/llmlog_parse_chatgpt.py:124-144 | one block gives one row when it parses and none when it raises |
| Markers.BeginRest | tools/llmlog_validate.py:14 | the `(.*)` group of `^LLMLOG/\d+\.\d+ BEGIN (.*)$` on a line, or none when the line is no BEGIN marker; `MarkerLines` and `BeginLine` state it |
| Markers.IsEndLine | tools/llmlog_parse.py:18 | `^LLMLOG/\d+\.\d+ END\s*$` matches the line; `MarkerLines` and `EndIsNotBegin` state it |
| Markers.DigitRun | tools/llmlog_validate.py:14 | `\d+` takes the longest run of digits |
| Markers.VersionEnd | tools/llmlog_validate.py:14-15 | the `LLMLOG/\d+\.\d+` prefix ends within the line, at least ten characters in |
| Markers.VersionEndOf | tools/llmlog_validate.py:14-15 | any `digits.digits` version is accepted and read back whole |
| Markers.MarkerLines | tools/llmlog_validate.py:14-15 | a BEGIN line needs the space after `BEGIN` and keeps everything after it; an END line allows only trailing whitespace; a line not starting with `LLMLOG/` is no marker |
| Markers.BeginLine | tools/llmlog_validate.py:14 | the group of `LLMLOG/1.0 BEGIN <tail>` is `<tail>`, and its version is `1.0` |
| Markers.EndIsNotBegin | tools/llmlog_validate.py:14-15 | an END line is not a BEGIN line |
| Markers.BeginIsNotEnd | tools/llmlog_validate.py:14-15 | a BEGIN line is not an END line |
| LlmlogValidate.HasKeys | tools/llmlog_validate.py:16 | the key test on one BEGIN group: `project=`, `date=` and one spelling of `organisation=` occur in it; `KeysAreSubstrings` and `StarshipIsNotOrganisation` state it |
| LlmlogValidate.Passes | tools/llmlog_validate.py:14-17 | the pass condition: at least one BEGIN line, as many END lines as BEGIN lines, and every group keyed; `ExitCode` gives 0 exactly when it holds and one file is named, and `OrderIgnored` shows it ignores the order of parts |
| LlmlogValidate.BeginRests | tools/llmlog_validate.py:14 | `findall` returns at most one group per line |
| LlmlogValidate.EndCount | tools/llmlog_validate.py:15 | at most one END per line |
| LlmlogValidate.ExitCode | tools/llmlog_validate.py:10-21 | the exit status is 2 exactly for a wrong argument count, and 0 exactly for one file argument and a passing text; otherwise it is 1 |
| LlmlogValidate.LinesAppend | tools/llmlog_validate.py:14-15 | the BEGIN groups and END counts of two parts joined by a newline add up |
| LlmlogValidate.OrderIgnored | tools/llmlog_validate.py:14-17 | swapping two parts of a file never changes the verdict: order and pairing are not checked |
| LlmlogValidate.NoBeginFails | tools/llmlog_validate.py:17-21 | a file without any BEGIN line fails, even with no END line |
| LlmlogValidate.KeysAreSubstrings | tools/llmlog_validate.py:16 | the key test is a substring test, so a key inside a longer key (such as `subproject=`) satisfies it, as does `organization=` |
| LlmlogValidate.StarshipIsNotOrganisation | tools/llmlog_validate.py:16 | a header `project=p date=d starship=o` whose values hold neither `organisation=` nor `organization=` fails the key test |
| LlmlogValidate.NotInFields | tools/llmlog_validate.py:16 | an organisation key occurs in that header only inside one of its values |
| LlmlogValidate.AcrossSpace | tools/llmlog_validate.py:16 | an organisation key occurs in `a + " " + b` only inside `a` or inside `b` |
| LlmlogValidate.OnlyInValue | tools/llmlog_validate.py:16 | an organisation key occurs in `key=value`, with `key=` shorter than it, only inside the value, since its only `=` ends it |
| LlmlogGen.Norm | tools/llmlog_gen.py:3-4 | `norm` keeps the length of its input |
| LlmlogGen.NormChars | tools/llmlog_gen.py:3-4 | each character is lowered when it is in `[A-Za-z0-9._-]` and becomes `-` otherwise; every result character is in `[a-z0-9._-]` |
| LlmlogGen.NormFixed | tools/llmlog_gen.py:3-4 | a string is its own `norm` exactly when it is made of `[a-z0-9._-]` |
| LlmlogGen.NormIdempotent | tools/llmlog_gen.py:3-4 | `norm` is idempotent |
| LlmlogGen.NormNoSpace | tools/llmlog_gen.py:3-4 | `norm` never yields whitespace or a newline |
| LlmlogGen.Defaults | tools/llmlog_gen.py:6-12 | the argparse defaults when only the entry is given: project `tech-llm`, organisation `essencenetworks`, empty mission, outcome and tags, and the clock's date as a parameter; `DefaultRender` states what they print |
| LlmlogGen.DefaultsNormed | tools/llmlog_gen.py:4 | the default project and organisation are fixed points of `norm` |
| LlmlogGen.HeaderNoTags | tools/llmlog_gen.py:15-16 | with an empty tag string the header is exactly `project=<p> organisation=<o> date=<d> scope=meta IGNORE_META`, with no `tags=` |
| LlmlogGen.DefaultBeginLine | tools/llmlog_gen.py:15-16 | the default invocation's BEGIN line is `LLMLOG/1.0 BEGIN project=tech-llm organisation=essencenetworks date=<date> scope=meta IGNORE_META` |
| LlmlogGen.DefaultRender | tools/llmlog_gen.py:6-23 | `llmlog_gen.py "<entry>"` prints exactly the fence, that BEGIN line, `entry:` with the indented stripped entry, `mission:` and `outcome:` each with an indented empty line, the END line and the closing fence, for any entry |
| LlmlogGen.TagSet | tools/llmlog_gen.py:14 | the set comprehension over `a.tags.split(",")`; `TagSetMembers` and `TagSetClean` state its members |
| LlmlogGen.TagString | tools/llmlog_gen.py:14 | the tag string, `""` for an empty argument, else the set joined with `,` in iteration order `order`; `TagStringEmpty`, `TagStringTags` and `TagStringAgrees` state it |
| LlmlogGen.TagSetMembers | tools/llmlog_gen.py:14 | a tag is in the set exactly when some comma-separated piece strips to a non-empty string that lowercases to it |
| LlmlogGen.TagSetClean | tools/llmlog_gen.py:14 | every tag of the set is non-empty, stripped, lowercase and comma-free |
| LlmlogGen.EmptyTagSet | tools/llmlog_gen.py:14 | an empty `--tags` gives no tag |
| LlmlogGen.TagStringEmpty | tools/llmlog_gen.py:14 | the tag string is `""` exactly when the set is empty |
| LlmlogGen.TagStringTags | tools/llmlog_gen.py:14 | the tag string lists each tag of the set once, in the set's iteration order: normalising it gives that order back |
| LlmlogGen.TagStringAgrees | tools/llmlog_gen.py:14 | the generated tag string and the argument normalise to the same tags |
| LlmlogGen.TagStringNoSpace | tools/llmlog_gen.py:14 | a whitespace-free argument gives a whitespace-free tag string |
| LlmlogGen.TagStringNoNewline | tools/llmlog_gen.py:14 | a newline-free argument gives a newline-free tag string |
| LlmlogGen.TagStringAvoids | tools/llmlog_gen.py:14 | apart from lowercase letters and `,`, only characters of the argument appear in the tag string |
| LlmlogGen.HeaderText | tools/llmlog_gen.py:15-16 | the header after `BEGIN `: the fixed fields joined by single spaces, with ` tags=<string>` only for a non-empty tag string; `HeaderWords` and `HeaderSingle` state it |
| LlmlogGen.BeginLine | tools/llmlog_gen.py:15-16 | `begin`: `LLMLOG/1.0 BEGIN ` and the header of the `norm`ed project and organisation; `Roundtrip.LayoutMarkers` and `Roundtrip.GeneratedHeaderParses` state what the two parsers make of it |
| LlmlogGen.HeaderWords | tools/llmlog_gen.py:15-16 | splitting the header on whitespace gives its fields back: `project=`, `organisation=`, `date=`, `scope=meta`, `IGNORE_META`, then `tags=` only for a non-empty tag string |
| LlmlogGen.HeaderSingle | tools/llmlog_gen.py:15-16 | a header of newline-free values is one line |
| LlmlogGen.Layout | tools/llmlog_gen.py:17-23 | the block is ten lines |
| LlmlogGen.LayoutSingle | tools/llmlog_gen.py:17-23 | with newline-free values, no line of the layout holds a newline |
| LlmlogGen.BlockLines | tools/llmlog_gen.py:17-23 | the ten printed lines around the BEGIN line and the three stripped values |
| LlmlogGen.Render | tools/llmlog_gen.py:17-23 | what the script writes: each printed line followed by a newline; `RenderLines`, `Roundtrip.GeneratedBlockValidates` and `Roundtrip.GeneratedBlockParses` state it |
| LlmlogGen.PrintedLines | tools/llmlog_gen.py:17-23 | printing newline-free lines, each with a newline, gives text whose lines are the printed lines |
| LlmlogGen.RenderLines | tools/llmlog_gen.py:17-23 | with single-line values and tag string, the output is exactly the ten layout lines, fence, BEGIN line, labels with indented stripped values, END, fence, each ended by a newline |
| Roundtrip.LayoutMarkers | tools/llmlog_gen.py:17-23 | a rendered layout has one BEGIN line, whose group is the header, and one END line |
| Roundtrip.GeneratedHeaderHasKeys | tools/llmlog_gen.py:15 | the generated header holds `project=`, `date=` and `organisation=` |
| Roundtrip.GeneratedBlockValidates | tools/llmlog_gen.py:14-23 | a generated block passes the validator with exit status 0 when its values and its tag string hold no newline |
| Roundtrip.PassesWith | tools/llmlog_validate.py:14-17 | one BEGIN line whose group has the keys, plus one END line, passes |
| Roundtrip.HeaderBindingsOf | tools/llmlog_gen.py:15-16 | each token of a generated header binds its key to its value, and `IGNORE_META` binds nothing |
| Roundtrip.TokenAt | tools/llmlog_gen.py:15-16 | token `i` of a generated header binds what the header's binding list holds at `i` |
| Roundtrip.CollectHeader | tools/llmlog_parse.py:32-35 | the token loop over a generated header fills the project, organisation, date and scope, and the tags when present |
| Roundtrip.FixupsOnHeader | tools/llmlog_parse.py:37-45 | the fix-ups on a generated header change only the tag string, into its normalised list |
| Roundtrip.HeaderStripped | tools/llmlog_gen.py:15-16 | a generated header with whitespace-free values is already stripped |
| Roundtrip.HeaderParses | tools/llmlog_parse.py:28-46 | `parse_kv` of a generated header gives exactly the four values as strings, and the normalised tags when any were written |
| Roundtrip.GeneratedHeaderParses | tools/llmlog_gen.py:14-16 | the reference parser reads a generated header back: `norm`ed project and organisation, date, `scope=meta`, and the tags in the order they were written, for any date and tag string without whitespace |
| Roundtrip.GeneratedBlockParses | tools/llmlog_gen.py:14-23 | `extract_blocks` reads the generator's output as exactly one record: version `1.0`, the header read back as above, and entry, mission and outcome as `Reread` gives them, for newline-free values |
| Roundtrip.RereadPlain | tools/llmlog_parse.py:61-62 | a stripped value that neither starts nor ends with a quote character is read back unchanged, so such values survive the round trip exactly |
| Roundtrip.LayoutRecord | tools/llmlog_gen.py:17-23 | the ten layout lines with a single-line BEGIN header form one pair, whose record has the parsed header and the three cleaned values |
| Text.Split | tools/llmlog_parse.py:21 | `s.split(c)` is never empty, and no piece holds the separator |
| Text.JoinSplit | tools/llmlog_parse.py:21 | joining the pieces of a split with the separator gives the string back |
| Text.SplitJoin | tools/llmlog_parse.py:21 | splitting a join at a separator no part contains gives the parts back |
| Text.SplitAppend | tools/llmlog_validate.py:14-15 | splitting `a + c + b` at `c` splits `a` and `b` separately |
| Text.Words | tools/llmlog_parse.py:32 | `split()` gives non-empty whitespace-free words |
| Text.WordsJoin | tools/llmlog_parse.py:32 | `split()` of tokens joined by single spaces gives the tokens back |
| Text.LowerStr | tools/llmlog_parse.py:21 | `lower` maps each character and keeps the length |
| Text.StripShape | tools/llmlog_parse.py:21 | `strip` leaves a contiguous piece of its input with no whitespace at either end, and is empty exactly for an all-whitespace input |
| Text.StripIdempotent | tools/llmlog_parse.py:21 | `strip` is idempotent |
| Text.TrimLeft | tools/llmlog_parse.py:61 | `lstrip(chars)` drops the longest prefix of those characters |
| Text.TrimRight | tools/llmlog_parse.py:61 | `rstrip(chars)` drops the longest suffix of those characters |

## Left out

- Input and output: reading files and stdin, `print`, exit through
  `SystemExit`, and the JSON Lines, CSV and NDJSON writers. The tools' results
  are modelled as values: the records, the rows, the exit status, the printed
  text.
- Command-line parsing with `argparse` and `sys.argv`. The validator takes the
  argument list as a parameter; the generator takes an `Args` value.
- ZIP extraction, the search for `conversations.json`, `json.load` and the dict
  shape probing of `iter_conversations`. These are file-system and library
  work.
- `json.dumps` of a conversation before the scan, which is library code.
  `records_from_conversation` is modelled over the list of block strings the
  scan yields (`LlmlogParseChatgpt.RecordsFromBlocks`), with the conversation
  id and title as parameters. `parse_body` is therefore modelled on raw text
  with real line breaks, not on the text the export path passes it. That text
  is JSON, in which a line break inside a message is the two characters `\n`.
  On a real export the `[^\n\r]+` group of `BEGIN_RE` then runs to the end of
  the block, no line follows the BEGIN line, and every section comes back `""`.
- The clock that supplies the generator's default date. The date is an opaque
  string argument.
- Non-ASCII text. `strip`, `lower` and `isspace` are modelled on ASCII, with
  Python's ASCII whitespace.
- Line breaks other than `\n`. Lines are split at `\n` only, so `\r\n` and the
  other `splitlines` boundaries are not modelled. The one `\r` that matters,
  in `[^\n\r]` of the export parser's `BEGIN_RE`, is modelled.
- The regular-expression engine. Each pattern is replaced by a predicate or
  function that states what it matches; each such member's comment gives the
  pattern it stands for.
- LlmlogParseChatgpt.Blocks: the optional leading fence group
  `` (?:```.*?\n)? `` of `BLOCK_RE` is not modelled, and a match starts at the
  leading `\s*` before its BEGIN marker. The trailing `` (?:\n```)? `` is modelled
  by its effect: it never adds text, since `\s*` has already taken the `\n`.
- LlmlogGen.TagString: Python leaves the iteration order of the tag set
  unspecified. It is a parameter `order`, constrained to list each tag of the
  set once, so every property holds for every order.
- Dictionary insertion order. Headers and records are maps, so the key order
  of the emitted JSON is not modelled.
- The JSON value types of the reference parser's records. A value is either a
  string or the normalised tag list (`Tags.Value`).
- Roundtrip.GeneratedBlockParses: proved for the reference parser only. The
  export path (`records_from_conversation` on the generator's output) is not
  stated as a round trip; it would need the `BLOCK_RE` scan to be related to
  the line grammar, which the model keeps separate.
- Roundtrip.GeneratedBlockParses: proved only for newline-free section values
  and a date and tag string without whitespace. Whitespace inside a header
  value splits it into further tokens, and a newline in a section value adds
  lines that `grab` joins.
- Roundtrip.GeneratedBlockValidates: proved only for values without a newline.
  A newline in a value adds lines to the output, and those lines may hold
  further markers.
