# vault-extractor processor, modelled in Dafny

This project models `src/processor.js` of vault-extractor. That program
gathers the markdown notes of selected folders of an Obsidian-style vault
into one output file per folder. A run has three parts, which map onto the
modules below:

- `findMarkdownFiles` walks a folder depth first. At every level it sorts
  the directory entries by name. It collects regular files named `*.md`.
  **Discovery** models this: a `Listing` tree stands in for what `readdir`
  returns, and a `leq` parameter stands in for `localeCompare`.
- `processFile` streams one note into its folder's output. It writes a
  `# <relative path>` heading, then the optional `---`-delimited frontmatter
  block, then the body, then a blank-line separator. A state machine inside
  the `data` event decides whether the note opens a frontmatter block and
  where that block closes, however the read stream splits the text into
  chunks. **Frontmatter** models this with a `StreamParser` class. The class
  has the closure's own variables (`buffer`, `inFrontmatter`,
  `frontmatterProcessed`) plus the writes and warnings it has produced. Its
  invariant ties that state to whole-text functions (`Classify`, `Emitted`,
  `Rendered`, `Warnings`) of everything received so far.
- `processVault` runs in two passes. The first pass collects the discovered
  files into a `Map` from file to folder. A folder that cannot be read logs a
  `warn` and contributes nothing. The second pass visits the map in
  iteration order. It appends each file to `<output>/<folder>.md`, turns a
  failure into an `error` line, and counts the successes. At the end it
  logs three `info` lines and returns `{totalFiles, processedFiles}`.
  **Processor** models this. **OrderedMaps** models the JavaScript `Map`
  with its insertion order.

Supporting modules:

- **Text**: `startsWith`, `endsWith`, `indexOf` and decimal rendering.
- **Paths**: `path.join` and `path.relative` for `/`-separated paths.
- **Logging**: the logger, as a sequence of levelled events.
- **Wrappers**: `Option` and `Result`.

Inputs and outputs that are not computation become parameters:

- `Vault.tree` gives the listing at each folder root.
- `Vault.source` gives the chunks each file's read stream delivers, plus the
  error it may end with.
- `load` gives the outcome of `yaml.load` and `Date.parse`.
- `outputs` holds the output files as they were before the run.
- `loaded` is the configuration as `loadConfig` produced it, or its error.

Some behaviour of the code is worth knowing, because part of it is
probably not intended. The model follows the code as written:

- An output file is named after the whole folder specifier. `PARA/2 Areas`
  writes `<output>/PARA/2 Areas.md`. It does not write `2 Areas.md`, the
  name taken from the specifier's last segment (`NestedFolderOutput`).
- A folder with no markdown files creates no output file and logs no
  warning (`RunOpens`).
- A closed frontmatter block is written the same way whether validation
  passes or fails; a failure only adds a warning. Both branches write the
  body from `endIndex + 4`, so the newline ending the closing `---` line is
  written twice (`ClosedDoublesNewline`, `WellFormedBlock`). The body is
  therefore not reproduced verbatim.
- The closing delimiter is searched for from index 4. So `---\n---\n` is not
  an empty block, and the file is written as plain text
  (`EmptyBlockIsNotClosed`).
- A directory that cannot be read anywhere below a folder root fails the
  whole folder, not only the folder root.
- A file found under two folders is processed once. It belongs to the later
  folder but keeps the position where it was first found
  (`AssignedToLastFinder`, `SetAllFirstSetOrder`).
- "Total folders processed" counts every configured folder, including
  skipped ones.
- Each file opens its folder's output in append mode, so a run adds to
  output files left by an earlier run.

## Model

| member | source | states |
|---|---|---|
| Discovery.FindMarkdownFiles | src/processor.js:8-22 | the result is the failure of the first `readdir` that throws, or else the markdown paths of the name-sorted, depth-first walk (`Discover`) |
| Discovery.VisitEntry | src/processor.js:13-18 | one loop turn: a directory's recursion either fails the whole walk or adds its files before the rest; a `.md` file adds its joined path; any other entry adds nothing |
| Discovery.Insert | src/processor.js:12 | inserting into the sorted prefix keeps every entry: the result is the old entries plus the new one, as a multiset |
| Discovery.SortByName | src/processor.js:12 | the sort is a permutation of the directory's entries |
| Discovery.InsertKeepsSorted | src/processor.js:12 | under a total preorder, inserting into a name-sorted sequence keeps it sorted |
| Discovery.SortByNameSorted | src/processor.js:12 | under a total preorder, the sort's result is ordered by name |
| Discovery.DiscoverFindsMarkdown | src/processor.js:14-18 | a successful discovery lists exactly the regular files named `*.md` at any depth below the directory; an order-free set definition is the reference |
| Discovery.WalkFindsMarkdown | src/processor.js:12-19 | the walk over any sub-sequence of a directory's entries finds exactly the reference set of those entries |
| Discovery.DiscoveredUnder | src/processor.js:13 | every discovered path starts with the directory and a separator |
| Discovery.SortedIsUnique | src/processor.js:12 | with a total, antisymmetric order and unique names, two name-sorted arrangements of the same entries are equal |
| Discovery.DiscoverIgnoresListingOrder | src/processor.js:10-12 | under those conditions, the order in which `readdir` enumerates the top directory does not change the result |
| Discovery.SameCanonicalSameDiscovery | src/processor.js:8-22 | the walk depends on the tree only through its canonical form, in which every directory at every depth is sorted by name; no assumption on the order is needed |
| Discovery.SameUpToOrderCanonical | src/processor.js:12 | two trees whose directories, at every depth, hold the same entries in different enumeration orders have the same canonical form, given a total, antisymmetric order and distinct names in each directory |
| Discovery.DiscoverIgnoresEnumerationOrder | src/processor.js:8-22 | under those conditions, the order in which `readdir` enumerates any directory, at any depth, does not change the result |
| Discovery.NestedReorder | src/processor.js:10 | swapping two files inside a subdirectory is such a difference in enumeration order |
| Discovery.NestedReorderIgnored | src/processor.js:10-15 | such a swap inside a subdirectory leaves the discovered files unchanged |
| Text.IndexOf | src/processor.js:48 | `indexOf` from a start index: -1 when the pattern occurs nowhere at or after it; otherwise a match at or after it with no earlier match |
| Text.IndexOfExtend | src/processor.js:48 | a match found in the buffer stays the first match when more text is appended |
| Text.IndexOfShift | src/processor.js:48 | searching past a prefix finds the match in the rest, shifted by the prefix length |
| Text.NatToString | src/processor.js:162-163 | a count renders as a non-empty string of decimal digits, with no leading zero, that denotes the count |
| Paths.Join | src/processor.js:13 | the joined path starts with the directory and a separator, and has the expected length |
| Paths.Relative | src/processor.js:148 | for a path below the base, base, separator and result rebuild the path; any other path comes back unchanged |
| Paths.RelativeOfJoin | src/processor.js:148 | the relative path of a joined path is the joined name |
| Frontmatter.Validate | src/processor.js:53-64 | validation passes exactly for an object whose `date`, if present and truthy, parses; a load error, a non-object and `null` are all rejected |
| Frontmatter.Classify | src/processor.js:42-49 | closed at `e` means the text opens with `---\n`, has `\n---\n` at `e` and none between index 4 and `e`; passthrough means no opening line and more than 3 characters; an opened but unclosed text has no closing line from index 4 on |
| Frontmatter.DecidedIsStable | src/processor.js:33-37 | once decided, more input changes neither the decision nor the warnings, and is forwarded unchanged; so the output does not depend on the chunking |
| Frontmatter.EmptyFileHasNoHeading | src/processor.js:97-105 | an empty file is written as the separator alone, with no heading |
| Frontmatter.UnclosedIsVerbatim | src/processor.js:88-105 | a non-empty file without a closed block is written as heading, text verbatim, separator |
| Frontmatter.ClosedDoublesNewline | src/processor.js:67-74 | for a closed block, the output is heading, text up to and including the closing line, the text again from that line's newline, then the separator |
| Frontmatter.ClosesAfter | src/processor.js:48 | the block closes at the first `\n---\n` after the frontmatter text, when that text holds no earlier one |
| Frontmatter.WellFormedBlock | src/processor.js:47-87 | a file `---\n` F `\n---\n` B, with no earlier closing line in F, is written as heading, the delimited F verbatim, a newline, B, separator |
| Frontmatter.EmptyBlockIsNotClosed | src/processor.js:48 | `---\n---\n` never closes and is written verbatim under its heading |
| Frontmatter.WarningIffInvalid | src/processor.js:53-84 | at most one warning; there is one exactly when a block closed and its frontmatter fails validation; it is at `warn` level and names the file |
| Frontmatter.StreamParser.constructor | src/processor.js:26-31 | a fresh parser has received nothing, written nothing, logged nothing, and satisfies its invariant |
| Frontmatter.StreamParser.Write | src/processor.js:67 | a write adds one piece, and the written text grows by exactly that piece |
| Frontmatter.StreamParser.Feed | src/processor.js:33-95 | a `data` event keeps the invariant, adds the chunk to what was received, only appends writes and warnings, and once decided forwards the chunk as one write |
| Frontmatter.StreamParser.Accumulate | src/processor.js:39-45 | the chunk joins the buffer, and frontmatter mode is on exactly when the buffer opens with `---\n` |
| Frontmatter.StreamParser.CloseFrontmatter | src/processor.js:48-87 | after the closing line is found, the parser is decided, has written the rendering of the text so far, and has logged the warning validation calls for |
| Frontmatter.StreamParser.WriteBlock | src/processor.js:66-74 | writes heading, `---\n`, the frontmatter, `\n---\n`, and the remaining text when it is non-empty, in that order |
| Frontmatter.StreamParser.StartBody | src/processor.js:88-94 | with no opening line and more than 3 characters, writes heading and buffer, and is then decided |
| Frontmatter.StreamParser.Finish | src/processor.js:97-105 | the `end` event leaves the written text equal to the whole-text rendering, separator included; it logs nothing |
| Frontmatter.ParseFile | src/processor.js:24-111 | for any chunking, the text written depends only on the whole content: its rendering when the stream ends, or what was decided before a read error (no separator), which is passed back; warnings likewise |
| OrderedMaps.OrderedMap.Set | src/processor.js:131 | `set` keeps the map valid and maps the key to the value; a present key keeps its place, a new key goes last |
| OrderedMaps.OrderedMap.Entries | src/processor.js:141 | iteration yields each key once, in order, with its value |
| OrderedMaps.SetAllAppend | src/processor.js:127-135 | setting two runs of pairs is setting the first run, then the second |
| OrderedMaps.SetAllKeys | src/processor.js:131 | after setting pairs into an empty map, exactly their keys are mapped |
| OrderedMaps.SetAllLastWins | src/processor.js:131 | a key maps to the value of the last pair that sets it |
| OrderedMaps.SetAllFirstSetOrder | src/processor.js:131 | keys iterate in the order in which each was first set |
| OrderedMaps.SetAllSize | src/processor.js:137 | the map's size is the number of distinct keys set |
| Processor.CollectFiles | src/processor.js:127-135 | the first pass builds the map by setting every discovered file of every folder, in folder order, and logs a warning for each folder whose discovery failed |
| Processor.CollectFolder | src/processor.js:128-134 | one folder either sets each of its files to itself, or logs `Skipping folder <folder>: <reason>` and changes nothing |
| Processor.SetEach | src/processor.js:131 | `forEach` sets each file to the folder, in order |
| Processor.SetAllAssign | src/processor.js:131 | after one folder's files are set, each maps to that folder; every other key keeps its value; no other key appears |
| Processor.FoundAppend | src/processor.js:127-135 | the folders' contributions are independent: a list of folders contributes what its parts contribute, concatenated |
| Processor.SkipWarningsAppend | src/processor.js:133 | the same holds for the skip warnings |
| Processor.SkippedFolderContributesNothing | src/processor.js:129-134 | an unreadable folder logs exactly one warning and contributes no file; the other folders contribute as they would without it |
| Processor.CollectsEveryFoundFile | src/processor.js:127-135 | every file any folder discovered is in the map |
| Processor.AssignedToLastFinder | src/processor.js:131 | a collected file maps to the last folder that found it |
| Processor.HeadingIsPathBelowFolder | src/processor.js:142-148 | a collected file's path is its folder's source directory, a separator, and the relative path its heading shows |
| Processor.ProcessEntry | src/processor.js:142-157 | one file's output gains one block: its text, as streamed by the parser; the file counts as processed exactly when its read did not fail; the log is its warnings plus `Error processing <file>: <message>` on failure |
| Processor.ProcessFiles | src/processor.js:141-158 | the second pass leaves the outputs equal to `Run`; it counts exactly the files that resolved; the log is each file's log, in order |
| Processor.RunOpens | src/processor.js:147 | after a run, the output files are those that existed plus the output of every folder with a file; nothing else is created |
| Processor.RunAppends | src/processor.js:147-150 | append only: each output keeps its old blocks and gains its own files' texts, in processing order, and nothing from another folder |
| Processor.OutputText | src/processor.js:147-150 | the text of each output is its old text followed by the texts of its files |
| Processor.WarningsAreNotErrors | src/processor.js:76 | frontmatter warnings are never at `error` level |
| Processor.FileLogErrors | src/processor.js:150-156 | a file logs one `error` line exactly when it is not processed, and none otherwise |
| Processor.SucceededAreEntries | src/processor.js:151 | only files of the run are counted as processed |
| Processor.ErrorsAccountForUnprocessed | src/processor.js:141-158 | with distinct files, the files processed plus the `error` lines logged equal the files visited |
| Processor.ProcessVault | src/processor.js:113-172 | a failed configuration load rejects with its error, writes nothing and logs nothing; otherwise `totalFiles` is the number of distinct discovered files and `processedFiles` the number that resolved (never more); the outputs grow as `Run` says; the log is skip warnings, file logs, then the three summary lines |
| Processor.NestedFolderOutput | src/processor.js:143 | a nested specifier's output is named after the whole specifier, not its last segment |

## Left out

- File system I/O is not modelled, and neither are promises or the ordering of asynchronous events. `Run` and `Blocks` assume that each file's text lands in its output whole and in processing order. The code opens a new append stream for every file and does not wait for the previous stream to finish. Under Node's stream semantics, a large file's queued writes can still be in flight when the next file's stream writes to the same output, so two files' texts can interleave. The model does not capture that interleaving. The tree each folder lists and the chunks each file delivers are inputs (`Vault`). The `data`, `end` and `error` events are handled one at a time, in the order the stream delivers them.
- Each output file is kept as a sequence of blocks, one per file streamed into it. A block holds that file's `writeStream.write` calls joined together. Within one file the individual writes are modelled by `StreamParser.written`.
- Errors that the write stream raises asynchronously are not modelled. An example is an output directory that does not exist for a nested specifier such as `PARA/2 Areas`. The code does not catch these errors. `writeStream.end()` and the flushing of buffered writes are not modelled either.
- The progress bar (`cli-progress`) only observes the run and never changes its result, so it is not modelled.
- `loadConfig` (`src/config.js`) is not part of this model. Its outcome is the input `loaded`: a failure rejects the run as in the code.
- `yaml.load` and `Date.parse` are not modelled. Their outcome for a frontmatter text is the parameter `load`, which gives a load error, a non-object, `null`, or an object whose `date` is absent, parsable or unparsable.
- `localeCompare` is the parameter `leq`. Properties that need an ordering assume a total preorder. Results about uniqueness also assume that `leq` is antisymmetric and that names are unique.
- `path.join` and `path.relative` are modelled as `/`-joining and prefix-stripping. Normalisation of `.`, `..`, repeated or trailing separators, and relative paths that climb out with `..` are not modelled.
- The logger's sinks, its timestamps and the CLI (`src/index.js`, `src/logger.js`) are not part of this model.
- Text is modelled as a sequence of characters. The UTF-8 decoding that the read stream performs is not modelled. JavaScript's `buffer.length > 3` counts UTF-16 code units, while `Classify` counts characters. For a text that opens with a character outside the Basic Multilingual Plane, the code decides on passthrough one character earlier than the model. The output differs only when a read error follows.
- Processor.ErrorsAccountForUnprocessed: requires the visited files to be distinct. The map's iteration provides this, and `ProcessVault` calls the lemma on it.
