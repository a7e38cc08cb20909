/** `processVault`: a run over the configured folders.  The first pass
    collects every discovered file into an insertion-ordered map from file
    to folder; the second streams each file, in that order, onto the end of
    its folder's output file. */
module Processor {
  import opened Wrappers
  import opened Text
  import opened Paths
  import opened Logging
  import opened Discovery
  import opened Frontmatter
  import opened OrderedMaps

  /** The loaded configuration: the vault root, the folder specifiers and
      the output directory. */
  datatype Config = Config(vault: string, folders: seq<string>, output: string)

  /** What a run reads: the directory tree found at each folder root, and
      what the read stream of each file delivers. */
  datatype Vault = Vault(tree: string -> Listing, source: string -> Source)

  /** The value `processVault` resolves to. */
  datatype Summary = Summary(totalFiles: nat, processedFiles: nat)

  /** Output files, each with the blocks appended to it: one block per file
      streamed into it, holding that file's writes joined together. */
  type Outputs = map<string, seq<string>>

  function SourceDir(config: Config, folder: string): string {
    Join(config.vault, folder)
  }

  /** The output file of a folder: named after the whole specifier. */
  function OutputPath(config: Config, folder: string): string {
    Join(config.output, folder + ".md")
  }

  /** What discovery gives for each folder specifier: its files, or the
      message that made it fail. */
  type Discoveries = string -> Result<seq<string>, string>

  /** `findMarkdownFiles(path.join(vault, folder))`, for every folder. */
  function FolderFiles(config: Config, vault: Vault, leq: (string, string) -> bool): Discoveries {
    folder => Discover(SourceDir(config, folder), vault.tree(SourceDir(config, folder)), leq)
  }

  ghost predicate FoundBy(d: Discoveries, folder: string, p: string) {
    d(folder).Success? && p in d(folder).value
  }

  function Assign(files: seq<string>, folder: string): (pairs: seq<(string, string)>)
    ensures |pairs| == |files|
    ensures forall i :: 0 <= i < |files| ==> pairs[i] == (files[i], folder)
  {
    seq(|files|, i requires 0 <= i < |files| => (files[i], folder))
  }

  // ---------------------------------------------------------------------
  // First pass

  /** The `allFiles.set(file, folder)` calls one folder makes. */
  function Contribution(d: Discoveries, folder: string)
    : seq<(string, string)>
  {
    match d(folder)
    case Success(files) => Assign(files, folder)
    case Failure(_) => []
  }

  /** The `allFiles.set(file, folder)` calls of the first pass, in order. */
  function Found(d: Discoveries, folders: seq<string>)
    : seq<(string, string)>
  {
    if folders == [] then []
    else
      Found(d, folders[..|folders| - 1]) +
      Contribution(d, folders[|folders| - 1])
  }

  /** The warning one folder logs: one if its discovery failed. */
  function SkipWarningOf(d: Discoveries, folder: string)
    : seq<LogEvent>
  {
    match d(folder)
    case Success(_) => []
    case Failure(reason) => [LogEvent(Warn, "Skipping folder " + folder + ": " + reason)]
  }

  /** The warnings of the first pass. */
  function SkipWarnings(d: Discoveries, folders: seq<string>)
    : seq<LogEvent>
  {
    if folders == [] then []
    else
      SkipWarnings(d, folders[..|folders| - 1]) +
      SkipWarningOf(d, folders[|folders| - 1])
  }

  /** The `allFiles` map once the first pass is over. */
  function Collected(config: Config, vault: Vault, leq: (string, string) -> bool): (m: OrderedMap<string, string>)
    ensures m.Valid()
  {
    SetAll(Empty(), Found(FolderFiles(config, vault, leq), config.folders))
  }

  /** The first pass: discovery failures are isolated to their folder. */
  method CollectFiles(config: Config, vault: Vault, leq: (string, string) -> bool)
    returns (allFiles: OrderedMap<string, string>, log: seq<LogEvent>)
    ensures allFiles == Collected(config, vault, leq)
    ensures log == SkipWarnings(FolderFiles(config, vault, leq), config.folders)
  {
    allFiles, log := Empty(), [];
    for i := 0 to |config.folders|
      invariant allFiles == SetAll(Empty(), Found(FolderFiles(config, vault, leq), config.folders[..i]))
      invariant log == SkipWarnings(FolderFiles(config, vault, leq), config.folders[..i])
    {
      assert config.folders[..i + 1][..i] == config.folders[..i];
      SetAllAppend(Empty(), Found(FolderFiles(config, vault, leq), config.folders[..i]),
                   Contribution(FolderFiles(config, vault, leq), config.folders[i]));
      allFiles, log := CollectFolder(config, vault, leq, config.folders[i], allFiles, log);
    }
    assert config.folders[..|config.folders|] == config.folders;
  }

  /** One turn of the first pass. */
  method CollectFolder(config: Config, vault: Vault, leq: (string, string) -> bool, folder: string,
                       allFiles: OrderedMap<string, string>, log: seq<LogEvent>)
    returns (allFiles': OrderedMap<string, string>, log': seq<LogEvent>)
    requires allFiles.Valid()
    ensures allFiles' == SetAll(allFiles, Contribution(FolderFiles(config, vault, leq), folder))
    ensures log' == log + SkipWarningOf(FolderFiles(config, vault, leq), folder)
  {
    var sourceDir := Join(config.vault, folder);
    var files := FindMarkdownFiles(sourceDir, vault.tree(sourceDir), leq);
    assert files == FolderFiles(config, vault, leq)(folder) by {
      assert SourceDir(config, folder) == sourceDir;
    }
    if files.Success? {
      allFiles' := SetEach(allFiles, files.value, folder);
      log' := log;
    } else {
      allFiles' := allFiles;
      assert Contribution(FolderFiles(config, vault, leq), folder) == [];
      log' := log + [LogEvent(Warn, "Skipping folder " + folder + ": " + files.error)];
    }
  }

  /** `files.forEach((file) => allFiles.set(file, folder))`. */
  method SetEach(allFiles: OrderedMap<string, string>, files: seq<string>, folder: string)
    returns (m: OrderedMap<string, string>)
    requires allFiles.Valid()
    ensures m == SetAll(allFiles, Assign(files, folder))
  {
    m := allFiles;
    assert Assign(files[..0], folder) == [];
    for j := 0 to |files|
      invariant m == SetAll(allFiles, Assign(files[..j], folder))
    {
      var pairs := Assign(files[..j + 1], folder);
      assert pairs[..|pairs| - 1] == Assign(files[..j], folder);
      m := m.Set(files[j], folder);
    }
    assert files[..|files|] == files;
  }

  // ---------------------------------------------------------------------
  // Second pass

  /** `path.relative(sourceDir, file)`: the path shown in the file's heading. */
  function RelativePath(config: Config, folder: string, file: string): string {
    Relative(SourceDir(config, folder), file)
  }

  /** What one file contributes to its output: the rendering of its whole
      content, or, when the read fails, what was written before the error. */
  function FileText(config: Config, vault: Vault, file: string, folder: string): string {
    var source := vault.source(file);
    var rel := RelativePath(config, folder, file);
    if source.failure.None? then Rendered(rel, Concat(source.chunks))
    else Emitted(rel, Concat(source.chunks))
  }

  function ErrorEvent(file: string, message: string): LogEvent {
    LogEvent(Error, "Error processing " + file + ": " + message)
  }

  /** What processing one file logs: its frontmatter warning, if any, then
      the error that rejected it, if any. */
  function FileLog(vault: Vault, load: string -> Yaml, file: string): seq<LogEvent> {
    var source := vault.source(file);
    Warnings(file, load, Concat(source.chunks)) +
    (match source.failure
     case None => []
     case Some(message) => [ErrorEvent(file, message)])
  }

  /** The output files a run over `entries` opens. */
  function Targets(config: Config, entries: seq<(string, string)>): set<string> {
    if entries == [] then {}
    else Targets(config, entries[..|entries| - 1]) + {OutputPath(config, entries[|entries| - 1].1)}
  }

  /** The text each file contributes to its output, given its folder. */
  type Texts = (string, string) -> string

  function FileTexts(config: Config, vault: Vault): Texts {
    (file, folder) => FileText(config, vault, file, folder)
  }

  /** The blocks a run over `entries` appends to the output file `target`:
      the texts of the files assigned to it, in processing order. */
  function Blocks(config: Config, texts: Texts, entries: seq<(string, string)>, target: string): seq<string> {
    if entries == [] then []
    else
      var last := entries[|entries| - 1];
      Blocks(config, texts, entries[..|entries| - 1], target) +
      (if OutputPath(config, last.1) == target then [texts(last.0, last.1)] else [])
  }

  /** The files whose processing resolved. */
  function Succeeded(vault: Vault, entries: seq<(string, string)>): set<string> {
    if entries == [] then {}
    else
      var file := entries[|entries| - 1].0;
      Succeeded(vault, entries[..|entries| - 1]) + (if vault.source(file).failure.None? then {file} else {})
  }

  function ProcessLog(vault: Vault, load: string -> Yaml, entries: seq<(string, string)>): seq<LogEvent> {
    if entries == [] then []
    else ProcessLog(vault, load, entries[..|entries| - 1]) + FileLog(vault, load, entries[|entries| - 1].0)
  }

  /** The blocks an output file holds; a missing file holds none. */
  function Existing(outputs: Outputs, path: string): seq<string> {
    if path in outputs then outputs[path] else []
  }

  /** `block` written onto the end of `path`, which opening in append mode
      creates if it is missing. */
  function Append(outputs: Outputs, path: string, block: string): Outputs {
    outputs[path := Existing(outputs, path) + [block]]
  }

  /** The output files once the second pass over `entries` is done. */
  function Run(config: Config, texts: Texts, outputs: Outputs, entries: seq<(string, string)>): Outputs {
    if entries == [] then outputs
    else
      var last := entries[|entries| - 1];
      Append(Run(config, texts, outputs, entries[..|entries| - 1]), OutputPath(config, last.1), texts(last.0, last.1))
  }

  /** The second pass: `for (const [file, folder] of allFiles)`. */
  method ProcessFiles(config: Config, vault: Vault, load: string -> Yaml,
                      entries: seq<(string, string)>, outputs: Outputs)
    returns (after: Outputs, processed: set<string>, log: seq<LogEvent>)
    ensures after == Run(config, FileTexts(config, vault), outputs, entries)
    ensures processed == Succeeded(vault, entries)
    ensures log == ProcessLog(vault, load, entries)
  {
    after, processed, log := outputs, {}, [];
    for i := 0 to |entries|
      invariant after == Run(config, FileTexts(config, vault), outputs, entries[..i])
      invariant processed == Succeeded(vault, entries[..i])
      invariant log == ProcessLog(vault, load, entries[..i])
    {
      var file, folder := entries[i].0, entries[i].1;
      assert entries[..i + 1][..i] == entries[..i];
      var ok, fileLog;
      after, ok, fileLog := ProcessEntry(config, vault, load, file, folder, after);
      log := log + fileLog;
      if ok {
        processed := processed + {file};
      }
    }
    assert entries[..|entries|] == entries;
  }

  /** One turn of the second pass: open the folder's output in append mode,
      stream the file into it, and turn a rejection into an `error`.  The
      writes of one file form one block of its output. */
  method ProcessEntry(config: Config, vault: Vault, load: string -> Yaml, file: string, folder: string,
                      outputs: Outputs)
    returns (after: Outputs, ok: bool, log: seq<LogEvent>)
    ensures after == Append(outputs, OutputPath(config, folder), FileText(config, vault, file, folder))
    ensures ok <==> vault.source(file).failure.None?
    ensures log == FileLog(vault, load, file)
  {
    var outputPath := Join(config.output, folder + ".md");
    var relativePath := Relative(Join(config.vault, folder), file);
    var writes, failure;
    writes, log, failure := ParseFile(file, relativePath, load, vault.source(file));
    var existing := if outputPath in outputs then outputs[outputPath] else [];
    after := outputs[outputPath := existing + [Concat(writes)]];
    ok := failure.None?;
    if !ok {
      log := log + [ErrorEvent(file, failure.value)];
    }
  }

  /** The output files a run leaves are the ones it found and the targets of
      its files: one is created for every folder with a file, even one whose
      reading fails at once. */
  lemma {:induction false} RunOpens(config: Config, texts: Texts, outputs: Outputs, entries: seq<(string, string)>)
    ensures Run(config, texts, outputs, entries).Keys == outputs.Keys + Targets(config, entries)
  {
    if entries != [] {
      RunOpens(config, texts, outputs, entries[..|entries| - 1]);
    }
  }

  /** Append-only: every output file keeps the blocks it held and gains the
      blocks of its own files, in processing order, and nothing else. */
  lemma {:induction false} RunAppends(config: Config, texts: Texts, outputs: Outputs,
                                      entries: seq<(string, string)>, t: string)
    ensures Existing(Run(config, texts, outputs, entries), t) == Existing(outputs, t) + Blocks(config, texts, entries, t)
  {
    if entries == [] {
      assert Existing(outputs, t) + [] == Existing(outputs, t);
    } else {
      var prefix := entries[..|entries| - 1];
      var last := entries[|entries| - 1];
      RunAppends(config, texts, outputs, prefix, t);
      if OutputPath(config, last.1) == t {
        assert Existing(outputs, t) + Blocks(config, texts, prefix, t) + [texts(last.0, last.1)]
            == Existing(outputs, t) + (Blocks(config, texts, prefix, t) + [texts(last.0, last.1)]);
      } else {
        assert Blocks(config, texts, prefix, t) + [] == Blocks(config, texts, prefix, t);
      }
    }
  }

  /** A folder's output gains exactly the texts of its files, concatenated. */
  lemma OutputText(config: Config, texts: Texts, outputs: Outputs, entries: seq<(string, string)>, t: string)
    ensures Concat(Existing(Run(config, texts, outputs, entries), t))
            == Concat(Existing(outputs, t)) + Concat(Blocks(config, texts, entries, t))
  {
    RunAppends(config, texts, outputs, entries, t);
    ConcatAppend(Existing(outputs, t), Blocks(config, texts, entries, t));
  }

  // ---------------------------------------------------------------------
  // The run

  /** The three closing `info` lines. */
  function Statistics(config: Config, summary: Summary): seq<LogEvent> {
    [LogEvent(Info, "Processing complete"),
     LogEvent(Info, "Total folders processed: " + NatToString(|config.folders|)),
     LogEvent(Info, "Total files processed: " + NatToString(summary.processedFiles) + "/"
                    + NatToString(summary.totalFiles))]
  }

  /** `processVault`.  A configuration that failed to load rejects the run
      before anything is read or written. */
  method ProcessVault(loaded: Result<Config, string>, vault: Vault, load: string -> Yaml,
                      leq: (string, string) -> bool, outputs: Outputs)
    returns (result: Result<Summary, string>, after: Outputs, log: seq<LogEvent>)
    ensures loaded.Failure? ==> result == Failure(loaded.error) && after == outputs && log == []
    ensures loaded.Success? ==>
              var config := loaded.value;
              var entries := Collected(config, vault, leq).Entries();
              && result.Success?
              && result.value.totalFiles == |set p | p in KeysOf(Found(FolderFiles(config, vault, leq), config.folders))|
              && result.value.processedFiles == |Succeeded(vault, entries)|
              && result.value.processedFiles <= result.value.totalFiles
              && after == Run(config, FileTexts(config, vault), outputs, entries)
              && after.Keys == outputs.Keys + Targets(config, entries)
              && (forall t :: Existing(after, t) == Existing(outputs, t) + Blocks(config, FileTexts(config, vault), entries, t))
              && log == SkipWarnings(FolderFiles(config, vault, leq), config.folders) + ProcessLog(vault, load, entries)
                        + Statistics(config, result.value)
  {
    if loaded.Failure? {
      return Failure(loaded.error), outputs, [];
    }
    var config := loaded.value;
    var allFiles, skipLog := CollectFiles(config, vault, leq);
    var totalFiles := |allFiles.keys|;
    var entries := allFiles.Entries();
    var processed, processLog;
    after, processed, processLog := ProcessFiles(config, vault, load, entries, outputs);
    SetAllSize(Found(FolderFiles(config, vault, leq), config.folders));
    ErrorsAccountForUnprocessed(vault, load, entries);
    RunOpens(config, FileTexts(config, vault), outputs, entries);
    forall t {
      RunAppends(config, FileTexts(config, vault), outputs, entries, t);
    }
    var summary := Summary(totalFiles, |processed|);
    log := skipLog + processLog + Statistics(config, summary);
    result := Success(summary);
  }

  // ---------------------------------------------------------------------
  // Properties

  lemma WarningsAreNotErrors(filePath: string, load: string -> Yaml, t: string)
    ensures CountLevel(Warnings(filePath, load, t), Error) == 0
  {
    var w := Warnings(filePath, load, t);
    if w != [] {
      assert w[..0] == [];
    }
  }

  /** A file logs one error exactly when its processing is rejected. */
  lemma FileLogErrors(vault: Vault, load: string -> Yaml, file: string)
    ensures CountLevel(FileLog(vault, load, file), Error) == if vault.source(file).failure.None? then 0 else 1
  {
    var source := vault.source(file);
    WarningsAreNotErrors(file, load, Concat(source.chunks));
    var errors := match source.failure case None => [] case Some(m) => [ErrorEvent(file, m)];
    CountLevelAppend(Warnings(file, load, Concat(source.chunks)), errors, Error);
    if source.failure.Some? {
      assert errors[..0] == [];
    }
  }

  /** Only files of the run are counted as processed. */
  lemma {:induction false} SucceededAreEntries(vault: Vault, entries: seq<(string, string)>)
    ensures Succeeded(vault, entries) <= set f | f in KeysOf(entries)
  {
    if entries != [] {
      var n := |entries| - 1;
      SucceededAreEntries(vault, entries[..n]);
      assert KeysOf(entries) == KeysOf(entries[..n]) + [entries[n].0];
    }
  }

  /** Every file either resolves, and is counted as processed, or logs
      exactly one error; so the errors logged number `totalFiles -
      processedFiles`. */
  lemma {:induction false} ErrorsAccountForUnprocessed(vault: Vault, load: string -> Yaml,
                                                         entries: seq<(string, string)>)
    requires forall i, j :: 0 <= i < j < |entries| ==> entries[i].0 != entries[j].0
    ensures |Succeeded(vault, entries)| + CountLevel(ProcessLog(vault, load, entries), Error) == |entries|
  {
    if entries != [] {
      var prefix := entries[..|entries| - 1];
      ErrorsAccountForUnprocessed(vault, load, prefix);
      LastIsNew(entries);
      SucceededStep(vault, entries);
      ErrorsStep(vault, load, entries);
    }
  }

  lemma LastIsNew(entries: seq<(string, string)>)
    requires entries != []
    requires forall i, j :: 0 <= i < j < |entries| ==> entries[i].0 != entries[j].0
    ensures forall i, j :: 0 <= i < j < |entries| - 1 ==> entries[i].0 != entries[j].0
    ensures entries[|entries| - 1].0 !in KeysOf(entries[..|entries| - 1])
  {
    var n := |entries| - 1;
    forall i | 0 <= i < n ensures KeysOf(entries[..n])[i] != entries[n].0 {
      assert entries[..n][i] == entries[i];
    }
  }

  lemma SucceededStep(vault: Vault, entries: seq<(string, string)>)
    requires entries != []
    requires entries[|entries| - 1].0 !in KeysOf(entries[..|entries| - 1])
    ensures |Succeeded(vault, entries)| == |Succeeded(vault, entries[..|entries| - 1])|
              + if vault.source(entries[|entries| - 1].0).failure.None? then 1 else 0
  {
    SucceededAreEntries(vault, entries[..|entries| - 1]);
  }

  lemma ErrorsStep(vault: Vault, load: string -> Yaml, entries: seq<(string, string)>)
    requires entries != []
    ensures CountLevel(ProcessLog(vault, load, entries), Error) ==
              CountLevel(ProcessLog(vault, load, entries[..|entries| - 1]), Error)
              + if vault.source(entries[|entries| - 1].0).failure.None? then 0 else 1
  {
    var file := entries[|entries| - 1].0;
    FileLogErrors(vault, load, file);
    CountLevelAppend(ProcessLog(vault, load, entries[..|entries| - 1]), FileLog(vault, load, file), Error);
  }

  /** Setting one folder's files: each of them now maps to the folder, and
      every other key keeps its value. */
  lemma {:induction false} SetAllAssign(m: OrderedMap<string, string>, files: seq<string>, folder: string)
    requires m.Valid()
    ensures forall k :: k in SetAll(m, Assign(files, folder)).values <==> k in m.values || k in files
    ensures forall k :: k in files ==> SetAll(m, Assign(files, folder)).values[k] == folder
    ensures forall k :: k !in files && k in m.values ==> SetAll(m, Assign(files, folder)).values[k] == m.values[k]
  {
    if files != [] {
      var n := |files| - 1;
      SetAllAssign(m, files[..n], folder);
      var pairs := Assign(files, folder);
      assert pairs[..|pairs| - 1] == Assign(files[..n], folder);
      assert files == files[..n] + [files[n]];
    }
  }

  /** Folders contribute independently of each other. */
  lemma {:induction false} FoundAppend(d: Discoveries, a: seq<string>, b: seq<string>)
    ensures Found(d, a + b) == Found(d, a) + Found(d, b)
  {
    if b == [] {
      assert a + b == a;
    } else {
      var n := |b| - 1;
      calc {
        Found(d, a + b);
      == { assert (a + b)[..|a + b| - 1] == a + b[..n]; assert (a + b)[|a + b| - 1] == b[n]; }
        Found(d, a + b[..n]) + Contribution(d, b[n]);
      == { FoundAppend(d, a, b[..n]); }
        Found(d, a) + Found(d, b[..n]) + Contribution(d, b[n]);
      }
    }
  }

  lemma {:induction false} SkipWarningsAppend(d: Discoveries, a: seq<string>, b: seq<string>)
    ensures SkipWarnings(d, a + b) == SkipWarnings(d, a) + SkipWarnings(d, b)
  {
    if b == [] {
      assert a + b == a;
    } else {
      var n := |b| - 1;
      calc {
        SkipWarnings(d, a + b);
      == { assert (a + b)[..|a + b| - 1] == a + b[..n]; assert (a + b)[|a + b| - 1] == b[n]; }
        SkipWarnings(d, a + b[..n]) + SkipWarningOf(d, b[n]);
      == { SkipWarningsAppend(d, a, b[..n]); }
        SkipWarnings(d, a) + SkipWarnings(d, b[..n]) + SkipWarningOf(d, b[n]);
      }
    }
  }

  /** A folder whose discovery fails logs one warning and contributes no
      file; the other folders contribute what they would without it. */
  lemma SkippedFolderContributesNothing(d: Discoveries, a: seq<string>, folder: string, b: seq<string>)
    requires d(folder).Failure?
    ensures Found(d, a + [folder] + b) == Found(d, a + b)
    ensures SkipWarnings(d, a + [folder] + b) ==
              SkipWarnings(d, a)
              + [LogEvent(Warn, "Skipping folder " + folder + ": " + d(folder).error)]
              + SkipWarnings(d, b)
  {
    SkippedFolderFindsNothing(d, a, folder, b);
    SkippedFolderWarns(d, a, folder, b);
  }

  lemma SkippedFolderFindsNothing(d: Discoveries, a: seq<string>, folder: string, b: seq<string>)
    requires d(folder).Failure?
    ensures Found(d, a + [folder] + b) == Found(d, a + b)
  {
    var x, y := Found(d, a), Found(d, b);
    assert Found(d, [folder]) == [] by {
      assert [folder][..0] == [];
    }
    assert Found(d, a + [folder]) == x by {
      FoundAppend(d, a, [folder]);
    }
    assert Found(d, a + [folder] + b) == x + y by {
      FoundAppend(d, a + [folder], b);
    }
    FoundAppend(d, a, b);
  }

  lemma SkippedFolderWarns(d: Discoveries, a: seq<string>, folder: string, b: seq<string>)
    requires d(folder).Failure?
    ensures SkipWarnings(d, a + [folder] + b) ==
              SkipWarnings(d, a)
              + [LogEvent(Warn, "Skipping folder " + folder + ": " + d(folder).error)]
              + SkipWarnings(d, b)
  {
    SkipWarningsAppend(d, a + [folder], b);
    SkipWarningsAppend(d, a, [folder]);
    assert [folder][..0] == [];
  }

  /** `folders[i]` found `p` and no later folder did. */
  ghost predicate LastFinder(d: Discoveries, folders: seq<string>, i: int, p: string) {
    && 0 <= i < |folders|
    && FoundBy(d, folders[i], p)
    && forall j :: i < j < |folders| ==> !FoundBy(d, folders[j], p)
  }

  /** What the last folder changes in the map of the first pass. */
  lemma CollectLast(d: Discoveries, folders: seq<string>, p: string)
    requires folders != []
    ensures var n := |folders| - 1;
            var m := SetAll(Empty(), Found(d, folders[..n]));
            var r := SetAll(Empty(), Found(d, folders));
            && (p in r.values <==> p in m.values || FoundBy(d, folders[n], p))
            && (FoundBy(d, folders[n], p) ==> r.values[p] == folders[n])
            && (!FoundBy(d, folders[n], p) && p in m.values ==> r.values[p] == m.values[p])
  {
    var n := |folders| - 1;
    SetAllAppend(Empty(), Found(d, folders[..n]), Contribution(d, folders[n]));
    var m := SetAll(Empty(), Found(d, folders[..n]));
    match d(folders[n])
    case Success(files) => SetAllAssign(m, files, folders[n]);
    case Failure(_) =>
  }

  /** The first pass collects every file any folder found. */
  lemma {:induction false} CollectsEveryFoundFile(d: Discoveries, folders: seq<string>, i: nat, p: string)
    requires i < |folders| && FoundBy(d, folders[i], p)
    ensures p in SetAll(Empty(), Found(d, folders)).values
  {
    var n := |folders| - 1;
    var prefix := folders[..n];
    if i < n {
      assert prefix[i] == folders[i];
      CollectsEveryFoundFile(d, prefix, i, p);
    }
    CollectLast(d, folders, p);
  }

  /** A collected file is assigned to the last folder that found it: a path
      found under two folders belongs to the later one. */
  lemma {:induction false} AssignedToLastFinder(d: Discoveries, folders: seq<string>, p: string)
    requires p in SetAll(Empty(), Found(d, folders)).values
    ensures exists i :: LastFinder(d, folders, i, p)
                        && SetAll(Empty(), Found(d, folders)).values[p] == folders[i]
  {
    var n := |folders| - 1;
    var prefix := folders[..n];
    CollectLast(d, folders, p);
    if FoundBy(d, folders[n], p) {
      assert LastFinder(d, folders, n, p);
    } else {
      AssignedToLastFinder(d, prefix, p);
      var i :| LastFinder(d, prefix, i, p) && SetAll(Empty(), Found(d, prefix)).values[p] == prefix[i];
      LastFinderExtends(d, folders, i, p);
    }
  }

  lemma LastFinderExtends(d: Discoveries, folders: seq<string>, i: int, p: string)
    requires folders != []
    requires LastFinder(d, folders[..|folders| - 1], i, p)
    requires !FoundBy(d, folders[|folders| - 1], p)
    ensures LastFinder(d, folders, i, p)
  {
    var n := |folders| - 1;
    forall j | i < j < |folders| ensures !FoundBy(d, folders[j], p) {
      if j < n {
        assert folders[j] == folders[..n][j];
      }
    }
  }

  /** The heading of a collected file shows its path below the root of the
      folder it is assigned to. */
  lemma HeadingIsPathBelowFolder(config: Config, vault: Vault, leq: (string, string) -> bool, p: string)
    requires p in Collected(config, vault, leq).values
    ensures var folder := Collected(config, vault, leq).values[p];
            p == SourceDir(config, folder) + "/" + RelativePath(config, folder, p)
  {
    AssignedToLastFinder(FolderFiles(config, vault, leq), config.folders, p);
    var i :| LastFinder(FolderFiles(config, vault, leq), config.folders, i, p)
             && Collected(config, vault, leq).values[p] == config.folders[i];
    var dir := SourceDir(config, config.folders[i]);
    DiscoveredUnder(dir, vault.tree(dir), leq, p);
  }

  /** The output file of a nested folder is nested too: it is named after
      the whole specifier, not its last segment. */
  lemma NestedFolderOutput(vaultRoot: string, output: string)
    ensures OutputPath(Config(vaultRoot, ["PARA/2 Areas"], output), "PARA/2 Areas") == output + "/PARA/2 Areas.md"
    ensures OutputPath(Config(vaultRoot, ["PARA/2 Areas"], output), "PARA/2 Areas") != output + "/2 Areas.md"
  {
    var p := OutputPath(Config(vaultRoot, ["PARA/2 Areas"], output), "PARA/2 Areas");
    assert p[|output| + 1] == 'P';
    assert (output + "/2 Areas.md")[|output| + 1] == '2';
  }
}
