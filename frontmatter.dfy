/** The per-file stream transformation of `processFile`: the heading, the
    optional `---`-delimited frontmatter block, the body and the trailing
    separator, produced by a small state machine fed one chunk at a time. */
module Frontmatter {
  import opened Wrappers
  import opened Text
  import opened Logging

  const Opening: string := "---\n"
  const Closing: string := "\n---\n"
  const Separator: string := "\n\n"

  /** The `date` key of a loaded mapping: absent or falsy, or a truthy value
      that `Date.parse` does or does not accept. */
  datatype DateField = NoDate | DateValue(parses: bool)

  /** What `yaml.load` makes of the frontmatter text, as far as validation
      looks at it: it throws, or gives a non-object, `null`, or an object
      (a mapping or an array). */
  datatype Yaml =
    | LoadError(message: string)
    | NonObject
    | Null
    | Object(date: DateField)

  /** The reason validation rejects a loaded value, or None when it passes. */
  function Validate(y: Yaml): (problem: Option<string>)
    ensures problem.None? <==> y.Object? && (y.date.DateValue? ==> y.date.parses)
  {
    match y
    case LoadError(message) => Some(message)
    case NonObject => Some("Frontmatter must be a valid YAML object")
    case Null => Some("Frontmatter must be a valid YAML object")
    case Object(NoDate) => None
    case Object(DateValue(parses)) =>
      if parses then None else Some("Invalid date format in frontmatter")
  }

  /** The heading written before a file's content. */
  function Heading(relativePath: string): string {
    "\n# " + relativePath + "\n\n"
  }

  /** How much of a file the parser has decided, given everything received. */
  datatype Phase =
    | Undecided           // nothing written yet; the text is still in the buffer
    | Passthrough         // no frontmatter: heading and text written, the rest forwarded
    | Closed(end: nat)    // frontmatter closed by the delimiter at index `end`

  function Classify(t: string): (p: Phase)
    ensures p.Closed? ==> StartsWith(t, Opening) && 4 <= p.end && MatchAt(t, Closing, p.end)
    ensures p.Closed? ==> forall j :: 4 <= j < p.end ==> !MatchAt(t, Closing, j)
    ensures p.Passthrough? <==> !StartsWith(t, Opening) && |t| > 3
    ensures p.Undecided? && StartsWith(t, Opening) ==> forall j :: 4 <= j ==> !MatchAt(t, Closing, j)
  {
    if StartsWith(t, Opening) then
      var e := IndexOf(t, Closing, 4);
      if e < 0 then Undecided else Closed(e)
    else if |t| > 3 then Passthrough
    else Undecided
  }

  /** The text written by the `data` events once `t` has been received. */
  function Emitted(relativePath: string, t: string): string {
    match Classify(t)
    case Undecided => ""
    case Passthrough => Heading(relativePath) + t
    case Closed(e) => Heading(relativePath) + Opening + t[4..e] + Closing + t[e + 4..]
  }

  /** The text written for a file whose whole content `t` was read: the `end`
      event flushes what is still undecided and adds the separator. */
  function Rendered(relativePath: string, t: string): string {
    (if Classify(t).Undecided? && t != "" then Heading(relativePath) + t
     else Emitted(relativePath, t))
    + Separator
  }

  function FrontmatterWarning(filePath: string, y: Yaml): seq<LogEvent> {
    match Validate(y)
    case None => []
    case Some(reason) => [LogEvent(Warn, "Invalid frontmatter in " + filePath + ": " + reason)]
  }

  /** The warnings logged once `t` has been received. */
  function Warnings(filePath: string, load: string -> Yaml, t: string): seq<LogEvent> {
    match Classify(t)
    case Closed(e) => FrontmatterWarning(filePath, load(t[4..e]))
    case _ => []
  }

  /** Once the parser has decided, more input changes neither the decision
      nor the warnings, and is forwarded unchanged: this is what makes the
      output independent of where the chunks are split. */
  lemma DecidedIsStable(relativePath: string, filePath: string, load: string -> Yaml, t: string, c: string)
    requires !Classify(t).Undecided?
    ensures Classify(t + c) == Classify(t)
    ensures Emitted(relativePath, t + c) == Emitted(relativePath, t) + c
    ensures Warnings(filePath, load, t + c) == Warnings(filePath, load, t)
  {
    assert |t| >= 4;
    assert (t + c)[..4] == t[..4];
    if StartsWith(t, Opening) {
      IndexOfExtend(t, c, Closing, 4);
      var e := IndexOf(t, Closing, 4);
      assert (t + c)[4..e] == t[4..e];
      assert (t + c)[e + 4..] == t[e + 4..] + c;
    } else {
      assert Heading(relativePath) + (t + c) == (Heading(relativePath) + t) + c;
    }
  }

  /** An empty file gets nothing but the separator: no heading. */
  lemma EmptyFileHasNoHeading(relativePath: string)
    ensures Rendered(relativePath, "") == Separator
  {
  }

  /** When no frontmatter block is closed (no opening line, a file of three
      characters or fewer, or an unterminated block) a non-empty file is
      written as its heading, its text verbatim and the separator. */
  lemma UnclosedIsVerbatim(relativePath: string, t: string)
    requires t != "" && !Classify(t).Closed?
    ensures Rendered(relativePath, t) == Heading(relativePath) + t + Separator
  {
  }

  /** For a closed block the file is written as its heading and its text,
      except that the newline ending the closing `---` line is written twice:
      the body is taken from `end + 4`, not `end + 5`. */
  lemma ClosedDoublesNewline(relativePath: string, t: string)
    requires Classify(t).Closed?
    ensures t[Classify(t).end + 4] == '\n'
    ensures Rendered(relativePath, t)
            == Heading(relativePath) + t[..Classify(t).end + 5] + t[Classify(t).end + 4..] + Separator
  {
    var e := Classify(t).end;
    var h, fm, rest := Heading(relativePath), t[4..e], t[e + 4..];
    RenderedClosed(relativePath, t);
    ThroughClosing(t, e);
    Regroup(h, Opening, fm, Closing, rest, Separator, t[..e + 5]);
  }

  /** The text up to and including a closing line at `e` of an opened block. */
  lemma ThroughClosing(t: string, e: nat)
    requires StartsWith(t, Opening) && 4 <= e && MatchAt(t, Closing, e)
    ensures t[e + 4] == '\n'
    ensures t[..e + 5] == Opening + t[4..e] + Closing
  {
    assert t[e..e + 5] == Closing;
    assert t[..e + 5] == t[..4] + t[4..e] + t[e..e + 5];
  }

  lemma Regroup(a: string, b: string, c: string, d: string, e: string, f: string, bcd: string)
    requires bcd == b + c + d
    ensures a + b + c + d + e + f == a + bcd + e + f
  {
  }

  /** The first closing line of `Opening + f + Closing + b` is the one after
      `f` when `f` holds no earlier one. */
  lemma ClosesAfter(f: string, b: string)
    requires IndexOf(f + Closing, Closing, 0) == |f|
    ensures Classify(Opening + f + Closing + b) == Closed(4 + |f|)
  {
    var s := (f + Closing) + b;
    IndexOfExtend(f + Closing, b, Closing, 0);
    ClosesWithin(s, |f|);
    Assoc(Opening, f, Closing, b);
  }

  lemma Assoc(a: string, b: string, c: string, d: string)
    ensures a + b + c + d == a + ((b + c) + d)
  {
  }

  lemma ClosesWithin(s: string, k: nat)
    requires IndexOf(s, Closing, 0) == k
    ensures Classify(Opening + s) == Closed(4 + k)
  {
    OpensBlock(s);
    IndexOfShift(Opening, s, Closing, 0);
    ClassifyClosedAt(Opening + s, 4 + k);
  }

  lemma OpensBlock(s: string)
    ensures StartsWith(Opening + s, Opening)
  {
    assert (Opening + s)[..4] == Opening;
  }

  lemma StartsWithExtend(s: string, c: string, p: string)
    requires StartsWith(s, p)
    ensures StartsWith(s + c, p)
  {
    assert (s + c)[..|p|] == s[..|p|];
  }

  lemma ClassifyClosedAt(t: string, e: nat)
    requires StartsWith(t, Opening) && IndexOf(t, Closing, 4) == e
    ensures Classify(t) == Closed(e)
  {
  }

  /** A file made of an opening line, frontmatter `f`, a closing line and a
      body `b`, where `f` holds no earlier closing line: `f` and `b` are
      reproduced verbatim, with one extra newline before the body. */
  lemma WellFormedBlock(relativePath: string, f: string, b: string)
    requires IndexOf(f + Closing, Closing, 0) == |f|
    ensures Rendered(relativePath, Opening + f + Closing + b)
            == Heading(relativePath) + Opening + f + Closing + ("\n" + b) + Separator
  {
    var t := Opening + f + Closing + b;
    ClosesAfter(f, b);
    RenderedClosed(relativePath, t);
    SplitAround(Opening, f, Closing, b);
    assert Closing[4..] == "\n";
  }

  lemma EmittedClosed(relativePath: string, t: string, e: nat)
    requires Classify(t) == Closed(e)
    ensures 4 <= e && e + 5 <= |t|
    ensures Emitted(relativePath, t) == Heading(relativePath) + Opening + t[4..e] + Closing + t[e + 4..]
  {
  }

  lemma RenderedClosed(relativePath: string, t: string)
    requires Classify(t).Closed?
    ensures Rendered(relativePath, t) == Heading(relativePath) + Opening + t[4..Classify(t).end]
                                         + Closing + t[Classify(t).end + 4..] + Separator
  {
  }

  lemma SplitAround(p: string, f: string, c: string, b: string)
    requires |p| == 4 && |c| == 5
    ensures (p + f + c + b)[4..4 + |f|] == f
    ensures (p + f + c + b)[4 + |f| + 4..] == c[4..] + b
  {
  }

  /** `---\n---\n` is not an empty block: the closing search starts at index
      4, past the newline that would begin the second line's delimiter, so
      the file is written as plain text. */
  lemma EmptyBlockIsNotClosed(relativePath: string)
    ensures Classify("---\n---\n").Undecided?
    ensures Rendered(relativePath, "---\n---\n") == Heading(relativePath) + "---\n---\n" + Separator
  {
  }

  /** A closed block whose frontmatter fails validation logs exactly one
      warning naming the file; nothing else logs. */
  lemma WarningIffInvalid(filePath: string, load: string -> Yaml, t: string)
    ensures |Warnings(filePath, load, t)| <= 1
    ensures Warnings(filePath, load, t) != [] <==>
              Classify(t).Closed? && Validate(load(t[4..Classify(t).end])).Some?
    ensures Warnings(filePath, load, t) != [] ==>
              Warnings(filePath, load, t)[0].level == Warn &&
              StartsWith(Warnings(filePath, load, t)[0].message, "Invalid frontmatter in " + filePath)
  {
    var w := Warnings(filePath, load, t);
    if w != [] {
      var e := Classify(t).end;
      var reason := Validate(load(t[4..e])).value;
      assert w[0].message == ("Invalid frontmatter in " + filePath) + (": " + reason);
    }
  }

  /** The closure state of one `processFile` call. */
  class StreamParser {
    const filePath: string
    const relativePath: string
    const load: string -> Yaml
    var buffer: string
    var inFrontmatter: bool
    var frontmatterProcessed: bool
    /** The pieces passed to `writeStream.write`, in order. */
    var written: seq<string>
    /** The warnings passed to the logger, in order. */
    var log: seq<LogEvent>
    /** Everything the read stream has delivered so far. */
    ghost var received: string
    /** Whether the `end` event has been handled. */
    ghost var ended: bool

    ghost predicate Valid()
      reads this
    {
      && frontmatterProcessed == !Classify(received).Undecided?
      && inFrontmatter == StartsWith(received, Opening)
      && buffer == (if frontmatterProcessed then "" else received)
      && (!frontmatterProcessed && !ended ==> written == [])
      && Concat(written) == (if ended then Rendered(relativePath, received)
                             else Emitted(relativePath, received))
      && log == Warnings(filePath, load, received)
    }

    /** The state inside a `data` event once the chunk is in the buffer and
        the opening line has been looked for, before anything is decided. */
    ghost predicate Pending()
      reads this
    {
      && !frontmatterProcessed && !ended
      && buffer == received
      && inFrontmatter == StartsWith(received, Opening)
      && written == [] && log == []
    }

    constructor (filePath: string, relativePath: string, load: string -> Yaml)
      ensures Valid() && !ended
      ensures this.filePath == filePath && this.relativePath == relativePath && this.load == load
      ensures received == "" && written == [] && log == []
    {
      this.filePath := filePath;
      this.relativePath := relativePath;
      this.load := load;
      buffer := "";
      inFrontmatter := false;
      frontmatterProcessed := false;
      written := [];
      log := [];
      received := "";
      ended := false;
    }

    /** One `writeStream.write` call. */
    method Write(s: string)
      modifies this`written
      ensures written == old(written) + [s]
      ensures Concat(written) == Concat(old(written)) + s
    {
      ConcatPush(written, s);
      written := written + [s];
    }

    /** The `data` event. */
    method Feed(chunk: string)
      requires Valid() && !ended
      modifies this
      ensures Valid() && !ended
      ensures received == old(received) + chunk
      ensures old(written) <= written && old(log) <= log
      ensures old(frontmatterProcessed) ==> written == old(written) + [chunk] && log == old(log)
    {
      if frontmatterProcessed {
        DecidedIsStable(relativePath, filePath, load, received, chunk);
        Write(chunk);
        received := received + chunk;
        return;
      }

      Accumulate(chunk);

      if inFrontmatter {
        var endIndex := IndexOf(buffer, Closing, 4);
        if endIndex != -1 {
          CloseFrontmatter(endIndex);
        }
      } else if |buffer| > 3 && !StartsWith(buffer, Opening) {
        StartBody();
      }
    }

    /** Appends the chunk to the buffer and enters frontmatter mode when the
        buffer starts with the opening line. */
    method Accumulate(chunk: string)
      requires Valid() && !ended && !frontmatterProcessed
      modifies this`buffer, this`received, this`inFrontmatter
      ensures Pending() && received == old(received) + chunk
      ensures Classify(received).Undecided? && StartsWith(received, Opening) ==> Valid()
      ensures !StartsWith(received, Opening) && |received| <= 3 ==> Valid()
    {
      if StartsWith(received, Opening) {
        StartsWithExtend(received, chunk, Opening);
      }
      buffer := buffer + chunk;
      received := received + chunk;
      if !inFrontmatter && StartsWith(buffer, Opening) {
        inFrontmatter := true;
      }
    }

    /** The closing line was found at `endIndex`: validate, write the heading,
        the block and the rest of the buffer, and forward from now on.  Both
        outcomes of validation write the same pieces. */
    method CloseFrontmatter(endIndex: int)
      requires Pending() && inFrontmatter && endIndex != -1
      requires endIndex == IndexOf(buffer, Closing, 4)
      modifies this`frontmatterProcessed, this`written, this`log, this`buffer
      ensures Valid() && !ended && received == old(received)
    {
      ClassifyClosedAt(buffer, endIndex);
      EmittedClosed(relativePath, buffer, endIndex);
      var frontmatterContent := buffer[4..endIndex];
      frontmatterProcessed := true;
      var problem := Validate(load(frontmatterContent));
      if problem.None? {
        WriteBlock(frontmatterContent, buffer[endIndex + 4..]);
      } else {
        log := log + [LogEvent(Warn, "Invalid frontmatter in " + filePath + ": " + problem.value)];
        WriteBlock(frontmatterContent, buffer[endIndex + 4..]);
      }
      assert written == [Heading(relativePath), Opening, frontmatterContent, Closing, buffer[endIndex + 4..]];
      ConcatFive(Heading(relativePath), Opening, frontmatterContent, Closing, buffer[endIndex + 4..]);
      buffer := "";
    }

    /** The writes shared by both outcomes of validation: heading, opening
        line, frontmatter, closing line, and what is left of the buffer. */
    method WriteBlock(frontmatterContent: string, remaining: string)
      modifies this`written
      ensures written == old(written) + [Heading(relativePath), Opening, frontmatterContent, Closing]
                         + (if remaining != "" then [remaining] else [])
    {
      Write(Heading(relativePath));
      Write(Opening);
      Write(frontmatterContent);
      Write(Closing);
      if remaining != "" { Write(remaining); }
    }

    /** More than three characters and no opening line: write the heading
        and the buffer, and forward from now on. */
    method StartBody()
      requires Pending() && !inFrontmatter && |buffer| > 3
      modifies this`frontmatterProcessed, this`written, this`buffer
      ensures Valid() && !ended && received == old(received)
    {
      frontmatterProcessed := true;
      Write(Heading(relativePath));
      Write(buffer);
      buffer := "";
    }

    /** The `end` event. */
    method Finish()
      requires Valid() && !ended
      modifies this
      ensures Valid() && ended
      ensures received == old(received) && log == old(log)
      ensures old(written) <= written
    {
      if !frontmatterProcessed && buffer != "" {
        Write(Heading(relativePath));
        Write(buffer);
      }
      Write(Separator);
      ended := true;
    }
  }

  /** What the read stream of one file delivers: its chunks, in order, then
      either the `end` event or an `error` event with its message. */
  datatype Source = Source(chunks: seq<string>, failure: Option<string>)

  /** `processFile`: streams one file through a fresh parser.  Whatever the
      split into chunks, the written text is a function of the whole content
      alone; a read error leaves what was written so far, without the
      separator, and is passed back to the caller. */
  method ParseFile(filePath: string, relativePath: string, load: string -> Yaml, source: Source)
    returns (writes: seq<string>, log: seq<LogEvent>, failure: Option<string>)
    ensures failure == source.failure
    ensures Concat(writes) == if failure.None? then Rendered(relativePath, Concat(source.chunks))
                              else Emitted(relativePath, Concat(source.chunks))
    ensures log == Warnings(filePath, load, Concat(source.chunks))
  {
    var parser := new StreamParser(filePath, relativePath, load);
    for i := 0 to |source.chunks|
      invariant parser.Valid() && !parser.ended
      invariant parser.received == Concat(source.chunks[..i])
    {
      assert source.chunks[..i + 1][..i] == source.chunks[..i];
      parser.Feed(source.chunks[i]);
    }
    assert source.chunks[..|source.chunks|] == source.chunks;
    if source.failure.None? {
      parser.Finish();
    }
    writes, log, failure := parser.written, parser.log, source.failure;
  }
}
