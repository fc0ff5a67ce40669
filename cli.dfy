/** The command-line driver around the converter: parsing the argument
    vector, splicing a converted block back into the component file, what
    happens to one file, and the success / error / skipped tally over a
    directory tree. The file system, the console and the component-file
    parser are not modelled: what they would report is carried in the
    `FileRun` and `Entry` values. */
module Cli {
  import opened Util
  import Orchestrator

  // ---------------------------------------------------------------------
  // Arguments
  // ---------------------------------------------------------------------

  /** The parsed options. An option that was never given is `false` / `None`. */
  datatype CliOptions = CliOptions(filePath: Option<string>, write: bool, output: Option<string>,
                                   help: bool, recursive: bool)

  const NoOptions := CliOptions(None, false, None, false, false)

  predicate IsHelp(a: string) { a == "--help" || a == "-h" }
  predicate IsWrite(a: string) { a == "--write" || a == "-w" }
  predicate IsOutput(a: string) { a == "--output" || a == "-o" }
  predicate IsRecursive(a: string) { a == "--recursive" || a == "-r" }

  /** An argument that names the target: anything not starting with "-". */
  predicate IsPositional(a: string) { !StartsWith(a, "-") }

  /** How many arguments the scan consumes at the front of `rest`: two for
      an output option that has a value after it, otherwise one. */
  function Step(rest: seq<string>): (n: nat)
    requires |rest| > 0
    ensures 1 <= n <= |rest|
  {
    if IsOutput(rest[0]) && |rest| >= 2 then 2 else 1
  }

  /** The effect of the argument at the front of `rest`. An output option
      at the very end sets the output to undefined. */
  function Apply(rest: seq<string>, o: CliOptions): CliOptions
    requires |rest| > 0
  {
    var a := rest[0];
    if IsHelp(a) then o.(help := true)
    else if IsWrite(a) then o.(write := true)
    else if IsOutput(a) then o.(output := if |rest| >= 2 then Some(rest[1]) else None)
    else if IsRecursive(a) then o.(recursive := true)
    else if IsPositional(a) then o.(filePath := Some(a))
    else o
  }

  /** The options after scanning `rest`, starting from `o`. */
  function Scan(rest: seq<string>, o: CliOptions): CliOptions
    decreases |rest|
  {
    if |rest| == 0 then o else Scan(rest[Step(rest)..], Apply(rest, o))
  }

  /** The arguments from index `i` on (none once `i` is past the end). */
  function Tail(args: seq<string>, i: nat): seq<string> {
    if i <= |args| then args[i..] else []
  }

  /** `parseArgs`: the first two entries (the runtime and the script) are skipped. */
  function Parse(args: seq<string>): CliOptions {
    Scan(Tail(args, 2), NoOptions)
  }

  method ParseArgs(args: seq<string>) returns (options: CliOptions)
    ensures options == Parse(args)
  {
    options := NoOptions;
    var i := 2;
    while i < |args|
      invariant 2 <= i
      invariant Scan(Tail(args, i), options) == Parse(args)
      decreases |args| - i
    {
      ghost var rest := args[i..];
      var arg := args[i];
      if IsHelp(arg) {
        options := options.(help := true);
      } else if IsWrite(arg) {
        options := options.(write := true);
      } else if IsOutput(arg) {
        i := i + 1;
        options := options.(output := if i < |args| then Some(args[i]) else None);
      } else if IsRecursive(arg) {
        options := options.(recursive := true);
      } else if IsPositional(arg) {
        options := options.(filePath := Some(arg));
      }
      i := i + 1;
      assert Tail(args, i) == rest[Step(rest)..];
    }
  }

  /** The scan looks at index `k` of `rest` as an option (rather than
      consuming it as the value of an output option, or skipping past it). */
  predicate Visits(rest: seq<string>, k: int)
    decreases |rest|
  {
    0 <= k < |rest| &&
    (k == 0 || (k >= Step(rest) && Visits(rest[Step(rest)..], k - Step(rest))))
  }

  lemma VisitsStep(rest: seq<string>, k: int)
    requires |rest| > 0 && Step(rest) <= k
    ensures Visits(rest, k) <==> Visits(rest[Step(rest)..], k - Step(rest))
  {
  }

  datatype Flag = Help | Write | Recursive

  predicate Names(f: Flag, a: string) {
    match f
    case Help => IsHelp(a)
    case Write => IsWrite(a)
    case Recursive => IsRecursive(a)
  }

  function Get(o: CliOptions, f: Flag): bool {
    match f
    case Help => o.help
    case Write => o.write
    case Recursive => o.recursive
  }

  /** A boolean option ends up set exactly when it was set before or one of
      its two spellings is among the arguments the scan visits. */
  lemma {:induction false} FlagIffVisited(rest: seq<string>, o: CliOptions, f: Flag)
    ensures Get(Scan(rest, o), f) <==>
            Get(o, f) || exists k :: 0 <= k < |rest| && Visits(rest, k) && Names(f, rest[k])
    decreases |rest|
  {
    if |rest| > 0 {
      var s := Step(rest);
      var tail := rest[s..];
      var o' := Apply(rest, o);
      FlagIffVisited(tail, o', f);
      assert Get(o', f) <==> Get(o, f) || Names(f, rest[0]);
      assert Visits(rest, 0);
      if Get(Scan(rest, o), f) && !Get(o, f) && !Names(f, rest[0]) {
        var j :| 0 <= j < |tail| && Visits(tail, j) && Names(f, tail[j]);
        VisitsStep(rest, j + s);
        assert Visits(rest, j + s) && Names(f, rest[j + s]);
      }
      if exists k :: 0 <= k < |rest| && Visits(rest, k) && Names(f, rest[k]) {
        var k :| 0 <= k < |rest| && Visits(rest, k) && Names(f, rest[k]);
        if k > 0 {
          VisitsStep(rest, k);
          assert Visits(tail, k - s) && Names(f, tail[k - s]);
        }
      }
    }
  }

  /** The value after an output option is consumed: the scan never looks
      at it, so it is neither taken as the file path nor as a flag. */
  lemma {:induction false} OutputValueNeverVisited(rest: seq<string>, k: int)
    requires Visits(rest, k) && IsOutput(rest[k]) && k + 1 < |rest|
    ensures !Visits(rest, k + 1)
    decreases |rest|
  {
    var s := Step(rest);
    if k > 0 {
      VisitsStep(rest, k);
      OutputValueNeverVisited(rest[s..], k - s);
      VisitsStep(rest, k + 1);
    } else {
      assert s == 2;
    }
  }

  /** Without a visited positional argument the file path stays as it was. */
  lemma {:induction false} PathUnchanged(rest: seq<string>, o: CliOptions)
    requires forall k :: 0 <= k < |rest| && Visits(rest, k) ==> !IsPositional(rest[k])
    ensures Scan(rest, o).filePath == o.filePath
    decreases |rest|
  {
    if |rest| > 0 {
      var s := Step(rest);
      var tail := rest[s..];
      assert Visits(rest, 0);
      forall j | 0 <= j < |tail| && Visits(tail, j) ensures !IsPositional(tail[j]) {
        VisitsStep(rest, j + s);
      }
      PathUnchanged(tail, Apply(rest, o));
    }
  }

  /** The last visited positional argument is the file path. */
  lemma {:induction false} LastPathWins(rest: seq<string>, o: CliOptions, k: int)
    requires 0 <= k < |rest| && Visits(rest, k) && IsPositional(rest[k])
    requires forall j :: k < j < |rest| && Visits(rest, j) ==> !IsPositional(rest[j])
    ensures Scan(rest, o).filePath == Some(rest[k])
    decreases |rest|
  {
    var s := Step(rest);
    var tail := rest[s..];
    forall j | k - s < j < |tail| && Visits(tail, j) ensures !IsPositional(tail[j]) {
      VisitsStep(rest, j + s);
    }
    if k == 0 {
      assert !IsOutput(rest[0]) && s == 1;
      PathUnchanged(tail, Apply(rest, o));
    } else {
      VisitsStep(rest, k);
      LastPathWins(tail, Apply(rest, o), k - s);
    }
  }

  /** The last visited output option decides the output: the argument after
      it, or undefined when it is the last argument. */
  lemma {:induction false} LastOutputWins(rest: seq<string>, o: CliOptions, k: int)
    requires 0 <= k < |rest| && Visits(rest, k) && IsOutput(rest[k])
    requires forall j :: k < j < |rest| && Visits(rest, j) ==> !IsOutput(rest[j])
    ensures Scan(rest, o).output == if k + 1 < |rest| then Some(rest[k + 1]) else None
    decreases |rest|
  {
    var s := Step(rest);
    var tail := rest[s..];
    forall j | k - s < j < |tail| && Visits(tail, j) ensures !IsOutput(tail[j]) {
      VisitsStep(rest, j + s);
    }
    if k == 0 {
      OutputUnchanged(tail, Apply(rest, o));
    } else {
      VisitsStep(rest, k);
      LastOutputWins(tail, Apply(rest, o), k - s);
    }
  }

  /** Without a visited output option the output stays as it was. */
  lemma {:induction false} OutputUnchanged(rest: seq<string>, o: CliOptions)
    requires forall k :: 0 <= k < |rest| && Visits(rest, k) ==> !IsOutput(rest[k])
    ensures Scan(rest, o).output == o.output
    decreases |rest|
  {
    if |rest| > 0 {
      var s := Step(rest);
      var tail := rest[s..];
      assert Visits(rest, 0);
      forall j | 0 <= j < |tail| && Visits(tail, j) ensures !IsOutput(tail[j]) {
        VisitsStep(rest, j + s);
      }
      OutputUnchanged(tail, Apply(rest, o));
    }
  }

  /** The runtime and script entries never influence the result. */
  lemma ProgramArgumentsIgnored(args: seq<string>, runtime: string, script: string)
    requires |args| >= 2
    ensures Parse(args) == Parse([runtime, script] + args[2..])
  {
    assert ([runtime, script] + args[2..])[2..] == args[2..];
  }

  // ---------------------------------------------------------------------
  // Splicing the converted block into the component file
  // ---------------------------------------------------------------------

  const OpenTagStart := "<script"

  /** The pattern `<script[^>]*>` matches at `i`: "<script" starts there and
      a ">" follows somewhere after it. */
  predicate OpenTagAt(s: string, i: nat) {
    OccursAt(s, OpenTagStart, i) && exists j :: i + 7 <= j < |s| && s[j] == '>'
  }

  /** The first match of `<script[^>]*>` at or after `from`. */
  function FindOpenTag(s: string, from: nat): (r: Option<nat>)
    ensures r.Some? ==> from <= r.value && OpenTagAt(s, r.value) &&
                        forall i: nat :: from <= i < r.value ==> !OpenTagAt(s, i)
    ensures r.None? ==> forall i: nat :: from <= i ==> !OpenTagAt(s, i)
    decreases |s| - from
  {
    if from + 7 > |s| then None
    else if OpenTagAt(s, from) then Some(from)
    else FindOpenTag(s, from + 1)
  }

  /** The first occurrence of `</script>` at or after `from`. */
  function FindCloseTag(s: string, from: nat): (r: Option<nat>)
    ensures r.Some? ==> from <= r.value && OccursAt(s, Orchestrator.CloseTag, r.value) &&
                        forall i: nat :: from <= i < r.value ==> !OccursAt(s, Orchestrator.CloseTag, i)
    ensures r.None? ==> forall i: nat :: from <= i ==> !OccursAt(s, Orchestrator.CloseTag, i)
    decreases |s| - from
  {
    if from + 9 > |s| then None
    else if OccursAt(s, Orchestrator.CloseTag, from) then Some(from)
    else FindCloseTag(s, from + 1)
  }

  /** `replaceScriptSection`: the text from the first opening script tag to
      the end of the first closing script tag is replaced by `newScript`.
      `hasScript` is whether the component-file parser found a plain script
      block. */
  function ReplaceScriptSection(content: string, hasScript: bool, newScript: string): string {
    if !hasScript then content
    else
      match (FindOpenTag(content, 0), FindCloseTag(content, 0))
      case (Some(start), Some(end)) => content[..start] + newScript + content[end + 9..]
      case _ => content
  }

  /** Without a script block, or without either tag, the content is returned
      unchanged; otherwise everything before the first opening tag and after
      the first closing tag is kept around the new block. */
  lemma SpliceCases(content: string, hasScript: bool, newScript: string)
    ensures !hasScript ==> ReplaceScriptSection(content, hasScript, newScript) == content
    ensures (forall i: nat :: !OpenTagAt(content, i)) ==>
              ReplaceScriptSection(content, hasScript, newScript) == content
    ensures (forall i: nat :: !OccursAt(content, Orchestrator.CloseTag, i)) ==>
              ReplaceScriptSection(content, hasScript, newScript) == content
    ensures forall start: nat, end: nat ::
              hasScript && OpenTagAt(content, start) && OccursAt(content, Orchestrator.CloseTag, end) &&
              (forall i: nat :: i < start ==> !OpenTagAt(content, i)) &&
              (forall i: nat :: i < end ==> !OccursAt(content, Orchestrator.CloseTag, i)) ==>
                ReplaceScriptSection(content, hasScript, newScript) ==
                  content[..start] + newScript + content[end + 9..]
  {
    forall start: nat, end: nat |
      hasScript && OpenTagAt(content, start) && OccursAt(content, Orchestrator.CloseTag, end) &&
      (forall i: nat :: i < start ==> !OpenTagAt(content, i)) &&
      (forall i: nat :: i < end ==> !OccursAt(content, Orchestrator.CloseTag, i))
      ensures ReplaceScriptSection(content, hasScript, newScript) == content[..start] + newScript + content[end + 9..]
    {
      FirstOpenTagIs(content, start);
      FirstCloseTagIs(content, end);
    }
  }

  lemma FirstOpenTagIs(s: string, x: nat)
    requires OpenTagAt(s, x) && forall i: nat :: i < x ==> !OpenTagAt(s, i)
    ensures FindOpenTag(s, 0) == Some(x)
  {
  }

  lemma FirstCloseTagIs(s: string, x: nat)
    requires OccursAt(s, Orchestrator.CloseTag, x) && forall i: nat :: i < x ==> !OccursAt(s, Orchestrator.CloseTag, i)
    ensures FindCloseTag(s, 0) == Some(x)
  {
  }

  /** A block that opens with "<script", has a ">" after that, and contains
      "</script>" only at its very end, as the converter's output does when
      the converted code itself does not contain "</script>". */
  predicate IsScriptBlock(b: string) {
    StartsWith(b, OpenTagStart) && EndsWith(b, Orchestrator.CloseTag) &&
    (exists j :: 7 <= j < |b| && b[j] == '>') &&
    forall i: nat :: i + 9 < |b| ==> !OccursAt(b, Orchestrator.CloseTag, i)
  }

  /** A pattern whose only "<" is its first character cannot occur across
      a "<" at a later position. */
  lemma NoTagAcross(r: string, p: string, i: nat, start: nat)
    requires i < start < |r| && r[start] == '<' && start < i + |p|
    requires forall k :: 0 < k < |p| ==> p[k] != '<'
    ensures !OccursAt(r, p, i)
  {
  }

  /** No "<script" starts before `start` in the spliced text. */
  lemma NoEarlierOpenTag(content: string, start: nat, b: string, after: string)
    requires start <= |content| && OpenTagAt(content, start)
    requires forall i: nat :: i < start ==> !OpenTagAt(content, i)
    requires IsScriptBlock(b)
    ensures forall i: nat :: i < start ==> !OpenTagAt(content[..start] + b + after, i)
  {
    var r := content[..start] + b + after;
    assert r[start] == '<' by {
      assert b[..7] == OpenTagStart;
      assert r[start] == b[0];
    }
    var j :| start + 7 <= j < |content| && content[j] == '>';
    forall i: nat | i < start ensures !OpenTagAt(r, i) {
      if i + 7 <= start {
        assert OccursAt(content, OpenTagStart, i) ==> OpenTagAt(content, i) by {
          assert content[j] == '>' && i + 7 <= j < |content|;
        }
        assert r[i..i + 7] == content[i..i + 7];
      } else {
        NoTagAcross(r, OpenTagStart, i, start);
      }
    }
  }

  /** No "</script>" starts before the end of the new block in the spliced text. */
  lemma NoEarlierCloseTag(content: string, start: nat, end: nat, b: string, after: string)
    requires start <= end && start <= |content| && OccursAt(content, Orchestrator.CloseTag, end)
    requires forall i: nat :: i < end ==> !OccursAt(content, Orchestrator.CloseTag, i)
    requires IsScriptBlock(b)
    ensures forall i: nat :: i < start + |b| - 9 ==> !OccursAt(content[..start] + b + after, Orchestrator.CloseTag, i)
  {
    var r := content[..start] + b + after;
    assert r[start] == '<' by {
      assert b[..7] == OpenTagStart;
      assert r[start] == b[0];
    }
    forall i: nat | i < start + |b| - 9 ensures !OccursAt(r, Orchestrator.CloseTag, i) {
      if i + 9 <= start {
        assert r[i..i + 9] == content[i..i + 9];
        assert !OccursAt(content, Orchestrator.CloseTag, i);
      } else if i < start {
        NoTagAcross(r, Orchestrator.CloseTag, i, start);
      } else {
        assert r[i..i + 9] == b[i - start..i - start + 9];
        assert !OccursAt(b, Orchestrator.CloseTag, i - start);
      }
    }
  }

  /** After the splice the new block is the file's first script block, at
      the position where the old one started. */
  lemma SplicedBlockIsFirst(content: string, b: string, start: nat, end: nat)
    requires FindOpenTag(content, 0) == Some(start) && FindCloseTag(content, 0) == Some(end)
    requires start <= end && IsScriptBlock(b)
    ensures FindOpenTag(ReplaceScriptSection(content, true, b), 0) == Some(start)
    ensures FindCloseTag(ReplaceScriptSection(content, true, b), 0) == Some(start + |b| - 9)
  {
    SpliceAt(content, b, start, end);
    SplicedOpenTag(content, start, b, content[end + 9..]);
    SplicedCloseTag(content, start, end, b, content[end + 9..]);
  }

  lemma SpliceAt(content: string, b: string, start: nat, end: nat)
    requires FindOpenTag(content, 0) == Some(start) && FindCloseTag(content, 0) == Some(end)
    ensures end + 9 <= |content|
    ensures ReplaceScriptSection(content, true, b) == content[..start] + b + content[end + 9..]
  {
  }

  lemma SplicedOpenTag(content: string, start: nat, b: string, after: string)
    requires start <= |content| && OpenTagAt(content, start)
    requires forall i: nat :: i < start ==> !OpenTagAt(content, i)
    requires IsScriptBlock(b)
    ensures FindOpenTag(content[..start] + b + after, 0) == Some(start)
  {
    var r := content[..start] + b + after;
    assert r[start..start + 7] == b[..7];
    var j :| 7 <= j < |b| && b[j] == '>';
    assert r[start + j] == '>';
    assert OpenTagAt(r, start);
    NoEarlierOpenTag(content, start, b, after);
    FirstOpenTagIs(r, start);
  }

  lemma SplicedCloseTag(content: string, start: nat, end: nat, b: string, after: string)
    requires start <= end && start <= |content| && OccursAt(content, Orchestrator.CloseTag, end)
    requires forall i: nat :: i < end ==> !OccursAt(content, Orchestrator.CloseTag, i)
    requires IsScriptBlock(b)
    ensures FindCloseTag(content[..start] + b + after, 0) == Some(start + |b| - 9)
  {
    var r := content[..start] + b + after;
    assert r[start + |b| - 9..start + |b|] == b[|b| - 9..];
    NoEarlierCloseTag(content, start, end, b, after);
    FirstCloseTagIs(r, start + |b| - 9);
  }

  /** Splicing a second block into an already spliced file replaces the
      first block again: only the last block written survives. */
  lemma SpliceTwice(content: string, b1: string, b2: string, start: nat, end: nat)
    requires FindOpenTag(content, 0) == Some(start) && FindCloseTag(content, 0) == Some(end)
    requires start <= end && IsScriptBlock(b1)
    ensures ReplaceScriptSection(ReplaceScriptSection(content, true, b1), true, b2) ==
            ReplaceScriptSection(content, true, b2)
  {
    var before := content[..start];
    var after := content[end + 9..];
    var r := before + b1 + after;
    SpliceAt(content, b1, start, end);
    SpliceAt(content, b2, start, end);
    SplicedOpenTag(content, start, b1, after);
    SplicedCloseTag(content, start, end, b1, after);
    SpliceAt(r, b2, start, start + |b1| - 9);
    KeptAround(before, b1, after);
  }

  lemma KeptAround(before: string, b: string, after: string)
    ensures (before + b + after)[..|before|] == before
    ensures (before + b + after)[|before| + |b|..] == after
  {
  }

  // ---------------------------------------------------------------------
  // One file
  // ---------------------------------------------------------------------

  /** What the outside world reports for one file: its text (None when it
      cannot be read), whether the component-file parser finds a plain
      script block in it, what the converter returns for it, and whether
      writing the result would succeed. */
  datatype FileRun = FileRun(
    content: Option<string>,
    hasScript: bool,
    converted: Result<string>,
    writeSucceeds: bool)

  /** What processing a file does besides reporting: nothing, print the
      converted code, or write the spliced file to a path. */
  datatype Effect = NoEffect | Printed(text: string) | Written(path: string, text: string)

  datatype ProcessResult = ProcessResult(success: bool, skipped: bool, effect: Effect)

  /** `processFile`. An output path is used only when it is non-empty. */
  function ProcessFile(path: string, run: FileRun, options: CliOptions): ProcessResult {
    match run.content
    case None => ProcessResult(false, false, NoEffect)
    case Some(content) =>
      match run.converted
      case Err(_) => ProcessResult(false, false, NoEffect)
      case Ok(code) =>
        if code == content then ProcessResult(true, true, NoEffect)
        else if options.write || (options.output.Some? && options.output.value != "") then
          var target := if options.write then path else options.output.value;
          ProcessResult(run.writeSucceeds, false,
                        Written(target, ReplaceScriptSection(content, run.hasScript, code)))
        else ProcessResult(true, false, Printed(code))
  }

  /** A file is skipped exactly when the conversion hands back its text
      unchanged; a skipped file is a success and nothing is written; a
      conversion error or an unreadable file is a failure. */
  lemma ProcessFileOutcome(path: string, run: FileRun, options: CliOptions)
    ensures var r := ProcessFile(path, run, options);
            (r.skipped <==> run.content.Some? && run.converted == Ok(run.content.value)) &&
            (r.skipped ==> r.success && r.effect == NoEffect) &&
            (run.content.None? || run.converted.Err? ==> !r.success && !r.skipped)
  {
  }

  /** A converted file is written back in place under --write (which wins
      over --output), with only its script block replaced. */
  lemma WriteInPlace(path: string, run: FileRun, options: CliOptions)
    requires options.write && run.content.Some? && run.converted.Ok?
    requires run.converted.value != run.content.value
    ensures ProcessFile(path, run, options).effect ==
              Written(path, ReplaceScriptSection(run.content.value, run.hasScript, run.converted.value))
    ensures ProcessFile(path, run, options).success == run.writeSucceeds
  {
  }

  /** A file that already uses script setup, or has no script, is skipped:
      the converter hands its text back unchanged. */
  lemma AlreadyConvertedSkipped(path: string, run: FileRun, options: CliOptions,
                                sfc: Orchestrator.SfcDescriptor, script: Orchestrator.ScriptFile,
                                other: Orchestrator.Collaborators, replaceEmit: (string, string) -> string)
    requires run.content.Some? && (sfc.hasScriptSetup || !sfc.hasScript)
    requires run.converted == Orchestrator.Convert(run.content.value, sfc, script, other, replaceEmit)
    ensures ProcessFile(path, run, options) == ProcessResult(true, true, NoEffect)
  {
    Orchestrator.ConvertGatesAndErrors(run.content.value, sfc, script, other, replaceEmit);
  }

  // ---------------------------------------------------------------------
  // Directories and the tally
  // ---------------------------------------------------------------------

  datatype Stats = Stats(success: nat, errors: nat, skipped: nat) {
    function Total(): nat { success + errors + skipped }
  }

  const Zero := Stats(0, 0, 0)

  function Add(a: Stats, b: Stats): Stats {
    Stats(a.success + b.success, a.errors + b.errors, a.skipped + b.skipped)
  }

  /** A directory listing entry; `readable` is whether listing it succeeds. */
  datatype Entry =
    | Directory(name: string, readable: bool, entries: seq<Entry>)
    | File(name: string, run: FileRun)

  /** `extname(name) === ".vue"`: the name ends in ".vue" with something
      before the dot (a name that is only ".vue" has no extension). */
  predicate IsVueFile(name: string) {
    EndsWith(name, ".vue") && |name| > 4
  }

  function JoinPath(dir: string, name: string): string {
    dir + "/" + name
  }

  /** What one processed file adds to the tally. */
  function Count(r: ProcessResult): (c: Stats)
    ensures c.Total() == 1
    ensures c.skipped == 1 <==> r.success && r.skipped
    ensures c.errors == 1 <==> !r.success
  {
    if r.success then (if r.skipped then Stats(0, 0, 1) else Stats(1, 0, 0)) else Stats(0, 1, 0)
  }

  /** The tally of a directory: an unreadable directory counts one error. */
  function DirStats(d: Entry, path: string, options: CliOptions): Stats
    requires d.Directory?
    decreases d, 1
  {
    if !d.readable then Stats(0, 1, 0) else ListStats(d, path, options, |d.entries|)
  }

  /** The tally of the first `n` entries of a readable directory. */
  function ListStats(d: Entry, path: string, options: CliOptions, n: nat): Stats
    requires d.Directory? && n <= |d.entries|
    decreases d, 0, n
  {
    if n == 0 then Zero
    else
      var e := d.entries[n - 1];
      Add(ListStats(d, path, options, n - 1), EntryStats(e, JoinPath(path, e.name), options))
  }

  /** A subdirectory counts only under --recursive; other files than .vue ones never count. */
  function EntryStats(e: Entry, path: string, options: CliOptions): Stats
    decreases e, 2
  {
    match e
    case File(name, run) => if IsVueFile(name) then Count(ProcessFile(path, run, options)) else Zero
    case Directory(_, _, _) => if options.recursive then DirStats(e, path, options) else Zero
  }

  method ProcessDirectory(d: Entry, path: string, options: CliOptions) returns (stats: Stats)
    requires d.Directory?
    ensures stats == DirStats(d, path, options)
    decreases d, 1
  {
    stats := Zero;
    if !d.readable {
      stats := stats.(errors := stats.errors + 1);
      return;
    }
    for i := 0 to |d.entries|
      invariant stats == ListStats(d, path, options, i)
    {
      var entry := d.entries[i];
      var fullPath := JoinPath(path, entry.name);
      if entry.Directory? {
        if options.recursive {
          var subStats := ProcessDirectory(entry, fullPath, options);
          stats := Stats(stats.success + subStats.success, stats.errors + subStats.errors,
                         stats.skipped + subStats.skipped);
        }
      } else if IsVueFile(entry.name) {
        var result := ProcessFile(fullPath, entry.run, options);
        if result.success {
          if result.skipped {
            stats := stats.(skipped := stats.skipped + 1);
          } else {
            stats := stats.(success := stats.success + 1);
          }
        } else {
          stats := stats.(errors := stats.errors + 1);
        }
      }
    }
  }

  /** One thing the walk of a directory tree reaches: a .vue file and what
      processing it gives, or a directory that could not be listed. */
  datatype Visit = VueFile(path: string, result: ProcessResult) | Unlisted(path: string)

  /** The walk, in order: the independent account of which files are processed. */
  function Walk(d: Entry, path: string, options: CliOptions): seq<Visit>
    requires d.Directory?
    decreases d, 1
  {
    if !d.readable then [Unlisted(path)] else WalkList(d, path, options, |d.entries|)
  }

  function WalkList(d: Entry, path: string, options: CliOptions, n: nat): seq<Visit>
    requires d.Directory? && n <= |d.entries|
    decreases d, 0, n
  {
    if n == 0 then []
    else
      var e := d.entries[n - 1];
      WalkList(d, path, options, n - 1) + WalkEntry(e, JoinPath(path, e.name), options)
  }

  function WalkEntry(e: Entry, path: string, options: CliOptions): seq<Visit>
    decreases e, 2
  {
    match e
    case File(name, run) => if IsVueFile(name) then [VueFile(path, ProcessFile(path, run, options))] else []
    case Directory(_, _, _) => if options.recursive then Walk(e, path, options) else []
  }

  predicate IsConverted(v: Visit) { v.VueFile? && v.result.success && !v.result.skipped }
  predicate IsSkipped(v: Visit) { v.VueFile? && v.result.success && v.result.skipped }
  predicate IsError(v: Visit) { v.Unlisted? || !v.result.success }

  /** The counters are the numbers of reached files converted, skipped and
      failed (plus unlistable directories among the errors). */
  function Tally(vs: seq<Visit>): Stats {
    Stats(|Filter(vs, IsConverted)|, |Filter(vs, IsError)|, |Filter(vs, IsSkipped)|)
  }

  lemma TallyAppend(a: seq<Visit>, b: seq<Visit>)
    ensures Tally(a + b) == Add(Tally(a), Tally(b))
  {
    assert |Filter(a + b, IsConverted)| == |Filter(a, IsConverted)| + |Filter(b, IsConverted)| by {
      FilterAppend(a, b, IsConverted);
    }
    assert |Filter(a + b, IsError)| == |Filter(a, IsError)| + |Filter(b, IsError)| by {
      FilterAppend(a, b, IsError);
    }
    assert |Filter(a + b, IsSkipped)| == |Filter(a, IsSkipped)| + |Filter(b, IsSkipped)| by {
      FilterAppend(a, b, IsSkipped);
    }
  }

  /** A single visit counts as its own outcome. */
  lemma TallyOne(v: Visit)
    ensures Tally([v]) == if v.Unlisted? then Stats(0, 1, 0) else Count(v.result)
  {
    FilterSingleton(v, IsConverted);
    FilterSingleton(v, IsError);
    FilterSingleton(v, IsSkipped);
  }

  /** Every visit lands in exactly one counter, so the total is the number
      of visits. */
  lemma {:induction false} TallyTotal(vs: seq<Visit>)
    ensures Tally(vs).Total() == |vs|
  {
    if |vs| > 0 {
      var init := vs[..|vs| - 1];
      TallyTotal(init);
      assert vs == init + [vs[|vs| - 1]];
      TallyAppend(init, [vs[|vs| - 1]]);
    }
  }

  /** The counters `processDirectory` accumulates are the tally of the walk:
      each reached .vue file increments exactly one of them, an unlistable
      directory increments the errors, and a subdirectory's counters are
      added componentwise. */
  lemma {:induction false} DirStatsIsTally(d: Entry, path: string, options: CliOptions)
    requires d.Directory?
    ensures DirStats(d, path, options) == Tally(Walk(d, path, options))
    decreases d, 1
  {
    if d.readable {
      ListStatsIsTally(d, path, options, |d.entries|);
    } else {
      TallyOne(Unlisted(path));
    }
  }

  lemma {:induction false} ListStatsIsTally(d: Entry, path: string, options: CliOptions, n: nat)
    requires d.Directory? && n <= |d.entries|
    ensures ListStats(d, path, options, n) == Tally(WalkList(d, path, options, n))
    decreases d, 0, n
  {
    if n > 0 {
      var e := d.entries[n - 1];
      ListStatsIsTally(d, path, options, n - 1);
      EntryStatsIsTally(e, JoinPath(path, e.name), options);
      TallyAppend(WalkList(d, path, options, n - 1), WalkEntry(e, JoinPath(path, e.name), options));
    }
  }

  lemma {:induction false} EntryStatsIsTally(e: Entry, path: string, options: CliOptions)
    ensures EntryStats(e, path, options) == Tally(WalkEntry(e, path, options))
    decreases e, 2
  {
    match e
    case File(name, run) =>
      if IsVueFile(name) {
        TallyOne(VueFile(path, ProcessFile(path, run, options)));
      }
    case Directory(_, _, _) =>
      if options.recursive {
        DirStatsIsTally(e, path, options);
      }
  }

  /** The reported total is the number of reached .vue files plus the
      directories that could not be listed. */
  lemma TotalCountsVisits(d: Entry, path: string, options: CliOptions)
    requires d.Directory?
    ensures DirStats(d, path, options).Total() == |Walk(d, path, options)|
  {
    DirStatsIsTally(d, path, options);
    TallyTotal(Walk(d, path, options));
  }
}
