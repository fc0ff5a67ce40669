/** The orchestrator (src/lib/convertSrc.ts): checks the two gates, finds
    the component-definition call, runs the converters on it, merges the
    helper imports the output needs, and emits the statements in a fixed
    order inside a `<script setup>` block. The SFC parser, the import,
    emits, components and page-meta converters are outside this model:
    their results arrive as inputs. */
module Orchestrator {
  import opened Util
  import opened Syntax
  import PropsConverter
  import SetupConverter
  import DefineOptionsConverter

  const NotFound := "defineComponent is not found."
  const TsTag := "<script setup lang=\"ts\">"
  const PlainTag := "<script setup>"
  const CloseTag := "</script>"

  /** An import statement to generate: a module and its named specifiers. */
  datatype ImportGroup = ImportGroup(moduleSpecifier: string, specifiers: seq<string>)

  /** What the SFC parser reports about the input file. */
  datatype SfcDescriptor = SfcDescriptor(hasScript: bool, hasScriptSetup: bool, lang: Option<string>)

  /** A top-level statement of the original script. */
  datatype TopStatement =
    | ExportAssignment(text: string)
    | ImportDeclaration(moduleSpecifier: string, isTypeOnly: bool, namedImports: seq<string>, text: string)
    | OtherTop(text: string)

  /** The original script: its top-level statements and the first call
      expression the node locator finds in it. */
  datatype ScriptFile = ScriptFile(statements: seq<TopStatement>, firstCall: Option<CallExpression>)

  /** The results of the converters outside this model. */
  datatype Collaborators = Collaborators(importGroups: seq<ImportGroup>, pageMeta: string, emits: string, components: string)

  /** The script's language, "js" when the block has no lang attribute. */
  function Lang(sfc: SfcDescriptor): string {
    if sfc.lang.Some? then sfc.lang.value else "js"
  }

  /** isDefineComponent: the callee is an identifier spelled defineComponent or defineNuxtComponent. */
  predicate IsDefineComponent(call: CallExpression) {
    call.callee.kind.Identifier? &&
    (call.callee.text == "defineComponent" || call.callee.text == "defineNuxtComponent")
  }

  /** isDefineNuxtComponent. */
  predicate IsDefineNuxtComponent(call: CallExpression) {
    call.callee.kind.Identifier? && call.callee.text == "defineNuxtComponent"
  }

  lemma NuxtIsDefineComponent(call: CallExpression)
    ensures IsDefineNuxtComponent(call) ==> IsDefineComponent(call)
    ensures IsDefineComponent(call) && !IsDefineNuxtComponent(call) ==> call.callee.text == "defineComponent"
  {
  }

  // ---------------------------------------------------------------------
  // Helper imports

  /** `groups[0].importSpecifiers.push(name)` unless it is already there. */
  function AddToFirstGroup(groups: seq<ImportGroup>, name: string): seq<ImportGroup> {
    if |groups| == 0 || name in groups[0].specifiers then groups
    else [groups[0].(specifiers := groups[0].specifiers + [name])] + groups[1..]
  }

  /** Adds each name in turn. */
  function MergeHelpers(groups: seq<ImportGroup>, names: seq<string>): seq<ImportGroup>
    decreases |names|
  {
    if |names| == 0 then groups else MergeHelpers(AddToFirstGroup(groups, names[0]), names[1..])
  }

  /** The helpers the generated code needs, in the order the source checks them. */
  function RequiredHelpers(components: string, setupCode: string): seq<string> {
    (if Contains(components, "defineAsyncComponent") then ["defineAsyncComponent"] else []) +
    (if Contains(setupCode, "useAttrs()") then ["useAttrs"] else []) +
    (if Contains(setupCode, "useSlots()") then ["useSlots"] else [])
  }

  predicate NoDuplicates(s: seq<string>) {
    forall i, j :: 0 <= i < j < |s| ==> s[i] != s[j]
  }

  /** Merging helpers only touches the first group: it keeps that group's
      module and existing specifiers (as a prefix), adds every requested name
      that is missing and nothing else, never introduces a duplicate, and
      leaves every other group as it was. Without groups nothing happens. */
  lemma {:induction false} MergeHelpersFacts(groups: seq<ImportGroup>, names: seq<string>)
    ensures |groups| == 0 ==> MergeHelpers(groups, names) == groups
    ensures |MergeHelpers(groups, names)| == |groups|
    ensures forall k :: 1 <= k < |groups| ==> MergeHelpers(groups, names)[k] == groups[k]
    ensures |groups| > 0 ==>
              var first := MergeHelpers(groups, names)[0];
              first.moduleSpecifier == groups[0].moduleSpecifier &&
              groups[0].specifiers <= first.specifiers &&
              (forall n :: n in names ==> n in first.specifiers) &&
              (forall n :: n in first.specifiers ==> n in groups[0].specifiers || n in names) &&
              (NoDuplicates(groups[0].specifiers) ==> NoDuplicates(first.specifiers))
    decreases |names|
  {
    if |names| > 0 {
      var next := AddToFirstGroup(groups, names[0]);
      MergeHelpersFacts(next, names[1..]);
      if |groups| > 0 {
        assert forall n :: n in names ==> n == names[0] || n in names[1..];
        assert forall n :: n in names[1..] ==> n in names;
        assert names[0] in next[0].specifiers;
        assert groups[0].specifiers <= next[0].specifiers;
        var s := MergeHelpers(groups, names)[0].specifiers;
        assert forall n :: n in next[0].specifiers ==> n in groups[0].specifiers || n == names[0];
      }
    }
  }

  /** The import table of the conversion; its first group gains the helpers in place. */
  class ImportMap {
    var groups: seq<ImportGroup>

    constructor (groups: seq<ImportGroup>)
      ensures this.groups == groups
    {
      this.groups := groups;
    }

    /** Appends `name` to the first group's specifiers unless it is present. */
    method AddHelper(name: string)
      modifies this
      ensures |old(groups)| > 0 && name !in old(groups)[0].specifiers ==>
                groups == [old(groups)[0].(specifiers := old(groups)[0].specifiers + [name])] + old(groups)[1..]
      ensures |old(groups)| == 0 || name in old(groups)[0].specifiers ==> groups == old(groups)
    {
      if |groups| > 0 && name !in groups[0].specifiers {
        var first := groups[0];
        groups := [first.(specifiers := first.specifiers + [name])] + groups[1..];
      }
    }
  }

  predicate HasSpecifiers(g: ImportGroup) {
    |g.specifiers| > 0
  }

  /** Groups left without specifiers are not emitted; the others keep their order. */
  lemma ValidImportsKept(groups: seq<ImportGroup>)
    ensures forall g :: g in Filter(groups, HasSpecifiers) <==> g in groups && |g.specifiers| > 0
    ensures (forall g :: g in groups ==> |g.specifiers| > 0) <==> Filter(groups, HasSpecifiers) == groups
  {
    FilterMembers(groups, HasSpecifiers);
    FilterIdentity(groups, HasSpecifiers);
  }

  /** The import statement generated for a group. */
  function GenImport(g: ImportGroup): string {
    "import { " + Join(g.specifiers, ", ") + " } from \"" + g.moduleSpecifier + "\";"
  }

  // ---------------------------------------------------------------------
  // Pass-through statements

  /** The filter over the original top-level statements. */
  predicate PassesThrough(s: TopStatement) {
    match s
    case ExportAssignment(_) => false
    case ImportDeclaration(m, typeOnly, named, _) =>
      !((m == "vue" || m == "#imports") && !typeOnly) &&
      "defineComponent" !in named && "defineNuxtComponent" !in named
    case OtherTop(_) => true
  }

  function TextOf(s: TopStatement): string {
    s.text
  }

  /** The default export is dropped, value imports from vue and #imports are
      dropped, imports naming a component factory are dropped; every other
      statement is kept: type-only imports, value imports from any other
      module (`import Foo from './Foo.vue'`) and all non-import statements. */
  lemma PassThroughRules(statements: seq<TopStatement>)
    ensures forall s :: s in statements && s.ExportAssignment? ==> s !in Filter(statements, PassesThrough)
    ensures forall s :: s in statements && s.ImportDeclaration? && s.moduleSpecifier in ["vue", "#imports"] && !s.isTypeOnly ==>
              s !in Filter(statements, PassesThrough)
    ensures forall s :: s in statements && s.ImportDeclaration? &&
                        ("defineComponent" in s.namedImports || "defineNuxtComponent" in s.namedImports) ==>
              s !in Filter(statements, PassesThrough)
    ensures forall s :: s in statements && s.ImportDeclaration? && s.isTypeOnly &&
                        "defineComponent" !in s.namedImports && "defineNuxtComponent" !in s.namedImports ==>
              s in Filter(statements, PassesThrough)
    ensures forall s :: s in statements && s.OtherTop? ==> s in Filter(statements, PassesThrough)
    ensures forall s :: s in statements && s.ImportDeclaration? && s.moduleSpecifier !in ["vue", "#imports"] &&
                        "defineComponent" !in s.namedImports && "defineNuxtComponent" !in s.namedImports ==>
              s in Filter(statements, PassesThrough)
  {
    FilterMembers(statements, PassesThrough);
  }

  // ---------------------------------------------------------------------
  // Statement builder and final text

  predicate NonEmpty(s: string) {
    s != ""
  }

  /** The new source file the statements are added to, in order. */
  class StatementBuilder {
    var texts: seq<string>

    constructor ()
      ensures texts == []
    {
      texts := [];
    }

    method AddStatements(more: seq<string>)
      modifies this
      ensures texts == old(texts) + more
    {
      texts := texts + more;
    }

    /** The file's text: the non-empty statement texts, one per line (an
        empty text adds no statement). */
    function FullText(): string
      reads this
    {
      Join(Filter(texts, NonEmpty), "\n")
    }
  }

  /** Number of whitespace characters at the front of `s`. */
  function LeadingWhitespace(s: string): (n: nat)
    ensures n <= |s|
  {
    if |s| > 0 && IsWhitespace(s[0]) then 1 + LeadingWhitespace(s[1..]) else 0
  }

  /** The counted characters are whitespace and the next one is not. */
  lemma {:induction false} LeadingWhitespaceFacts(s: string)
    ensures forall k :: 0 <= k < LeadingWhitespace(s) ==> IsWhitespace(s[k])
    ensures LeadingWhitespace(s) == |s| || !IsWhitespace(s[LeadingWhitespace(s)])
  {
    if |s| > 0 && IsWhitespace(s[0]) {
      LeadingWhitespaceFacts(s[1..]);
      forall k | 1 <= k < LeadingWhitespace(s) ensures IsWhitespace(s[k]) {
        assert s[k] == s[1..][k - 1];
      }
    }
  }

  /** The length of a match of `};\s*const\s+` at the front of `s`, if any
      (`\s*` and `\s+` are greedy and cannot give back a "c"). */
  function ConstBreakAt(s: string): (r: Option<nat>)
    ensures r.Some? ==> 8 <= r.value <= |s|
  {
    if !StartsWith(s, "};") then None
    else
      var k := 2 + LeadingWhitespace(s[2..]);
      if !StartsWith(s[k..], "const") then None
      else
        var w := LeadingWhitespace(s[k + 5..]);
        if w == 0 then None else Some(k + 5 + w)
  }

  /** `s.replace(/};\s*const\s+/g, "};\nconst ")`. */
  function FixConstBreaks(s: string): string
    decreases |s|
  {
    if |s| == 0 then ""
    else
      match ConstBreakAt(s)
      case Some(n) => "};\nconst " + FixConstBreaks(s[n..])
      case None => [s[0]] + FixConstBreaks(s[1..])
  }

  /** Leading whitespace followed by a non-whitespace character is counted exactly. */
  lemma {:induction false} LeadingWhitespaceOf(ws: string, rest: string)
    requires forall k :: 0 <= k < |ws| ==> IsWhitespace(ws[k])
    requires rest == [] || !IsWhitespace(rest[0])
    ensures LeadingWhitespace(ws + rest) == |ws|
  {
    if |ws| > 0 {
      assert (ws + rest)[1..] == ws[1..] + rest;
      LeadingWhitespaceOf(ws[1..], rest);
    } else {
      assert ws + rest == rest;
    }
  }

  /** `}; <whitespace> const <whitespace>` is rewritten to `};\nconst `, and
      scanning resumes after the whitespace that follows `const`. */
  lemma FixConstSplice(ws: string, ws1: string, y: string)
    requires forall k :: 0 <= k < |ws| ==> IsWhitespace(ws[k])
    requires |ws1| > 0 && forall k :: 0 <= k < |ws1| ==> IsWhitespace(ws1[k])
    requires y == [] || !IsWhitespace(y[0])
    ensures FixConstBreaks("};" + ws + ("const" + (ws1 + y))) == "};\nconst " + FixConstBreaks(y)
  {
    var s := "};" + ws + ("const" + (ws1 + y));
    ConstBreakMatches(ws, ws1, y);
    FixConstAtBreak(s, 2 + |ws| + 5 + |ws1|);
    TailAfterBreak(ws, ws1, y);
  }

  lemma FixConstAtBreak(s: string, n: nat)
    requires ConstBreakAt(s) == Some(n)
    ensures FixConstBreaks(s) == "};\nconst " + FixConstBreaks(s[n..])
  {
  }

  lemma TailAfterBreak(ws: string, ws1: string, y: string)
    ensures ("};" + ws + ("const" + (ws1 + y)))[2 + |ws| + 5 + |ws1|..] == y
  {
    var s := "};" + ws + ("const" + (ws1 + y));
    assert s == ("};" + ws + "const" + ws1) + y;
  }

  lemma ConstBreakMatches(ws: string, ws1: string, y: string)
    requires forall k :: 0 <= k < |ws| ==> IsWhitespace(ws[k])
    requires |ws1| > 0 && forall k :: 0 <= k < |ws1| ==> IsWhitespace(ws1[k])
    requires y == [] || !IsWhitespace(y[0])
    ensures ConstBreakAt("};" + ws + ("const" + (ws1 + y))) == Some(2 + |ws| + 5 + |ws1|)
  {
    var t := "const" + (ws1 + y);
    var s := "};" + ws + t;
    BraceThenWhitespace(ws, t);
    ConstThenWhitespace(ws1, y);
    assert s[2 + |ws|..] == t;
    ConstBreakAtParts(s, 2 + |ws|, |ws1|);
  }

  /** How ConstBreakAt decides a match, one condition at a time. */
  lemma ConstBreakAtParts(s: string, k: nat, w: nat)
    requires StartsWith(s, "};") && k == 2 + LeadingWhitespace(s[2..])
    requires k + 5 <= |s| && StartsWith(s[k..], "const") && w == LeadingWhitespace(s[k + 5..]) && w > 0
    ensures ConstBreakAt(s) == Some(k + 5 + w)
  {
  }

  lemma BraceThenWhitespace(ws: string, t: string)
    requires forall k :: 0 <= k < |ws| ==> IsWhitespace(ws[k])
    requires t == [] || !IsWhitespace(t[0])
    ensures StartsWith("};" + ws + t, "};")
    ensures LeadingWhitespace(("};" + ws + t)[2..]) == |ws|
    ensures ("};" + ws + t)[2 + |ws|..] == t
  {
    var s := "};" + ws + t;
    assert s[..2] == "};";
    assert s[2..] == ws + t;
    LeadingWhitespaceOf(ws, t);
  }

  lemma ConstThenWhitespace(ws1: string, y: string)
    requires |ws1| > 0 && forall k :: 0 <= k < |ws1| ==> IsWhitespace(ws1[k])
    requires y == [] || !IsWhitespace(y[0])
    ensures StartsWith("const" + (ws1 + y), "const")
    ensures LeadingWhitespace(("const" + (ws1 + y))[5..]) == |ws1|
  {
    assert ("const" + (ws1 + y))[5..] == ws1 + y;
    LeadingWhitespaceOf(ws1, y);
  }

  /** `s` contains no `};`, so the pattern cannot start anywhere in it. */
  predicate NoBraceSemi(s: string) {
    forall k :: 0 <= k < |s| - 1 ==> !(s[k] == '}' && s[k + 1] == ';')
  }

  /** Text that does not start with `};` cannot start a match: its first character is copied. */
  lemma FixConstCopies(s: string)
    requires |s| > 0 && !StartsWith(s, "};")
    ensures FixConstBreaks(s) == [s[0]] + FixConstBreaks(s[1..])
  {
  }

  lemma HeadTail(x: string, t: string)
    requires |x| > 0
    ensures [x[0]] + (x[1..] + t) == x + t
  {
    assert [x[0]] + x[1..] == x;
  }

  lemma NoBraceSemiTail(x: string)
    requires |x| > 0 && NoBraceSemi(x)
    ensures NoBraceSemi(x[1..])
  {
    forall k | 0 <= k < |x[1..]| - 1 ensures !(x[1..][k] == '}' && x[1..][k + 1] == ';') {
      assert x[1..][k] == x[k + 1] && x[1..][k + 1] == x[k + 2];
    }
  }

  /** A text without `};` that the rest does not complete into one (the rest
      does not start with `;`) is copied unchanged. */
  lemma {:induction false} FixConstPrefix(x: string, rest: string)
    requires NoBraceSemi(x) && (rest == [] || rest[0] != ';')
    ensures FixConstBreaks(x + rest) == x + FixConstBreaks(rest)
    decreases |x|
  {
    if |x| > 0 {
      var s := x + rest;
      assert s[0] == x[0] && s[1..] == x[1..] + rest;
      assert s[1..] == [] || s[1..][0] != ';' || s[0] != '}' by {
        if |x| > 1 {
          assert s[1..][0] == x[1];
        } else {
          assert s[1..] == rest;
        }
      }
      assert !StartsWith(s, "};") by {
        if |s| >= 2 {
          assert s[..2][0] == s[0] && s[..2][1] == s[1..][0];
        }
      }
      FixConstCopies(s);
      NoBraceSemiTail(x);
      FixConstPrefix(x[1..], rest);
      var t := FixConstBreaks(rest);
      assert FixConstBreaks(s) == [x[0]] + (x[1..] + t);
      HeadTail(x, t);
    } else {
      assert x + rest == rest;
    }
  }

  /** Text without `};` is left alone. */
  lemma FixConstNoBrace(s: string)
    requires NoBraceSemi(s)
    ensures FixConstBreaks(s) == s
  {
    FixConstPrefix(s, "");
    assert s + "" == s;
  }

  /** The case the rewrite is for: the `type Props` alias and the
      destructuring declaration that follows it on the same line, as in
      `type Props = {a?: string;};const { a } = defineProps<Props>();`, end
      up on separate lines, and nothing else changes as long as neither side
      holds another `};`. */
  lemma ConstOnOwnLine(x: string, y: string)
    requires NoBraceSemi(x) && NoBraceSemi(y)
    requires y == [] || !IsWhitespace(y[0])
    ensures FixConstBreaks(x + ("};const " + y)) == x + ("};\nconst " + y)
  {
    ConstBreakOnce(y);
    PrefixKept(x, "};const " + y, "};\nconst " + y);
  }

  lemma PrefixKept(x: string, m: string, fixed: string)
    requires NoBraceSemi(x) && (m == [] || m[0] != ';') && FixConstBreaks(m) == fixed
    ensures FixConstBreaks(x + m) == x + fixed
  {
    FixConstPrefix(x, m);
  }

  lemma ConstBreakOnce(y: string)
    requires NoBraceSemi(y)
    requires y == [] || !IsWhitespace(y[0])
    ensures FixConstBreaks("};const " + y) == "};\nconst " + y
  {
    assert "};const " + y == "};" + "" + ("const" + (" " + y));
    FixConstSplice("", " ", y);
    FixConstNoBrace(y);
  }

  /** The script-setup wrapper. */
  function Wrap(lang: string, code: string): string {
    var tag := if lang == "ts" then TsTag else PlainTag;
    if code == "" then tag + "\n" + CloseTag else tag + "\n" + code + "\n" + CloseTag
  }

  /** The tag carries lang="ts" exactly for "ts"; the body is recoverable
      between the tag line and the closing tag, and an empty body gives the
      two-line wrapper. */
  lemma WrapShape(lang: string, code: string)
    ensures var tag := if lang == "ts" then TsTag else PlainTag;
            var r := Wrap(lang, code);
            StartsWith(r, tag + "\n") && EndsWith(r, "\n" + CloseTag) &&
            (code == "" ==> r == tag + "\n" + CloseTag) &&
            (code != "" ==> r[|tag| + 1..|r| - |CloseTag| - 1] == code)
    ensures StartsWith(Wrap(lang, code), TsTag) <==> lang == "ts"
  {
    var tag := if lang == "ts" then TsTag else PlainTag;
    if code == "" {
      FramedEmpty(tag, CloseTag);
    } else {
      Framed(tag, code, CloseTag);
    }
    if lang == "ts" {
      LongerPrefix(Wrap(lang, code), TsTag, "\n");
    } else {
      NotTsTag(Wrap(lang, code));
    }
  }

  lemma Framed(tag: string, code: string, close: string)
    ensures var r := tag + "\n" + code + "\n" + close;
            StartsWith(r, tag + "\n") && EndsWith(r, "\n" + close) &&
            r[|tag| + 1..|r| - |close| - 1] == code
  {
    var r := tag + "\n" + code + "\n" + close;
    assert r == (tag + "\n") + code + ("\n" + close);
  }

  lemma FramedEmpty(tag: string, close: string)
    ensures StartsWith(tag + "\n" + close, tag + "\n") && EndsWith(tag + "\n" + close, "\n" + close)
  {
    assert tag + "\n" + close == tag + ("\n" + close);
  }

  lemma LongerPrefix(r: string, p: string, q: string)
    requires StartsWith(r, p + q)
    ensures StartsWith(r, p)
  {
    assert r[..|p|] == (p + q)[..|p|];
  }

  /** A text that opens with the plain tag does not open with the TypeScript tag. */
  lemma NotTsTag(r: string)
    requires StartsWith(r, PlainTag + "\n")
    ensures !StartsWith(r, TsTag)
  {
    assert r[|PlainTag| - 1] == (PlainTag + "\n")[|PlainTag| - 1] == '>';
    assert TsTag[|PlainTag| - 1] == ' ';
  }

  /** The statements the builder receives, in emission order: imports,
      pass-through statements, components, defineOptions (when non-empty),
      page meta (for defineNuxtComponent only), props, emits, setup body. */
  function Candidates(validImports: seq<ImportGroup>, passThrough: seq<string>, components: string,
                      options: string, isNuxt: bool, pageMeta: string,
                      props: string, emits: string, setup: string): seq<string> {
    Map(GenImport, validImports) + passThrough + [components] +
    (if options != "" then [options] else []) +
    (if isNuxt then [pageMeta] else []) +
    [props, emits, setup]
  }

  /** What convertSrc returns, or the error it throws. */
  function Convert(input: string, sfc: SfcDescriptor, file: ScriptFile, other: Collaborators,
                   replaceEmit: (string, string) -> string): Result<string> {
    if sfc.hasScriptSetup || !sfc.hasScript then Ok(input)
    else if file.firstCall.None? || !IsDefineComponent(file.firstCall.value) then Err(NotFound)
    else
      var call := file.firstCall.value;
      var lang := Lang(sfc);
      var propsResult :- PropsConverter.ConvertProps(call.propsOption, lang);
      var setup := SetupConverter.SetupCode(call.setupMethod, propsResult.propNames, replaceEmit);
      var groups := MergeHelpers(other.importGroups, RequiredHelpers(other.components, setup));
      var candidates := Candidates(Filter(groups, HasSpecifiers),
                                   Map(TextOf, Filter(file.statements, PassesThrough)),
                                   other.components, DefineOptionsConverter.OptionsCode(call),
                                   IsDefineNuxtComponent(call), other.pageMeta,
                                   propsResult.code, other.emits, setup);
      Ok(Wrap(lang, FixConstBreaks(Trim(Join(Filter(candidates, NonEmpty), "\n")))))
  }

  /** The "add necessary imports" step: each helper the generated code
      needs is pushed onto the first group, in order, unless present. */
  method AddRequiredHelpers(importMap: ImportMap, components: string, setupCode: string)
    modifies importMap
    ensures importMap.groups == MergeHelpers(old(importMap.groups), RequiredHelpers(components, setupCode))
  {
    ghost var pending := RequiredHelpers(components, setupCode);
    ghost var target := MergeHelpers(importMap.groups, pending);
    if |importMap.groups| > 0 {
      if Contains(components, "defineAsyncComponent") {
        assert pending[0] == "defineAsyncComponent";
        importMap.AddHelper("defineAsyncComponent");
        pending := pending[1..];
      }
      assert MergeHelpers(importMap.groups, pending) == target;
      assert pending == (if Contains(setupCode, "useAttrs()") then ["useAttrs"] else []) +
                        (if Contains(setupCode, "useSlots()") then ["useSlots"] else []);
      if Contains(setupCode, "useAttrs()") {
        importMap.AddHelper("useAttrs");
        pending := pending[1..];
      }
      assert MergeHelpers(importMap.groups, pending) == target;
      assert pending == (if Contains(setupCode, "useSlots()") then ["useSlots"] else []);
      if Contains(setupCode, "useSlots()") {
        importMap.AddHelper("useSlots");
        pending := pending[1..];
      }
      assert MergeHelpers(importMap.groups, pending) == target;
      assert pending == [];
    } else {
      MergeHelpersFacts(importMap.groups, pending);
    }
  }

  /** Adds the statements to a new builder in emission order and returns its text. */
  method EmitStatements(validImports: seq<ImportGroup>, passThrough: seq<string>, components: string,
                        options: string, isNuxt: bool, pageMeta: string,
                        props: string, emits: string, setup: string) returns (text: string)
    ensures text == Join(Filter(Candidates(validImports, passThrough, components, options, isNuxt,
                                           pageMeta, props, emits, setup), NonEmpty), "\n")
  {
    var builder := new StatementBuilder();
    if |validImports| > 0 {
      builder.AddStatements(Map(GenImport, validImports));
    }
    assert builder.texts == Map(GenImport, validImports);
    builder.AddStatements(passThrough);
    builder.AddStatements([components]);
    ghost var prefix := builder.texts;
    if options != "" {
      builder.AddStatements([options]);
    }
    assert builder.texts == prefix + (if options != "" then [options] else []);
    prefix := builder.texts;
    if isNuxt {
      builder.AddStatements([pageMeta]);
    }
    assert builder.texts == prefix + (if isNuxt then [pageMeta] else []);
    prefix := builder.texts;
    builder.AddStatements([props]);
    builder.AddStatements([emits]);
    builder.AddStatements([setup]);
    assert builder.texts == prefix + [props, emits, setup];
    assert builder.texts == Candidates(validImports, passThrough, components, options, isNuxt,
                                       pageMeta, props, emits, setup);
    text := builder.FullText();
  }

  /** convertSrc. */
  method ConvertSrc(input: string, sfc: SfcDescriptor, file: ScriptFile, other: Collaborators,
                    replaceEmit: (string, string) -> string) returns (r: Result<string>)
    ensures r == Convert(input, sfc, file, other, replaceEmit)
  {
    if sfc.hasScriptSetup {
      return Ok(input);
    }
    if !sfc.hasScript {
      return Ok(input);
    }
    var lang := Lang(sfc);
    if file.firstCall.None? {
      return Err(NotFound);
    }
    var call := file.firstCall.value;
    if !IsDefineComponent(call) {
      return Err(NotFound);
    }
    var propsResult := PropsConverter.ConvertProps(call.propsOption, lang);
    if propsResult.Err? {
      return Err(propsResult.error);
    }
    var props := propsResult.value.code;
    var statement := SetupConverter.ConvertSetup(call.setupMethod, propsResult.value.propNames, replaceEmit);
    var defineOptions := DefineOptionsConverter.ConvertDefineOptions(call);

    var importMap := new ImportMap(other.importGroups);
    AddRequiredHelpers(importMap, other.components, statement);
    var validImports := Filter(importMap.groups, HasSpecifiers);
    var fullText := EmitStatements(validImports, Map(TextOf, Filter(file.statements, PassesThrough)),
                                   other.components, defineOptions, IsDefineNuxtComponent(call),
                                   other.pageMeta, props, other.emits, statement);
    var convertedCode := Trim(fullText);
    convertedCode := FixConstBreaks(convertedCode);
    return Ok(Wrap(lang, convertedCode));
  }

  /** The gates return the input unchanged; a missing or unrecognised
      factory call is an error; a props error is passed on. */
  lemma ConvertGatesAndErrors(input: string, sfc: SfcDescriptor, file: ScriptFile, other: Collaborators,
                              replaceEmit: (string, string) -> string)
    ensures sfc.hasScriptSetup ==> Convert(input, sfc, file, other, replaceEmit) == Ok(input)
    ensures !sfc.hasScript ==> Convert(input, sfc, file, other, replaceEmit) == Ok(input)
    ensures sfc.hasScript && !sfc.hasScriptSetup && (file.firstCall.None? || !IsDefineComponent(file.firstCall.value)) ==>
              Convert(input, sfc, file, other, replaceEmit) == Err(NotFound)
    ensures sfc.hasScript && !sfc.hasScriptSetup && file.firstCall.Some? && IsDefineComponent(file.firstCall.value) &&
            PropsConverter.ConvertProps(file.firstCall.value.propsOption, Lang(sfc)).Err? ==>
              Convert(input, sfc, file, other, replaceEmit) ==
                Err(PropsConverter.ConvertProps(file.firstCall.value.propsOption, Lang(sfc)).error)
    ensures Convert(input, sfc, file, other, replaceEmit).Err? ==>
              Convert(input, sfc, file, other, replaceEmit).error == NotFound ||
              PropsConverter.ConvertProps(file.firstCall.value.propsOption, Lang(sfc)).Err?
  {
  }

  /** A converted file is a script-setup block whose tag carries lang="ts"
      exactly for a "ts" script. */
  lemma ConvertedIsScriptSetup(input: string, sfc: SfcDescriptor, file: ScriptFile, other: Collaborators,
                               replaceEmit: (string, string) -> string)
    requires sfc.hasScript && !sfc.hasScriptSetup
    requires Convert(input, sfc, file, other, replaceEmit).Ok?
    ensures var r := Convert(input, sfc, file, other, replaceEmit).value;
            StartsWith(r, (if Lang(sfc) == "ts" then TsTag else PlainTag) + "\n") &&
            EndsWith(r, "\n" + CloseTag) &&
            (StartsWith(r, TsTag) <==> Lang(sfc) == "ts")
  {
    var call := file.firstCall.value;
    var propsResult := PropsConverter.ConvertProps(call.propsOption, Lang(sfc)).value;
    var setup := SetupConverter.SetupCode(call.setupMethod, propsResult.propNames, replaceEmit);
    var groups := MergeHelpers(other.importGroups, RequiredHelpers(other.components, setup));
    var candidates := Candidates(Filter(groups, HasSpecifiers),
                                 Map(TextOf, Filter(file.statements, PassesThrough)),
                                 other.components, DefineOptionsConverter.OptionsCode(call),
                                 IsDefineNuxtComponent(call), other.pageMeta,
                                 propsResult.code, other.emits, setup);
    WrapShape(Lang(sfc), FixConstBreaks(Trim(Join(Filter(candidates, NonEmpty), "\n"))));
  }
}
