/** The setup converter (src/lib/converter/setupConverter.ts): turns the
    body of the component's setup method into top-level `<script setup>`
    statements. Return statements are dropped, `useAttrs()`/`useSlots()`
    declarations are added for a destructured context, and `props.<name>`
    references become plain `<name>` references. */
module SetupConverter {
  import opened Util
  import opened Syntax

  const AttrsDeclaration := "const attrs = useAttrs();\n"
  const SlotsDeclaration := "const slots = useSlots();\n"

  /** The regex assertion `\b` at index `k` of `s`: a word character on
      exactly one side (outside the string counts as a non-word character). */
  predicate WordBoundary(s: string, k: nat)
    requires k <= |s|
  {
    (k > 0 && IsWordChar(s[k - 1])) != (k < |s| && IsWordChar(s[k]))
  }

  /** The text the pattern `props\.<name>` matches literally. */
  function Reference(name: string): string {
    "props." + name
  }

  /** The pattern `props\.<name>\b` matches at index `i` of `s`. */
  predicate MatchAt(s: string, name: string, i: nat) {
    OccursAt(s, Reference(name), i) && WordBoundary(s, i + |Reference(name)|)
  }

  /** `s.replace(/props\.<name>\b/g, name)`: a global replace scans left to
      right, replaces each match and resumes after it. */
  function ReplaceRefs(s: string, name: string): (r: string)
    ensures |r| <= |s|
    decreases |s|
  {
    if |s| == 0 then ""
    else if MatchAt(s, name, 0) then name + ReplaceRefs(s[|Reference(name)|..], name)
    else [s[0]] + ReplaceRefs(s[1..], name)
  }

  /** The effect of replacing every prop name in turn (the forEach in replacePropsReferences). */
  function ReplaceAll(code: string, names: seq<string>): string {
    if |names| == 0 then code
    else ReplaceRefs(ReplaceAll(code, names[..|names| - 1]), names[|names| - 1])
  }

  /** replacePropsReferences: rewrites `code` once per prop name, in order. */
  method ReplacePropsReferences(code: string, propNames: seq<string>) returns (result: string)
    ensures result == ReplaceAll(code, propNames)
  {
    result := code;
    for i := 0 to |propNames|
      invariant result == ReplaceAll(code, propNames[..i])
    {
      assert propNames[..i + 1][..i] == propNames[..i];
      result := ReplaceRefs(result, propNames[i]);
    }
    assert propNames[..|propNames|] == propNames;
  }

  /** A match shifted by one position: what `ReplaceRefs` sees after copying a character. */
  lemma MatchShift(s: string, name: string, i: nat)
    requires 0 < |s| && i + 1 <= |s|
    ensures MatchAt(s[1..], name, i) <==> MatchAt(s, name, i + 1)
  {
    var p := Reference(name);
    if i + |p| <= |s[1..]| {
      assert s[1..][i..i + |p|] == s[i + 1..i + 1 + |p|];
    }
    if i + |p| + 1 <= |s| {
      assert s[1..][i + |p| - 1] == s[i + |p|];
      if i + |p| < |s[1..]| {
        assert s[1..][i + |p|] == s[i + |p| + 1];
      }
    }
  }

  /** The text is unchanged exactly when the pattern matches nowhere in it:
      every match shortens the text by the six characters of "props.". */
  lemma {:induction false} ReplaceRefsIdentity(s: string, name: string)
    ensures ReplaceRefs(s, name) == s <==> forall i: nat :: i < |s| ==> !MatchAt(s, name, i)
    decreases |s|
  {
    if |s| > 0 {
      if MatchAt(s, name, 0) {
        assert |ReplaceRefs(s, name)| < |s|;
      } else {
        ReplaceRefsIdentity(s[1..], name);
        forall i: nat | i < |s| - 1 ensures MatchAt(s[1..], name, i) <==> MatchAt(s, name, i + 1) {
          MatchShift(s, name, i);
        }
        if ReplaceRefs(s, name) == s {
          assert ReplaceRefs(s[1..], name) == s[1..];
          forall i: nat | i < |s| ensures !MatchAt(s, name, i) {
            if i > 0 {
              assert !MatchAt(s[1..], name, i - 1);
            }
          }
        } else {
          assert exists i: nat :: i < |s| - 1 && MatchAt(s[1..], name, i);
          var i: nat :| i < |s| - 1 && MatchAt(s[1..], name, i);
          assert MatchAt(s, name, i + 1);
        }
      }
    }
  }

  /** A reference at the front of the text is replaced by the bare name. */
  lemma ReplaceRefsFront(name: string, rest: string)
    requires rest == [] || !IsWordChar(rest[0])
    requires name != [] && IsWordChar(name[|name| - 1])
    ensures ReplaceRefs(Reference(name) + rest, name) == name + ReplaceRefs(rest, name)
  {
    var s := Reference(name) + rest;
    assert s[..|Reference(name)|] == Reference(name);
    assert s[|Reference(name)| - 1] == name[|name| - 1];
    assert s[|Reference(name)|..] == rest;
  }

  /** A reference followed by further identifier characters (`props.fromX`
      for the prop `from`) is not a match there. */
  lemma LongerIdentifierNotMatched(name: string, rest: string)
    requires name != [] && IsWordChar(name[|name| - 1])
    requires rest != [] && IsWordChar(rest[0])
    ensures !MatchAt(Reference(name) + rest, name, 0)
  {
    var s := Reference(name) + rest;
    assert s[|Reference(name)| - 1] == name[|name| - 1];
    assert s[|Reference(name)|] == rest[0];
  }

  /** Rewriting with every name in turn leaves text without any reference unchanged. */
  lemma {:induction false} ReplaceAllNoReference(code: string, names: seq<string>)
    requires forall n, i: nat :: n in names && i < |code| ==> !MatchAt(code, n, i)
    ensures ReplaceAll(code, names) == code
  {
    if |names| > 0 {
      ReplaceAllNoReference(code, names[..|names| - 1]);
      ReplaceRefsIdentity(code, names[|names| - 1]);
    }
  }

  /** The context parameter (the second one) destructures `name`. */
  predicate Binds(parameters: seq<Parameter>, name: string) {
    |parameters| > 1 && parameters[1].bindingNames.Some? && name in parameters[1].bindingNames.value
  }

  /** The `useAttrs()`/`useSlots()` declarations for the setup parameters:
      the attrs one comes first and is present iff `attrs` is destructured,
      the slots one comes last and is present iff `slots` is destructured,
      and nothing else is emitted (so the text is empty when neither is). */
  function Declarations(parameters: seq<Parameter>): (r: string)
    ensures StartsWith(r, AttrsDeclaration) <==> Binds(parameters, "attrs")
    ensures EndsWith(r, SlotsDeclaration) <==> Binds(parameters, "slots")
    ensures |r| == (if Binds(parameters, "attrs") then |AttrsDeclaration| else 0) +
                   (if Binds(parameters, "slots") then |SlotsDeclaration| else 0)
  {
    var attrs := if Binds(parameters, "attrs") then AttrsDeclaration else "";
    var slots := if Binds(parameters, "slots") then SlotsDeclaration else "";
    assert AttrsDeclaration[6] != SlotsDeclaration[6];
    assert AttrsDeclaration[|AttrsDeclaration| - 6] != SlotsDeclaration[|SlotsDeclaration| - 6];
    attrs + slots
  }

  /** The context name the emits rewriting is keyed on: the second
      parameter's name, or "" without one. */
  function ContextName(parameters: seq<Parameter>): string {
    if |parameters| > 1 then parameters[1].name else ""
  }

  predicate Kept(s: Statement) {
    !s.ReturnStatement?
  }

  /** One kept statement: its full text, emit-rewritten when there is a
      context name, props-rewritten when there are prop names. */
  function RewriteStatement(text: string, contextName: string, propNames: seq<string>,
                            replaceEmit: (string, string) -> string): string {
    var afterEmit := if contextName != "" then replaceEmit(text, contextName) else text;
    if |propNames| > 0 then ReplaceAll(afterEmit, propNames) else afterEmit
  }

  /** The rewritten texts of the kept statements, concatenated in order
      (the filter, map and `join("")` of the source, taken from the end). */
  function Body(statements: seq<Statement>, contextName: string, propNames: seq<string>,
                replaceEmit: (string, string) -> string): string {
    if |statements| == 0 then ""
    else
      var last := statements[|statements| - 1];
      Body(statements[..|statements| - 1], contextName, propNames, replaceEmit) +
      (if Kept(last) then RewriteStatement(last.fullText, contextName, propNames, replaceEmit) else "")
  }

  lemma {:induction false} BodyAppend(a: seq<Statement>, b: seq<Statement>, contextName: string,
                                      propNames: seq<string>, replaceEmit: (string, string) -> string)
    ensures Body(a + b, contextName, propNames, replaceEmit) ==
            Body(a, contextName, propNames, replaceEmit) + Body(b, contextName, propNames, replaceEmit)
    decreases |b|
  {
    if |b| > 0 {
      assert (a + b)[..|a + b| - 1] == a + b[..|b| - 1];
      BodyAppend(a, b[..|b| - 1], contextName, propNames, replaceEmit);
    } else {
      assert a + b == a;
    }
  }

  /** What convertSetup produces for the method declaration the node locator
      found (`setup`) and the block it found inside it. */
  function SetupCode(setup: Option<SetupMethod>, propNames: seq<string>,
                     replaceEmit: (string, string) -> string): string {
    match setup
    case None => ""
    case Some(m) =>
      match m.block
      case None => ""
      case Some(statements) =>
        Declarations(m.parameters) + Body(statements, ContextName(m.parameters), propNames, replaceEmit)
  }

  /** convertSetup. */
  method ConvertSetup(setup: Option<SetupMethod>, propNames: seq<string>,
                      replaceEmit: (string, string) -> string) returns (code: string)
    ensures code == SetupCode(setup, propNames, replaceEmit)
    ensures setup.None? || setup.value.block.None? ==> code == ""
  {
    if setup.None? {
      return "";
    }
    var m := setup.value;
    var contextName := ContextName(m.parameters);
    var useAttrsDeclaration := "";
    var useSlotsDeclaration := "";
    if |m.parameters| > 1 && m.parameters[1].bindingNames.Some? {
      var elements := m.parameters[1].bindingNames.value;
      if "attrs" in elements {
        useAttrsDeclaration := AttrsDeclaration;
      }
      if "slots" in elements {
        useSlotsDeclaration := SlotsDeclaration;
      }
    }
    if m.block.None? {
      return "";
    }
    var statements := m.block.value;
    var body := "";
    for i := 0 to |statements|
      invariant body == Body(statements[..i], contextName, propNames, replaceEmit)
    {
      assert statements[..i + 1][..i] == statements[..i];
      if statements[i].ReturnStatement? {
        continue;
      }
      var text := statements[i].fullText;
      if contextName != "" {
        text := replaceEmit(text, contextName);
      }
      if |propNames| > 0 {
        text := ReplacePropsReferences(text, propNames);
      }
      body := body + text;
    }
    assert statements[..|statements|] == statements;
    code := useAttrsDeclaration + useSlotsDeclaration + body;
  }

  /** With no context name and no prop names the body is the plain
      concatenation of the non-return statements' full texts. */
  lemma {:induction false} PlainBody(statements: seq<Statement>, replaceEmit: (string, string) -> string)
    ensures Body(statements, "", [], replaceEmit) == Join(Map((s: Statement) => s.fullText, Filter(statements, Kept)), "")
  {
    if |statements| > 0 {
      var init := statements[..|statements| - 1];
      var last := statements[|statements| - 1];
      PlainBody(init, replaceEmit);
      var kept := Filter(init, Kept);
      assert Filter(statements, Kept) == kept + (if Kept(last) then [last] else []);
      if Kept(last) {
        assert RewriteStatement(last.fullText, "", [], replaceEmit) == last.fullText;
        assert Map((s: Statement) => s.fullText, kept + [last]) ==
               Map((s: Statement) => s.fullText, kept) + [last.fullText];
        JoinAppend(Map((s: Statement) => s.fullText, kept), last.fullText, "");
      } else {
        assert kept + [] == kept;
      }
    }
  }

  /** Return statements contribute nothing: inserting one anywhere in the
      block leaves the converted code unchanged. */
  lemma ReturnsDropped(before: seq<Statement>, value: Option<Expr>, text: string, after: seq<Statement>,
                       contextName: string, propNames: seq<string>, replaceEmit: (string, string) -> string)
    ensures Body(before + [ReturnStatement(value, text)] + after, contextName, propNames, replaceEmit) ==
            Body(before + after, contextName, propNames, replaceEmit)
  {
    var ret := [ReturnStatement(value, text)];
    BodyAppend(before + ret, after, contextName, propNames, replaceEmit);
    BodyAppend(before, ret, contextName, propNames, replaceEmit);
    BodyAppend(before, after, contextName, propNames, replaceEmit);
    assert ret[..0] == [];
  }

  /** Text that does not start with "props." is copied one character at a time. */
  lemma CopyFirst(s: string, name: string)
    requires |s| > 0 && !StartsWith(s, "props.")
    ensures ReplaceRefs(s, name) == [s[0]] + ReplaceRefs(s[1..], name)
  {
    if |s| >= |Reference(name)| {
      assert s[..6] == s[..|Reference(name)|][..6];
    }
  }

  /** A prefix without the letter `p` cannot start a reference and is kept as it is. */
  lemma {:induction false} CopyPrefix(x: string, y: string, name: string)
    requires forall i :: 0 <= i < |x| ==> x[i] != 'p'
    ensures ReplaceRefs(x + y, name) == x + ReplaceRefs(y, name)
    decreases |x|
  {
    if |x| > 0 {
      if |x + y| >= 6 {
        assert (x + y)[..6][0] == x[0];
      }
      CopyFirst(x + y, name);
      assert (x + y)[1..] == x[1..] + y;
      CopyPrefix(x[1..], y, name);
      assert ReplaceRefs(x + y, name) == [(x + y)[0]] + ReplaceRefs((x + y)[1..], name);
      assert [x[0]] + (x[1..] + ReplaceRefs(y, name)) == x + ReplaceRefs(y, name);
    } else {
      assert x + y == y;
    }
  }

  predicate NoLetterP(s: string) {
    forall i :: 0 <= i < |s| ==> s[i] != 'p'
  }

  /** No `.` in the text, as in an identifier. */
  predicate NoDot(s: string) {
    forall i :: 0 <= i < |s| ==> s[i] != '.'
  }

  /** A reference to a longer prop (`props.total`, `props.topper`) is not a
      reference to its prefix (`to`, `top`): it is copied unchanged. */
  lemma LongerReferenceKept(a: string, t: string)
    requires a != [] && IsWordChar(a[|a| - 1])
    requires t != [] && IsWordChar(t[0])
    requires NoDot(a + t)
    ensures ReplaceRefs(Reference(a + t), a) == Reference(a + t)
  {
    var s := Reference(a + t);
    LongerReferenceNoMatch(a, t);
    LongerReferenceTail(a, t);
    CopyUnmatched(s, a);
    assert [s[0]] + s[1..] == s;
  }

  lemma LongerReferenceNoMatch(a: string, t: string)
    requires a != [] && IsWordChar(a[|a| - 1])
    requires t != [] && IsWordChar(t[0])
    ensures !MatchAt(Reference(a + t), a, 0)
  {
    assert Reference(a) + t == Reference(a + t);
    LongerIdentifierNotMatched(a, t);
  }

  lemma LongerReferenceTail(a: string, t: string)
    requires NoDot(a + t)
    ensures |Reference(a + t)| > 0
    ensures ReplaceRefs(Reference(a + t)[1..], a) == Reference(a + t)[1..]
  {
    var r := Reference(a + t)[1..];
    assert r == "rops." + (a + t);
    forall k | 5 <= k < |r| ensures r[k] != '.' {
      assert r[k] == (a + t)[k - 5];
    }
    NoLaterDot(r, a);
  }

  /** A match needs the `.` of "props." five characters after its start, so
      text whose only dots come before index 5 holds no match and is kept. */
  lemma NoLaterDot(s: string, name: string)
    requires forall k :: 5 <= k < |s| ==> s[k] != '.'
    ensures ReplaceRefs(s, name) == s
  {
    forall i: nat | i < |s| ensures !MatchAt(s, name, i) {
      ReferenceDot(s, name, i);
    }
    ReplaceRefsIdentity(s, name);
  }

  lemma ReferenceDot(s: string, name: string, i: nat)
    ensures OccursAt(s, Reference(name), i) ==> i + 5 < |s| && s[i + 5] == '.'
  {
    if OccursAt(s, Reference(name), i) {
      assert s[i + 5] == s[i..i + |Reference(name)|][5];
    }
  }

  lemma NoLetterPAppend(a: string, t: string)
    requires NoLetterP(a) && NoLetterP(t)
    ensures NoLetterP(a + t)
  {
  }

  lemma CopyUnmatched(s: string, name: string)
    requires |s| > 0 && !MatchAt(s, name, 0)
    ensures ReplaceRefs(s, name) == [s[0]] + ReplaceRefs(s[1..], name)
  {
  }

  /** First pass of the example below: only the leading reference is rewritten. */
  lemma FirstPass(a: string, t: string, mid: string)
    requires a != [] && IsWordChar(a[|a| - 1])
    requires t != [] && IsWordChar(t[0]) && NoDot(a + t)
    requires mid != [] && !IsWordChar(mid[0]) && NoLetterP(mid)
    ensures ReplaceRefs(Reference(a) + mid + Reference(a + t), a) == a + mid + Reference(a + t)
  {
    var rest := mid + Reference(a + t);
    assert ReplaceRefs(Reference(a) + rest, a) == a + ReplaceRefs(rest, a) by {
      ReplaceRefsFront(a, rest);
    }
    assert ReplaceRefs(rest, a) == mid + Reference(a + t) by {
      CopyPrefix(mid, Reference(a + t), a);
      LongerReferenceKept(a, t);
    }
    assert Reference(a) + mid + Reference(a + t) == Reference(a) + rest;
  }

  /** Second pass of the example below: the remaining reference is rewritten. */
  lemma SecondPass(b: string, prefix: string)
    requires b != [] && IsWordChar(b[|b| - 1])
    requires NoLetterP(prefix)
    ensures ReplaceRefs(prefix + Reference(b), b) == prefix + b
  {
    CopyPrefix(prefix, Reference(b), b);
    assert ReplaceRefs(Reference(b), b) == b by {
      ReplaceRefsFront(b, "");
      assert Reference(b) + "" == Reference(b);
    }
  }

  /** The test case "replace props references with destructured names":
      `props.to === props.total` with the props `to` and `total` becomes
      `to === total`; the first pass leaves `props.total` alone. */
  lemma TwoReferences(a: string, t: string, mid: string)
    requires a != [] && IsWordChar(a[|a| - 1]) && NoLetterP(a)
    requires t != [] && IsWordChar(t[0]) && IsWordChar(t[|t| - 1]) && NoDot(a + t)
    requires mid != [] && !IsWordChar(mid[0]) && NoLetterP(mid)
    ensures ReplaceAll(Reference(a) + mid + Reference(a + t), [a, a + t]) == a + mid + (a + t)
  {
    var code := Reference(a) + mid + Reference(a + t);
    assert [a, a + t][..1] == [a];
    assert [a][..0] == [];
    assert ReplaceAll(code, [a]) == a + mid + Reference(a + t) by {
      FirstPass(a, t, mid);
    }
    assert ReplaceRefs(a + mid + Reference(a + t), a + t) == a + mid + (a + t) by {
      NoLetterPAppend(a, mid);
      SecondPass(a + t, a + mid);
    }
  }
}
