/** The props converter (src/lib/converter/propsConverter.ts): turns the
    `props` option of the definition call into either a runtime
    `defineProps({...})` call (loose mode) or a `type Props` alias plus a
    destructured `defineProps<Props>()` (typed mode, lang "ts"). */
module PropsConverter {
  import opened Util
  import opened Syntax

  const PropsEmpty := "props is empty."
  const PropsNotFound := "props not found."
  const PropertyNotFound := "property not found."
  const PropsPropertyNotFound := "props property not found."
  /** The TypeError the runtime raises when a `default()`/`required()` method
      body has no return statement and the converter reads its expression. */
  const NoReturnStatement := "Cannot read properties of undefined (reading 'getExpression')"
  /** The TypeError the runtime raises for `X as T` when T is a type reference without type arguments. */
  const NoTypeArgument := "Cannot read properties of undefined (reading 'getType')"

  /** A `required`/`default` option value: the text the converter keeps, or a boolean literal. */
  datatype DefaultValue = DText(text: string) | DBool(b: bool)

  /** A prop after analysis. `typeValue` None stands for the JavaScript value
      `undefined`, which the generated text spells "undefined". */
  datatype PropShape =
    | Descriptor(typeValue: Option<string>, required: bool, defaultValue: Option<DefaultValue>)
    | TypeOnly(typeValue: Option<string>)

  datatype Prop = Prop(name: string, shape: PropShape)

  datatype PropsResult = PropsResult(code: string, isDestructuring: bool, propNames: seq<string>)

  /** The constructor-name table for shorthand props and descriptor `type` fields. */
  function TypeMapping(constructorName: string): (r: Option<string>)
    ensures r.Some? <==> constructorName in ["String", "Number", "Boolean", "Object", "Function"]
  {
    if constructorName == "String" then Some("string")
    else if constructorName == "Number" then Some("number")
    else if constructorName == "Boolean" then Some("boolean")
    else if constructorName == "Object" then Some("any")
    else if constructorName == "Function" then Some("Function")
    else None
  }

  function RenderType(t: Option<string>): string {
    match t
    case Some(s) => s
    case None => "undefined"
  }

  /** JavaScript truthiness of the `required` option value. */
  predicate Truthy(v: Option<DefaultValue>) {
    match v
    case None => false
    case Some(DBool(b)) => b
    case Some(DText(s)) => s != ""
  }

  /** A prop is optional unless it is required and has no default. */
  predicate IsOptional(required: bool, defaultValue: Option<DefaultValue>) {
    !required || defaultValue.Some?
  }

  predicate IsNamedOption(m: Member, key: string) {
    (m.PropertyAssignment? || m.MethodDeclaration?) && m.name == key
  }

  predicate IsTypeProperty(m: Member) {
    m.PropertyAssignment? && m.name == "type"
  }

  predicate IsReturn(s: Statement) {
    s.ReturnStatement?
  }

  /** The value kept for a `required`/`default` property assignment. */
  function OptionValue(init: Expr): DefaultValue {
    match init.kind
    case Identifier => DText(init.text)
    case ArrowFunction(body, firstReturn) =>
      (match firstReturn
       case None =>
         (match body
          case ExpressionBody(e) =>
            (match e.kind
             case Parenthesized(inner) => DText("() => (" + inner.text + ")")
             case ArrowFunction(_, _) => DText("() => (" + e.text + ")")
             case _ => DText(init.text))
          case BlockBody(_) => DText(init.text))
       case Some(value) =>
         if value.Some? && IsObjectOrArray(value.value) then DText("() => (" + value.value.text + ")")
         else DText(init.text))
    case TrueKeyword => DBool(true)
    case FalseKeyword => DBool(false)
    case _ => DText(init.text)
  }

  /** The `required` or `default` option of a prop descriptor (getPropsOption). */
  function GetPropsOption(key: string, members: seq<Member>): (r: Result<Option<DefaultValue>>)
    ensures (forall m :: m in members ==> !IsNamedOption(m, key)) ==> r == Ok(None)
    ensures r.Ok? && r.value.Some? ==> exists m :: m in members && IsNamedOption(m, key)
  {
    match Find(members, m => IsNamedOption(m, key))
    case None => Ok(None)
    case Some(m) =>
      if m.MethodDeclaration? then
        match m.body
        case None => Ok(None)
        case Some(statements) =>
          match Find(statements, IsReturn)
          case None => Err(NoReturnStatement)
          case Some(st) =>
            if st.value.Some? && IsObjectOrArray(st.value.value)
            then Ok(Some(DText("() => (" + st.value.value.text + ")")))
            else Ok(None)
      else Ok(Some(OptionValue(m.init)))
  }

  /** Type inferred from an arrow-function default (getPropTypeByArrowFunction). */
  function InferFromArrow(body: ArrowBody): Option<string> {
    match body
    case BlockBody(statements) =>
      if |statements| > 0 && statements[0].ReturnStatement? && statements[0].value.Some? &&
         IsObjectOrArray(statements[0].value.value)
      then Some(statements[0].value.value.typeText)
      else None
    case ExpressionBody(e) =>
      if e.kind.ArrayLiteral? then Some(e.typeText)
      else if e.kind.Parenthesized? then Some(e.kind.inner.typeText)
      else None
  }

  /** Type inferred from the `default` option, if it has a literal shape. */
  function InferFromDefault(defaultOption: Option<Member>): Result<Option<string>> {
    match defaultOption
    case None => Ok(None)
    case Some(m) =>
      if m.MethodDeclaration? then
        match m.body
        case None => Ok(None)
        case Some(statements) =>
          match Find(statements, IsReturn)
          case None => Err(NoReturnStatement)
          case Some(st) =>
            if st.value.Some? && IsObjectOrArray(st.value.value)
            then Ok(Some(st.value.value.typeText))
            else Ok(None)
      else if m.PropertyAssignment? && m.init.kind.ArrowFunction? then Ok(InferFromArrow(m.init.kind.body))
      else Ok(None)
  }

  /** The static type of `X as T` (getPropTypeValue, with `?? ""`). */
  function CastTypeText(target: CastTarget): Result<string> {
    match target
    case TypeReference(Some(t)) => Ok(t)
    case TypeReference(None) => Err(NoTypeArgument)
    case OtherType => Ok("")
  }

  /** The static type of a prop descriptor (getTypeValue). */
  function GetTypeValue(members: seq<Member>): (r: Result<Option<string>>)
    ensures (forall d :: d in members ==> !IsTypeProperty(d)) ==> r == Err(PropsPropertyNotFound)
    ensures r.Ok? ==> exists d :: d in members && IsTypeProperty(d)
  {
    var typeProperty := Find(members, IsTypeProperty);
    var defaultOption := Find(members, m => IsNamedOption(m, "default"));
    if typeProperty.None? then Err(PropsPropertyNotFound)
    else
      var inferred :- InferFromDefault(defaultOption);
      if inferred.Some? && inferred.value != "" then Ok(inferred)
      else
        var init := typeProperty.value.init;
        if init.kind.AsExpression? then
          var t :- CastTypeText(init.kind.target);
          Ok(Some(t))
        else Ok(TypeMapping(init.text))
  }

  /** A prop given as a descriptor object (convertPropsWithObject). */
  function ConvertPropsWithObject(members: seq<Member>): Result<PropShape> {
    var typeValue :- GetTypeValue(members);
    var required :- GetPropsOption("required", members);
    var defaultValue :- GetPropsOption("default", members);
    Ok(Descriptor(typeValue, Truthy(required), defaultValue))
  }

  /** One entry of the `props` object in typed mode. */
  function ConvertEntry(m: Member): (r: Result<Prop>)
    ensures r.Ok? ==> m.PropertyAssignment? && r.value.name == m.name
    ensures !m.PropertyAssignment? ==> r == Err(PropertyNotFound)
  {
    if !m.PropertyAssignment? then Err(PropertyNotFound)
    else
      match m.init.kind
      case ObjectLiteral(descriptor) =>
        var shape :- ConvertPropsWithObject(descriptor);
        Ok(Prop(m.name, shape))
      case AsExpression(target) =>
        var t :- CastTypeText(target);
        Ok(Prop(m.name, TypeOnly(Some(t))))
      case _ => Ok(Prop(m.name, TypeOnly(TypeMapping(m.init.text))))
  }

  /** All entries, in source order; the first failing entry's error is thrown. */
  function ConvertEntries(members: seq<Member>): (r: Result<seq<Prop>>)
    ensures r.Ok? ==> |r.value| == |members| &&
                      forall k :: 0 <= k < |members| ==> ConvertEntry(members[k]) == Ok(r.value[k])
    ensures r.Err? ==> exists k :: 0 <= k < |members| && ConvertEntry(members[k]) == Err(r.error) &&
                                   forall j :: 0 <= j < k ==> ConvertEntry(members[j]).Ok?
  {
    if |members| == 0 then Ok([])
    else
      var p :- ConvertEntry(members[0]);
      var rest := ConvertEntries(members[1..]);
      if rest.Err? then
        assert exists k :: 1 <= k < |members| && ConvertEntry(members[k]) == Err(rest.error) &&
                           forall j :: 0 <= j < k ==> ConvertEntry(members[j]).Ok? by {
          var k :| 0 <= k < |members| - 1 && ConvertEntry(members[1..][k]) == Err(rest.error) &&
                   forall j :: 0 <= j < k ==> ConvertEntry(members[1..][j]).Ok?;
          assert forall j :: 1 <= j < k + 1 ==> ConvertEntry(members[j]).Ok? by {
            forall j | 1 <= j < k + 1 ensures ConvertEntry(members[j]).Ok? {
              assert members[j] == members[1..][j - 1];
            }
          }
          assert members[k + 1] == members[1..][k];
        }
        Err(rest.error)
      else
        Ok([p] + rest.value)
  }

  /** A line of the generated `type Props` alias. */
  function MemberLine(p: Prop): string {
    match p.shape
    case Descriptor(t, required, defaultValue) =>
      p.name + (if IsOptional(required, defaultValue) then "?" else "") + ": " + RenderType(t) + ";"
    case TypeOnly(t) => p.name + "?: " + RenderType(t) + ";"
  }

  /** An entry of the destructuring pattern. */
  function DestructuringParam(p: Prop): string {
    if p.shape.Descriptor? && p.shape.defaultValue.Some?
    then p.name + " = " + SimplifyDefaultValue(p.shape.defaultValue.value)
    else p.name
  }

  function TypeAlias(props: seq<Prop>): string {
    "type Props = {" + Join(Map(MemberLine, props), "\n") + "};"
  }

  function DestructuringDeclaration(props: seq<Prop>): string {
    "const { " + Join(Map(DestructuringParam, props), ", ") + " } = defineProps<Props>();"
  }

  /** `s[lo..hi]` for some bounds: the value is a contiguous slice of `s`. */
  predicate IsSliceOf(r: string, s: string) {
    exists lo, hi :: 0 <= lo <= hi <= |s| && r == s[lo..hi]
  }

  /** Shortens a default value's text for the destructuring (simplifyDefaultValue). */
  function SimplifyDefaultValue(v: DefaultValue): (r: string)
    ensures v.DBool? ==> r == (if v.b then "true" else "false")
    ensures v.DText? ==> IsSliceOf(r, v.text)
  {
    match v
    case DBool(b) => if b then "true" else "false"
    case DText(s) =>
      if StartsWith(s, "() => (") && EndsWith(s, ")") then
        assert s[6] == '(' && s[|s| - 1] == ')';
        // Both branches of the source (content with or without "=>") return the inner text.
        s[7..|s| - 1]
      else if StartsWith(s, "() => ") then
        assert s[6..] == s[6..|s|];
        s[6..]
      else if StartsWith(s, "(") && EndsWith(s, ")") && !Contains(s, "() =>") then
        assert s[0] == '(' && s[|s| - 1] == ')';
        s[1..|s| - 1]
      else
        assert s == s[0..|s|];
        s
  }

  /** `() => (X)` simplifies to exactly X, whatever X is (an object literal,
      an array literal, or a function whose text must stay intact). */
  lemma SimplifyUnwrapsParenthesizedArrow(x: string)
    ensures SimplifyDefaultValue(DText("() => (" + x + ")")) == x
  {
    var s := "() => (" + x + ")";
    assert s[..7] == "() => (";
    assert s[|s| - 1..] == ")";
    assert s[7..|s| - 1] == x;
  }

  /** `() => X` simplifies to X when X is not itself wrapped in parentheses. */
  lemma SimplifyUnwrapsArrow(x: string)
    requires !(StartsWith(x, "(") && EndsWith(x, ")"))
    ensures SimplifyDefaultValue(DText("() => " + x)) == x
  {
    var s := "() => " + x;
    assert s[..6] == "() => ";
    assert s[6..] == x;
    if |x| > 0 {
      assert s[6] == x[0] && s[|s| - 1] == x[|x| - 1];
      assert x[..1] == [x[0]] && x[|x| - 1..] == [x[|x| - 1]];
    }
  }

  /** `(X)` loses its parentheses when it holds no `() =>`. */
  lemma SimplifyUnwrapsParentheses(x: string)
    requires !Contains("(" + x + ")", "() =>")
    ensures SimplifyDefaultValue(DText("(" + x + ")")) == x
  {
    var s := "(" + x + ")";
    ArrowPrefixContains(s);
    Parenthesised(x);
  }

  lemma ArrowPrefixContains(s: string)
    ensures StartsWith(s, "() => ") ==> Contains(s, "() =>")
    ensures StartsWith(s, "() => (") ==> Contains(s, "() =>")
    ensures StartsWith(s, "() => (") ==> StartsWith(s, "() => ")
  {
    if |s| >= 7 && s[..7] == "() => (" {
      assert s[..6] == s[..7][..6];
    }
    if |s| >= 5 && s[..5] == "() =>" {
      assert OccursAt(s, "() =>", 0);
    }
  }

  lemma Parenthesised(x: string)
    ensures StartsWith("(" + x + ")", "(") && EndsWith("(" + x + ")", ")")
    ensures ("(" + x + ")")[1..|x| + 1] == x
  {
    var s := "(" + x + ")";
    assert s[..1] == "(" && s[|s| - 1..] == ")";
  }

  /** Any other text is kept as it is: text that does not start with
      `() => ` and is not a parenthesised text free of `() =>`, so
      `(() => 1)` is kept too. */
  lemma SimplifyKeepsOtherText(s: string)
    requires !StartsWith(s, "() => ")
    requires !(StartsWith(s, "(") && EndsWith(s, ")") && !Contains(s, "() =>"))
    ensures SimplifyDefaultValue(DText(s)) == s
  {
    ArrowPrefixContains(s);
  }

  /** Loose mode (convertToDefineProps). */
  function ConvertToDefineProps(node: PropsAssignment): (r: Result<string>)
    ensures r.Err? <==> node.initializer.None?
    ensures r.Err? ==> r.error == PropsEmpty
  {
    match node.initializer
    case None => Err(PropsEmpty)
    case Some(child) =>
      if child.kind.ObjectLiteral? then
        Ok("const props = defineProps({" + Join(Map((m: Member) => m.text, child.kind.members), ",") + "});")
      else
        Ok("const props = defineProps(" + child.leading + child.text + ");")
  }

  /** Typed mode (convertToDestructuringDefineProps). */
  function ConvertToDestructuringDefineProps(node: PropsAssignment): (r: Result<string>)
    ensures node.initializer.None? ==> r == Err(PropsEmpty)
    ensures node.initializer.Some? && !node.initializer.value.kind.ObjectLiteral? ==> r == Err(PropsNotFound)
  {
    match node.initializer
    case None => Err(PropsEmpty)
    case Some(child) =>
      if !child.kind.ObjectLiteral? then Err(PropsNotFound)
      else
        var props :- ConvertEntries(child.kind.members);
        Ok(TypeAlias(props) + DestructuringDeclaration(props))
  }

  predicate IsPropertyAssignment(m: Member) {
    m.PropertyAssignment?
  }

  /** Names of the property-assignment entries (extractPropNames). */
  function ExtractPropNames(node: PropsAssignment): seq<string> {
    match node.initializer
    case None => []
    case Some(child) =>
      if !child.kind.ObjectLiteral? then []
      else Map(MemberName, Filter(child.kind.members, IsPropertyAssignment))
  }

  function MemberName(m: Member): string {
    if m.OtherMember? then "" else m.name
  }

  /** The converter's entry point (convertProps); `propsOption` is the
      `props` property the node locator found, if any. */
  function ConvertProps(propsOption: Option<PropsAssignment>, lang: string): (r: Result<PropsResult>)
    ensures propsOption.None? ==> r == Ok(PropsResult("", false, []))
    ensures r.Ok? && lang != "ts" ==> !r.value.isDestructuring && r.value.propNames == []
  {
    match propsOption
    case None => Ok(PropsResult("", false, []))
    case Some(node) =>
      if lang == "ts" then
        var code :- ConvertToDestructuringDefineProps(node);
        Ok(PropsResult(code, true, ExtractPropNames(node)))
      else
        var code :- ConvertToDefineProps(node);
        Ok(PropsResult(code, false, []))
  }

  /** The typed-mode-only entry point (convertPropsToDestructuring): the
      code, or the error, of the "ts" conversion by the main entry point. */
  function ConvertPropsToDestructuring(propsOption: Option<PropsAssignment>): (r: Result<string>)
    ensures propsOption.None? ==> r == Ok("")
    ensures r.Ok? <==> ConvertProps(propsOption, "ts").Ok?
    ensures r.Ok? ==> r.value == ConvertProps(propsOption, "ts").value.code
    ensures r.Err? ==> r.error == ConvertProps(propsOption, "ts").error
  {
    match propsOption
    case None => Ok("")
    case Some(node) => ConvertToDestructuringDefineProps(node)
  }

  /** Loose mode keeps each entry's text, joined by ",", inside a runtime
      `defineProps({...})`, and reports no prop names. */
  lemma LooseModeText(node: PropsAssignment, lang: string)
    requires lang != "ts" && node.initializer.Some? && node.initializer.value.kind.ObjectLiteral?
    ensures var members := node.initializer.value.kind.members;
            ConvertProps(Some(node), lang) ==
              Ok(PropsResult("const props = defineProps({" + Join(Map((m: Member) => m.text, members), ",") + "});", false, []))
  {
  }

  /** In typed mode a successful conversion saw only property assignments,
      so the reported prop names are the entries' names, in source order,
      one per generated destructuring parameter. */
  lemma TypedModePropNames(node: PropsAssignment)
    requires ConvertProps(Some(node), "ts").Ok?
    ensures node.initializer.Some? && node.initializer.value.kind.ObjectLiteral?
    ensures var members := node.initializer.value.kind.members;
            var r := ConvertProps(Some(node), "ts").value;
            r.isDestructuring && |r.propNames| == |members| &&
            forall k :: 0 <= k < |members| ==> members[k].PropertyAssignment? && r.propNames[k] == members[k].name
    ensures var members := node.initializer.value.kind.members;
            var props := ConvertEntries(members).value;
            ConvertEntries(members).Ok? &&
            ConvertProps(Some(node), "ts").value.code == TypeAlias(props) + DestructuringDeclaration(props) &&
            forall k :: 0 <= k < |members| ==> props[k].name == ConvertProps(Some(node), "ts").value.propNames[k]
  {
    var members := node.initializer.value.kind.members;
    var props := ConvertEntries(members).value;
    forall k | 0 <= k < |members| ensures members[k].PropertyAssignment? {
      assert ConvertEntry(members[k]) == Ok(props[k]);
    }
    FilterIdentity(members, IsPropertyAssignment);
  }

  /** The three errors typed mode raises: no object literal, an entry that is
      not a property assignment (the first failing entry decides), and a
      descriptor object without a `type` property. */
  lemma TypedModeErrors(node: PropsAssignment)
    ensures node.initializer.Some? && !node.initializer.value.kind.ObjectLiteral? ==>
              ConvertProps(Some(node), "ts") == Err(PropsNotFound)
    ensures node.initializer.Some? && node.initializer.value.kind.ObjectLiteral? ==>
              var members := node.initializer.value.kind.members;
              forall k :: 0 <= k < |members| && !members[k].PropertyAssignment? &&
                          (forall j :: 0 <= j < k ==> ConvertEntry(members[j]).Ok?) ==>
                            ConvertProps(Some(node), "ts") == Err(PropertyNotFound)
  {
    if node.initializer.Some? && node.initializer.value.kind.ObjectLiteral? {
      var members := node.initializer.value.kind.members;
      forall k | 0 <= k < |members| && !members[k].PropertyAssignment? &&
                 (forall j :: 0 <= j < k ==> ConvertEntry(members[j]).Ok?)
        ensures ConvertProps(Some(node), "ts") == Err(PropertyNotFound)
      {
        FirstFailureDecides(members, k);
        TypedModeEntriesError(node);
      }
    }
  }

  /** The first entry that fails decides the error of the whole list. */
  lemma {:induction false} FirstFailureDecides(members: seq<Member>, k: int)
    requires 0 <= k < |members| && ConvertEntry(members[k]).Err?
    requires forall j :: 0 <= j < k ==> ConvertEntry(members[j]).Ok?
    ensures ConvertEntries(members) == Err(ConvertEntry(members[k]).error)
    decreases k
  {
    if k > 0 {
      assert ConvertEntry(members[0]).Ok?;
      var tail := members[1..];
      assert tail[k - 1] == members[k];
      forall j | 0 <= j < k - 1 ensures ConvertEntry(tail[j]).Ok? {
        assert tail[j] == members[j + 1];
      }
      FirstFailureDecides(tail, k - 1);
    }
  }

  /** In typed mode an error of the entries is the error of the conversion. */
  lemma TypedModeEntriesError(node: PropsAssignment)
    requires node.initializer.Some? && node.initializer.value.kind.ObjectLiteral?
    requires ConvertEntries(node.initializer.value.kind.members).Err?
    ensures ConvertProps(Some(node), "ts") == Err(ConvertEntries(node.initializer.value.kind.members).error)
  {
  }

  /** A descriptor object with no `type` property is rejected. */
  lemma DescriptorWithoutType(m: Member)
    requires m.PropertyAssignment? && m.init.kind.ObjectLiteral?
    requires forall d :: d in m.init.kind.members ==> !IsTypeProperty(d)
    ensures ConvertEntry(m) == Err(PropsPropertyNotFound)
  {
  }

  /** An object descriptor's line carries "?" exactly when the prop is not
      required or has a default (so `required: true` with a default is
      optional), and its destructuring entry is `name = <simplified default>`
      when a default is present and the bare name otherwise. */
  lemma DescriptorOptionality(m: Member)
    requires m.PropertyAssignment? && m.init.kind.ObjectLiteral?
    requires ConvertEntry(m).Ok?
    ensures var d := m.init.kind.members;
            var p := ConvertEntry(m).value;
            var required := GetPropsOption("required", d).value;
            var dflt := GetPropsOption("default", d).value;
            p.shape.Descriptor? && p.shape.defaultValue == dflt &&
            (MemberLine(p) == m.name + "?: " + RenderType(p.shape.typeValue) + ";" <==>
               !Truthy(required) || dflt.Some?) &&
            (!Truthy(required) || dflt.Some? || MemberLine(p) == m.name + ": " + RenderType(p.shape.typeValue) + ";") &&
            (DestructuringParam(p) == m.name <==> dflt.None?)
    ensures var p := ConvertEntry(m).value;
            var dflt := GetPropsOption("default", m.init.kind.members).value;
            dflt.Some? ==> DestructuringParam(p) == m.name + " = " + SimplifyDefaultValue(dflt.value)
  {
    var d := m.init.kind.members;
    var p := ConvertEntry(m).value;
    assert p.shape == Descriptor(GetTypeValue(d).value, Truthy(GetPropsOption("required", d).value),
                                 GetPropsOption("default", d).value);
    DescriptorLine(p);
  }

  /** A descriptor prop's line carries "?" exactly when it is optional, and
      its destructured name carries `= <simplified default>` exactly when it
      has a default. */
  lemma DescriptorLine(p: Prop)
    requires p.shape.Descriptor?
    ensures var t := RenderType(p.shape.typeValue);
            (MemberLine(p) == p.name + "?: " + t + ";" <==> IsOptional(p.shape.required, p.shape.defaultValue)) &&
            (IsOptional(p.shape.required, p.shape.defaultValue) || MemberLine(p) == p.name + ": " + t + ";") &&
            (DestructuringParam(p) == p.name <==> p.shape.defaultValue.None?)
    ensures p.shape.defaultValue.Some? ==>
              DestructuringParam(p) == p.name + " = " + SimplifyDefaultValue(p.shape.defaultValue.value)
  {
    var t := RenderType(p.shape.typeValue);
    if !IsOptional(p.shape.required, p.shape.defaultValue) {
      assert |MemberLine(p)| == |p.name + "?: " + t + ";"| - 1;
    }
    if p.shape.defaultValue.Some? {
      assert |DestructuringParam(p)| > |p.name|;
    }
  }

  /** Shorthand props (`name: String`) and cast props (`name: X as PropType<T>`)
      are always optional and never get a default in the destructuring; a
      shorthand's type comes from the constructor table. */
  lemma TypeOnlyEntry(m: Member)
    requires m.PropertyAssignment? && !m.init.kind.ObjectLiteral?
    requires ConvertEntry(m).Ok?
    ensures var p := ConvertEntry(m).value;
            p.shape.TypeOnly? &&
            MemberLine(p) == m.name + "?: " + RenderType(p.shape.typeValue) + ";" &&
            DestructuringParam(p) == m.name
    ensures !m.init.kind.AsExpression? ==> ConvertEntry(m).value.shape.typeValue == TypeMapping(m.init.text)
    ensures m.init.kind.AsExpression? ==> ConvertEntry(m).value.shape.typeValue == Some(CastTypeText(m.init.kind.target).value)
  {
  }

  /** An empty `props: {}` in typed mode. */
  lemma EmptyPropsText(node: PropsAssignment)
    requires node.initializer.Some? && node.initializer.value.kind == ObjectLiteral([])
    ensures ConvertProps(Some(node), "ts") ==
              Ok(PropsResult("type Props = {};" + "const {  } = defineProps<Props>();", true, []))
  {
    assert ConvertEntries([]) == Ok([]);
    assert ExtractPropNames(node) == [] by {
      assert Filter([], IsPropertyAssignment) == [];
    }
    EmptyTypeAlias();
    EmptyDestructuring();
    assert ConvertToDestructuringDefineProps(node) == Ok(TypeAlias([]) + DestructuringDeclaration([]));
  }

  lemma EmptyTypeAlias()
    ensures TypeAlias([]) == "type Props = {};"
  {
    var lines := Map(MemberLine, []);
    assert |lines| == 0;
    assert Join(lines, "\n") == [];
  }

  lemma EmptyDestructuring()
    ensures DestructuringDeclaration([]) == "const {  } = defineProps<Props>();"
  {
    var params := Map(DestructuringParam, []);
    assert |params| == 0;
    assert Join(params, ", ") == [];
  }
}
