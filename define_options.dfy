/** The defineOptions converter (src/lib/converter/defineOptionsConverter.ts):
    collects the component options that `<script setup>` can only express
    through `defineOptions({...})`. */
module DefineOptionsConverter {
  import opened Util
  import opened Syntax

  /** Options that other converters turn into their own macros or statements. */
  const HandledElsewhere: seq<string> := ["props", "emits", "setup", "components", "name"]
  /** Options that are carried over into `defineOptions`. */
  const CarriedOver: seq<string> := ["inheritAttrs", "customRender", "directives"]

  predicate IsAssignment(m: Member) {
    m.PropertyAssignment? || m.ShorthandAssignment?
  }

  /** An entry the converter keeps. */
  predicate IsDefineOption(m: Member) {
    IsAssignment(m) && m.name !in HandledElsewhere && m.name in CarriedOver
  }

  /** A kept entry's full text, trimmed. */
  function ItemText(m: Member): string {
    Trim(FullText(m))
  }

  /** The kept entries' texts, in source order. */
  function Items(members: seq<Member>): seq<string> {
    if |members| == 0 then []
    else
      var last := members[|members| - 1];
      Items(members[..|members| - 1]) + (if IsDefineOption(last) then [ItemText(last)] else [])
  }

  /** The same list as the source's filter followed by map. */
  lemma {:induction false} ItemsAsFilter(members: seq<Member>)
    ensures Items(members) == Map(ItemText, Filter(members, IsDefineOption))
  {
    if |members| > 0 {
      var init := members[..|members| - 1];
      var last := members[|members| - 1];
      ItemsAsFilter(init);
      if IsDefineOption(last) {
        MapAppend(ItemText, Filter(init, IsDefineOption), last);
      } else {
        assert Filter(init, IsDefineOption) + [] == Filter(init, IsDefineOption);
      }
    }
  }

  function Render(items: seq<string>): string {
    "defineOptions({\n  " + Join(items, ",\n  ") + "\n});"
  }

  /** The options object: the call's first argument when it is an object literal. */
  function OptionsObject(call: CallExpression): Option<seq<Member>> {
    if |call.arguments| > 0 && call.arguments[0].kind.ObjectLiteral?
    then Some(call.arguments[0].kind.members)
    else None
  }

  /** What convertDefineOptions returns. */
  function OptionsCode(call: CallExpression): string {
    match OptionsObject(call)
    case None => ""
    case Some(members) => if Items(members) == [] then "" else Render(Items(members))
  }

  /** convertDefineOptions. */
  method ConvertDefineOptions(call: CallExpression) returns (code: string)
    ensures code == OptionsCode(call)
  {
    if |call.arguments| == 0 || !call.arguments[0].kind.ObjectLiteral? {
      return "";
    }
    var properties := call.arguments[0].kind.members;
    var optionsProperties: seq<string> := [];
    for i := 0 to |properties|
      invariant optionsProperties == Items(properties[..i])
    {
      var prop := properties[i];
      assert properties[..i + 1][..i] == properties[..i];
      if prop.PropertyAssignment? || prop.ShorthandAssignment? {
        var name := prop.name;
        if name == "props" || name == "emits" || name == "setup" || name == "components" || name == "name" {
          continue;
        }
        if name == "inheritAttrs" || name == "customRender" || name == "directives" {
          optionsProperties := optionsProperties + [ItemText(prop)];
        }
      }
    }
    assert properties[..|properties|] == properties;
    if |optionsProperties| == 0 {
      return "";
    }
    code := Render(optionsProperties);
  }

  /** An entry is carried over exactly when it is a property or shorthand
      assignment named inheritAttrs, customRender or directives; entries
      handled elsewhere and method declarations such as `setup() {}` never are. */
  lemma KeptEntries(members: seq<Member>)
    ensures forall m :: m in Filter(members, IsDefineOption) <==>
              m in members && IsAssignment(m) && m.name in CarriedOver
    ensures forall m :: m in members && (m.MethodDeclaration? || m.OtherMember?) ==>
              m !in Filter(members, IsDefineOption)
    ensures forall m :: m in members && IsAssignment(m) && m.name in HandledElsewhere ==>
              m !in Filter(members, IsDefineOption)
    ensures |Items(members)| <= |members|
  {
    FilterMembers(members, IsDefineOption);
    ItemsAsFilter(members);
  }

  /** The test case "ignores props, emits, setup, components": an options
      object whose entries are all handled elsewhere (or are methods) yields
      no defineOptions call. */
  lemma NothingCarriedOver(members: seq<Member>)
    requires forall m :: m in members ==> !IsAssignment(m) || m.name in HandledElsewhere
    ensures Items(members) == []
  {
    FilterNone(members, IsDefineOption);
    ItemsAsFilter(members);
  }

  /** The result is "" exactly when there is no options object or nothing in
      it is carried over, so an empty `defineOptions({})` is never produced;
      otherwise it is the kept entries' trimmed texts, in source order,
      inside `defineOptions({...})`. */
  lemma OptionsCodeCases(call: CallExpression)
    ensures OptionsCode(call) == "" <==>
              OptionsObject(call).None? || Filter(OptionsObject(call).value, IsDefineOption) == []
    ensures OptionsCode(call) != "" ==>
              OptionsCode(call) ==
                "defineOptions({\n  " + Join(Map(ItemText, Filter(OptionsObject(call).value, IsDefineOption)), ",\n  ") + "\n});"
  {
    if OptionsObject(call).Some? {
      ItemsAsFilter(OptionsObject(call).value);
    }
  }
}
