# Vue Options API to `<script setup>` converter: a Dafny model

The converter rewrites a Vue single-file component written with the Options API, such as `export default defineComponent({ props, setup() {...} })`, into a `<script setup>` block. The block holds:

- the imports the result needs;
- the original script's other statements;
- the component declarations;
- a `defineOptions({...})` call for the options that have no macro of their own;
- Nuxt page metadata;
- a props declaration;
- the emits declaration;
- the body of `setup()`, with its `return` dropped.

A small command-line driver converts one file or every `.vue` file of a directory tree. It either prints the result, writes it to an output file, or splices it back into the component file in place. At the end it reports how many files were converted, skipped or failed.

The project models this core in Dafny, one module per source file:

| module | file | source |
|---|---|---|
| `Util` | `util.dfy` | `Option`, `Result`, and the JavaScript string operations the code relies on: `startsWith`, `endsWith`, `includes`, `join`, `filter`, `find`, `trim`, and the regex classes `\s` and `\w` |
| `Syntax` | `syntax.dfy` | the parts of the TypeScript syntax tree the converters read |
| `PropsConverter` | `props.dfy` | `src/lib/converter/propsConverter.ts` |
| `SetupConverter` | `setup.dfy` | `src/lib/converter/setupConverter.ts` |
| `DefineOptionsConverter` | `define_options.dfy` | `src/lib/converter/defineOptionsConverter.ts` |
| `Orchestrator` | `orchestrator.dfy` | `src/lib/convertSrc.ts` |
| `Cli` | `cli.dfy` | the argument parser, the script-block splice and the per-file tally of `src/cli.ts` |

The modelling follows the source's own form:

- **Pure code becomes functions.** The props converter, the filters, the splice and the wrapper are functions over datatypes.
- **Loops become methods with invariants.** These are `ReplacePropsReferences` (the `forEach` that rewrites a local string), `ConvertDefineOptions` (the `for`/`continue` loop pushing onto an array), `ParseArgs` (the index loop with `args[++i]`) and `ProcessDirectory` (counters incremented per entry, with recursion into subdirectories). Each is proved equal to a specification function, and the properties are lemmas about that function.
- **Objects mutated in place become classes.**
  - `ImportMap`'s first group gains helper specifiers in place, through `push`.
  - `StatementBuilder` is the new source file that statements are appended to.

The syntax tree is taken as given: each node carries the text the tree reports for it. The node locator ("the first node of kind X") is represented by fields holding its answer. Type text that the TypeScript checker infers is an opaque string.

### Behaviour of the code worth knowing

The model follows the code in each of these cases, even where the code's own comments suggest something else.

- **Missing type:** `typeMapping` (`propsConverter.ts:395-401`) has no fallback entry. A shorthand prop whose constructor is not one of the five names gets the type text `undefined` in the generated alias (`propsConverter.ts:444`).
- **Arrow defaults:** the comments at `propsConverter.ts:489-490` and `propsConverter.ts:495` say a default `() => (X)` whose `X` is itself a function keeps its wrapper. Both branches at `propsConverter.ts:494-498` return the same inner slice, so `X` is returned unwrapped either way.
- **Reference pattern:** the props-reference pattern is `props\.<name>\b` (`setupConverter.ts:74`), with no `\b` before `props`. So `myprops.x` is rewritten to `myx` as well.

## Model

| member | source | states |
|---|---|---|
| `PropsConverter.TypeMapping` | src/lib/converter/propsConverter.ts:395-401 | the table gives a type exactly for the five constructor names String, Number, Boolean, Object and Function |
| `PropsConverter.ConvertEntry` | src/lib/converter/propsConverter.ts:419-447 | a prop entry converts only when it is a property assignment, and the prop keeps the entry's name; any other entry fails with "property not found." |
| `PropsConverter.ConvertEntries` | src/lib/converter/propsConverter.ts:419-447 | on success there is exactly one prop per entry, in source order; on failure the error is that of the first failing entry, and every earlier entry converts |
| `PropsConverter.SimplifyDefaultValue` | src/lib/converter/propsConverter.ts:483-511 | a boolean default becomes "true" or "false"; a text default always becomes a contiguous slice of its text |
| `PropsConverter.SimplifyUnwrapsParenthesizedArrow` | src/lib/converter/propsConverter.ts:491-499 | `() => (X)` becomes exactly X, for every X, whether or not X contains an arrow |
| `PropsConverter.SimplifyUnwrapsArrow` | src/lib/converter/propsConverter.ts:500-503 | `() => X` becomes X when X is not wrapped in parentheses |
| `PropsConverter.SimplifyUnwrapsParentheses` | src/lib/converter/propsConverter.ts:504-507 | `(X)` loses its parentheses when the text holds no `() =>` |
| `PropsConverter.SimplifyKeepsOtherText` | src/lib/converter/propsConverter.ts:505-511 | a text that does not start with `() => ` is returned unchanged unless it is a parenthesised text without `() =>`; so `(() => 1)` and plain literals are kept |
| `PropsConverter.ConvertProps` | src/lib/converter/propsConverter.ts:15-30 | with no `props` option the result is empty code, not destructuring, with no names; outside "ts" a result never destructures and reports no names |
| `PropsConverter.ConvertPropsToDestructuring` | src/lib/converter/propsConverter.ts:32-43 | the typed-only entry point gives exactly the code, or exactly the error, that the main entry point gives in "ts" mode; without a `props` option it gives "" |
| `PropsConverter.LooseModeText` | src/lib/converter/propsConverter.ts:22-29 | for any lang other than "ts", an object of props becomes `const props = defineProps({` followed by the entry texts joined by "," and then `});`, with no prop names |
| `PropsConverter.TypedModePropNames` | src/lib/converter/propsConverter.ts:514-525 | a successful typed conversion saw only property assignments; its prop names are exactly the entries' names in source order, one per generated prop, and the code is the type alias followed by the destructuring |
| `PropsConverter.TypedModeErrors` | src/lib/converter/propsConverter.ts:413-422 | a `props` value that is not an object literal fails with "props not found."; a non-property entry preceded only by convertible entries fails with "property not found." |
| `PropsConverter.FirstFailureDecides` | src/lib/converter/propsConverter.ts:419-422 | the first entry that fails decides the error of the whole entry list |
| `PropsConverter.TypedModeEntriesError` | src/lib/converter/propsConverter.ts:417-447 | in typed mode, an error raised by any entry is the error of the whole conversion |
| `PropsConverter.DescriptorWithoutType` | src/lib/converter/propsConverter.ts:176-196 | a descriptor object without a `type` property fails with "props property not found." |
| `PropsConverter.DescriptorOptionality` | src/lib/converter/propsConverter.ts:152-174 | a descriptor's alias line carries `?` exactly when it is not required or has a default, so `required: true` with a default stays optional; its destructuring entry is `name = <simplified default>` when a default is present, and the bare name otherwise |
| `PropsConverter.DescriptorLine` | src/lib/converter/propsConverter.ts:455-473 | for any descriptor prop, the line is `name?: T;` exactly when isOptional holds and `name: T;` otherwise; the destructuring entry is `name = <simplified default>` with a default and the bare name exactly when there is none |
| `PropsConverter.TypeOnlyEntry` | src/lib/converter/propsConverter.ts:432-446 | a shorthand or cast prop is always `name?: T;` and never gets a default; a shorthand's type comes from the constructor table, and a cast's type is the type argument of `PropType<T>` |
| `PropsConverter.EmptyPropsText` | src/lib/converter/propsConverter.ts:464-479 | an empty `props: {}` in typed mode gives exactly `type Props = {};const {  } = defineProps<Props>();` |
| `PropsConverter.EmptyTypeAlias` | src/lib/converter/propsConverter.ts:464 | the alias of no props is `type Props = {};` |
| `PropsConverter.EmptyDestructuring` | src/lib/converter/propsConverter.ts:477 | the destructuring of no props is `const {  } = defineProps<Props>();` |
| `SetupConverter.ReplacePropsReferences` | src/lib/converter/setupConverter.ts:69-79 | the loop result is the text rewritten by each prop name's global replace, taken in order |
| `SetupConverter.ReplaceRefs` | src/lib/converter/setupConverter.ts:74-75 | a global replace never lengthens the text |
| `SetupConverter.ReplaceRefsIdentity` | src/lib/converter/setupConverter.ts:74-75 | a replace leaves the text unchanged exactly when `props.<name>\b` matches nowhere in it |
| `SetupConverter.ReplaceRefsFront` | src/lib/converter/setupConverter.ts:74-75 | `props.<name>` followed by a non-word character or the end becomes `<name>`, and scanning continues after it |
| `SetupConverter.LongerIdentifierNotMatched` | src/lib/converter/setupConverter.ts:74 | `props.<name>` followed by further word characters (`props.fromX` for `from`) is not a match |
| `SetupConverter.ReplaceAllNoReference` | src/lib/converter/setupConverter.ts:73-76 | text that contains no reference to any of the names passes through all the rewrites unchanged |
| `SetupConverter.LongerReferenceKept` | src/lib/converter/setupConverter.ts:74-75 | a reference to a longer prop is left intact by the pass for its prefix, for any identifier names: `props.total` by the pass for `to`, `props.apple` by the pass for `app` |
| `SetupConverter.TwoReferences` | src/lib/converter/setupConverter.ts:73-76 | with the props `to` and `total`, `props.to === props.total` becomes `to === total` |
| `SetupConverter.Declarations` | src/lib/converter/setupConverter.ts:19-38 | the output starts with the attrs declaration exactly when the context parameter destructures `attrs`, ends with the slots declaration exactly when it destructures `slots`, and holds nothing else, so it is empty when neither is destructured |
| `SetupConverter.BodyAppend` | src/lib/converter/setupConverter.ts:46-63 | the converted body of two runs of statements is the concatenation of their converted bodies |
| `SetupConverter.ConvertSetup` | src/lib/converter/setupConverter.ts:5-66 | the result is the declarations followed by the rewritten body; it is "" when there is no method declaration or it has no block |
| `SetupConverter.PlainBody` | src/lib/converter/setupConverter.ts:46-63 | without a context name and without prop names, the body is the full texts of the non-return statements, concatenated in order |
| `SetupConverter.ReturnsDropped` | src/lib/converter/setupConverter.ts:48 | inserting a return statement anywhere in the block leaves the converted body unchanged |
| `DefineOptionsConverter.ItemsAsFilter` | src/lib/converter/defineOptionsConverter.ts:13-40 | the loop's pushed items are the filter of the kept entries, mapped to their trimmed full text |
| `DefineOptionsConverter.ConvertDefineOptions` | src/lib/converter/defineOptionsConverter.ts:3-47 | the loop method returns what the option-filtering specification gives for the call |
| `DefineOptionsConverter.KeptEntries` | src/lib/converter/defineOptionsConverter.ts:14-38 | an entry is kept iff it is a property or shorthand assignment named inheritAttrs, customRender or directives; methods, other members, and props, emits, setup, components and name are never kept |
| `DefineOptionsConverter.NothingCarriedOver` | src/lib/converter/defineOptionsConverter.ts:21-29 | an options object with only entries that are handled elsewhere, or are not assignments, yields no items |
| `DefineOptionsConverter.OptionsCodeCases` | src/lib/converter/defineOptionsConverter.ts:4-8 | the result is "" exactly when there is no object-literal first argument or nothing is kept; otherwise it is `defineOptions({\n  ` followed by the kept trimmed texts joined by `,\n  ` and then `\n});` |
| `Orchestrator.NuxtIsDefineComponent` | src/lib/convertSrc.ts:172-188 | a Nuxt factory call is a recognised factory call, and a recognised call that is not Nuxt is spelled defineComponent |
| `Orchestrator.MergeHelpersFacts` | src/lib/convertSrc.ts:83-98 | merging helpers changes only the first group; it keeps that group's module and existing specifiers as a prefix, gains exactly the missing helpers, and never introduces a duplicate; without groups nothing changes |
| `Orchestrator.ImportMap.AddHelper` | src/lib/convertSrc.ts:84-97 | a missing name is pushed onto the end of the first group's specifiers, with the other groups untouched; a present name or an empty table changes nothing |
| `Orchestrator.ImportMap.constructor` | src/lib/convertSrc.ts:67 | the table starts as the import groups the import converter returned |
| `Orchestrator.AddRequiredHelpers` | src/lib/convertSrc.ts:76-98 | after the step, the table is the old table with defineAsyncComponent, useAttrs and useSlots merged in that order, each only when the generated code uses it |
| `Orchestrator.ValidImportsKept` | src/lib/convertSrc.ts:100-106 | groups without specifiers are dropped and only those; nothing is dropped exactly when every group has a specifier |
| `Orchestrator.PassThroughRules` | src/lib/convertSrc.ts:108-134 | the default export, value imports from vue and #imports, and imports naming a component factory are dropped; every other statement is kept: type-only imports, imports from any other module (`import Foo from './Foo.vue'`) and non-import statements |
| `Orchestrator.StatementBuilder.constructor` | src/lib/convertSrc.ts:80 | a new source file holds no statements |
| `Orchestrator.StatementBuilder.AddStatements` | src/lib/convertSrc.ts:103-148 | adding statements appends them after the existing ones, in order |
| `Orchestrator.EmitStatements` | src/lib/convertSrc.ts:101-159 | the emitted text holds the non-empty statements, one per line, in this order: imports, pass-through statements, components, defineOptions when non-empty, page metadata for Nuxt only, props, emits, setup body |
| `Orchestrator.LeadingWhitespaceFacts` | src/lib/convertSrc.ts:162 | the counted prefix is all whitespace, and the character after it is not |
| `Orchestrator.FixConstSplice` | src/lib/convertSrc.ts:162 | `};`, any whitespace, `const` and at least one whitespace character become `};\nconst `, and rewriting resumes after that whitespace |
| `Orchestrator.FixConstNoBrace` | src/lib/convertSrc.ts:162 | text containing no `};` is left alone by the rewrite |
| `Orchestrator.ConstOnOwnLine` | src/lib/convertSrc.ts:161-162 | in `x};const y`, where neither side holds another `};` (such as `type Props = {a?: string;` and `{ a } = defineProps<Props>();`), the const moves onto its own line and nothing else changes |
| `Orchestrator.WrapShape` | src/lib/convertSrc.ts:155-169 | the wrapper opens with `<script setup lang="ts">` exactly for "ts" and with `<script setup>` otherwise; an empty body gives the two-line wrapper; otherwise the body can be recovered between the tag line and the closing tag |
| `Orchestrator.ConvertSrc` | src/lib/convertSrc.ts:31-170 | the method returns what the conversion specification gives: gates, factory check, converters, helper merge, emission and wrapper |
| `Orchestrator.ConvertGatesAndErrors` | src/lib/convertSrc.ts:31-69 | input with script setup, or with no script, is returned unchanged; a missing or unrecognised factory call fails with "defineComponent is not found."; a props error is passed on; there are no other errors |
| `Orchestrator.ConvertedIsScriptSetup` | src/lib/convertSrc.ts:155-169 | every converted file is one script-setup block, whose tag carries lang="ts" exactly for a "ts" script |
| `Cli.ParseArgs` | src/cli.ts:16-36 | the loop over the index computes the options the argument scan specifies |
| `Cli.FlagIffVisited` | src/cli.ts:19-29 | help, write and recursive are set exactly when one of their two spellings is an argument the scan looks at as an option |
| `Cli.OutputValueNeverVisited` | src/cli.ts:26-27 | the argument after `--output`/`-o` is consumed as its value and never looked at as an option or a path |
| `Cli.LastOutputWins` | src/cli.ts:26-27 | the last output option decides the output: the argument after it, or undefined when it is the last argument |
| `Cli.OutputUnchanged` | src/cli.ts:26-27 | without an output option the output stays unset |
| `Cli.LastPathWins` | src/cli.ts:30-31 | the last positional argument the scan looks at is the file path |
| `Cli.PathUnchanged` | src/cli.ts:30-31 | without a positional argument the file path stays unset |
| `Cli.ProgramArgumentsIgnored` | src/cli.ts:19 | the first two arguments, the runtime and the script, never influence the options |
| `Cli.FindOpenTag` | src/cli.ts:49-52 | the result is the first position where `<script` starts with a `>` somewhere after it, or none when there is no such position |
| `Cli.FindCloseTag` | src/cli.ts:50-53 | the result is the first occurrence of `</script>`, or none when there is none |
| `Cli.SpliceCases` | src/cli.ts:38-66 | with no script block, or no opening or closing tag, the content is unchanged; otherwise it is the text before the first opening tag, then the new block, then the text after the first closing tag |
| `Cli.SplicedBlockIsFirst` | src/cli.ts:59-65 | after the splice, the new block is the file's first script block, at the position where the old one started |
| `Cli.SpliceTwice` | src/cli.ts:59-65 | splicing a second block into a spliced file gives the same file as splicing the second block into the original |
| `Cli.ProcessFileOutcome` | src/cli.ts:129-166 | a file is skipped exactly when conversion hands its text back unchanged, and a skipped file is a success with nothing written; an unreadable file or a conversion error is a failure |
| `Cli.WriteInPlace` | src/cli.ts:142-145 | under --write, which wins over --output, a changed file is written back to its own path with only its script block replaced; success is whether the write succeeds |
| `Cli.AlreadyConvertedSkipped` | src/cli.ts:137-140 | a file that already uses script setup, or has no script, is reported as skipped and left alone |
| `Cli.Count` | src/cli.ts:104-112 | a processed file increments exactly one counter: skipped for a skipped success, errors for a failure, success otherwise |
| `Cli.ProcessDirectory` | src/cli.ts:83-121 | the counters the method accumulates are those of the directory specification |
| `Cli.TallyTotal` | src/cli.ts:92-114 | every reached file or unlistable directory lands in exactly one counter |
| `Cli.DirStatsIsTally` | src/cli.ts:83-121 | the directory counters are the tally of the walk: each reached .vue file counts once by its outcome, an unlistable directory counts one error, and subdirectories are reached only under --recursive, with their counters added componentwise |
| `Cli.TotalCountsVisits` | src/cli.ts:92-118 | the reported total is the number of .vue files reached plus the directories that could not be listed |
| `PropsConverter.IsOptional` | src/lib/converter/propsConverter.ts:391-393 | the optionality rule; `PropsConverter.DescriptorLine` states that it decides the `?` of a descriptor's line |
| `PropsConverter.GetPropsOption` | src/lib/converter/propsConverter.ts:293-381 | a descriptor without a `required`/`default` property or method has no such option, and a present option comes from such a member; `PropsConverter.DescriptorOptionality` uses it for the line and the destructuring |
| `PropsConverter.GetTypeValue` | src/lib/converter/propsConverter.ts:176-229 | a descriptor without a `type` property assignment fails with "props property not found."; a type is found only when one is present |
| `PropsConverter.ConvertPropsWithObject` | src/lib/converter/propsConverter.ts:152-174 | the descriptor conversion; `PropsConverter.DescriptorOptionality` states its required, default and line behaviour |
| `PropsConverter.ConvertToDefineProps` | src/lib/converter/propsConverter.ts:45-59 | loose mode fails exactly when `props` has no initializer, with "props is empty."; `PropsConverter.LooseModeText` states the text for an object |
| `PropsConverter.ConvertToDestructuringDefineProps` | src/lib/converter/propsConverter.ts:404-480 | typed mode fails with "props is empty." without an initializer and with "props not found." for a non-object; `PropsConverter.TypedModePropNames` and `PropsConverter.EmptyPropsText` state the text |
| `PropsConverter.ExtractPropNames` | src/lib/converter/propsConverter.ts:514-525 | the property-assignment names; `PropsConverter.TypedModePropNames` states they are the entries' names in order |
| `Orchestrator.IsDefineComponent` | src/lib/convertSrc.ts:172-181 | the factory check; `Orchestrator.NuxtIsDefineComponent` relates it to the Nuxt check, and `Orchestrator.ConvertGatesAndErrors` makes its failure the "defineComponent is not found." error |
| `Orchestrator.IsDefineNuxtComponent` | src/lib/convertSrc.ts:183-188 | the Nuxt factory check; `Orchestrator.NuxtIsDefineComponent` states that it implies the factory check |
| `Orchestrator.FixConstBreaks` | src/lib/convertSrc.ts:162 | the global replace of `};\s*const\s+`; `Orchestrator.FixConstSplice`, `Orchestrator.FixConstNoBrace` and `Orchestrator.ConstOnOwnLine` state what it does |
| `Orchestrator.Wrap` | src/lib/convertSrc.ts:155-169 | the script-setup wrapper; `Orchestrator.WrapShape` states its tag, body and empty case |
| `Orchestrator.Convert` | src/lib/convertSrc.ts:31-170 | the conversion `Orchestrator.ConvertSrc` is proved to compute; `Orchestrator.ConvertGatesAndErrors` and `Orchestrator.ConvertedIsScriptSetup` state its gates, errors and output shape |
| `Cli.ReplaceScriptSection` | src/cli.ts:38-66 | the splice; `Cli.SpliceCases`, `Cli.SplicedBlockIsFirst` and `Cli.SpliceTwice` state its cases and effect |
| `Cli.ProcessFile` | src/cli.ts:129-166 | one file's outcome and effect; `Cli.ProcessFileOutcome`, `Cli.WriteInPlace` and `Cli.AlreadyConvertedSkipped` state skip, failure and write |

## Left out

- The component-file parser (`@vue/compiler-sfc`'s `parse`) is represented by what it reports. That is whether there is a script block and a script-setup block, and the script's lang. The gates read these facts, and `replaceScriptSection` reads `hasScript`.
- ts-morph itself is not modelled: tree construction, the node locator `getNodeByKind` and the checker's inferred type texts. The syntax datatypes carry the locator's answers and the type texts as given. For setup, the model takes the first method declaration the locator finds, as the code does.
- The import-declaration, emits (`replaceEmit`), components and page-meta converters are not part of this model. Their results are inputs: the import groups, the emits and components code, the page metadata, and `replaceEmit` as a function parameter. An exception they raise is not modelled.
- ts-morph's `formatText` is not modelled: semicolon insertion and two-space indentation. Its effect on statement text is not captured, and the emitted statements are joined one per line.
- knitwork's `genImport` output format is not modelled. Each group is rendered as a single `import { a, b } from "m";` line.
- `Orchestrator.EmitStatements`: the file text is taken to be the non-empty statements joined by line breaks. The exact trivia that ts-morph's `getFullText` places between statements is not modelled. The `trim` that follows is modelled.
- `convertToDefinePropsForTs` and `convertToTypeDefineProps` (propsConverter.ts:81-150) are never called, and are not modelled.
- Prop names are used as regular-expression source without escaping. A name containing regex metacharacters would change the pattern; the model matches names literally.
- `\w` and `\b` are the ASCII word characters, as in JavaScript regular expressions without the `u` flag.
- The typed-mode constructor table is modelled as a plain lookup. Keys inherited from `Object.prototype` (`typeMapping["toString"]`) are not modelled; such a prop gets no type.
- File-system I/O is not modelled: reading, writing, `readdir` and `stat`/`isDirectory`. What these would report is carried in `FileRun` and `Entry` (readable, content, write outcome). `path.join` normalisation is replaced by joining with "/", and `extname` by the rule that the name ends in `.vue` with something before the dot.
- Console output is not modelled: `consola` messages, error-message texts, `showHelp` and `displayProcessStats`. `main` is not modelled either: its dispatch between a file and a directory, and `process.exit`.
- An exception thrown by the parser inside `replaceScriptSection` is not modelled.
- `Cli.ProcessFileOutcome`: the output-file branch uses the same write outcome as the in-place write. A separate failure for the output path is not distinguished.
- Directory processing is sequential in the source, which awaits every file before the next. Concurrency is therefore not a concern, and the model walks the entries in listing order.
