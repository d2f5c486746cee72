# restgen generator core in Dafny

restgen is a command-line scaffolder for node-express-boilerplate projects.
Given a model name (`-m post`) and a field list
(`-f "name, age(number), - isHuman(boolean)|true"`), it does three things:

- it compiles the field list into three dictionaries: the Mongoose schema (`fieldSet`), the Joi rules (`validationTypes`) and the faker expressions (`testFakers`);
- it serializes those dictionaries with `objToString`;
- it fills eight templates (model, controller, route, service, validation, fixture, integration test, unit test) and writes the results into the project;
- it registers the new model, controller, service and validation modules in the `index.js` beside each. The route index is never written; the generator only prints how to register the route. Fixtures and tests have no index.

This project models that logic, all of which is in `index.js`:

| file | module | what it holds |
|---|---|---|
| `wrappers.dfy` | `Wrappers` | `Option` |
| `js_string.dfy` | `JsString` | the JavaScript string built-ins the generator calls, written out: `trim` (ECMAScript white space), `indexOf` of a character and of a substring, `substr`, `split`, ASCII `toLowerCase`/`toUpperCase`, and `replace(/literal/g, text)` |
| `ordered_map.dfy` | `OrderedMap` | a JavaScript object used as a dictionary, as a sequence of key/value pairs in insertion order; assigning to an existing key replaces the value where it stands |
| `serializer.dfy` | `Serializer` | `objToString` as a method with a loop that returns the text and the dictionary as the call leaves it (nested objects replaced by their text), proved against the functions `Block` and `Flatten` |
| `field_spec.dfy` | `FieldSpec` | the clause parser as a function and the `forEach` loop as the method `CompileFields`, proved against the function `Build`, a left fold of dictionary assignments |
| `templates.dfy` | `Templates` | the eight kinds, the per-kind template, output and index paths, `Model` capitalisation, and the substitution of `{{temp}}`, `{{Temp}}` and the kind's placeholder |
| `index_update.dfy` | `IndexUpdate` | the index updater as a class holding the file's text, and the function `Appended` it is proved against |
| `generator.dfy` | `Generator` | the file system as a map from paths to contents; `createFromTemplate` as a method on a `Workspace` class and as the function `Created`; the script's eight calls as the function `Generated` |
| `post_example.dfy` | `PostExample` | the field list `vehicle, description, location` and the blocks it produces for the model `post`, checked against the generated files in the repository |

Some behaviours of the code are worth knowing:

- A clause is read in this order:
  1. it is trimmed;
  2. a leading `-` is stripped and the rest trimmed again;
  3. everything after the first `|` becomes the default, wrapped in single quotes;
  4. the text before that `|` is trimmed;
  5. the name is the trimmed text before the first `(`, and the type is the text between that `(` and the first `)`.
- Because the `|` is stripped before the `(` is looked for, a `(` inside the default does not affect the type.
- When the `)` is missing or comes before the `(`, `substr` receives a negative length and the type is the empty string, not `"String"` (`FieldSpec.TypeText`).
- `required` is the string `"true"` for a required field and the boolean `false` for an optional one. `objToString` prints both as `true`/`false`. `Serializer.Value` keeps the two apart.
- A repeated field name keeps its first position in all three dictionaries. Its value is entirely that of the last clause with the name, so an earlier default disappears.

## Model

| member | source | states |
|---|---|---|
| JsString.Trim | index.js:48 | the result has no white space at either end and is no longer than the input |
| JsString.TrimUnique | index.js:48 | any slice of the text with only white space around it and none at its ends is the trimmed text, so `Trim` is exactly `String.prototype.trim` |
| JsString.TrimIdempotent | index.js:51 | trimming an already trimmed clause changes nothing |
| JsString.TrimAround | index.js:57 | trimming text around a non-space character trims the start of the part before it and the end of the part after it |
| JsString.IndexOf | index.js:54 | -1 exactly when the character is absent; otherwise the result holds the character and no earlier position does |
| JsString.IndexOfAfter | index.js:60-62 | after a prefix that does not hold the character, the first occurrence is found at its place in the rest, offset by the prefix |
| JsString.Substr | index.js:56-64 | a length of 0 or less gives the empty string; a length in range gives exactly that slice |
| JsString.SplitJoin | index.js:42 | joining the pieces of `split(",")` with commas gives the original text |
| JsString.JoinSplit | index.js:42 | splitting comma-joined pieces that hold no comma gives those pieces back |
| JsString.Split | index.js:42 | `split` on one character: at least one piece, none holding the separator; `SplitJoin` and `JoinSplit` fix it as the inverse of joining with that character |
| JsString.Lower | index.js:73 | each character is lower-cased on its own; the length is kept |
| JsString.Find | index.js:198 | the first position at or after the start where the text occurs, and no occurrence before it; -1 when there is none |
| JsString.FindContains | index.js:198 | `indexOf` reports -1 exactly when the text does not contain the line |
| JsString.ReplaceAbsent | index.js:170-173 | a global literal replacement leaves text without the pattern unchanged |
| JsString.ReplaceJoin | index.js:170-173 | for a pattern whose occurrences cannot overlap, every occurrence is replaced and the text between occurrences is kept |
| JsString.ReplaceAll | index.js:170-173 | `replace(/p/g, rep)` for a literal pattern, scanning left to right without overlaps; `ReplaceAbsent` and `ReplaceJoin` give its meaning |
| OrderedMap.Put | index.js:67 | assigning to a present key keeps the key order; a new key goes at the end |
| OrderedMap.PutLookup | index.js:67 | after `obj[k] = v`, reading `k` gives `v` and every other key reads as before |
| OrderedMap.PutNew | index.js:67 | assigning to an absent key appends the entry and changes no other entry |
| OrderedMap.PutKeepsKeysDistinct | index.js:67 | assignments never give a key two places |
| Serializer.Tabs | index.js:234-237 | `n` characters, all tabs |
| Serializer.Show | index.js:244 | the text an entry's value becomes when it is appended to the line: a string is itself, `false` prints `false`, and a nested object prints as its block one level deeper |
| Serializer.Block | index.js:233-248 | the text `objToString` returns for a dictionary at a level, defined entry by entry; `ObjToString` is proved to compute it and `SecondCallSameText` shows that a flattened dictionary gives the same text |
| Serializer.Flatten | index.js:239-243 | the dictionary as `objToString` leaves it: the same keys in the same order, each nested object replaced by its text one level deeper; `SecondCallSameText` shows it is flat and a second call keeps it |
| Serializer.ObjToString | index.js:233-248 | the text is `{` and a newline, one `key: value,` line per entry in insertion order indented by level+2 tabs with nested objects rendered at level+1, then level+1 tabs and `}`; the argument is left as `Flatten` of it |
| Serializer.ShowVisited | index.js:242-244 | replacing a nested object by its text does not change the line printed for it |
| Serializer.SecondCallSameText | index.js:233-248 | a second call on the dictionary the first call left returns the same text and leaves that dictionary as it is, which has no nested objects and the original keys |
| FieldSpec.Undash | index.js:49-52 | the clause without a leading `-` and the white space after it stays trimmed and gains no character |
| FieldSpec.DefaultOf | index.js:54-56 | there is no default exactly when the clause has no `\|`; a default is wrapped in single quotes |
| FieldSpec.BeforeDefault | index.js:57 | the text before the first `\|` is trimmed and holds no `\|` |
| FieldSpec.SplitType | index.js:60-65 | the name is trimmed and holds no `(`, the type holds no `)`; neither holds a character the clause lacks, except that the type may be the default `"String"` |
| FieldSpec.ParseClause | index.js:43-65 | defined for every clause; required exactly when the trimmed clause does not start with `-`; the name is trimmed and holds neither `\|` nor `(`; the type holds neither `\|` nor `)`; a default is quoted |
| FieldSpec.OptionalMarker | index.js:49-52 | putting `-` before a clause makes the field optional and changes nothing else |
| FieldSpec.RepeatedMarker | index.js:48-52 | only one leading `-` is a marker: `-` before an already marked clause gives an optional field whose name keeps the second `-` |
| FieldSpec.DoubleDash | index.js:48-52 | `--x` gives the optional field `-x` of type `String` |
| FieldSpec.PadInvariant | index.js:42-48 | white space before and after a clause does not change the field it gives |
| FieldSpec.DefaultAfterFirstBar | index.js:54-58 | the default is everything after the first `\|`, trimmed only at the end of the clause and quoted; name, type and marker come only from the text before that `\|` |
| FieldSpec.TypeBetweenParens | index.js:60-65 | in a clause without marker or default, the name is the trimmed text before the first `(` and the type the text between it and the first `)`; the type is empty when `)` is missing or comes first |
| FieldSpec.Unmarked | index.js:43-47 | a clause without `-`, `\|` or `(` is its own trimmed name, of type `"String"`, required, with no default |
| FieldSpec.HelpName | index.js:14 | `name` gives the required field `name` of type `String` with no default |
| FieldSpec.HelpAge | index.js:14 | `age(number)` gives the required field `age` of type `number` |
| FieldSpec.HelpIsHuman | index.js:14 | `- isHuman(boolean)\|true` gives the optional field `isHuman` of type `boolean` with default `'true'` |
| FieldSpec.SchemaEntry | index.js:67-71 | the schema entry of a field: `type`, `required` and `trim` come first and in that order, and a `default` key is present exactly when the clause had a default (index.js:91-93) |
| FieldSpec.Normalize | index.js:73-76 | the lower-cased type, except that `double` becomes `number`; the result is `number` exactly when the lower-cased type is `double` or `number` |
| FieldSpec.Rule | index.js:77 | the Joi rule `Joi.<normalized type>()`; `FakerMatchesRule` and `DoubleIsNumber` pin it against the faker |
| FieldSpec.Faker | index.js:79-89 | `faker.random.number()` for `number` and `double` in any letter case, `faker.random.word()` otherwise; `FakerMatchesRule` shows it agrees with the rule |
| FieldSpec.FakerMatchesRule | index.js:73-89 | the faker is `faker.random.number()` exactly when the Joi rule is `Joi.number()`, and `faker.random.word()` otherwise |
| FieldSpec.DoubleIsNumber | index.js:73-89 | a type that lower-cases to `double` gets the rule `Joi.number()` and the faker `faker.random.number()` |
| FieldSpec.DoubleExample | index.js:73-89 | the type `Double` validates as `Joi.number()` and fakes as `faker.random.number()` |
| FieldSpec.Clauses | index.js:42 | one parsed field per piece of `split(",")`, in order |
| FieldSpec.Build | index.js:42-95 | the dictionary after the loop: one assignment per clause, in order, starting from an empty object; `BuildKeys` and `BuildLookup` give its keys and values, and `CompileFields` is proved to compute it |
| FieldSpec.LastWith | index.js:67-93 | a clause carrying the name with no later clause carrying it; none exactly when no clause has that name |
| FieldSpec.DedupSpec | index.js:67 | the names in order of first appearance hold every clause name once and nothing else |
| FieldSpec.BuildKeys | index.js:67-93 | each dictionary has one key per distinct clause name, in order of first appearance |
| FieldSpec.BuildLookup | index.js:67-93 | the value under a name is the entry of the last clause with that name, so a repeated name drops an earlier default |
| FieldSpec.CompileStep | index.js:67-92 | one pass of the loop body extends each of the three dictionaries by its clause |
| FieldSpec.CompileFields | index.js:42-95 | the loop leaves the schema, Joi and faker dictionaries equal to the fold of their entries over the parsed clauses, all three with the same keys |
| Templates.Capitalize | index.js:30 | same length; the first character upper-cased, the others kept |
| Templates.CapitalizeIdempotent | index.js:30 | capitalizing twice is capitalizing once, and the result differs from the name only in letter case |
| Templates.HasIndex | index.js:136-156 | the kinds that have an index file: all but fixture, integration and unit, whose branches set `index = false` |
| Templates.OutputDir | index.js:134-157 | the directory a kind writes into: `src/<kind>s/`, `src/routes/v1/` for routes, and the `tests/` directories of the three test kinds |
| Templates.OutputSuffix | index.js:135-155 | what follows the model name in the output file name: `.<kind>.js`, `.test.js` for integration tests, `.model.test.js` for unit tests |
| Templates.TemplateFile | index.js:134-154 | the template a kind reads, under `/template/` in the generator's own directory |
| Templates.PathsFor | index.js:134-158 | the three paths of a call: template, output as directory, model name and suffix, and `index.js` in the output directory for the kinds that have an index; `OutputInjective`, `OutputsDistinct`, `OutputNeverIndex` and `PathEnds` give their properties |
| Templates.PostPaths | index.js:135 | the model file of `post` is `src/models/post.model.js` |
| Templates.OutputInjective | index.js:135-155 | two model names never share an output path of one kind |
| Templates.OutputsDistinct | index.js:134-158 | two different kinds never have the same output path, whatever the model names |
| Templates.OutputNeverIndex | index.js:135-157 | no generated file is an index file, of its own kind or another |
| Templates.Placeholder | index.js:98-126 | the placeholder a kind's replacer fills: `{{FIELDS}}` for the model, `{{TYPES}}` for the validation, `{{DATA}}` for the three test kinds, none for controller, route and service |
| Templates.FillNames | index.js:170-171 | `{{temp}}` replaced by the model name, then `{{Temp}}` by the capitalized name; `ModelNameFilled` and `CapitalNameFilled` give its meaning |
| Templates.Render | index.js:170-173 | the names filled in, then the kind's placeholder replaced by the block when the kind has a replacer; `NoBlockWithoutReplacer`, `NoPlaceholderUnchanged` and `BlockFilled` give its meaning |
| Templates.NoBlockWithoutReplacer | index.js:103-109 | controller, route and service files do not depend on any block: they are the template with the names filled in |
| Templates.NoPlaceholderUnchanged | index.js:170-173 | a template holding none of the markers is written unchanged |
| Templates.PlaceholdersBorderFree | index.js:99-125 | two occurrences of `{{temp}}`, `{{Temp}}`, `{{FIELDS}}`, `{{TYPES}}` or `{{DATA}}` can never overlap |
| Templates.ModelNameFilled | index.js:170 | every `{{temp}}` becomes the model name and the text around it is kept |
| Templates.CapitalNameFilled | index.js:171 | every `{{Temp}}` becomes the capitalized model name and the text around it is kept |
| Templates.BlockFilled | index.js:98-126 | after the names, every occurrence of the kind's placeholder becomes the serialized block and the text around it is kept |
| IndexUpdate.ExportLine | index.js:197 | `module.exports.<model><Kind> = require('./<model>.<kind>');`; `ExportLineBorderFree` shows two copies never overlap when the model name has no `;` |
| IndexUpdate.Appended | index.js:196-206 | the old text is always a prefix of the new; the text changes exactly when the kind is not `route` and the line is not already in it, and then by the line and a newline |
| IndexUpdate.IndexFile.constructor | index.js:190 | the file object holds the text read |
| IndexUpdate.IndexFile.Update | index.js:189-206 | the file's new text is `Appended` of its old text |
| IndexUpdate.LinePresent | index.js:196-206 | after an update of a non-route index the line is in the file |
| IndexUpdate.UpdateIdempotent | index.js:196-206 | a second update changes nothing |
| IndexUpdate.ExportLineBorderFree | index.js:197 | for a model name without `;`, two copies of the line can never overlap |
| IndexUpdate.AppendedOnce | index.js:198-199 | a line appended to text that does not contain it occurs exactly once in the result, right after the old text |
| IndexUpdate.TwiceLeavesOneLine | index.js:196-206 | two updates of an index that lacked the line leave it there exactly once |
| Generator.Created | index.js:133-206 | the files after one `createFromTemplate`: unchanged when the template is missing, otherwise `Published` with the rendered template; `CreatedMissing`, `CreatedOutput`, `CreatedIndex` and `CreatedElsewhere` give its meaning |
| Generator.Published | index.js:176-206 | the output written and an existing index file updated by `Appended`; `PublishedElsewhere` shows nothing else changes |
| Generator.Generated | index.js:97-126 | the files after the eight calls of the script in order, with the blocks of the compiled dictionaries; `GeneratedOutputs` and `TemplatesKept` give its meaning |
| Generator.CreateAll | index.js:97-126 | the files after `createFromTemplate` has completed for each kind of a sequence in turn, each with its kind's block; `GeneratedFile` and `TemplatesKept` hold for every such sequence, so for every completion order of the asynchronous calls |
| Generator.BlockOf | index.js:98-126 | the text a kind's replacer inserts: the schema block for the model, the Joi block for the validation, the faker block for the three test kinds, nothing for controller, route and service |
| Generator.DictionaryBlocks | index.js:99-125 | the three blocks the replacers insert: the schema, Joi and faker dictionaries compiled from the clauses, each serialized at level 0 |
| Generator.PathEnds | index.js:134-158 | output and index paths end in `s` and template paths in `t` (from `.js` and `.jst`), so no template is ever overwritten |
| Generator.CreatedMissing | index.js:164-168 | an unreadable template leaves every file as it was |
| Generator.CreatedOutput | index.js:170-186 | with the template present, the output file holds the rendered template |
| Generator.CreatedIndex | index.js:189-206 | an index file is updated by `Appended` when it exists and is never created |
| Generator.CreatedElsewhere | index.js:133-206 | every other file, templates included, is left as it was |
| Generator.PublishedElsewhere | index.js:175-206 | writing the output and updating the index touch no other file |
| Generator.TemplatesKept | index.js:97-126 | no sequence of calls changes a template |
| Generator.GeneratedFile | index.js:97-126 | in any order in which the calls complete, each kind's output holds its template rendered with its own block: no call overwrites another kind's output |
| Generator.OrderOnce | index.js:97-126 | the script calls each kind exactly once |
| Generator.GeneratedOutputs | index.js:42-126 | after a whole run, each output whose template exists holds the template rendered with the model name and with the block of the dictionary the field list compiles to |
| Generator.Workspace.constructor | index.js:162 | the workspace holds the given files and the generator's own directory |
| Generator.Workspace.Publish | index.js:175-206 | the files become `Published`: the output written, an existing index updated |
| Generator.Workspace.CreateFromTemplate | index.js:133-206 | the files become `Created`; the dictionary handed in is flattened exactly when the template was read |
| PostExample.PostClauses | index.js:42-65 | `vehicle, description, location` parses to three required `String` fields without defaults, in order |
| PostExample.BuildThree | index.js:67-93 | three clauses with different names give a three-entry dictionary in clause order |
| PostExample.BlockThree | index.js:238-247 | the block of a three-entry dictionary is the opening brace, the three lines and the closing brace |
| PostExample.PlainRuleAndFaker | index.js:73-89 | a `String` field has rule `Joi.string()` and faker `faker.random.word()` |
| PostExample.StringFieldEntry | src/models/post.model.js:6-10 | the schema entry of a plain `String` field renders as the nested block of the model file |
| PostExample.OptionalDefaultEntry | index.js:67-71 | the entry `type: boolean`, `required: false`, `trim: true`, `default: 'true'` renders at level 1 with `required: false` and the default on the last line (index.js:91-93, 244) |
| PostExample.HelpIsHumanEntry | index.js:14 | the help text's `- isHuman(boolean)\|true` gives the schema entry with `type: boolean`, `required: false`, `trim: true` and `default: 'true'` in that order |
| PostExample.PostModelBlock | src/models/post.model.js:5-21 | the schema block for the field list is the text between `{` and `}` of the model file |
| PostExample.PostValidationBlock | src/validations/post.validation.js:6-10 | the Joi block for the field list is the `keys(...)` argument of the validation file |
| PostExample.PostFixtureBlock | tests/fixtures/post.fixture.js:4-8 | the faker block for the field list is the fixture object of the test file |

## Left out

- The command line and console output (index.js:3-27, 38, 160, 166, 185, 192, 208-223): option parsing, the banner, progress messages and the printed route instructions. They produce no file.
- The directory of the running script (index.js:162) is the `dir` field of `Workspace`. The file system is a map from path to contents.
- Directories are not modelled, so `mkdirSync` (index.js:176) is not either.
- Failed writes and appends (index.js:180-183, 200-203) are not modelled: every write and append is assumed to succeed. A template that cannot be read and an index file that cannot be read are modelled as files missing from the map.
- Asynchronous completion order: each `createFromTemplate` call is modelled as one atomic step. The index update is modelled after the write, though the source does not wait for the write. `Templates.OutputNeverIndex` shows the two never touch the same file, and `Generator.GeneratedFile` shows that the generated outputs do not depend on the order of the calls.
- Generator.Generated: the eight top-level calls are modelled as a function over the file map that folds `Created` in call order. The model has no method that makes the eight calls on a `Workspace`.
- Generator.Workspace.CreateFromTemplate: requires that a dictionary is passed exactly for the kinds that have a placeholder. This is what every call at index.js:98-126 does. A call with a replacer on a kind without a placeholder, or without one on a kind that has one, is not modelled.
- Each replacer callback (index.js:99, 113, 119, 122, 125) is modelled as a global literal replacement of the kind's placeholder by the block. The faker dictionary is serialized three times in the source. The model uses its block each time, which `Serializer.SecondCallSameText` justifies.
- `$` sequences in replacement text: model names and blocks are taken to contain no `$`.
- Paths are compared as strings. `.` and `..` segments and symbolic links are not resolved, so `Templates.OutputInjective` and `Templates.OutputsDistinct` are about path strings. `-m ./post` and `-m post` write the same file, and a model name with `..` can reach another kind's file.
- Integer-like keys: JavaScript lists them before the other keys of an object, and the model does not.
- The field names `__proto__` and `hasOwnProperty` (index.js:67, 240). In the source, `__proto__` creates no own key, so the field is missing from all three blocks. A field named `hasOwnProperty` hides the method, and the call at index.js:240 then throws, which ends the run. The model treats both as ordinary keys: they get an entry in every block and all eight files are written.
- `hasOwnProperty` and inherited keys (index.js:240): all dictionaries are plain objects.
- The `null` case of `typeof ... === 'object'` (index.js:241) does not arise, because no dictionary value is `null`.
- `toUpperCase` and `toLowerCase` are modelled on ASCII letters only. Other characters are kept unchanged.
- The index file is read as a `Buffer`, and `indexOf` searches its bytes (index.js:190, 198). The model searches the text's characters. This gives the same answer for UTF-8 text, but that equivalence is not proved.
- IndexUpdate.TwiceLeavesOneLine: stated only for model names without `;`. With a `;` in the name, two copies of the line could overlap and the count of occurrences is not proved.
