# README output table of rollup-plugin-baked-env, in Dafny

rollup.config.mjs bundles the plugin into CommonJS, ES module and UMD files.
Besides the bundler configuration it holds one piece of logic,
`updateReadmeOutputTable`, which this project models:

- **the output describer** (`generateOutputDescription`): from the list of
  build targets it builds the matrix handed to the table renderer. The matrix
  is the header `File | Module Type | Transpiled | Source Maps`, a `null`
  placeholder for the rule, then one four-cell row per output, target by
  target and output by output. "Transpiled" is `Yes` when the target has a
  plugin named `babel`. "Source Maps" is `Yes` only when the output's
  `sourcemap` is exactly `true`.
- **the splicer** (`replaceBetween`): it keeps the README up to and including
  the first start marker, then inserts the new text, then keeps the README
  from the first end marker found after that start marker. If either marker
  is missing it returns the README unchanged.
- **the shipped `config`** as a concrete instance, with the source-map choice
  `production ? true : 'inline'`.

Files:

- `Wrappers.dfy`: `Option`, standing for a value or JavaScript's `null`/`undefined`.
- `JsString.dfy`: `String.prototype.indexOf(pat, from)` as a pure function.
  It keeps JavaScript's behaviour for an empty pattern and clamps `from` into
  `[0, length]`. The predicates `OccursAt` and `IsFirstFrom` are the
  independent specification it is proved against.
- `Splice.dfy`: `ReplaceBetween`, its no-op, hit and idempotence lemmas, and
  `UpdateReadme`, the call made with the README's two literal markers.
- `OutputDescription.dfy`: targets, outputs and plugins as datatypes. It
  holds `GenerateOutputLines`, the nested loops as a method proved against
  the specification function `Description`, and lemmas on the matrix's shape,
  row placement and cells.
- `ShippedConfig.dfy`: the two shipped targets and the exact matrix they give.

The README is meant to hold each marker exactly once, but the code does not
check this: it uses the first start marker and the first end marker at
or after the end of that start marker. The model follows the code. An end
marker that begins before that point is ignored, even one that overlaps the
start marker. A README whose only end markers begin before the end of the first start
marker is left unchanged.

## Model

| member | source | states |
|---|---|---|
| `JsString.IndexOf` | rollup.config.mjs:166-167 | the result is -1 exactly when the pattern occurs nowhere at or after the clamped start, otherwise the least such index |
| `Splice.ReplaceBetween` | rollup.config.mjs:165-169 | the document changes only if both searches succeed; its exact behaviour is stated by `ReplaceBetweenNoStart`, `ReplaceBetweenNoEnd`, `ReplaceBetweenHit`, `EarlyEndMarkerIgnored` and `ReplaceBetweenIdempotent` |
| `Splice.ReplaceBetweenNoStart` | rollup.config.mjs:166-168 | with no start marker anywhere the document is returned unchanged |
| `Splice.ReplaceBetweenNoEnd` | rollup.config.mjs:166-168 | with no end marker at or after the end of the first start marker the document is returned unchanged |
| `Splice.ReplaceBetweenHit` | rollup.config.mjs:166-168 | with the first start marker at i and the first later end marker at j, the result is `str[..i+|start|] + substitute + str[j..]`; its length is `i + |start| + |substitute| + |str| - j`; the prefix through the start marker and the suffix from the end marker are kept verbatim |
| `Splice.EarlyEndMarkerIgnored` | rollup.config.mjs:166-168 | for any document whose first start marker is at i, an end marker beginning before `i + |start|` (before or overlapping the start marker) is never the end index, and the text through the start marker is kept |
| `Splice.ReplaceBetweenIdempotent` | rollup.config.mjs:165-169 | if the end marker first occurs in `substitute + end` at offset `|substitute|`, splicing twice equals splicing once |
| `Splice.UpdateReadme` | rollup.config.mjs:172 | the README changes only if the start marker `<!-- Output table (auto generated do not modify) -->` occurs and `<!-- END -->` follows it; the new README on a hit is `UpdateReadmeHit`; idempotence is `UpdateReadmeIdempotent` |
| `Splice.UpdateReadmeHit` | rollup.config.mjs:172 | with the first start marker at i and the first `<!-- END -->` after it at j, the new README is `readme[..i+|start|] + "\n\n" + table + "\n\n" + readme[j..]` |
| `Splice.UpdateReadmeIdempotent` | rollup.config.mjs:172 | re-running the README update with the same table changes nothing when the table does not contain `<!-- END -->` |
| `OutputDescription.FindPlugin` | rollup.config.mjs:155 | `find` by name returns a plugin of the list with that name, and returns nothing exactly when no plugin has it |
| `OutputDescription.GenerateOutputLines` | rollup.config.mjs:152-162 | the lines pushed by the nested loops are exactly the matrix `Description(rollupConfig)` |
| `OutputDescription.DescriptionShape` | rollup.config.mjs:152-153 | the matrix starts with the four-column header and the `null` rule placeholder, and its length is 2 plus the number of outputs; with no targets it is just those two lines |
| `OutputDescription.DescriptionRow` | rollup.config.mjs:154-160 | output oi of target ti is described at line `2 + (outputs of targets before ti) + oi`, with its file, its format, the target's Transpiled cell and its own Source Maps cell; this fixes target-then-output order and that all rows of a target share one Transpiled cell |
| `OutputDescription.TranspiledIffBabel` | rollup.config.mjs:155-156 | Transpiled is "Yes" exactly when the target's plugins include one named `babel`, otherwise "No" |
| `OutputDescription.SourceMapsIffTrue` | rollup.config.mjs:158 | Source Maps is "Yes" exactly when `sourcemap` is `true`; `'inline'`, `false`, `'hidden'` and an unset value give "No" |
| `ShippedConfig.IsProduction` | rollup.config.mjs:21 | `!process.env.ROLLUP_WATCH`: production exactly when the variable is unset or empty |
| `ShippedConfig.SourcemapSetting` | rollup.config.mjs:22 | the `sourcemap` option is `true` exactly in production and `'inline'` otherwise |
| `ShippedConfig.Config` | rollup.config.mjs:39-129 | two targets with two outputs (cjs, esm) and one output (umd), every target has the `babel` plugin, every output carries the shared `sourcemap` setting; the resulting matrix is `ShippedDescription` |
| `ShippedConfig.ShippedDescription` | rollup.config.mjs:21-129 | the shipped config yields the header, the placeholder and rows for cjs, esm and umd in that order, all Transpiled "Yes", with Source Maps "Yes" exactly when `ROLLUP_WATCH` is unset or empty |

## Left out

- Reading package.json (rollup.config.mjs:9-10): its `main`, `module` and `unpkg` fields are opaque string parameters (`ShippedConfig.PackageJson`).
- Reading and writing README.md (rollup.config.mjs:170, 173): the document is a string input and the new document a string result.
- `matrixToAsciiTable` (rollup.config.mjs:6, 163) and its style object (rollup.config.mjs:135-151): a library whose output format is not part of this model. The rendered table is a parameter of `UpdateReadme`.
- Plugin construction (rollup.config.mjs:1-4, 65-85, 105-125): plugins are reduced to their names. The names other than `babel` are those the plugin packages publish, and no result depends on them.
- The license banner (rollup.config.mjs:12-19) and the babel presets and `assumptions` (rollup.config.mjs:25-37): configuration passed on to the bundler.
- The output options the table does not read (`exports`, `globals`, `name`) and the target option `input`.
- GenerateOutputLines: assumes, like `Description`, that every target has a `plugins` array of named plugins and an `output` array whose entries have a string `file` and `format` (rollup.config.mjs:154-160). On other shapes the JavaScript differs. It throws a TypeError when `output` is a single object or `plugins` is missing or holds `null`/`undefined`. It does not find a `babel` plugin nested in an inner array, so that target's Transpiled cell is "No". It writes `undefined` into a cell when an output has `dir` instead of `file` or has no `format`. None of these shapes occurs in the shipped `config`.
- `process.env.ROLLUP_WATCH` (rollup.config.mjs:21) is not read: its value is the `Option<string>` parameter of `ShippedConfig.IsProduction`. JavaScript's `!` is modelled as "unset or empty".
- Strings are sequences of Unicode scalar values, while JavaScript strings are UTF-16 code units. Lone surrogates cannot be represented. For text outside the Basic Multilingual Plane the indices and lengths (`i`, `j` and the length in `ReplaceBetweenHit`) count characters where JavaScript counts code units. The spliced string is the same, because every match of a well-formed marker covers whole characters.
