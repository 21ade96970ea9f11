# FHIR synthetic-data generator: schema flattening, modelled in Dafny

`generate_fhir_data.py` turns a FHIR resource class into a flat table. It
walks the resource's fields depth-first and unwraps `Optional[...]` and
`List[...]` hints. Nested models are flattened under a prefix, and each
list is unrolled into `max_array_items` indexed items. Every finished
column name is put into snake, camel or pascal case. The column list is
then de-duplicated, and synthetic values are generated per column. This
project models that core and proves what it promises.

Modules (one file each):

- `Text` (`text.dfy`) models Python's `str.split` and `sep.join` on a
  one-character separator, `''.join`, and decimal rendering (`f"{i}"`,
  `f"{n:06d}"`). It also proves the round trips between them.
- `Naming` (`naming.dfy`) models `to_snake_case`, `to_camel_case`,
  `to_pascal_case` and `apply_case_style`.
- `Types` (`types.dfy`) models type hints as a datatype, together with
  `unwrap_optional_and_list` and `is_primitive_type`.
- `Flatten` (`flatten.dfy`) models `flatten_schema`, the `schema`
  configuration and its defaults.
- `Dedup` (`dedup.dfy`) models the order-preserving de-duplication loop of
  `main`.
- `IdGen` (`ids.dfy`) models the identifier branch of
  `FHIRDataGenerator.generate_value`.
- `Jsonc` (`jsonc.dfy`) models the fallback `//` comment stripping of
  `load_json_config`.
- `Optional` (`optional.dfy`) holds the `Option` type used for a missing
  configuration entry and for a value the model does not generate.

Pydantic reflection is replaced by data:
- A model's fields are an `Env`, a map from model name to its fields in
  declaration order.
- A field's type hint is a `Ty`:
  - `Union` (so `Optional[X]` is `Union([X, NoneT])`);
  - `ListOf` for `List[X]` or `list[X]`;
  - `BareList` for the unsubscripted `typing.List`;
  - `Model` for a Pydantic model class;
  - `Prim` and `NoneT` for the primitives;
  - `Opaque` for any other class.
- An unknown model name has no fields, as `get_model_fields` returns `{}`
  on failure.

Configuration values are unbounded integers and string sets. Letters are
ASCII: the case mappings leave every other character alone.

In three places the code does less than one might expect of it. This
model follows the code:

- `unwrap_optional_and_list` sets `is_optional` only for an outermost
  union with exactly one non-`None` argument. An `Optional` inside a list
  is not reported (`Types.OptionalInsideListDropped`), so the flags of
  nested layers are not merged. A reading that merges the flags of every
  layer agrees with the code on `is_list` and on the inner type for
  simply wrapped hints (`Types.UnwrapSimpleWrapping`). It disagrees only
  on `is_optional`, which never affects the columns.
- Camel and pascal case are not idempotent: applying either twice is not
  the same as applying it once. `str.capitalize` lower-cases the rest of
  each word, and two upper-case letters in a row do not start a new snake
  word. For example, pascal(`a_b`) = `AB` but pascal(`AB`) = `Ab`
  (`Naming.PascalNotIdempotent`, `Naming.CamelNotIdempotent`). Snake case
  is idempotent (`Naming.SnakeIdempotent`).
- `max_depth` and `max_array_items` are not checked to be non-negative.
  A negative value behaves like zero: with `max_depth <= 0` nothing is
  emitted, and with `max_array_items <= 0` `range` is empty, so lists emit
  nothing.

## Model

| member | source | states |
|---|---|---|
| Types.Unwrap | src/proto/generate_fhir_data.py:440-466 | `is_optional` holds exactly for a union with one argument other than `None`. A `List[...]` or bare `List` hint sets `is_list` and is not optional. A union with several non-`None` arguments is a list exactly when its first such argument is a list. When that argument is not a `List[...]`, the union's inner type is that argument. An `Optional` layer around a list is a list. A union of `None` alone passes through unchanged, and a bare `List` gives (not optional, list, `List`). The inner type is never a parameterised list. A hint that is neither a union nor a list passes through unchanged. `Types.UnwrapLayers` gives the recursive steps. |
| Types.NonNone | src/proto/generate_fhir_data.py:450 | The filtered arguments are the union's arguments other than `None`, each as often as it occurs in the union. Their number is the number of arguments less the number of `None` entries. The first of them is the first argument in order that is not `None`. |
| Types.IsPrimitive | src/proto/generate_fhir_data.py:468-479 | No contract of its own: the predicate's definition is its statement. `str`, `int`, `float`, `bool` and `None` are primitive, and so is a union exactly when all its members are. `Types.UnwrapPrimitive` relates it to unwrapping. |
| Types.UnwrapLayers | src/proto/generate_fhir_data.py:450-464 | An `Optional` layer takes the list flag and inner type of its argument. A `List[X]`, at the top or as the first argument of a wider union, is a list, is not optional, and has the inner type of `X`. |
| Types.OptionalListOfWideUnion | src/proto/generate_fhir_data.py:450-464 | `Optional[List[Union[str, int]]]` unwraps to (optional, list, `str`). |
| Types.StrOrInt | src/proto/generate_fhir_data.py:455-456 | `Union[str, int]` unwraps to (not optional, not a list, `str`). |
| Types.UnwrapPrimitive | src/proto/generate_fhir_data.py:440-479 | Unwrapping a primitive hint never finds a list and leaves a primitive inner type. |
| Types.UnwrapWideUnion | src/proto/generate_fhir_data.py:455-463 | A union with several non-`None` arguments gives way to the first one. It is neither optional nor a list when that argument is not a list. |
| Types.UnwrapSimpleWrapping | src/proto/generate_fhir_data.py:440-466 | On hints built from `Optional` and `List` layers only, the code's `is_list` and inner type equal those of the merged-flag reading. Its `is_optional` implies the merged flag. |
| Types.OptionalInsideListDropped | src/proto/generate_fhir_data.py:458-466 | `List[Optional[str]]` unwraps to (not optional, list, `str`), although it holds an `Optional` layer. |
| Flatten.Resolve | src/proto/generate_fhir_data.py:486-493 | A given entry is used as it is: the separator, case, depth and item count equal the given values, and given lists become sets with the same members. A missing entry takes its default: separator `_`, snake case, depth 3, three array items, and no inclusion or exclusion list. |
| Flatten.Flatten | src/proto/generate_fhir_data.py:482-533 | No contract of its own. Its properties are stated by `Flatten.DepthCutoff`, `Flatten.ExcludedNeverMatter`, `Flatten.IncludeIgnoredBelowTop`, `Flatten.StyledOnce`, `Flatten.RawPathPrefix` and `Flatten.FlattenBounded`. |
| Flatten.FieldsColumns | src/proto/generate_fhir_data.py:498-531 | No contract of its own. `Flatten.FieldsColumnsAppend` states that it is the columns of each field in field order. `Flatten.IncludeFiltersTop` states how the inclusion list filters it. |
| Flatten.FieldColumns | src/proto/generate_fhir_data.py:499-531 | No contract of its own. `Flatten.FieldShapes`, `Flatten.ExclusionWins` and `Flatten.RawFieldBase` state what one field emits. |
| Flatten.LeafItems | src/proto/generate_fhir_data.py:516-519 | No contract of its own. `Flatten.LeafItemsShape` states it: n columns, and column `i` is the styled `base + sep + str(i)`. |
| Flatten.ItemsColumns | src/proto/generate_fhir_data.py:520-526 | No contract of its own. `Flatten.ItemsColumnsOfLeaves` states the non-model case, and `Flatten.StyledOnce` and `Flatten.RawFieldBase` state the model case. |
| Flatten.DepthCutoff | src/proto/generate_fhir_data.py:486-487 | At or past `max_depth` nothing is emitted. With `max_depth <= 0` a schema has no columns. |
| Flatten.FieldsColumnsAppend | src/proto/generate_fhir_data.py:495-533 | The columns of a field list are those of its fields, concatenated in field order. |
| Flatten.ExcludedNeverMatter | src/proto/generate_fhir_data.py:499-500 | Deleting the excluded fields from every model changes no column. Exclusion applies at every depth. |
| Flatten.ExclusionWins | src/proto/generate_fhir_data.py:499-503 | An excluded field emits nothing at any depth, even when the inclusion list names it. |
| Flatten.IncludeIgnoredBelowTop | src/proto/generate_fhir_data.py:502-503 | Below the top level, flattening is the same with or without an inclusion list. |
| Flatten.IncludeFiltersTop | src/proto/generate_fhir_data.py:502-503 | A non-empty inclusion list keeps exactly the top-level fields it names and plays no further part. An empty one keeps every field. |
| Flatten.FieldShapes | src/proto/generate_fhir_data.py:505-531 | What one field emits depends on its kind. A rejected field emits nothing. A plain field emits one styled column. A model field emits the nested model's columns one level deeper under the raw column base. A list of non-models emits exactly `max_array_items` styled indexed columns, items 0 to n-1 in order. Any list emits nothing when that setting is at most zero. |
| Flatten.LeafItemsShape | src/proto/generate_fhir_data.py:516-519 | A list of primitives emits n columns. Column `i` is the styled `base + sep + str(i)`. |
| Flatten.ItemsColumnsOfLeaves | src/proto/generate_fhir_data.py:520-526 | Items that are neither primitive nor models fall back to one styled indexed column each, like primitives. |
| Flatten.StyledOnce | src/proto/generate_fhir_data.py:508-531 | Prefixes are passed down unstyled and the case style is applied once per finished column. The styled schema is the raw schema with every column styled. |
| Flatten.RawPathPrefix | src/proto/generate_fhir_data.py:508-529 | With names left as they are, every column emitted under a prefix starts with the prefix and the separator. |
| Flatten.RawFieldBase | src/proto/generate_fhir_data.py:508-531 | With names left as they are, every column of a field starts with its column base. |
| Flatten.FlattenBounded | src/proto/generate_fhir_data.py:482-533 | Suppose every model has at most `fanout` fields. Then the number of columns is at most `ColumnBound`, a function of the depth limit, the item count and the fan-out only. |
| Flatten.ExampleDepthTwo | src/proto/generate_fhir_data.py:482-533 | Take a resource with `name: str` and `address: List[Address]`, where `Address` has `line: str`. With depth 2 and two items it gives `name`, `address_0_line`, `address_1_line`. |
| Flatten.ExampleDepthOne | src/proto/generate_fhir_data.py:486-487 | The same resource with depth 1 gives only `name`. |
| Naming.Snake | src/proto/generate_fhir_data.py:546-553 | The result has no upper-case letter and is one character longer than the input per word start. Character `i` of the input appears lower-cased at `i` plus the number of word starts up to and including it. A word start has its `_` directly in front of it. |
| Naming.Capitalize | src/proto/generate_fhir_data.py:559 | The result has the input's length. Its first character is not lower-case and equals the input's first character up to case. Every later character is the lower-cased input character. |
| Naming.Camel | src/proto/generate_fhir_data.py:555-559 | Camel case is the snake-cased name read one character at a time: every `_` is dropped and the character after it upper-cased. |
| Naming.Pascal | src/proto/generate_fhir_data.py:561-564 | Pascal case is the same character scan, with the first character upper-cased as well. |
| Naming.CaseScanWords | src/proto/generate_fhir_data.py:555-564 | On any name without upper-case letters, the character scan equals splitting on `_` and capitalising the words. Capitalising every word gives the pascal scan; capitalising all but the first gives the camel scan. |
| Naming.CaseScanAt | src/proto/generate_fhir_data.py:555-564 | In the scan, a character other than `_` moves left by the number of underscores before it. It is upper-cased exactly when it follows an `_`, or when it comes first and the scan starts upper-cased. |
| Naming.SnakeOfLowerIdentity | src/proto/generate_fhir_data.py:546-553 | A name without upper-case letters is left unchanged. |
| Naming.SnakeIdempotent | src/proto/generate_fhir_data.py:546-553 | Snake case applied twice equals snake case applied once. |
| Naming.SnakeErase | src/proto/generate_fhir_data.py:546-553 | Snake case only lower-cases and inserts underscores. Without underscores, it is the lower-cased input without underscores. |
| Naming.SnakeExamples | src/proto/generate_fhir_data.py:546-553 | `""` gives `""`. `XMLParser` gives `xml_parser`. |
| Naming.SnakeExamplePatient | src/proto/generate_fhir_data.py:546-553 | `patientGivenName` gives `patient_given_name`. |
| Naming.CamelPascalShape | src/proto/generate_fhir_data.py:555-564 | Camel and pascal case contain no underscore, and lowered each is the snake-cased name without its underscores. Each character of the snake-cased name other than `_` moves left by the number of underscores before it. It is upper-cased exactly when it follows an `_`, and in pascal case also when it comes first. |
| Naming.CamelFromPascal | src/proto/generate_fhir_data.py:555-564 | Camel case is pascal case with the first letter lowered. When the name is empty or starts with `_`, the two are equal. |
| Naming.CapitalizeLower | src/proto/generate_fhir_data.py:563 | On a word without upper-case letters, `capitalize` upper-cases the first character only. Lowering undoes it. |
| Naming.PascalExample | src/proto/generate_fhir_data.py:561-564 | `patient_given_name` gives `PatientGivenName`. |
| Naming.CamelExample | src/proto/generate_fhir_data.py:555-559 | `patient_given_name` gives `patientGivenName`. |
| Naming.PascalNotIdempotent | src/proto/generate_fhir_data.py:561-564 | pascal(`a_b`) = `AB` and pascal(`AB`) = `Ab`. |
| Naming.CamelNotIdempotent | src/proto/generate_fhir_data.py:555-559 | camel(`x_a_b`) = `xAB` and camel(`xAB`) = `xAb`. |
| Naming.ApplyCase | src/proto/generate_fhir_data.py:535-544 | Each style applies its own transform: `snake` gives the snake-cased name, `camel` the character scan of that name with no initial upper-casing, and `pascal` the same scan with the first character upper-cased. Snake style therefore has no upper case and keeps the letters apart from the underscores. Camel and pascal contain no underscore and lower to the snake-cased name without its underscores. For a name not starting with `_`, camel begins with the lower-cased first character and pascal with its upper-case form. Any other style returns the name unchanged. |
| Dedup.Dedup | src/proto/generate_fhir_data.py:815-821 | The unique columns hold exactly the input's columns, with no repeats. |
| Dedup.DedupSubsequence | src/proto/generate_fhir_data.py:815-821 | The unique columns are the input with elements deleted, the rest in their original order. |
| Dedup.DedupFirstOccurrenceOrder | src/proto/generate_fhir_data.py:815-821 | The unique columns come in the order of their first occurrences. |
| Dedup.DedupDistinct | src/proto/generate_fhir_data.py:815-821 | A column list without repeats is left unchanged. |
| Dedup.DedupIdempotent | src/proto/generate_fhir_data.py:815-821 | De-duplicating twice is de-duplicating once. |
| Dedup.DedupColumns | src/proto/generate_fhir_data.py:815-821 | The loop with its `seen` set computes the de-duplicated list. |
| Dedup.CollidingFieldsKeptOnce | src/proto/generate_fhir_data.py:809-821 | Fields `aB` and `a_b` both flatten to the snake column `a_b`. De-duplication keeps it once. |
| IdGen.NewGenerator | src/proto/generate_fhir_data.py:570-573 | A new generator starts with counter 0 and no used identifiers. |
| IdGen.IsIdColumn | src/proto/generate_fhir_data.py:578-580 | No contract of its own. `IdGen.IdColumnExamples` states its cases. |
| IdGen.IdColumnExamples | src/proto/generate_fhir_data.py:578-580 | `ID` and `a_Id` are identifier columns, since the test is on the lower-cased name. `pid` and `idx` are not: the suffix must be `_id`. |
| IdGen.IdFor | src/proto/generate_fhir_data.py:581 | The identifier is at least seven characters longer than the resource name, room for the `-` and the six zero-padded digits. `IdGen.IdForFormat` states the format. |
| IdGen.IdForFormat | src/proto/generate_fhir_data.py:581 | An identifier is the lower-cased resource name, a `-`, and the number's digits zero-padded to six. That is exactly six digits, or more with no leading zero, and they read back as the number. |
| IdGen.FirstPatientId | src/proto/generate_fhir_data.py:581 | Number 1 of a `Patient` generator is `patient-000001`. |
| IdGen.IdForInjective | src/proto/generate_fhir_data.py:581-584 | Distinct counter values give distinct identifiers. |
| IdGen.NextFreeId | src/proto/generate_fhir_data.py:580-586 | The identifier was not used before and is recorded as used. It is the identifier of the final counter. Every counter value skipped had its identifier taken. |
| IdGen.GenerateValue | src/proto/generate_fhir_data.py:575-586 | The counter advances on every call. A non-identifier column leaves the used set alone. An identifier column (`id` or `*_id`, any case) gets the first free identifier after the advanced counter. |
| IdGen.TwoIds | src/proto/generate_fhir_data.py:575-586 | Two identifier columns in a row receive two different identifiers, neither used before. |
| Jsonc.StripComments | src/proto/generate_fhir_data.py:85-91 | No contract of its own. `Jsonc.StripCommentsLines`, `Jsonc.StripCommentsNoComment` and `Jsonc.StripCommentsIdempotent` state what it promises. |
| Jsonc.CutPoint | src/proto/generate_fhir_data.py:89-90 | The cut is at a `//`, and no `//` starts before it. |
| Jsonc.StripLine | src/proto/generate_fhir_data.py:89-90 | The kept text is a prefix of the line that holds no `//`. It is the whole line exactly when the line has no `//`. |
| Jsonc.StripAtFirstComment | src/proto/generate_fhir_data.py:89-90 | The text before the first `//` is kept. |
| Jsonc.StripCommentsLines | src/proto/generate_fhir_data.py:85-91 | The cleaned text has as many lines as the input. Each is the input line cut at its first `//`, so no cleaned line holds `//`. |
| Jsonc.StripCommentsNoComment | src/proto/generate_fhir_data.py:85-91 | A text without `//` comes through unchanged. |
| Jsonc.StripCommentsIdempotent | src/proto/generate_fhir_data.py:85-91 | Cleaning twice is cleaning once. |
| Jsonc.UrlIsCut | src/proto/generate_fhir_data.py:89-90 | A `//` inside a string value is cut too. `"url": "http://x"` becomes `"url": "http:`. |
| Text.Split | src/proto/generate_fhir_data.py:86 | `k` separators give `k + 1` parts, and no part holds the separator. |
| Text.Join | src/proto/generate_fhir_data.py:91 | No contract of its own. `Text.JoinSplit` and `Text.SplitJoin` state that it undoes `Split`. |
| Text.JoinSplit | src/proto/generate_fhir_data.py:86-91 | Joining the split lines with the separator gives back the text. |
| Text.SplitJoin | src/proto/generate_fhir_data.py:558 | Splitting joined parts that do not hold the separator gives back the parts. |
| Text.ZeroPaddedRoundTrip | src/proto/generate_fhir_data.py:581 | Reading back `f"{n:06d}"` gives `n`. |

## Left out

- Pydantic reflection is not modelled: `get_model_fields`, `get_field_type` and `is_pydantic_model` (src/proto/generate_fhir_data.py:406-438). Models and type hints are given as data instead, and `Flatten.ModelFields` plays the part of `get_model_fields`.
- Resource discovery, the interactive prompts and the command line are I/O and are left out.
- Loading the configuration is file I/O and is left out, including the `json5` path and JSON parsing. Only the comment-stripping loop is modelled.
- Writing the output files and the summary is I/O and is left out.
- `IdGen.GenerateValue`: models only the identifier branch. The other branches are value heuristics chosen by column name, and they are left out. Most of them draw on `random`, `uuid` or the clock. The deterministic ones are left out as well: `resource_type`, `system`, `display`, text, `url`, name and title, and the `""` default. Those columns get `None` here, but the counter still advances.
- Flatten.FieldShapes: for a list of models it names no columns directly. What that case emits is stated by `Flatten.StyledOnce`, `Flatten.RawFieldBase` and the worked example.
- Union hints are taken as written. `typing` collapses `Union[X]` to `X` and flattens nested unions, and removes repeated arguments, so `Union([X])`, a union nested in a union, a union of `None` alone and a union with a repeated argument stand for no real hint. For example, `Union[str, str, None]` is `Optional[str]` in Python, but `Union([Prim(Str), Prim(Str), NoneT])` has two arguments other than `None`, so `Types.Unwrap` reports it as not optional. On `Union([X])`, `Types.Unwrap` reports an optional. A PEP 604 `X | None` is not a `typing.Union` before Python 3.14, so the code does not unwrap it. Here it is an `Opaque` class.
- Unicode case mapping is not modelled: `isupper`, `islower`, `lower` and `capitalize` act on ASCII letters only.
- `typing` edge cases outside the `Ty` datatype are not modelled: forward references, `Annotated`, `Literal` and constrained types.
- The package's `setup.py` and the pipeline around `main` are not modelled.
