# simple-tool JSON-to-Java converter, modelled in Dafny

This project models the converter of simple-tool, `actions/converter/parser.go`.
The converter takes a decoded JSON object and infers a tree of Java class
descriptions from it:

- one field per key;
- a Java type for each field, chosen from the shape of the value;
- a `JsonProperty` annotation on each key whose first letter is upper-case;
- a non-public inner class for each nested object.

It then wraps the root class in a file description with a fixed package, an
ordered list of imports and a time-stamped comment.

Files:

- `json.dfy` (module `JsonModel`): a decoded JSON value. `JNull`, `JNum`,
  `JStr`, `JBool`, `JObj` and `JArr` stand for Go's `nil`, `float64`, `string`,
  `bool`, `map[string]interface{}` and `[]interface{}`. An object is its list of
  members, in the order the converter's `keys` helper returns them.
- `common.dfy` (module `Common`): the casing helpers `LowerCaseFirst`,
  `UpperCaseFirst` and `IsUpperCaseFirst`, given an ASCII meaning.
- `parser.dfy` (module `Converter`):
  - the data types `Annotation`, `JavaField`, `ClassDescription`, `JavaImport`
    and `JavaFileDescription`;
  - the imperative operations `JsonToJavaClass`, `ProcessAnnotation` and
    `ClassToJavaFile`;
  - `Infer`, `InferFrom` and `InferField`, which are `JsonToJavaClass` as
    functions. `Infer` is the whole call, `InferFrom` the rest of the key loop
    and `InferField` one iteration;
  - `InferAsWritten`, `InferFromAsWritten` and `InferFieldAsWritten`, the same
    conversion with the array-of-array guard exactly as the code writes it.
- `parser_facts.dfy` (module `ConverterFacts`): reference definitions of the
  expected fields, types, inner classes, flag and errors, and the lemmas proving
  that `Infer` meets them.
- `samples.dfy` (module `ConverterExamples`): worked documents.

The package-global `ImportConfig.hasJsonProperty` is threaded through the
operations as a value. Each operation takes the flag as it stood and returns it
as it stands afterwards. The three panics become errors in a `Result`:

- `NilJson`: the map handed in is nil (the panic at line 64).
- `NestedArray`: the panic at line 122, whose message says that nested arrays
  are not supported. Its guard, as written, never fires (see "## Findings").
  The model raises it where the message intends, for an array whose first
  element is an array. `InferAsWritten` follows the code as written instead,
  and `AsWrittenDiffersOnlyOnNestedArrays` relates the two.
- `NilElement`: an array whose first element is null, on which line 134 calls
  a method on the nil type that `reflect.TypeOf(nil)` returns.

`JsonToJavaClass` is a recursive method. It has a loop over the keys that
appends to the class step by step. Its contract equates its result with
`Infer`, and the lemmas of `ConverterFacts` state what `Infer` produces.

Two behaviours of the code that a reader might expect otherwise, which the
model keeps as the code has them:

- An empty array gives the plain type `Object`, not a list of `Object`
  (`actions/converter/parser.go:126-129`).
- Inner classes are appended to the class being built, not flattened into the
  outermost class. The append target comes from `findParent(&classDesc)`, and
  the current class has no parent link yet at that point (lines 112-114 and
  139-141). So a class nested two levels deep sits inside its immediate
  enclosing class, which is named as its parent.

Assumed definitions of helpers whose bodies are not part of this model:

- `keys` returns the members in the order of the member sequence.
- `findParent` returns the class it is given.
- `listType(t)` is `List<t>`.
- `parseType` types a scalar element as lines 79-105 type a scalar field, and
  gives `Object` for a value that is not a scalar (an array). Only the code as
  written hands it an array (see "## Findings").
- `hasList` holds when some field in the class tree has a type starting with
  `List<`.
- `isUpperCaseFirst`, `c.LowerCaseFirst` and `c.UpperCaseFirst` test and change
  the first character as ASCII.

## Model

| member | source | states |
|---|---|---|
| `Converter.JsonToJavaClass` | actions/converter/parser.go:62-154 | the key loop and its recursive calls return exactly `Infer(name, json, flag)`: the error, or the class tree and the updated flag |
| `Converter.ProcessAnnotation` | actions/converter/parser.go:185-190 | a key whose first letter is upper-case appends one annotation `{JsonProperty, key}` and sets the flag; any other key leaves the list and the flag as they were |
| `Converter.ClassToJavaFile` | actions/converter/parser.go:156-183 | the package is `generated` and the class is kept; the JsonProperty import comes first exactly when the flag is set; the four lombok imports follow in fixed order; `java.util.List` comes last exactly when the tree uses a list; there are 4 + [flag] + [list] imports; the comment carries the given time |
| `ConverterFacts.FieldsFollowKeys` | actions/converter/parser.go:67-152 | each key yields exactly one field, in key order, named by lower-casing the key's first letter, typed by the reference table and annotated by the JsonProperty rule; the root is public, named `name`, has no parent and no static classes |
| `ConverterFacts.AnnotationRule` | actions/converter/parser.go:73-76 | a key gets the single annotation `{JsonProperty, original key}` exactly when its first letter is upper-case, which is exactly when the field name differs from the key; otherwise it gets none |
| `ConverterFacts.NumberTypeIsFractionTest` | actions/converter/parser.go:88-96 | the truncate-and-compare test types a number `Float` exactly when it has a non-zero fractional part, and `Integer` otherwise |
| `ConverterFacts.ClassTreeWellFormed` | actions/converter/parser.go:107-144 | the returned tree holds the class-tree invariant: the root is public, named `name` and without parent; no class at any depth has static classes; every inner class is non-public and names its enclosing class as parent |
| `ConverterFacts.InnerClassesFollowNestedObjects` | actions/converter/parser.go:107-144 | the inner classes are exactly one per key whose value is an object, or an array whose first element is an object, in key order; each is the class inferred from that object under the upper-cased key, made non-public, with the current class as parent |
| `ConverterFacts.InferFlagFree` | actions/converter/parser.go:58-60 | the incoming flag has no influence on whether the conversion succeeds or on the class tree it builds |
| `ConverterFacts.FlagRule` | actions/converter/parser.go:185-188 | the returned flag is the incoming flag or-ed with "some visited key starts upper-case": it is never cleared, and a conversion started with a cleared flag reports only its own keys |
| `ConverterFacts.ErrorCases` | actions/converter/parser.go:63-65 | a nil map is refused with `NilJson`; `Infer` converts a map exactly when no array it looks at starts with null or with an array (the code as written also converts an array starting with an array, see "## Findings") |
| `ConverterFacts.OnlyFirstElementsMatter` | actions/converter/parser.go:124-150 | cutting every array in the document, at every depth, down to its first element leaves the result unchanged (error, or class tree and flag): elements after index 0 are never inspected |
| `ConverterFacts.BadFirstElementRefused` | actions/converter/parser.go:131-134 | an array whose first element is null is refused with `NilElement`; one whose first element is an array is refused with `NestedArray` |
| `ConverterFacts.AsWrittenAgrees` | actions/converter/parser.go:62-154 | the conversion as written never reports `NestedArray`, and it returns what `Infer` returns on every document that `Infer` does not refuse with `NestedArray` |
| `ConverterFacts.AsWrittenDiffersOnlyOnNestedArrays` | actions/converter/parser.go:120-148 | the conversion as written and the corrected `Infer` give different results exactly on the documents `Infer` refuses with `NestedArray` |
| `ConverterFacts.NestedArrayFallsThrough` | actions/converter/parser.go:120-148 | as written, an array whose first element is an array passes the guard and gets the field `listType(parseType(first))`, as a scalar element would, annotated by the key rule |
| `ConverterFacts.ArrayGuardNeverFires` | actions/converter/parser.go:120-123 | the array-of-array guard as written, a test on the array value's own Go type name, lets every decoded JSON value through |
| `Common.LowerCaseFirstChangesIffUpper` | actions/converter/parser.go:76 | lower-casing the first letter changes a key exactly when that letter is upper-case |
| `Common.UpperOfLower` | actions/converter/parser.go:110 | the inner class name `UpperCaseFirst(LowerCaseFirst(key))` equals `UpperCaseFirst(key)` |
| `ConverterExamples.SampleFields` | actions/converter/parser.go:70-152 | `{"id": 1, "Name": "x", "score": 2.5, "tags": ["a","b"], "meta": null, "child": {"A": 1}}` gives the fields `id` Integer, `name` String with `JsonProperty(Name)`, `score` Float, `tags` `List<String>`, `meta` Object and `child` Child |
| `ConverterExamples.SampleChild` | actions/converter/parser.go:113 | the nested object `{"A": 1}`, converted on its own as `Child`, gives one field `a` Integer with `JsonProperty(A)` and sets the flag |
| `ConverterExamples.SampleInnerClass` | actions/converter/parser.go:107-117 | the sample document gives one inner class, `Child`: non-public, parent `Root`, one field `a` Integer with `JsonProperty(A)` |
| `ConverterExamples.SampleFlags` | actions/converter/parser.go:185-188 | the sample sets the flag; a later conversion of `{"id": 1}` that starts with a cleared flag leaves it clear |
| `ConverterExamples.ZeroFractionIsInteger` | actions/converter/parser.go:90-95 | `{"x": 1.00}` gives an Integer field; decoded, `1.00` is the number `1`, so the zero fraction the fixme at line 90 mentions cannot be seen by any typing rule |
| `ConverterExamples.EmptyArrayIsObject` | actions/converter/parser.go:126-129 | `{"tags": []}` gives a plain Object field |
| `ConverterExamples.RefusedDocuments` | actions/converter/parser.go:120-134 | `{"items": [[1,2]]}` is refused with `NestedArray`, an array starting with null with `NilElement`, and a nil map with `NilJson` |
| `ConverterExamples.NestedArrayAsWritten` | actions/converter/parser.go:120-148 | as written, `{"items": [[1,2]]}` is converted to a class with the single field `items` of type `List<Object>` (the inner array typed `Object` by the assumed `parseType`) |

## Left out

- `Converter.JsonToJavaClass`, `Converter.Infer` and `Converter.InferField`: they refuse an array whose first element is an array with `NestedArray`, where the code as written falls through to `parseType` and types the field `listType(parseType(first))`, which is `List<Object>` under the assumed `parseType`. They model the intent of the line-122 panic; the code as written is `Converter.InferAsWritten`, and the two are related in "## Findings".
- The file comment's time: `time.Now().Format` is a clock. The formatted time is a parameter of `ClassToJavaFile`, and the regexp substitution of `$time` is written as a concatenation around it.
- Go reflection and type-name matching: pattern matching on the `Json` variants replaces them. For decoded JSON values, each value reaches exactly one of the branches at lines 79-150.
- Numbers are `real`. The overflow of `int(float64)` for values beyond the range of Go's `int` is not modelled.
- Helper bodies: `keys`, `findParent`, `listType`, `parseType`, `hasList`, `isUpperCaseFirst`, `c.LowerCaseFirst` and `c.UpperCaseFirst` are not part of this model. They are replaced by the assumed definitions above. In particular, the first-letter helpers are ASCII-only, with no Unicode case mapping.
- Aliasing: `parentClass` refers to the caller's local class while `innerClass` stores copies. The model records the parent's name instead.
- A Go map's keys are distinct; the member sequence is not required to be.
- On a panic, the model returns the error and drops the flag: the panic ends the run, so no later reader sees the flag.
- The package-global flag, and its sharing between concurrent conversions, is replaced by the flag passed in and out.
- Rendering the descriptions into Java text, the command line and file I/O are not part of this model.

## Findings

| source | as written | input that shows it | evidently intended | confidence | as-written member | corrected member |
|---|---|---|---|---|---|---|
| actions/converter/parser.go:120-123 | the guard tests whether the Go type name of the array value itself starts with `[][]`. A decoded JSON array is `[]interface {}`, so the panic never fires, and an array of arrays goes on to `parseType(nested[0])` | `{"items": [[1,2]]}` | refuse an array whose elements are arrays (the panic message says that nested arrays are not supported) | not executed; high | `Converter.InferAsWritten` (the conversion with the guard `Converter.ArrayGuardAsWritten`), with `ConverterFacts.ArrayGuardNeverFires`, `ConverterFacts.NestedArrayFallsThrough`, `ConverterFacts.AsWrittenDiffersOnlyOnNestedArrays` and `ConverterExamples.NestedArrayAsWritten` | `Converter.InferField` (its guard tests the first element), with `ConverterFacts.BadFirstElementRefused`, `ConverterFacts.ErrorCases` and `ConverterExamples.RefusedDocuments` |
