# jsvutil in Dafny

jsvutil wraps the JSV JSON Schema validator with two operations.

- `validate(instance, schema)` deep-copies the instance, fills the default values the schema declares into the copy, and has the engine validate the copy. It returns the defaulted copy, or throws one aggregated `ValidationError`.
- `check(schema)` has the engine validate a schema against the JSON Schema meta-schema. It returns the schema, or throws the aggregated error.

The aggregated error's message is a summary line followed by one line per engine error. Each error line has three parts:

- the engine's message;
- ` (details)` when the details are a string, a number or an object;
- `: name`, where the name is the property path taken from the URI fragment of the error, e.g. `#/foo/bar` names `foo.bar`.

The model has six modules:

- `Wrappers`: `Option`, `Result` (a value or a thrown error) and `Outcome` (returned normally, or threw).
- `JsonValue`: JSON values, and JavaScript's `typeof` on them.
- `Text`: the string operations the error formatting uses (`indexOf`, `split` on one character, `join`), with their round trips.
- `Uri`: the part of `decodeURI` that property names need, and `encodeURI` on ASCII text as its inverse.
- `Jsv`: `lib/jsv.js`, which covers the engine interface, the error aggregation, the error line and the property name.
- `Index`: `index.js`, which covers the default-value walk and the public `validate` and `check`.

The default-value walk works in place on the instance. It is modelled as the class `Index.Instance`, whose method `ApplyDefaultValues` updates the instance's `value`. The method visits the declared names one at a time, in any order. A nested object is defaulted through its own `Instance` and then stored back. The method is proved against the function `Index.Fill`, and the properties of the walk are proved about `Fill`:

- the walk only adds keys, at any depth;
- it is idempotent;
- it keeps a present value, even a falsy one;
- it creates an absent key exactly when that key's schema node declares a default.

The walk does not recurse into a member that is absent and has no default. For example, `{}` against `{properties: {a: {default: 1}, b: {properties: {c: {default: 2}}}}}` gives `{a: 1}`, not `{a: 1, b: {c: 2}}`. `Index.NestedExample` states this behaviour, which is what `index.js:79-85` does. `Index.NestedObjectDefaultExample` shows that a `b` that declares the default `{}` is filled in the same pass.

## Model

| member | source | states |
|---|---|---|
| `JsonValue.TypeOf` | lib/jsv.js:85-86 | `typeof` gives "object" exactly for null, arrays and objects, and "undefined" exactly for a missing value |
| `Text.IndexOf` | lib/jsv.js:103 | `indexOf` gives -1 or a position in the string that holds the searched character |
| `Text.IndexOfFirst` | lib/jsv.js:103 | `indexOf` gives -1 exactly when the character is absent, and otherwise the first occurrence |
| `Text.Split` | lib/jsv.js:105 | `split` on a character gives one more piece than there are occurrences of it |
| `Text.JoinSplit` | lib/jsv.js:105-109 | joining the pieces of a split with the separator gives back the string |
| `Text.SplitPiecesFree` | lib/jsv.js:105 | no piece of a split contains the separator |
| `Text.SplitNoSeparator` | lib/jsv.js:105 | a string without the separator splits into itself alone |
| `Text.SplitAfterPiece` | lib/jsv.js:105 | a separator-free piece followed by the separator becomes its own first piece |
| `Text.SplitJoin` | lib/jsv.js:105-109 | splitting a join of separator-free parts gives back the parts |
| `Text.Join` | lib/jsv.js:109 | definition of `join`; properties in Text.SplitJoin, Text.JoinSplit, Text.JoinEmpty and Text.JoinFree |
| `Text.JoinEmpty` | lib/jsv.js:109 | a join with a non-empty separator is empty exactly for no parts or one empty part |
| `Text.JoinFree` | lib/jsv.js:109 | a character absent from the parts and the separator is absent from the join |
| `Uri.HexDigit` | lib/jsv.js:110 | the hexadecimal digit written for a value below 16 reads back as that value |
| `Uri.DecodeUri` | lib/jsv.js:110 | decoding never lengthens the text, and is empty exactly for empty text |
| `Uri.EncodeChar` | lib/jsv.js:110 | an ASCII character that encodeURI leaves alone is written as itself; any other is written as `%` and two hexadecimal digits whose value is the character's code |
| `Uri.DecodeWithoutPercent` | lib/jsv.js:110 | text without '%' decodes to itself |
| `Uri.DecodeEncodedChar` | lib/jsv.js:110 | an encoded ASCII character decodes back to itself, whatever follows |
| `Uri.DecodeEncode` | lib/jsv.js:110 | decodeURI undoes encodeURI on ASCII text |
| `Jsv.Fragment` | lib/jsv.js:103 | the fragment is a suffix of the URI |
| `Jsv.FragmentFollowsFirstHash` | lib/jsv.js:103 | without '#' the fragment is the whole URI; with one, it is everything after the first '#' |
| `Jsv.FragmentAfterFirstHash` | lib/jsv.js:103 | the fragment of `base#rest`, where `base` has no '#', is `rest` |
| `Jsv.PathSegments` | lib/jsv.js:105-107 | after the root segment is shifted off, there is one segment per '/' of the fragment |
| `Jsv.SegmentsRejoin` | lib/jsv.js:103-107 | the segments joined with '/' give back the fragment after its first '/' |
| `Jsv.SegmentsOfPointer` | lib/jsv.js:104-107 | `/a/b/...` gives the segments `a`, `b`, ... |
| `Jsv.SegmentsOfUri` | lib/jsv.js:103-107 | a URI `base#/a/b/...` gives the segments `a`, `b`, ... |
| `Jsv.PropertyName` | lib/jsv.js:101-111 | definition of `propertyName`; properties in Jsv.NameOfPath, Jsv.NameEmpty, Jsv.NoSlashNoName, Jsv.TrailingSlashNoName and Jsv.NamedExample |
| `Jsv.NameOfSegments` | lib/jsv.js:109-110 | segments without '%' give their dotted join as the name |
| `Jsv.NameOfPath` | lib/jsv.js:101-111 | a URI built from a property path names that path, joined with '.' |
| `Jsv.NameEmpty` | lib/jsv.js:101-111 | the name is empty exactly when the fragment has no segment after the root, or a single empty one |
| `Jsv.NoSlashNoName` | lib/jsv.js:101-111 | a fragment without '/' (e.g. `#` or a URI without '#') names nothing |
| `Jsv.TrailingSlashNoName` | lib/jsv.js:101-111 | a fragment whose only '/' is its last character (e.g. `#/`) names nothing |
| `Jsv.NamedExample` | lib/jsv.js:101-111 | `#/foo/bar` names `foo.bar` |
| `Jsv.HasDetails` | lib/jsv.js:85-86 | definition of the test `typeof details` is "string", "number" or "object"; properties in Jsv.DetailsPart and Jsv.DetailsOmitted |
| `Jsv.FormatValue` | lib/jsv.js:87 | definition of `util.format('%s', …)` on the details; properties in Jsv.DetailsRendering |
| `Jsv.DetailsPart` | lib/jsv.js:85-88 | the details part is present exactly when the details are a string, a number or an object (null included), and is then parenthesised |
| `Jsv.NamePart` | lib/jsv.js:89-92 | definition of the `: name` part; properties in Jsv.ErrorMessageParts |
| `Jsv.ErrorMessage` | lib/jsv.js:82-94 | definition of `errorMessage`; properties in Jsv.ErrorMessageParts, Jsv.DetailsRendering and Jsv.DetailsOmitted |
| `Jsv.ErrorMessageParts` | lib/jsv.js:82-94 | an error line starts with the engine's message; it continues with " (" exactly when there are details; it ends in `: name` when the name is not empty; it is the bare message when neither applies |
| `Jsv.LineLayout` | lib/jsv.js:93 | the layout of the three parts of an error line once they are concatenated |
| `Jsv.DetailsRendering` | lib/jsv.js:85-88 | without a property name, a string detail gives `message (s)`, a number gives `message (` and the formatter's text `)`, and null gives `message (null)` |
| `Jsv.PresentDetailsLine` | lib/jsv.js:85-93 | without a property name, a shown detail gives the message followed by the formatted detail in parentheses |
| `Jsv.DetailsOmitted` | lib/jsv.js:85-88 | without a property name, undefined and boolean details leave the bare message |
| `Jsv.UnnamedLine` | lib/jsv.js:89-93 | without a property name, the line is the message followed by the details part |
| `Jsv.Lines` | lib/jsv.js:68-71 | definition of the message lines, the summary followed by one rendered line per engine error in report order; properties in Jsv.LinesExtend and Jsv.LinesSplit |
| `Jsv.LinesExtend` | lib/jsv.js:69-71 | taking one more engine error appends exactly its line, which is what each `push` does |
| `Jsv.LinesSplit` | lib/jsv.js:72 | lines free of the separator, once joined, split back into exactly the same lines, one more than there are engine errors |
| `Jsv.Messages` | lib/jsv.js:68-71 | definition of the lines `error` collects, each engine error written by `errorMessage`; properties in Jsv.MakeError and Jsv.AggregateLines |
| `Jsv.AggregateError` | lib/jsv.js:67-75 | definition of the error that `error` returns; properties in Jsv.MakeError and Jsv.AggregateLines |
| `Jsv.MakeError` | lib/jsv.js:67-75 | the loop that pushes one line per engine error builds the aggregated error |
| `Jsv.AggregateLines` | lib/jsv.js:67-75 | the aggregated error is named ValidationError; when no part has a line break, its message splits on the line separator into exactly the summary and the n error lines |
| `Jsv.Validate` | lib/jsv.js:36-42 | throws exactly when the engine reports errors, and then throws the aggregated "Schema validation failed." error; otherwise returns the instance unchanged |
| `Jsv.Check` | lib/jsv.js:49-55 | throws exactly when the meta-schema validation reports errors, and then throws the aggregated "Invalid JSON schema." error |
| `Index.PropertiesOf` | index.js:85 | definition of `schema.properties` on a schema node, passed on by Index.Instance.ApplyDefaultValues and Index.Validate; Index.FillUnder, the value-level definition, tests the same condition inline |
| `Index.DefaultOf` | index.js:80 | definition of `schema['default']` on a schema node; properties in Index.FillAt |
| `Index.Fill` | index.js:75-88 | definition of the result of `applyDefaultValues`; properties in Index.FillAt, Index.FillExtends, Index.FillIdempotent and Index.PresentLeafKept |
| `Index.FillFields` | index.js:77-86 | definition of the fields after the iterations over a set of declared names; properties in Index.VisitName and Index.FillAt |
| `Index.FillUnder` | index.js:85 | definition of the recursive call with the node's own `properties`; properties in Index.FillUnderExtends and Index.FillUnderIdempotent |
| `Index.Instance.ApplyDefaultValues` | index.js:75-88 | after the in-place walk over every declared name, the instance is `Fill` of its old value; an undefined `properties` changes nothing |
| `Index.VisitName` | index.js:77-86 | visiting one declared name updates that one entry: a present value or an assigned default, walked into with the node's own `properties`, and nothing else |
| `Index.FillAt` | index.js:75-88 | a key is in the result exactly when it was present or is declared with a default; present undeclared values are kept; declared values are walked into |
| `Index.FillGuard` | index.js:76 | an instance or `properties` that is not an object is left as it is |
| `Index.PresentLeafKept` | index.js:79-85 | a present non-object value, falsy or null included, is kept exactly |
| `Index.FillExtends` | index.js:79-85 | defaulting never replaces or removes a present value at any depth; it only adds keys |
| `Index.FillUnderExtends` | index.js:85 | the recursive step only adds keys |
| `Index.FillIdempotent` | index.js:75-88 | applying the defaults a second time changes nothing |
| `Index.FillUnderIdempotent` | index.js:85 | the recursive step is idempotent |
| `Index.NestedExample` | index.js:79-85 | `{}` gets only `a: 1`, because an absent `b` without a default is not created; a present `a: 0` is kept |
| `Index.NestedObjectDefaultExample` | index.js:79-85 | a default object that was just assigned is filled in the same pass: `{}` gives `{a: 1, b: {c: 2}}` |
| `Index.NullReadAsWritten` | index.js:76-79 | definition of when the walk as written reads a property of null: the guard admits the value, and it is null with a declared name or an object one of whose visited members leads to such a read; exhibited by Index.NullMemberAsWritten |
| `Index.NullReadInMember` | index.js:79-85 | definition of when the iteration for one declared name reaches such a read in its recursive call; exhibited by Index.NullMemberAsWritten |
| `Index.NullReadUnder` | index.js:85 | definition of when the recursive call with the node's own `properties` reaches such a read; exhibited by Index.NullMemberAsWritten |
| `Index.NullMemberAsWritten` | index.js:76-85 | as written, `{a: null}` against `{a: {properties: {b: {}}}}` reads a property of null, while `Fill` keeps the instance |
| `Index.Validate` | index.js:32-45 | the caller's instance is unchanged; a null schema throws a TypeError (the other TypeErrors of the walk are listed under Left out); otherwise the result is the defaulted copy exactly when the engine reports no error on it, and the aggregated "Schema validation failed." error otherwise |
| `Index.Check` | index.js:52-62 | returns the schema exactly when the meta-schema validation reports no error, and otherwise throws the aggregated "Invalid JSON schema." error |

## Left out

- The JSV engine is not part of this model. `env.validate` and `env.getDefaultSchema()` are the fields of the parameter `Jsv.Environment`, and what the engine reports is taken as given.
- `util.format('%s', v)` is a parameter `show` for numbers, booleans, arrays and objects. Strings and `null` are rendered concretely.
- `os.EOL` is fixed to "\n". On Windows it is "\r\n".
- The callback forms of `validate` and `check` (index.js:33-39, 53-59) are left out. They pass the result or the thrown error to `cb`, which `Result` already represents. If `cb` itself throws when given the result, the `catch` calls `cb` a second time, with that exception; the model has no callbacks and does not capture this.
- `Uri.DecodeUri`: decodes only escapes of single bytes below 0x80. A malformed escape, or an escape of a byte from 0x80 on, is kept as written. JavaScript throws `URIError` for a malformed escape and for an invalid UTF-8 sequence (a lone `%80`, say), and decodes a valid UTF-8 sequence to its character.
- `Index.Fill`: null and arrays are leaves. As written, `typeof null === 'object'` lets null through the guard (see Findings). An array instance is walked by the names declared in `properties`, and a default is written onto the array as a named property. An array `properties` is walked by its indices.
- `Index.Fill`: a schema node that is null makes JavaScript throw a TypeError when its name is visited (index.js:80 or index.js:85). A `properties` that is null makes it throw at `Object.keys(null)` (index.js:77), but only when the walk gets past the guard at index.js:76, that is for an object, array or null instance. The model treats a null node and a null `properties` as declaring nothing.
- `Index.Fill`: keys inherited from `Object.prototype` (such as `toString`) are not `undefined` in JavaScript. The model has no prototype chain.
- `Index.Instance.ApplyDefaultValues`: a default that is an object is assigned by reference, so filling into it also changes the schema's own default. In the value model each assignment is a copy.
- `Index.Validate`: the walk's own TypeErrors other than the null schema are not modelled; the model returns the engine's verdict on `FillUnder(instance, schema)`. There a null `properties` or a null node declares nothing and a null member is a leaf, so the other declared names are still filled. They are: `properties` that is null with an object instance (`Object.keys(null)`, index.js:77); a null node under `properties` (index.js:80 or index.js:85); a null instance or null member walked with declared names (index.js:79).
- `Index.Validate`: the TypeError message of a null schema is the wording of current V8 releases; it depends on the JavaScript runtime.
- `Index.Validate`: the copy `JSON.parse(JSON.stringify(instance))` is the identity on JSON values. An `undefined` instance or schema, and values that are not JSON, are outside the model. This version of `index.js` does not accept serialized text.
- Numbers are reals and are never computed with. Strings are sequences of characters.

## Findings

| source | as written | input that shows it | evidently intended | confidence | as-written member | corrected member |
|---|---|---|---|---|---|---|
| index.js:76 | the guard `typeof instance === 'object'` also admits `null`, and `instance[name]` at index.js:79 then throws a TypeError | instance `{a: null}`, schema `{properties: {a: {properties: {b: {}}}}}` | a present null member is a leaf and is kept, like any other present value | not executed | `Index.NullMemberAsWritten` | `Index.PresentLeafKept` |
