# shr-es6-export, modelled in Dafny

shr-es6-export turns Standard Health Record (SHR) data element definitions
into ES6 classes. Each class gets JSON and FHIR (STU3) readers and writers.
This project models the generator's decision logic:

- how SHR mapping strings such as `<shr.core.Quantity>.<shr.core.Units>` are
  parsed and resolved to fields and accessor chains;
- how a profile's snapshot is pre-processed:
  - slice groups and their discriminator values, per HL7 FHIR STU3
    "Slicing";
  - choice elements `foo[x]` expanded into one concrete element per
    (mapping, type) pair;
  - SHR mappings de-duplicated and resolved;
- which blocks and assignments `writeFromFhirProfile` plans while it walks
  the snapshot with its stack of enclosing elements;
- which fields `writeToFhir` assigns, each method chain once, and the
  nearest list container `generateToFHIRAssignment` picks;
- the small helpers: bracket notation, variable names, symbols, FHIR ids and
  relative import paths;
- the support code:
  - the `CodeWriter` line buffer;
  - `common.js` naming;
  - the `Reference` class;
  - the key handling of `json-helper.js`;
  - the exporter's value-set table and file hierarchy.

The generator writes JavaScript text through a `CodeWriter`. For the
generator walks, the model records what is written as a list of events
(`FromFhir.Emit`, `ToFhir.ToEmit`). Each event stands for a block that is
opened or closed, or an assignment with the parameters the text is built
from. A JavaScript `TypeError` that the source would throw on malformed
input (for example a `<Value>` token inside a chain, or a missing data
element) is modelled as `Crash` of a `Result`.

The pure parts are functions with lemmas about them. Each source loop is a
method proved equal to a specification function (`ensures r == Spec(...)`),
and the properties are proved about that function.

Modules, one per file:

- `Strings`, `Wrappers`, `OrderedMap`: `OrderedMap` is a JavaScript object
  used as a dictionary, with keys kept in insertion order.
- `Json`, `ShrModels`, `Fhir`: the data the generator reads.
- `Common`, `CodeWriterModel`, `ReferenceModel`, `JsonHelper`, `Export`.
- `PathHelpers`, `Mappings`, `Choices`, `Slicing`, `FromFhir`, `ToFhir`: the
  class generator.

Assumptions about the `shr-models` library, which is not part of this
model:

- a `RefValue` is an `IdentifiableValue`;
- the keywords `_Entry` and `_Concept` have the empty namespace;
- primitives have the namespace `primitive`;
- `fqn` is the namespace and the name joined by a dot.

`Number(max)` is modelled for strings of decimal digits only. Upper and
lower case are ASCII.

## Model

| member | source | states |
|---|---|---|
| Common.SanitizeName | lib/common.js:1-3 | every hyphen becomes an underscore, nothing else changes, and the result has no hyphen |
| Common.SanitizeNameIdempotent | lib/common.js:1-3 | sanitising twice is sanitising once |
| Common.SanitizeNameFixesHyphenFree | lib/common.js:1-3 | a hyphen-free name is unchanged |
| Common.ClassName | lib/common.js:5-7 | the class name is the sanitised name |
| Common.CapitalizeParts | lib/common.js:10 | each namespace part with its first character upper-cased, one per part |
| Common.FactoryName | lib/common.js:9-11 | the dot-separated parts, each with its first character upper-cased, run together, then `ObjectFactory` (its content is fixed by `FactoryNameSinglePart` and `FactoryNameSnoc`) |
| Common.FactoryNameNoDot | lib/common.js:9-11 | a factory name has no dot and ends in `ObjectFactory` |
| Common.FactoryNameLength | lib/common.js:9-11 | its length is the namespace's length less its dots, plus the 13 characters of `ObjectFactory` |
| Common.FactoryNameSnoc | lib/common.js:9-11 | one more dot-separated part adds that part, first character upper-cased, just before `ObjectFactory` |
| Common.FactoryNameSinglePart | lib/common.js:9-11 | a dot-free namespace gives its own name, capitalised, plus `ObjectFactory` |
| Common.SplitLength | lib/common.js:10 | the parts of a split and its separators make up the whole string; there is one more part than separators |
| Common.ConcatLength | lib/common.js:10 | joining with the empty separator adds up the lengths |
| Common.ConcatAvoids | lib/common.js:10 | a character in no part is not in their concatenation |
| Common.CapitalizeLength | lib/common.js:10 | capitalising keeps every part's length |
| CodeWriterModel.CodeWriter.constructor | lib/CodeWriter.js:2-6 | a new writer is at level 0, outside a comment, with no lines; the argument is ignored |
| CodeWriterModel.CodeWriter.Ln | lib/CodeWriter.js:8-18 | appends exactly one line: ` * ` inside a block comment, then indentation for a non-empty line at a positive level; nothing else changes |
| CodeWriterModel.CodeWriter.Indent | lib/CodeWriter.js:42-45 | raises the level by one and changes nothing else |
| CodeWriterModel.CodeWriter.Outdent | lib/CodeWriter.js:47-50 | lowers the level by one and changes nothing else |
| CodeWriterModel.CodeWriter.Bl | lib/CodeWriter.js:20-28 | the new state is the block's effect on the old one |
| CodeWriterModel.CodeWriter.BlComment | lib/CodeWriter.js:30-40 | the new state is the comment block's effect on the old one |
| CodeWriterModel.CodeWriter.Call | lib/CodeWriter.js:22-26 | a string body is one `ln`; a callback performs its calls |
| CodeWriterModel.CodeWriter.Perform | lib/CodeWriter.js:22-26 | a callback's writer calls, in order |
| CodeWriterModel.CodeWriter.PerformOne | lib/CodeWriter.js:8-50 | one writer call |
| CodeWriterModel.CodeWriter.ToString | lib/CodeWriter.js:52-54 | the lines joined by line breaks, plus a final one |
| CodeWriterModel.CodeWriter.GetIndentString | lib/CodeWriter.js:56-58 | two spaces per level, nothing else |
| CodeWriterModel.CodeWriter.LastCharIsLineBreak | lib/CodeWriter.js:60-70 | true for no lines; otherwise true exactly when the last non-empty line ends in a line break |
| CodeWriterModel.AfterOpFacts | lib/CodeWriter.js:8-50 | writer calls only append lines, and move the level by their net indent |
| CodeWriterModel.AfterBodyFacts | lib/CodeWriter.js:20-40 | the same for a block body |
| CodeWriterModel.AfterOpsFacts | lib/CodeWriter.js:20-40 | the same for a sequence of calls |
| CodeWriterModel.BlShape | lib/CodeWriter.js:20-28 | `bl` writes `declaration {` first and `}` last, one level below the body's final level; a balanced body leaves the level unchanged |
| CodeWriterModel.BlCommentShape | lib/CodeWriter.js:30-40 | `blComment` writes `/**` first and ` */` last, and ends outside the comment |
| CodeWriterModel.ToStringLines | lib/CodeWriter.js:52-54 | splitting the text without its last line break gives the lines back |
| ReferenceModel.Reference.constructor | lib/includes/Reference.js:5-9 | stores the three identifying fields; the cached target is undefined |
| ReferenceModel.Reference.GetShrId | lib/includes/Reference.js:15-17 | returns the SHR id |
| ReferenceModel.Reference.GetEntryId | lib/includes/Reference.js:32-34 | returns the entry id |
| ReferenceModel.Reference.GetEntryType | lib/includes/Reference.js:49-51 | returns the entry type |
| ReferenceModel.Reference.GetReference | lib/includes/Reference.js:68-70 | returns the cached target |
| ReferenceModel.Reference.SetShrId | lib/includes/Reference.js:23-26 | sets only the SHR id and drops the cached target |
| ReferenceModel.Reference.SetEntryId | lib/includes/Reference.js:40-43 | sets only the entry id and drops the cached target |
| ReferenceModel.Reference.SetEntryType | lib/includes/Reference.js:57-60 | sets only the entry type and drops the cached target |
| ReferenceModel.Reference.SetReference | lib/includes/Reference.js:76-78 | sets the target and leaves the identifying fields alone |
| ReferenceModel.Reference.ToJson | lib/includes/Reference.js:80-86 | the three identifying fields only |
| ReferenceModel.Reference.ToFhir | lib/includes/Reference.js:88-90 | the entry id |
| ReferenceModel.CacheLifecycle | lib/includes/Reference.js:20-78 | a set target is returned until an identifying setter runs, then it is gone; the getters return the latest values |
| JsonHelper.LowerCaseFirst | lib/includes/json-helper.js:98-103 | the empty string is unchanged; otherwise only the first character is lower-cased |
| JsonHelper.LowerCaseFirstIdempotent | lib/includes/json-helper.js:98-103 | applying it twice is applying it once |
| JsonHelper.PropertyForKey | lib/includes/json-helper.js:5 | succeeds exactly on keys `KEY_RE` matches; the property is non-empty and dot-free |
| JsonHelper.PropertyOfQualifiedKey | lib/includes/json-helper.js:21 | a fully qualified key sets its lower-cased last name |
| JsonHelper.EmptySegmentHasNoProperty | lib/includes/json-helper.js:21 | a key with an empty segment fails, as `match(...)[3]` throws |
| JsonHelper.CreateInstance | lib/includes/json-helper.js:81-90 | null throws; other scalars are returned as they are; objects and arrays go to the factory with the declared type or else the key |
| JsonHelper.DeclaredTypeWins | lib/includes/json-helper.js:84-86 | a value that declares its type is built as that type under any key |
| JsonHelper.Entry.constructor | lib/includes/json-helper.js:65 | a new entry has no properties |
| JsonHelper.SetEntryProperty | lib/includes/json-helper.js:63-71 | `entryInfo` is created only when undefined; the property is set only when `Entry` has a setter; it fails exactly when that setter's value throws |
| Export.ConceptCodes | lib/export.js:90 | one code per concept, in order |
| Export.IncludeCodesStep | lib/export.js:95-99 | pushing one include's concept codes (none when it is absent or has no concept) onto the codes so far gives the codes of the includes up to it, in order |
| Export.CodeTableSemantics | lib/export.js:84-106 | distinct URLs, no empty lists; a URL is present exactly when some value set with it has codes, and then it holds the last such value set's codes |
| Export.UrlCodes | lib/export.js:84-100 | each value set's URL paired with its codes, in order |
| Export.TableShape | lib/export.js:102-105 | the table's URLs are distinct and no entry has an empty list |
| Export.TablePresence | lib/export.js:102-105 | a URL is in the table exactly when some pair with it has codes |
| Export.TableWinner | lib/export.js:102-105 | a URL maps to the codes of the last pair with it that has codes |
| Export.WrapCodeInQuotes | lib/export.js:108-113 | the result starts and ends with a single quote |
| Export.EscapeQuotesHead | lib/export.js:110 | escaping keeps a first character that is not a quote |
| Export.EscapeRoundTrip | lib/export.js:110 | unescaping the escaped code gives the code back |
| Export.EscapedQuotesArePreceded | lib/export.js:110 | every quote in the escaped text follows a backslash |
| Export.EscapeWithoutQuotes | lib/export.js:109-111 | a quote-free code is unchanged |
| Export.WrapRoundTrip | lib/export.js:108-113 | stripping the quotes and unescaping gives the code back |
| Export.WrapEscapesInnerQuotes | lib/export.js:108-113 | every quote between the outer quotes is preceded by a backslash |
| Export.ReadEscaped | lib/export.js:110 | JavaScript reads the escaped form of a code without backslashes or line breaks, then a quote, as exactly that code, stopping at that quote |
| Export.WrapIsLiteral | lib/export.js:108-113 | for a code without backslashes or line breaks the quoted code is one whole JavaScript string literal whose value is the code |
| Export.WrapBackslashEndsEarly | lib/export.js:108-113 | backslashes are not escaped: `a\'b` is quoted as `'a\\'b'`, which ends after `a\` and leaves `b'` |
| Export.WrapAll | lib/export.js:119 | every code quoted, in order |
| Export.EntryLines | lib/export.js:117-120 | one indented line per table entry, in table order |
| Export.IndentedLine | lib/export.js:81-82 | a non-empty line at level 1 gets two spaces |
| Export.CollectValueSets | lib/export.js:79-126 | the text is the table of the profile value sets followed by the base ones, written one entry per line |
| Export.BuildCodeTable | lib/export.js:86-106 | the first loop builds the table specification |
| Export.WriteEntries | lib/export.js:117-120 | the second loop appends exactly the entry lines |
| Export.CollectCodes | lib/export.js:88-100 | code-system codes first, then each include's, in order |
| Export.PutFileFacts | lib/export.js:52-62 | the stored file is found at its path; existing containers are reused and other files stay |
| Export.ExportHierarchy | lib/export.js:39-72 | the three copied files, each namespace's files nested under its parts, `ObjectFactory.js` and `valueSets.js` |
| PathHelpers.BracketSegment | lib/generateClass.js:663-677 | a later segment in bracket form, `['e']` or, for a segment ending in `]`, `['name']` plus the part from the last `[` (its outcome for plain and indexed segments is `BracketOfSegment`) |
| PathHelpers.BracketNotation | lib/generateClass.js:661-679 | the first dot-segment as it is, then every later one in bracket form (`BracketNotationOfPath` gives the result for every plain path) |
| PathHelpers.LastIndexOfAt | lib/generateClass.js:670 | `lastIndexOf` finds the last occurrence |
| PathHelpers.BracketOfSegment | lib/generateClass.js:663-677 | a plain or indexed segment gets its bracket form |
| PathHelpers.IndexedBracketAt | lib/generateClass.js:670 | the last `[` of `name[index]` is the one after the name |
| PathHelpers.DotFormHasNoDot | lib/generateClass.js:663 | a plain segment's dotted form holds no dot |
| PathHelpers.BracketOfSegments | lib/generateClass.js:661-679 | the same for every segment after the first |
| PathHelpers.BracketNotationOfPath | lib/generateClass.js:661-679 | `a.b.c[0]` becomes `a['b']['c'][0]` for any plain path |
| PathHelpers.DotForms | lib/generateClass.js:661-679 | the dotted form of each segment |
| PathHelpers.DropNonWord | lib/generateClass.js:685 | what remains starts with a word character |
| PathHelpers.CreateVariableName | lib/generateClass.js:684-686 | the result has only word characters and is no longer than the path; what each run becomes is stated by `VariableNameOfRun` |
| PathHelpers.DropNonWordRun | lib/generateClass.js:685 | a maximal run of non-word characters is consumed whole |
| PathHelpers.VariableNameOfRun | lib/generateClass.js:684-686 | word characters are kept and each maximal run of non-word characters after them becomes exactly one `_` |
| PathHelpers.VariableNameOfWord | lib/generateClass.js:684-686 | a word is its own variable name |
| PathHelpers.VariableNameIdempotent | lib/generateClass.js:684-686 | applying it twice is applying it once |
| PathHelpers.AlnumDropNonWord | lib/generateClass.js:685 | dropping non-word characters keeps the letters and digits |
| PathHelpers.VariableNameKeepsAlnum | lib/generateClass.js:684-686 | the letters and digits of the path are kept, in order |
| PathHelpers.ToSymbol | lib/generateClass.js:1264-1267 | same length as the name, no hyphen |
| PathHelpers.ToSymbolOfClassName | lib/generateClass.js:1264-1267 | a symbol is the class name with a lower-case first character |
| PathHelpers.ToSymbolIdempotent | lib/generateClass.js:1264-1267 | applying it twice is applying it once |
| Strings.JoinAppend | lib/generateClass.js:1276 | joining one more part appends separator and part |
| PathHelpers.SplitAvoids | lib/generateClass.js:1276 | no split part holds a character the string lacks |
| PathHelpers.FhirID | lib/generateClass.js:1275-1281 | the namespace with its dots made hyphens, `-`, the name, and `-extra` only for a non-empty extra (split back by `FhirIDParts`, injective by `FhirIDInjective`) |
| PathHelpers.FhirIDParts | lib/generateClass.js:1275-1281 | splitting an id at hyphens gives the namespace parts, the name and the extra part |
| PathHelpers.FhirIDInjective | lib/generateClass.js:1275-1281 | hyphen-free identifiers with different parts get different ids |
| PathHelpers.Ups | lib/generateClass.js:1295 | n copies of `..` |
| PathHelpers.CommonPrefix | lib/generateClass.js:1297-1300 | the longest shared leading run of namespace parts |
| PathHelpers.RelativeImportPath | lib/generateClass.js:1292-1305 | the import path is the spec's segments joined by `/` |
| PathHelpers.ResolveDescends | lib/generateClass.js:1292-1305 | following plain segments descends into them |
| PathHelpers.ResolveUps | lib/generateClass.js:1292-1305 | each `..` climbs one directory |
| PathHelpers.HelperImportResolves | lib/generateClass.js:1294-1296 | a helper import from any class lands on the root file |
| PathHelpers.ClassImportResolves | lib/generateClass.js:1297-1303 | a class import lands on the imported class's file in its namespace directory |
| PathHelpers.ClassSegmentsResolve | lib/generateClass.js:1297-1303 | climbing out of the unshared namespace parts and descending into the target's lands on the target file |
| Mappings.Tokens | lib/generateClass.js:781 | the `/<([^>]*)>/g` matches, from each `<` to the next `>`, none when there is none (the shape of each is `TokensAreTokens`) |
| Mappings.TokensAreTokens | lib/generateClass.js:781 | every token is `<...>` with no `>` inside |
| Mappings.TokensSkip | lib/generateClass.js:781 | text before the first `<` gives no token |
| Mappings.TokensFirst | lib/generateClass.js:781 | a leading token is matched whole |
| Mappings.TokensOfMapping | lib/generateClass.js:781 | the tokens of a written chain are its identifiers' tokens, in order |
| Mappings.FhirMappingToIdentifier | lib/generateClass.js:1075-1084 | null exactly for `<Value>`; otherwise the name has no dot |
| Mappings.MappingIdentifierRoundTrip | lib/generateClass.js:1075-1084 | parsing an identifier's token gives it back, and the `Value` keyword gives null |
| Mappings.TokensOf | lib/generateClass.js:781 | one token per identifier |
| Mappings.FqnDot | lib/generateClass.js:1080-1082 | a namespaced `fqn` has its dot right after the namespace |
| Strings.SplitConcat | lib/generateClass.js:1080-1082 | splitting `a.b` with a dot-free `b` splits `a` and adds `b` |
| Mappings.FqnNoAngle | lib/generateClass.js:781 | an angle-free identifier's `fqn` has no `>` |
| Mappings.FirstMatch | lib/generateClass.js:814-818 | the first value with that effective identifier, or none has it |
| Mappings.ResolveStep | lib/generateClass.js:807-823 | a found field has the token's identifier as its effective identifier |
| Mappings.ResolveStepOrder | lib/generateClass.js:807-823 | the value slot wins, then the first choice option, then the first field by symbol; it fails exactly when none has the identifier |
| Mappings.TokenStep | lib/generateClass.js:790-844 | one token throws exactly for `<Value>` or a missing element; a found field has the token's identifier; it stops at exactly the `_Entry` and `_Concept` keywords |
| Mappings.ResolveToken | lib/generateClass.js:790-823 | the loop body computes the token's step |
| Mappings.WalkFromAt | lib/generateClass.js:789-847 | the walk at token `i` follows that token's step |
| Mappings.WalkFrom | lib/generateClass.js:789-847 | the loop from a token on: a throw fails it, a keyword stops it keeping the field, a failed lookup stops it without one, a found field moves to that field's element (its stopping rules are `WalkStops`) |
| Mappings.FieldAndMethodChain | lib/generateClass.js:780-850 | `{}` without tokens, else the walk's field, its names joined by `.`, and the tokens (computed by the loop of `GetFieldAndMethodChain`) |
| Mappings.GetFieldAndMethodChain | lib/generateClass.js:780-850 | the loop computes the chain specification |
| Mappings.JoinSnoc | lib/generateClass.js:842-846 | adding `name.` then dropping the final dot is joining |
| Mappings.WalkStops | lib/generateClass.js:789-844 | each resolved step consumes one token; a found field belongs to the last resolved token; an early stop with a field is at `_Entry` or `_Concept`; resolving every token finds a field |
| Mappings.WalkStopsFrom | lib/generateClass.js:789-844 | the same from any point of the loop |
| Mappings.DedupFacts | lib/generateClass.js:367 | `new Set` keeps each text once, no other, in first-occurrence order |
| Mappings.ShrExprs | lib/generateClass.js:365-367 | the map texts of the SHR mappings, in order |
| Mappings.KeptMappingsFacts | lib/generateClass.js:374-381 | exactly the texts that map the value or resolve to a field survive, each with its resolution |
| Mappings.KeptMappingsCrash | lib/generateClass.js:374-378 | a failed resolution fails the whole element the same way |
| Mappings.KeptMappingsNext | lib/generateClass.js:374-381 | one more map text keeps its resolution when it has a field or maps the value; a failure fails the list |
| Mappings.ResolveMapping | lib/generateClass.js:375-377 | one map text resolves as the specification says |
| Mappings.UniqueExprs | lib/generateClass.js:367 | the loop keeps each text once, in first-occurrence order |
| Mappings.ResolveExprKeepsExpr | lib/generateClass.js:376 | `Object.assign` keeps the map text |
| Mappings.PreProcessElementMappings | lib/generateClass.js:362-383 | one element's pre-processed mappings |
| Mappings.PreProcessFieldMappings | lib/generateClass.js:360-385 | succeeds exactly when every element's mappings resolve; then each element is paired with its pre-processed mappings |
| Choices.FirstCodeIs | lib/generateClass.js:890-893 | `[code]` exactly when some type has the code, else empty |
| Choices.FirstCodeNames | lib/generateClass.js:913-916 | at most one code, the fqn or the name, among the element's types |
| Choices.FirstCodeNamesFacts | lib/generateClass.js:913-916 | empty exactly when no type code is the identifier's fqn or name; otherwise it holds exactly the code of the first type that is |
| Choices.AllCodesNames | lib/generateClass.js:896-901 | every code is the fqn or the name, among the element's types |
| Choices.AllCodesNamesFacts | lib/generateClass.js:896-901 | a code is in the result exactly when some type has it and it is the fqn or the name; no more codes than types |
| Choices.AllCodesNamesSnoc | lib/generateClass.js:896-901 | one more type adds its code at the end when it matches, and nothing otherwise, so the codes keep the types' order |
| Choices.FirstProfileFacts | lib/generateClass.js:903 | none exactly when no profile has the id; otherwise the first profile that has it |
| Choices.ProfileType | lib/generateClass.js:903-924 | at most one code, among the element's types |
| Choices.ProfileTypeFacts | lib/generateClass.js:918-924 | a code is in the result exactly when the first profile with the id `fhirID(identifier)` exists, has that type, and one of the element's types has that code |
| Choices.OptionTypes | lib/generateClass.js:895-910 | the codes come from the element's types |
| Choices.OptionTypesOk | lib/generateClass.js:895-910 | the options' types fail exactly when some option has no effective identifier to read `fqn` from |
| Choices.OptionTypesMembers | lib/generateClass.js:895-910 | a code is gathered exactly when some option contributes it: a type named by the option's fqn or name, or the type of the option's profile |
| Choices.ValueTypes | lib/generateClass.js:889-911 | the codes come from the element's types |
| Choices.ValueTypesFacts | lib/generateClass.js:889-911 | failure exactly for a choice with an option lacking an effective identifier; otherwise the codes are exactly the identifiable value's fqn type, or what the choice's options contribute |
| Choices.MappedElementFacts | lib/generateClass.js:883-887 | the data element is found exactly when the map text has a last token other than `<Value>` whose identifier has a data element, and it is that element |
| Choices.MappingTypes | lib/generateClass.js:883-924 | the codes come from the element's types |
| Choices.MappingTypesFacts | lib/generateClass.js:883-924 | one mapping fails exactly when its data element is missing or its value's types fail; otherwise a code is gathered exactly when the data element contributes it through its value, as the first type naming the element, or as its profile's type |
| Choices.TypesByChoice | lib/generateClass.js:879-930 | each SHR mapping's text with its distinct type codes, in first-insertion order; a throwing mapping fails the table (its keys, sets and failure are `TypesByChoiceKeys`, `TypesByChoiceEntries`, `TypesByChoiceContents` and `TypesByChoiceFails`) |
| Choices.ValidTypesForChoices | lib/generateClass.js:879-930 | the loop computes the table specification; it fails exactly when one mapping fails, and otherwise every mapping's text is a key whose set holds exactly the codes its data element contributes |
| Choices.CollectCrash | lib/generateClass.js:882-927 | once a prefix of the mappings fails, the whole loop fails the same way |
| Choices.CollectOk | lib/generateClass.js:882-927 | the loop succeeds exactly when every mapping does, and then yields each mapping's text with its types, in order |
| Choices.CollectStep | lib/generateClass.js:882-927 | one more mapping either fails the whole loop with its own failure, or adds its text and types and assigns its set to the table |
| Choices.TypesByChoiceCrash | lib/generateClass.js:882-927 | a failing mapping fails the table the same way |
| Choices.TypesByChoiceFails | lib/generateClass.js:882-927 | the table fails exactly when some mapping's types fail (its data element is missing, or a choice option has no effective identifier) |
| Choices.TypesByChoiceEntries | lib/generateClass.js:926 | keys are distinct map texts of the mappings; each type set has each type once |
| Choices.TypesByChoiceAmong | lib/generateClass.js:883-926 | every type in the table is one of the element's type codes |
| Choices.TypesByChoiceKeys | lib/generateClass.js:882-926 | every mapping's text is a key |
| Choices.TypesByChoiceSets | lib/generateClass.js:926 | when the table does not fail, every mapping's types succeeded and its key holds them without repeats |
| Choices.TypesByChoiceContents | lib/generateClass.js:882-926 | in a table that does not fail, every mapping's text is a key whose set holds exactly the codes its data element contributes |
| Choices.TypesByChoiceSingle | lib/generateClass.js:882-926 | one mapping that does not fail gives a one-entry table: its text and its types without repeats |
| Choices.DedupConstant | lib/generateClass.js:926 | a set built from a list whose every entry is `b` is `{b}` |
| Choices.OnlyTypeSet | lib/generateClass.js:883-926 | a mapping whose data element contributes only `b` gets the set `{b}` |
| Choices.ChoiceFieldsOneEntry | lib/generateClass.js:331-352 | a choice element whose table is the single entry `mapping: {b}` becomes exactly the concrete element for `b` and that mapping |
| Choices.ChoiceSingleMatch | lib/generateClass.js:326-352 | a choice element with one SHR mapping whose data element contributes exactly one type `b` becomes exactly one concrete element, for `b` and that mapping |
| Choices.Concrete | lib/generateClass.js:340-346 | the copy for one (mapping, type) pair: `[x]` replaced by the capitalised type, that one type, that one SHR mapping (`ConcreteShape`, `ConcreteInjective`) |
| Choices.ChoiceFields | lib/generateClass.js:326-352 | a non-choice element is kept as it is; a choice element becomes one copy per (mapping, type) pair of its table (`NoChoicePassThrough`, `ChoiceFieldsPairs`) |
| Choices.PreProcessChoiceFields | lib/generateClass.js:325-355 | every element replaced by its choice fields, flattened in order; the first failure fails the whole list |
| Choices.ConcreteAll | lib/generateClass.js:340-349 | one concrete element per type |
| Choices.NoChoicePassThrough | lib/generateClass.js:326-329 | without `[x]` elements nothing changes |
| Choices.ExpandPairs | lib/generateClass.js:337-350 | one element per (mapping, type) pair, each that pair's concrete element, and every pair's element appears |
| Choices.ConcreteShape | lib/generateClass.js:341-346 | one type, one SHR mapping, `[x]` replaced by the capitalised code, nothing else changed |
| Choices.ChoiceFieldsPairs | lib/generateClass.js:331-352 | a concrete element is produced exactly when its type is in its mapping's set; sets have no repeats; the type is one of the element's |
| Choices.ConcreteInjective | lib/generateClass.js:341-346 | different pairs give different elements |
| Slicing.Paths | lib/generateClass.js:710 | the groups' paths, in stack order |
| Slicing.Pop | lib/generateClass.js:710-715 | pops a top run of the stack; the new top is a prefix of the element's path |
| Slicing.Rewritten | lib/generateClass.js:723 | each discriminator becomes `path.d` |
| Slicing.FixedValueNone | lib/generateClass.js:745-753 | the fixed value is undefined exactly when no type has a non-null `fixed<Type>` |
| Slicing.FixedValueIsLast | lib/generateClass.js:745-753 | a defined fixed value is the last type's that has one |
| Slicing.FixedOf | lib/generateClass.js:746-750 | a type has a fixed value exactly when its `fixed<Type>` property is non-null |
| Slicing.FixedOfEach | lib/generateClass.js:745-753 | each type's fixed value, in order |
| Slicing.LastPresentNone | lib/generateClass.js:745-753 | nothing is kept exactly when every entry is absent |
| Slicing.LastPresentIsLast | lib/generateClass.js:745-753 | a kept value is an entry with only absent entries after it |
| Slicing.LastPresentSnoc | lib/generateClass.js:745-753 | one more entry replaces the kept value when present |
| Slicing.Annotate | lib/generateClass.js:737-761 | fails exactly when the element is a discriminator and the current slice has no list; only the constraints change |
| Slicing.AnnotatePrepends | lib/generateClass.js:760 | the constraint goes in front of the current slice's list; nothing else changes |
| Slicing.AnnotateAll | lib/generateClass.js:736-762 | the groups keep their paths |
| Slicing.PopGroups | lib/generateClass.js:710-715 | the popping loop computes `Pop` |
| Slicing.FlushGroups | lib/generateClass.js:767-770 | the final loop computes `Flush` |
| Slicing.FindFixedValue | lib/generateClass.js:741-753 | the type loop computes the fixed value |
| Slicing.AnnotateAllCrash | lib/generateClass.js:736-762 | a failing group fails the element the same way |
| Slicing.AnnotateAllSnoc | lib/generateClass.js:736-762 | one more group in the loop |
| Slicing.AnnotateGroups | lib/generateClass.js:736-762 | the `forEach` computes `AnnotateAll` |
| Slicing.StepElement | lib/generateClass.js:709-763 | one element's effect |
| Slicing.RewrittenSnoc | lib/generateClass.js:723 | one more discriminator |
| Slicing.RunCrash | lib/generateClass.js:708-764 | a failing element fails the walk the same way |
| Slicing.RunSnoc | lib/generateClass.js:708-764 | one more element of the walk |
| Slicing.Step | lib/generateClass.js:709-763 | one element: pop the groups it is not inside, then open a group or annotate the open ones (`StepStack`, `StepRecorded`, `StepNested`) |
| Slicing.Run | lib/generateClass.js:708-764 | the steps of the first elements, stopping at the first failure (`RunRecorded`, `RunNested`) |
| Slicing.SlicesOf | lib/generateClass.js:702-773 | the slice map after the walk, with the groups still open flushed (keys stated by `SliceMapKeys`) |
| Slicing.PreprocessSlicing | lib/generateClass.js:702-773 | the method computes the slice map specification |
| Slicing.PopRecorded | lib/generateClass.js:710-715 | popping loses no group path |
| Slicing.FlushRecorded | lib/generateClass.js:767-770 | the final flush records every open group |
| Slicing.StepStack | lib/generateClass.js:710-733 | after a step the stack is the popped stack, plus the element's group when it opens one |
| Slicing.RunLast | lib/generateClass.js:708-764 | the walk of a non-empty prefix ends with its last element's step |
| Slicing.StepRecorded | lib/generateClass.js:710-727 | a step records what was recorded, plus the element's path when it opens a group |
| Slicing.OpenedPaths | lib/generateClass.js:717 | exactly the paths of elements that open a group |
| Slicing.RunRecorded | lib/generateClass.js:708-764 | the recorded paths are exactly the opened groups' paths |
| Slicing.SliceMapKeys | lib/generateClass.js:702-773 | the slice map has a key exactly for each path of an element that opens a group, including groups still open at the end |
| Slicing.StartsWithTrans | lib/generateClass.js:710 | prefixes compose |
| Slicing.NestedInside | lib/generateClass.js:710 | every group of a chain is a prefix of a path inside the top one |
| Slicing.PopNested | lib/generateClass.js:710-715 | popping keeps the chain |
| Slicing.PushInside | lib/generateClass.js:727 | pushing inside the top keeps the chain |
| Slicing.StepNested | lib/generateClass.js:709-763 | after each element the open groups form a chain of prefixes of its path |
| Slicing.RunNested | lib/generateClass.js:708-764 | the same after the whole walk |
| FromFhir.PopCount | lib/generateClass.js:447 | pops exactly the top frames that are not prefixes of the path |
| FromFhir.Closes | lib/generateClass.js:451-453 | closing events only |
| FromFhir.FhirBaseFrom | lib/generateClass.js:478-486 | the first frame from k with a FHIR base path, or none has one |
| FromFhir.ShrBaseFrom | lib/generateClass.js:547-555 | the first frame from k with an SHR base path, or none has one |
| FromFhir.FirstMappedChild | lib/generateClass.js:469 | the first element below it (by `path.`), other than itself, with a mapping |
| FromFhir.OpenBlock | lib/generateClass.js:488-524 | a loop or first-item check exactly for a FHIR list; a loop exactly when the SHR side is a list too; the new base path is recorded |
| FromFhir.AssignOne | lib/generateClass.js:530-577 | only the top frame's SHR paths change; only assignments are written |
| FromFhir.AssignAll | lib/generateClass.js:527-578 | the same for all of an element's mappings |
| FromFhir.OpenStep | lib/generateClass.js:473-525 | a block is opened exactly when the element or a child has a mapping |
| FromFhir.StepPushes | lib/generateClass.js:447-455 | the popped frames' blocks are closed first, then the element is pushed |
| FromFhir.SkipRule | lib/generateClass.js:457-461 | an element whose own or an enclosing max is `0` writes nothing after the pops |
| FromFhir.BlockRule | lib/generateClass.js:473-578 | a non-skipped element opens a block exactly when it or a child has a mapping; the rest is assignments |
| FromFhir.CountAppend | lib/generateClass.js:438-588 | counts add up over concatenation |
| FromFhir.AssignmentsCountNothing | lib/generateClass.js:527-578 | assignments open and close nothing |
| FromFhir.ClosesCount | lib/generateClass.js:451-453 | closing frames closes one block per frame that opened one |
| FromFhir.OpenFramesSplit | lib/generateClass.js:447-454 | open frames add up over a split |
| FromFhir.StepBalanced | lib/generateClass.js:438-579 | each element keeps opened blocks = closed blocks + open frames |
| FromFhir.RunBalanced | lib/generateClass.js:438-579 | the same for the whole walk |
| FromFhir.BlocksBalanced | lib/generateClass.js:438-588 | every block opened is closed exactly once |
| FromFhir.PlannedOf | lib/generateClass.js:436 | one planned element per element, in order |
| FromFhir.Step | lib/generateClass.js:438-578 | one element: pop the frames it is not under and close their blocks, push it, then skip it, open its block or write its assignments (`StepPushes`, `SkipRule`, `BlockRule`, `StepBalanced`) |
| FromFhir.FromFhirPlan | lib/generateClass.js:438-588 | the events of every element's step, then the closing of every block still open (`BlocksBalanced`) |
| FromFhir.FromFhirProfile | lib/generateClass.js:426-589 | slices collected, choice elements expanded, mappings resolved, then the walk; any failure fails the whole profile |
| FromFhir.WriteFromFhirProfile | lib/generateClass.js:426-589 | succeeds exactly when the profile plan does, with the same events |
| FromFhir.ClosesAppend | lib/generateClass.js:447-454 | one more popped frame |
| FromFhir.PopFrames | lib/generateClass.js:447-454 | the popping loop pops `PopCount` frames and closes their blocks |
| FromFhir.FindFhirElementPath | lib/generateClass.js:463-486 | the upward search computes the FHIR path |
| FromFhir.EnterElement | lib/generateClass.js:447-455 | popping and pushing |
| FromFhir.OpenElement | lib/generateClass.js:463-525 | opening the element's block |
| FromFhir.AssignMappings | lib/generateClass.js:527-578 | the loop over the mappings |
| FromFhir.StepElement | lib/generateClass.js:438-578 | one element of the walk |
| FromFhir.AssignAllCrash | lib/generateClass.js:527-578 | a failing mapping fails the element the same way |
| FromFhir.RunCrash | lib/generateClass.js:438-579 | a failing element fails the walk the same way |
| FromFhir.RunNext | lib/generateClass.js:438-579 | walking one more element gives that element's step, and a failing element fails the whole walk with the same reason |
| FromFhir.RunWalk | lib/generateClass.js:438-579 | the element loop |
| FromFhir.CloseAll | lib/generateClass.js:582-588 | the final loop closes every open block |
| FromFhir.WalkPlanned | lib/generateClass.js:438-588 | the walk and the final closing compute the plan |
| ToFhir.FirstShrIsHead | lib/generateClass.js:980 | the mapping used is the first SHR mapping |
| ToFhir.SymbolsFacts | lib/generateClass.js:996 | fails exactly on a `<Value>` token; otherwise one symbol per token, from the token's name |
| ToFhir.FieldById | lib/generateClass.js:998 | a field declared with that identifier, or none has it |
| ToFhir.FieldByIdFirst | lib/generateClass.js:998 | the field found is the first one declared with that identifier |
| ToFhir.ElementWithPath | lib/generateClass.js:1132 | an element with that path, or none has it |
| ToFhir.ElementWithPathFirst | lib/generateClass.js:1132 | the element found is the first one with that path |
| ToFhir.LongestContainer | lib/generateClass.js:1126-1140 | the longest prefix up to j whose element has max `*`, or none does |
| ToFhir.ContainerOf | lib/generateClass.js:1125-1141 | the segments, without the resource name, of the longest proper prefix whose element has max `*`, only when neither side is a list and there is more than one constraint (`ContainerIsLongest`) |
| ToFhir.FindContainer | lib/generateClass.js:1125-1141 | the popping loop computes the container specification |
| ToFhir.ContainerIsLongest | lib/generateClass.js:1125-1141 | no container when either side is a list or at most one constraint; else the longest proper prefix whose element has max `*`, without the resource name; none when no proper prefix is a list |
| ToFhir.ValueEvent | lib/generateClass.js:984-990 | the value is assigned exactly when it is an identifiable primitive, from the element's path |
| ToFhir.CandidateOf | lib/generateClass.js:980-1003 | for a first SHR mapping other than `<Value>`: the tokens' symbols joined by `.`, and the first field declared with the first token's identifier, or none (`SymbolsFacts`, `FieldById`, `FieldByIdFirst`) |
| ToFhir.Step | lib/generateClass.js:979-1011 | one element: a value assignment for `<Value>`, a field assignment for a chain not yet mapped, else nothing (`StepFacts`, `StepOk`) |
| ToFhir.StepElement | lib/generateClass.js:979-1012 | one element of the loop |
| ToFhir.RunCrash | lib/generateClass.js:979-1012 | a malformed mapping fails the rest the same way |
| ToFhir.ToFhirPlan | lib/generateClass.js:942-1012 | the resource type line for an entry, then the assignments of every element (`ToFhirOncePerChain`) |
| ToFhir.WriteToFhir | lib/generateClass.js:942-1012 | the method computes the plan: the resource type for an entry, then the element loop |
| ToFhir.StepFacts | lib/generateClass.js:1003-1009 | an element adds an assignment exactly when it names a field whose chain is new, and records that chain with its path |
| ToFhir.StepOk | lib/generateClass.js:993-996 | an element fails exactly when its mapping is malformed |
| ToFhir.RunOk | lib/generateClass.js:979-1012 | the loop fails exactly when some element's mapping is malformed |
| ToFhir.RunMappedKeys | lib/generateClass.js:1004-1008 | a chain is in `alreadyMappedElements` exactly when some element names it |
| ToFhir.RunMappedFirst | lib/generateClass.js:1004-1008 | it holds the path of the first element that names it |
| ToFhir.AssignFresh | lib/generateClass.js:1004-1008 | assigning and recording a chain not yet recorded keeps the chains distinct and the assignments equal to the record |
| ToFhir.RunAssigned | lib/generateClass.js:1004-1008 | the assignments have distinct chains, each with the recorded path |
| ToFhir.ToFhirOncePerChain | lib/generateClass.js:979-1012 | each chain is assigned once, by the first element naming it; every assignment's chain is named by some element |

## Left out

- Emitted JavaScript text. This covers the bodies of the generated
  assignments (`generateFromFHIRAssignment`, the rest of
  `generateToFHIRAssignment`, `generateAssignmentIfList`), the getters and
  setters, and the `fromJSON`, `toJSON` and class bodies. The model records
  events carrying the parameters the text is built from. The text itself is
  string formatting.
- `writeFromFhirExtension`, `writeFromFhirValue`, and the extension and
  non-profile value branches of `writeToFhir`: these only emit text.
  `ToFhir.WriteToFhir` models the branch where a profile exists.
- The null-check chain that `generateToFHIRAssignment` builds from the
  method chain is emitted text. A value assignment passes one constraint,
  so it never searches for a container, and `ToFhir.AssignValue` carries
  no container.
- The commented-out dummy-mapping block of `writeToFhir`: it does not run.
- `console.error` diagnostics: they have no effect on the result.
- `generateClass`, `generateClassBody`, `generateFactory`,
  `generateNamespaceFactory` and `fhirGeneralPurposeTypeMapping.js`: these
  are code generation around the modelled logic.
- The reserved-word check on symbols.
- `setPropertiesFromJSON` in `json-helper.js`: it is driven by prototype
  reflection (`Object.getOwnPropertyDescriptor`), which has no counterpart
  here. `ObjectFactory.createInstance` is an external call and is modelled
  as the `FromFactory` result.
- The file reads in `export()`: the contents of `Reference.js`,
  `json-helper.js` and `init.js` are parameters.
- The `shr-models` classes are reduced to the fields the generator reads,
  and the specifications to a map from identifier to element.
- `preProcessFieldMappings` overwrites `element.mapping` in place. The model
  returns the elements paired with their mappings (`Mappings.Planned`).
- `export()` mutates a nested object. The model builds a value tree.
- Ordering of keys: JavaScript puts integer-like keys first. Such keys
  cannot occur as URLs, map texts or paths, so the model keeps insertion
  order.
- `String.replace` special patterns (`$&` and the like) in replacement
  strings are not modelled. Paths and type codes do not contain `$`.
- `Number(max)` is modelled only for decimal digit strings.
- FHIR slicing is modelled with discriminator paths only. Discriminator
  types other than a fixed value, and a `slicing` without a discriminator
  list, are not modelled. A discriminator element met before any slice of
  its group has started looks up the key `null` (JavaScript turns the null
  current slice into that text). That list exists only when a slice is
  literally named `null`; otherwise `unshift` on undefined throws, and
  `Slicing.Annotate` fails the same way.
- An absent `type` list is modelled as the empty list, as an absent
  `mapping` list is. The source does not do this for `type`: iterating it
  for a discriminator element (lib/generateClass.js:745) and `fhirTypes.find`
  for a choice element (lib/generateClass.js:890) throw on an absent list.
  The model does not capture those failures.
- Export.WrapIsLiteral: stated only for codes without backslashes or line
  breaks. `wrapCodeInQuotes` does not escape backslashes, so a code holding
  a backslash before a quote ends the JavaScript literal early
  (`Export.WrapBackslashEndsEarly` shows `a\'b`). A line break is not
  allowed inside a single-quoted literal at all.
- Export.PutFile: the hierarchy starts empty and keys are plain map keys.
  The source tests `!container[part]` on an ordinary object
  (lib/export.js:54). A namespace part named like an inherited property
  (`constructor`, `toString`) reads as truthy there, so no container is
  created, and the files land on that inherited value. The model creates
  the container.
- FromFhir.WriteFromFhirProfile: on failure it states only that the
  specification fails too, not that the failure reasons are equal.
- CodeWriterModel.CodeWriter.Bl: the exact lines of a string body are stated
  through `AfterOp`. `BlShape` proves the first and last lines, not each
  middle line.
- `PathHelpers.BracketNotation` on a segment ending in `]` without a `[`:
  the slice at index -1 is modelled, but no lemma is stated for it.
