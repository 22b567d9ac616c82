# asvJSON++: encoders, decoders and tree updates

A Dafny model of the value tree of asvJSON++ and of the hand-written codecs around it, with proofs that the two
sides of each pair belong together. Most main results are exact: they say not only that a round trip works on a
good domain but on which documents it works, for every document, every byte suffix and every enumeration order of
the hash tables.

## How the model is laid out

- `Values` holds the data model. A `Doc` is a tree as an encoder sees it: a table is a list of entries in the order
  the hash table happens to enumerate them. A `Value` is what a tree means: an object is a finite map. `Meaning` leads
  from the first to the second, so a theorem about all `Doc`s holds for every enumeration order. Doubles are opaque
  64-bit patterns, floats 32-bit ones.
- For each component one module specifies what is written and read, as functions on byte strings (`Cbor`, `MsgPack`,
  `Bson`, `Proto`, `Varint`, `Json`, `Json5`, `Tron`, `MergePatch`, `Pointers`, `Chunks`, `Base64`, `Base64Bits`, `Csv`,
  `Ude`, with `Text` and `Regexes` shared). The `...Proofs`, `...Laws`, `...Faithful` and similar modules prove laws
  of these functions, above all that the two sides undo each other.
- A reader must take more than its writer puts down. `JsonGrammar`, `JsonNumbers`, `Escapes`, `ExtendedJson`,
  `Json5Lexemes`, `Json5Numbers`, `TronLexemes`, `TronGrammar`, `TronClasses`, `MsgPackFormats`, `CborFormats`,
  `BsonFormats`, `ProtoTypes`, `PointerArrays`, `CsvRows`, `UdeQuotes`, `UdeBlocks` and `Base64Standard` define, without
  the reader's own functions, what each language allows (any layout, width, escape, order) and what it stands for,
  and prove that the reader makes exactly that of every such text.
- The `...Codec`, `...Printer`, `...Reader` and `Documents` modules have the source's own form: buffers that are
  appended to, cursors that are fields of an object, index loops, arrays written in place. Each of their methods is
  proved to do exactly what its specification function says, for every input, failures included; so the laws are laws
  of the loops.
- `At(data, pos, chunk)` says that a chunk lies somewhere in a longer input. Theorems with it as their hypothesis hold
  before any suffix, and say at which position reading stops.

Where the source throws or returns a null pointer, the model returns `Err`, `Failure` or `None`. Foreign conversions
are parameters of the model: text of doubles and dates (`Platform`), conversions between float widths and epoch
seconds (`Floats`, `Widen`, `Foreign`, the last also for the mode of Protobuf without a schema), and the date parser, of which it is only assumed that it is a function of the text and
that it refuses text that is not laid out like an ISO date.

## Where the code falls short of its documentation

The proofs follow the code. These lemmas give inputs, and the named theorems the exact condition:

- Commas in keys make different TRON schemas collide (`TronSchemas.SignaturesCollide`, `TronDocument.CommaKeysLost`;
  exact condition `TronDocument.DocumentRoundTrip`).
- applyMergePatch keeps nulls of a patch object that is copied rather than merged (`MergePatch.UncoveredNullKept`;
  exact condition `MergePatch.MergedIsRfc`).
- udeCanBlockEncode accepts strings that do not read back, although its comment says it accepts only those that do
  (`UdeProofs.TabbedLineLost`, `UdeProofs.LeadingSpaceLost`; exact condition `UdeProofs.BlockChoice`).
- Regular expressions, some extensions and timestamps do not survive every binary format
  (`MsgPackScalars.RegexRead`, `MsgPackScalars.ExtensionRead`, `CborLaws.RegexSurvives`, `BsonProofs.TimestampRead`).
- Negative lone 32-bit fixed fields of Protobuf come back unsigned (`ProtoProofs.Fixed32Survives`).
- json5ToJson translates comments like other text, so an apostrophe in one makes it throw
  (`Json5Lexemes.ApostropheInComment`), does not see a colon directly behind a block comment
  (`Json5Lexemes.CommentHidesColon`), keeps the backslash of an escape JSON5 reads as the letter itself
  (`Json5Lexemes.StringGoes`), and drops what overflows 64 bits in a braced code point (exact condition
  `Json5Lexemes.BracedIs`).
- A counted MessagePack timestamp of more than eight bytes leaves its rest unread (`MsgPackFormats.LongStamp`).
- A path segment that appends through `-` is not readable afterwards (`Pointers.SetThenGet`).

## Model

| member | source | states |
|---|---|---|
| `TronDocument.HoistingPreservesMeaning` | asvjson/formats/tron.hpp:18-213 | for every document whose object keys are non-empty and comma-free, whichever repeated key sets are hoisted and in whatever order the classes are defined, reading the printed text gives the document's meaning if and only if every scalar is one TRON keeps |
| `TronDocument.DocumentRoundTrip` | asvjson/formats/tron.hpp:168-583 | without any condition on keys: print then read gives the meaning if and only if every scalar survives and every hoisted object has exactly the keys of its class (nothing but null under an empty key) |
| `TronDocument.ParsePrinted` | asvjson/formats/tron.hpp:516-583 | reading a printed header (classes in any order) and any printed tree gives exactly the expansion of that tree under the declared classes, failures included |
| `TronHoist.HoistKeeps` | asvjson/formats/tron.hpp:64-166 | expanding a hoisted tree gives back the document's meaning if and only if it is kept |
| `TronDiscovery.CleanKept` | asvjson/formats/tron.hpp:32-55 | with clean keys hoisting itself loses nothing: a document is kept if and only if its scalars are |
| `TronDiscovery.HoistedExactly` | asvjson/formats/tron.hpp:32-166 | with clean keys an object becomes an instance if and only if it has several keys and some other object of the document has the same key set |
| `TronSchemas.SignatureIdentifies` | asvjson/formats/tron.hpp:18-30 | two objects with comma-free keys have one signature if and only if they have the same key set |
| `TronSchemas.SignaturesCollide` | asvjson/formats/tron.hpp:18-30 | two different key sets with commas in them and one signature: comma-freeness is needed |
| `TronSchemas.JoinInjective` | asvjson/formats/tron.hpp:18-30 | joining comma-free keys by commas is injective |
| `TronSchemas.SortSorts` | asvjson/formats/tron.hpp:18-30 | the sorted keys are ascending and are the same keys |
| `TronSchemas.AscendingUnique` | asvjson/formats/tron.hpp:18-30 | an ascending list is determined by its members, so any sorting algorithm gives this list |
| `TronSchemas.CutAt` | asvjson/formats/tron.hpp:18-30 | texts that agree past a byte their first parts do not hold agree part by part |
| `TronSchemas.ClassNamesDistinct` | asvjson/formats/tron.hpp:57-62 | two class indices have one name if and only if they are equal |
| `TronDocument.CommaKeysLost` | asvjson/formats/tron.hpp:18-213 | a document with commas in keys that toTRON's own choice of classes does not bring back |
| `TronDocument.ScalarSurvives` | asvjson/formats/tron.hpp:64-166 | a printed scalar is read back as itself if and only if it is null, bool, an integer, non-empty binary data, an extension, or a string that neither looks like a marked form nor is taken for a date |
| `TronTokens.LexTree` | asvjson/formats/tron.hpp:232-303 | tokenizing the printed text of any tree gives that tree's tokens and goes on right behind it |
| `TronTokens.LexList` | asvjson/formats/tron.hpp:232-303 | a printed list and its bracket give the list's tokens |
| `TronTokens.LexMembers` | asvjson/formats/tron.hpp:232-303 | printed members and their brace give the members' tokens |
| `TronDocument.LexKeys` | asvjson/formats/tron.hpp:232-303 | a printed property list gives its string tokens and one newline |
| `TronDocument.LexClass` | asvjson/formats/tron.hpp:232-303 | a printed class definition gives its tokens |
| `TronDocument.LexHeader` | asvjson/formats/tron.hpp:232-303 | all printed class definitions give their tokens |
| `TronProofs.ParseTree` | asvjson/formats/tron.hpp:324-514 | parsing the tokens of any tree gives its expansion and stops behind it, or fails if the expansion does |
| `TronProofs.NotNamed` | asvjson/formats/tron.hpp:372-422 | a positional argument is never taken for a named one |
| `TronProofs.InstanceRead` | asvjson/formats/tron.hpp:372-422 | printed arguments are read positionally, up to the closing parenthesis |
| `TronDocument.ParseKeys` | asvjson/formats/tron.hpp:516-583 | the property list of a printed class is read back key by key |
| `TronPrinter.ToTron` | asvjson/formats/tron.hpp:168-213 | prints the hoisted tree for classes that are exactly the qualifying signatures, each once, named by position, sorted by size and name |
| `TronPrinter.SchemaSignature` | asvjson/formats/tron.hpp:18-30 | computes the specified signature |
| `TronPrinter.Discovery.Discover` | asvjson/formats/tron.hpp:32-55 | after the walk the maps describe the objects seen before and those of this document, in walking order |
| `TronPrinter.Discovery.Tally` | asvjson/formats/tron.hpp:32-55 | one object more in the maps: counts and first keys |
| `TronPrinter.Qualified` | asvjson/formats/tron.hpp:168-213 | lists exactly the signatures with several keys met more than once |
| `TronPrinter.Name` | asvjson/formats/tron.hpp:168-213 | names the classes by position; the maps by signature and by name mirror the list |
| `TronPrinter.SortHeader` | asvjson/formats/tron.hpp:168-213 | orders the same classes by number of keys, then name |
| `TronPrinter.SerializeValue` | asvjson/formats/tron.hpp:64-166 | appends exactly the text of the hoisted tree |
| `TronPrinter.SerializeInstance` | asvjson/formats/tron.hpp:64-166 | appends the class name and the arguments in class order |
| `TronPrinter.AppendScalar` | asvjson/formats/tron.hpp:64-166 | appends exactly the text of a scalar |
| `TronPrinter.AppendHeader` | asvjson/formats/tron.hpp:168-213 | appends exactly the class definitions |
| `TronReader.FromTron` | asvjson/formats/tron.hpp:516-583 | returns the value the specification reads, or nothing where it fails; TronLexemes.ReadText says what that is for every text of the language |
| `TronReader.Tokenize` | asvjson/formats/tron.hpp:232-303 | produces exactly the specified tokens |
| `TronReader.ParseState.ParseAny` | asvjson/formats/tron.hpp:424-514 | agrees with the specified reading of a value, position and failure included |
| `TronReader.ParseState.ParseObject` | asvjson/formats/tron.hpp:324-348 | agrees with the specified reading of an object |
| `TronReader.ParseState.ParseArray` | asvjson/formats/tron.hpp:350-370 | agrees with the specified reading of an array |
| `TronReader.ParseState.ParseInstance` | asvjson/formats/tron.hpp:372-422 | agrees with the specified reading of an instance |
| `TronReader.ParseState.ParseArgs` | asvjson/formats/tron.hpp:372-422 | agrees with the specified argument loop, positional and named |
| `TronReader.ParseState.ParseArg` | asvjson/formats/tron.hpp:372-422 | agrees with one turn of it |
| `TronReader.ParseState.FillProps` | asvjson/formats/tron.hpp:372-422 | fills properties positionally, then by name, then with null |
| `TronReader.ParseState.ParseClasses` | asvjson/formats/tron.hpp:516-583 | agrees with the specified reading of class definitions; TronClasses.ReadDefinition says what a class gets from its parent |
| `TronLexemes.ReadText` | asvjson/formats/tron.hpp:226-583 | fromTRON on any text of the language (blanks, comments, line breaks, bare and quoted names, parents, trailing commas, named arguments): the document's value, or failure exactly where it has none |
| `TronLexemes.FlattenedText` | asvjson/formats/tron.hpp:521-565 | a document in which a class names its parent reads as the one in which that class lists the parent's properties first and then its own new ones |
| `TronLexemes.LexAll` | asvjson/formats/tron.hpp:226-303 | any run of lexemes, however laid out, gives its tokens; what begins no lexeme is dropped |
| `TronLexemes.BodySpelled` | asvjson/formats/tron.hpp:226-253 | any spelling of a string, with the escapes of section 7 of RFC 8259 in any form, stands for its bytes |
| `TronLexemes.NumeralValue` | asvjson/formats/tron.hpp:470-492 | a number is its 64-bit integer or, with a fraction or exponent, what the platform makes of it; out of range it fails |
| `TronLexemes.MarkedBinary` | asvjson/formats/tron.hpp:436-442 | text behind the binary mark is binary data, none at all where it is no Base64 |
| `TronLexemes.MarkedExtension` | asvjson/formats/tron.hpp:443-456 | text behind the extension mark: any 32-bit number gives the type by its low byte, any other number fails |
| `TronClasses.ReadDefinition` | asvjson/formats/tron.hpp:521-565 | a class definition, its parent named or not, declares the parent's properties and then its own that are new; an unknown parent or malformed name fails |
| `TronClasses.MergeIs` | asvjson/formats/tron.hpp:559-565 | merging properties is appending those neither inherited nor repeated, in order |
| `TronClasses.AddedHas` | asvjson/formats/tron.hpp:559-565 | added are exactly the own properties that are not inherited |
| `TronClasses.DeclaredUnique` | asvjson/formats/tron.hpp:559-565 | no class ever has a property twice |
| `TronClasses.Flattened` | asvjson/formats/tron.hpp:521-565 | replacing a class with a parent by its flattened form leaves the declared classes of the whole document the same |
| `TronClasses.UnknownParent` | asvjson/formats/tron.hpp:528-537 | a parent not declared before makes the document fail |
| `TronClasses.ReadProps` | asvjson/formats/tron.hpp:543-556 | a property list with any line breaks and commas is read as its names, up to where it ends |
| `TronClasses.ReadDocument` | asvjson/formats/tron.hpp:516-583 | the parser on the tokens of any document gives its value or fails |
| `TronGrammar.ReadNode` | asvjson/formats/tron.hpp:324-514 | any value, with line breaks and semicolons around its parts and trailing commas, is read as what it denotes and up to its end, or refused |
| `TronGrammar.ReadArgs` | asvjson/formats/tron.hpp:372-405 | positional arguments then named ones, commas between them or not; a positional one behind a named one is refused; the last value of a name counts |
| `TronGrammar.Filled` | asvjson/formats/tron.hpp:406-419 | an instance has exactly its class's properties: each the argument in its position, or else the one under its name, or else null |
| `JsonFaithful.DocumentRoundTrip` | asvjson/core.hpp:420-886 | compact or pretty, parsing the printed document gives its meaning if and only if the document is faithful: no string the date parser takes, no object that looks like Extended JSON, valid wrapped scalars, nesting (wrappers counted) within the bound |
| `JsonProofs.RoundTrip` | asvjson/core.hpp:584-886 | the parser's whole behaviour on printed text before any delimiter: the expected value and the exact end, or failure exactly where none is expected |
| `JsonFaithful.ExpectIsMeaning` | asvjson/core.hpp:709-793 | what the parser makes of a printed document is its meaning if and only if it is faithful |
| `JsonFaithful.NotReserved` | asvjson/core.hpp:709-793 | objects without the four reserved keys are never taken for Extended JSON |
| `JsonFaithful.BinaryFaithful` | asvjson/core.hpp:709-793 | the binary wrapper of data or of an extension is read back as that scalar exactly under the stated conditions |
| `JsonFaithful.SpecialKeeps` | asvjson/core.hpp:709-793 | recognition as Extended JSON never yields a different object |
| `JsonFaithful.RenderAscii` | asvjson/core.hpp:932-953 | printed text never starts with a byte-order mark |
| `JsonTokens.NumberInverse` | asvjson/core.hpp:817-886 | a decimal integer literal is read as its 64-bit value, or kept as its exact literal beyond 64 bits |
| `JsonTokens.DecimalIsLiteral` | asvjson/core.hpp:817-886 | a printed integer is such a literal, and reads as itself within 64 bits |
| `JsonTokens.StepBlanks` | asvjson/core.hpp:584-602 | blanks before a value do not change how it is read |
| `Text.UnescapeEscape` | asvjson/detail/datetime.hpp:139-189 | unescaping inverts escaping for every byte string (section 7 of RFC 8259) |
| `Text.DigitsInverse` | asvjson/core.hpp:446-491 | the decimal digits of a number spell that number |
| `Text.DigitsCanonical` | asvjson/core.hpp:817-886 | digits without a needless leading zero are the decimal form of their number |
| `Unicode.ScalarUnescapes` | asvjson/detail/datetime.hpp:139-189 | every Unicode scalar value escaped as one code unit or a surrogate pair is unescaped to its UTF-8 form, whatever surrounds it (section 7 of RFC 8259) |
| `Unicode.LoneSurrogateRefused` | asvjson/detail/datetime.hpp:139-189 | an escaped surrogate without its partner makes unescaping fail |
| `Unicode.Utf8Decodes` | asvjson/detail/datetime.hpp:115-131 | what is appended for a scalar value is its well-formed UTF-8 sequence by section 3 of RFC 3629, before any suffix |
| `Regexes.RegexRebuilt` | asvjson/core.hpp:310-326 | splitting a stored source and making it anew gives it back if and only if it holds exactly one NUL, behind a non-empty pattern, within the length limit |
| `Regexes.RegexSplit` | asvjson/core.hpp:1732-1741 | pattern and options are what lies before and behind the last NUL |
| `JsonPrinter.AppendEscaped` | asvjson/core.hpp:420-441 | appends exactly the escaped text |
| `JsonPrinter.AppendToken` | asvjson/core.hpp:1752-1842 | appends exactly the text of a scalar |
| `JsonPrinter.AppendWrapper` | asvjson/core.hpp:1752-1842 | the literal wrapper text written for each special scalar is the compact text of its wrapper object |
| `JsonPrinter.BinaryText` | asvjson/core.hpp:1752-1842 | the spelled-out binary wrapper is the compact text of the wrapper object |
| `JsonPrinter.RegexText` | asvjson/core.hpp:1752-1842 | the spelled-out regular-expression wrapper is the compact text of the wrapper object, options or not |
| `JsonPrinter.CompactIndent` | asvjson/core.hpp:446-491 | compact text does not depend on the nesting level |
| `JsonPrinter.Serialize` | asvjson/core.hpp:446-491 | appends exactly the compact text |
| `JsonPrinter.SerializePretty` | asvjson/core.hpp:493-554 | appends exactly the indented text |
| `JsonPrinter.SerializeObject` | asvjson/core.hpp:446-491 | members in enumeration order, commas between them |
| `JsonPrinter.PrettyObject` | asvjson/core.hpp:493-554 | appends exactly the indented text of an object |
| `JsonPrinter.PrettyMembers` | asvjson/core.hpp:515-530 | one member a line, the break written before the first and with the comma before the others |
| `JsonReader.UnescapeString` | asvjson/detail/datetime.hpp:139-189 | computes the specified unescaping, throwing where it fails |
| `JsonReader.AppendUtf8` | asvjson/detail/datetime.hpp:115-131 | appends exactly the UTF-8 form of a code point |
| `JsonReader.ParseText` | asvjson/core.hpp:932-953 | returns the value the specification reads: byte-order mark, one value, nothing but blanks and comments behind; JsonGrammar.ReadDocument says what that is for every text of the grammar |
| `JsonReader.Parser.SkipBlanks` | asvjson/core.hpp:584-602 | stops where the specified skip stops, failing at an unclosed comment |
| `JsonReader.Parser.ParseStringRaw` | asvjson/core.hpp:611-631 | agrees with the specified scan for the closing quote |
| `JsonReader.Parser.ParseStringOrSpecial` | asvjson/core.hpp:694-707 | agrees with the specified reading: the date test comes before unescaping |
| `JsonReader.Parser.ParseNumber` | asvjson/core.hpp:817-886 | agrees with the specified reading of a number; JsonNumbers.NumberRead and NumberIsLiteral say what that is for every text |
| `JsonReader.Parser.ParseAny` | asvjson/core.hpp:640-692 | agrees with the specified reading of a value, NaN and Infinity under their option included; the nesting counter is restored on success |
| `JsonReader.Parser.ParseNonFinite` | asvjson/core.hpp:681-689 | takes NaN and Infinity, signed or not, exactly where the specification finds them |
| `JsonTokens.NoNonFinite` | asvjson/core.hpp:681-689 | whatever the option says, a number is not taken for NaN or Infinity |
| `JsonReader.Parser.ParseObject` | asvjson/core.hpp:709-793 | agrees with the specified reading of an object, Extended JSON included |
| `JsonReader.Parser.ParseArray` | asvjson/core.hpp:795-815 | agrees with the specified reading of an array |
| `JsonGrammar.ReadDocument` | asvjson/core.hpp:584-953 | parse() on any text of the grammar (any blanks and comments, any spelling of strings and numbers, trailing commas, repeated keys, a byte-order mark): the value it denotes, or failure exactly where it denotes none |
| `JsonGrammar.ReadNode` | asvjson/core.hpp:640-886 | the same for a value at any place before any byte that does not continue it |
| `JsonGrammar.LastWins` | asvjson/core.hpp:709-793 | of members with one key the last gives the value |
| `JsonGrammar.FillersSkipped` | asvjson/core.hpp:584-602 | blanks and the three comment forms are passed over, whatever they hold |
| `JsonGrammar.StringRead` | asvjson/core.hpp:611-707 | a string in any spelling is a date-time if its text is one, otherwise its bytes; too long a one is refused |
| `JsonNumbers.NumberRead` | asvjson/core.hpp:817-886 | every literal of section 6 of RFC 8259, before any delimiter: a 64-bit integer, a double of at most seventeen digits, or its exact literal; refused where the platform has no double or the literal is too long |
| `JsonNumbers.NumberIsLiteral` | asvjson/core.hpp:817-886 | whatever is taken as a number is a literal of that grammar |
| `JsonNumbers.LiteralDocument` | asvjson/core.hpp:817-953 | a document that is a literal has the literal's value |
| `JsonNumbers.OnlyLiterals` | asvjson/core.hpp:817-953 | a document that starts like a number, without blanks and comments, is accepted only if all of it is a literal |
| `JsonNumbers.CountSpelled` | asvjson/core.hpp:817-886 | the digits counted are those of the three digit runs |
| `Escapes.LiteralUnescapes` | asvjson/detail/datetime.hpp:139-189 | every string literal, each byte bare, by a short escape or by number in either case, is unescaped to its bytes; an unknown escape keeps its backslash |
| `Escapes.BadDigitsRefused` | asvjson/detail/datetime.hpp:139-189 | an escape whose four digits are not all hexadecimal makes unescaping fail |
| `ExtendedJson.HexRead` | asvjson/core.hpp:709-793 | hexadecimal digits in any case are read as their number, up to the largest 64-bit integer |
| `ExtendedJson.OidRead` | asvjson/core.hpp:709-793 | an object id is recognised with its letters in any case |
| `ExtendedJson.SubTypeRead` | asvjson/core.hpp:709-793 | binary data with a subtype of any number of digits: plain bytes if it is zero modulo 2^32, otherwise an extension of the type in its low byte |
| `Text.DigitsPlaces` | asvjson/core.hpp:446-491 | each decimal digit counts its power of ten |
| `Json5Proofs.TranslationUndoesPrinting` | asvjson/formats/json5.hpp:19-474 | translating the JSON5 text of any document within the nesting limit and free of floats, dates and exact literals gives, byte for byte, its compact JSON text; bare keys or quoted ones |
| `Json5Proofs.JsonIsJson5` | asvjson/formats/json5.hpp:19-346 | compact JSON text translates to itself |
| `Json5Proofs.RoundTrip` | asvjson/formats/json5.hpp:476-497 | toJSON5 then fromJSON5 gives the document back if and only if it survives as JSON, whether the parser takes NaN and Infinity (as it does in fromJSON5) or not |
| `Json5Proofs.PrintGoes` | asvjson/formats/json5.hpp:19-346 | the same for a value in any surrounding text, before any delimiter: neither lookahead misfires |
| `Json5Proofs.KeyGoes` | asvjson/formats/json5.hpp:19-346 | a key, bare or quoted, comes out quoted; the lookahead sees its colon |
| `Json5Proofs.WordGoes` | asvjson/formats/json5.hpp:19-346 | a word no colon follows is copied |
| `Json5Proofs.QuotedGoes` | asvjson/formats/json5.hpp:19-346 | a quoted string is copied whatever bytes it holds |
| `Json5Proofs.PrintQuoted` | asvjson/formats/json5.hpp:348-474 | with every key quoted the JSON5 text is the compact JSON text |
| `Json5Codec.Json5ToJson` | asvjson/formats/json5.hpp:19-346 | the index loop computes the specified translation, throwing where it fails; the laws of Json5Lexemes and Json5Numbers fix it on text the printer does not write |
| `Json5Codec.LookPastComma` | asvjson/formats/json5.hpp:19-346 | stops where the specified comma lookahead stops |
| `Json5Codec.LooksLikeKey` | asvjson/formats/json5.hpp:19-346 | decides the specified key lookahead |
| `Json5Codec.ReadEscape` | asvjson/formats/json5.hpp:19-346 | makes the specified move at an escape |
| `Json5Codec.ReadBased` | asvjson/formats/json5.hpp:19-346 | makes the specified move at a number of another base, whose value Json5Numbers.BasedGoes fixes |
| `Json5Codec.Json5Serialize` | asvjson/formats/json5.hpp:348-474 | appends exactly the specified JSON5 text |
| `Json5Numbers.BasedGoes` | asvjson/formats/json5.hpp:251-293 | a hexadecimal, octal or binary number in any digits and cases, up to a byte that is no digit of its base, comes out in decimal; from 2^64 on the translator throws |
| `Json5Numbers.NumberGoes` | asvjson/formats/json5.hpp:251-293 | every number below 2^64 written in any of the three bases, each letter in either case, comes out as its decimal digits, in any surrounding text |
| `Json5Numbers.NumberTranslates` | asvjson/formats/json5.hpp:251-293 | a document that is such a number: its decimal digits, or failure from 2^64 on |
| `Json5Numbers.DigitsInTotal` | asvjson/formats/json5.hpp:251-293 | the digits of a number in a base, by their places, make that number |
| `Json5Lexemes.StringGoes` | asvjson/formats/json5.hpp:45-155 | a string in either kind of quotes, with every escape JSON5 has, becomes a JSON string that stands for the same bytes; an escape that means nothing keeps its backslash |
| `Json5Lexemes.BracedIs` | asvjson/formats/json5.hpp:62-81 | a braced code point is accepted if and only if its digits in 64-bit arithmetic are one: leading zeros do not matter, and what overflows is dropped |
| `Json5Lexemes.BlankGoes` | asvjson/formats/json5.hpp:157-173 | blanks of JSON are copied, all others JSON5 allows are dropped |
| `Json5Lexemes.TrailingComma` | asvjson/formats/json5.hpp:175-205 | a comma is dropped with the blanks and comments behind it if and only if a closing bracket follows them |
| `Json5Lexemes.WordGoes` | asvjson/formats/json5.hpp:207-249 | a bare word comes out quoted if and only if a colon follows the blanks behind it |
| `Json5Lexemes.CommentHidesColon` | asvjson/formats/json5.hpp:220-243 | directly behind a block comment the colon is not seen and the key stays bare |
| `Json5Lexemes.SignGoes` | asvjson/formats/json5.hpp:302-332 | a plus sign is dropped, a minus sign kept without the blanks behind it |
| `Json5Lexemes.NonFiniteGoes` | asvjson/formats/json5.hpp:302-332 | NaN and Infinity lose a plus sign and the blanks behind any sign |
| `Json5Lexemes.DecimalGoes` | asvjson/formats/json5.hpp:295-342 | a number with its dot at either end gets a zero on the missing side |
| `Json5Lexemes.ApostropheInComment` | asvjson/formats/json5.hpp:19-346 | a comment with an apostrophe that makes the translator throw: comments are translated like other text |
| `Json5Lexemes.BareExactly` | asvjson/formats/json5.hpp:348-474 | the printer leaves a key bare if and only if it is a non-empty run of ASCII letters, digits, underscores and dollars that starts with no digit |
| `MsgPackProofs.RoundTrip` | asvjson/formats/msgpack.hpp:22-485 | for every document and every byte suffix the decoder returns its meaning if and only if the document is kept, and then stops exactly at the suffix; otherwise it fails or returns something else |
| `MsgPackProofs.PrefixFree` | asvjson/formats/msgpack.hpp:22-485 | no encoding of a kept document continues another one's: a prefix is the same document |
| `MsgPackProofs.DecodedIsBounded` | asvjson/formats/msgpack.hpp:168-485 | on any bytes a successful call advances, stays inside the input and returns a tree of height at most 48 with containers of at most 1,000,000 entries |
| `MsgPackProofs.CountAt` | asvjson/formats/msgpack.hpp:22-164 | a container head announces its count, or fails or announces less beyond the limits |
| `MsgPackProofs.TextRead` | asvjson/formats/msgpack.hpp:168-485 | a string comes back in every length band, never as an exact literal |
| `MsgPackProofs.ItemsExtend` | asvjson/formats/msgpack.hpp:168-485 | the element loop only appends |
| `MsgPackProofs.EntriesExtend` | asvjson/formats/msgpack.hpp:168-485 | the member loop keeps what is stored and adds at most one member each turn |
| `MsgPackProofs.EntryLost` | asvjson/formats/msgpack.hpp:168-485 | one member read differently makes a different object |
| `MsgPackScalars.IntRead` | asvjson/formats/msgpack.hpp:22-164 | every 64-bit integer comes back in each of its nine bands |
| `MsgPackScalars.DateTimeRead` | asvjson/formats/msgpack.hpp:22-164 | a date-time comes back through its three layouts if and only if 0 <= ms < 1000 |
| `MsgPackScalars.Packing` | asvjson/formats/msgpack.hpp:22-164 | 30 bits over 34 bits are packed without loss |
| `MsgPackScalars.NanosKeepMillis` | asvjson/formats/msgpack.hpp:22-164 | milliseconds survive as nanoseconds if and only if they are within a second |
| `MsgPackScalars.ExtensionRead` | asvjson/formats/msgpack.hpp:8-19 | an extension comes back if and only if its type and size are not ones the decoder gives a meaning of its own |
| `MsgPackScalars.CountedKept` | asvjson/formats/msgpack.hpp:168-485 | the same for counted extensions |
| `MsgPackScalars.RegexRead` | asvjson/formats/msgpack.hpp:22-164 | a stored regular expression comes back if and only if it has no bars and options and avoids the fixed extension sizes |
| `MsgPackScalars.RegexRebuilt` | asvjson/formats/msgpack.hpp:168-485 | what the decoder makes of a stored regular expression |
| `MsgPackCodec.ToMessagePack` | asvjson/formats/msgpack.hpp:22-164 | appends exactly the specified encoding |
| `MsgPackCodec.WriteInt` | asvjson/formats/msgpack.hpp:22-164 | appends the integer in its band |
| `MsgPackCodec.WriteDateTime` | asvjson/formats/msgpack.hpp:22-164 | appends one of the three timestamp layouts |
| `MsgPackCodec.WriteExt` | asvjson/formats/msgpack.hpp:8-19 | appends an extension under its fixed or counted head |
| `MsgPackCodec.Reader.ParseValue` | asvjson/formats/msgpack.hpp:168-485 | agrees with the specified decoder, position and failure included |
| `MsgPackCodec.Reader.ReadFlat` | asvjson/formats/msgpack.hpp:168-485 | agrees with the specification on everything but containers |
| `MsgPackCodec.Reader.Interpret` | asvjson/formats/msgpack.hpp:168-485 | agrees with the specified meaning of extension payloads |
| `MsgPackCodec.Reader.Items` | asvjson/formats/msgpack.hpp:168-485 | agrees with the specified element loop |
| `MsgPackCodec.Reader.Entries` | asvjson/formats/msgpack.hpp:168-485 | agrees with the specified member loop |
| `MsgPackCodec.FromMessagePack` | asvjson/core.hpp:2258-2268 | one value from the start of the input |
| `MsgPackFormats.ReadForm` | asvjson/formats/msgpack.hpp:168-485 | any value in any format of the MessagePack specification, at every width and in any nesting, is read as what it denotes and up to its end, or refused exactly where the limits, a key that is no string or a malformed timestamp forbid it |
| `MsgPackFormats.ShortestWritten` | asvjson/formats/msgpack.hpp:22-164 | no format that stands for a scalar is shorter than what the encoder writes for it, regular expressions apart |
| `MsgPackFormats.ShortestCount` | asvjson/formats/msgpack.hpp:22-164 | and no count of elements or members either |
| `MsgPackFormats.LongStamp` | asvjson/formats/msgpack.hpp:168-485 | a counted timestamp of more than eight bytes is read from the first eight, and reading goes on right behind those |
| `CborProofs.RoundTrip` | asvjson/formats/cbor.hpp:31-413 | the decoder's whole behaviour on encoder output before any suffix: within the limits it returns the document's image (the document itself, up to the type identity CBOR drops) and stops at the suffix; beyond them it fails |
| `CborLaws.IndefiniteArray` | asvjson/formats/cbor.hpp:199-257 | encoded items between 0x9F and 0xFF decode to the array of the counted encoding (section 3.2.2 of RFC 8949) |
| `CborLaws.IndefiniteMap` | asvjson/formats/cbor.hpp:199-257 | encoded pairs between 0xBF and 0xFF decode to the map of the counted encoding |
| `CborLaws.IndefiniteString` | asvjson/formats/cbor.hpp:199-257 | chunks between 0x5F or 0x7F and 0xFF decode to their concatenation (section 3.2.3 of RFC 8949) |
| `CborLaws.CountedThenBreak` | asvjson/formats/cbor.hpp:268-308 | on any bytes: where counted items end at a break, break-terminated reading returns the same items |
| `CborLaws.UntilBreakIsCounted` | asvjson/formats/cbor.hpp:268-308 | conversely a break-terminated list is the counted list of as many items |
| `CborLaws.BreakIsNoItem` | asvjson/formats/cbor.hpp:190-413 | no item that decodes starts with 0xFF |
| `CborLaws.HeadIsShortest` | asvjson/formats/cbor.hpp:161-188 | any accepted head for a value is at least as long as the one written (section 4.1 of RFC 8949) |
| `CborLaws.HeadsKeepOrder` | asvjson/formats/cbor.hpp:8-28 | for one major type bytewise order of heads is numeric order (section 4.2.1 of RFC 8949) |
| `CborProofs.HeadInverse` | asvjson/formats/cbor.hpp:8-188 | reading inverts writing heads over all 64-bit arguments |
| `CborLaws.PrefixFree` | asvjson/formats/cbor.hpp:31-413 | an encoding that continues another is the same encoding, with the same image |
| `CborLaws.DecodedIsBounded` | asvjson/formats/cbor.hpp:161-413 | on any bytes a successful call advances, stays inside the input and returns a tree of height at most 48 with containers within the limits |
| `CborLaws.RegexSurvives` | asvjson/formats/cbor.hpp:31-413 | any stored regular expression comes back if and only if it is a non-empty pattern, its only NUL and options, within the length limit, and the options hold no bar and repeat what follows the last bar of the pattern |
| `CborProofs.ExtensionRoundTrip` | asvjson/formats/cbor.hpp:31-413 | an extension is tag 257 around its type and payload and costs two levels |
| `CborProofs.TimestampRoundTrip` | asvjson/formats/cbor.hpp:31-413 | a timestamp comes back as a date-time |
| `CborCodec.ToCbor` | asvjson/formats/cbor.hpp:31-157 | appends exactly the specified encoding |
| `Bytes.AccumulateWide` | asvjson/formats/cbor.hpp:161-188 | assembles a big-endian integer byte by byte, or fails where the input ends |
| `CborCodec.WriteUint` | asvjson/formats/cbor.hpp:8-28 | appends the head with the argument shifted out byte by byte |
| `CborCodec.WriteScalar` | asvjson/formats/cbor.hpp:31-157 | appends exactly the encoding of a scalar |
| `CborCodec.Reader.ReadArg` | asvjson/formats/cbor.hpp:161-188 | agrees with the specified argument |
| `CborCodec.Reader.ParseValue` | asvjson/formats/cbor.hpp:190-413 | agrees with the specified decoder, position and failure included |
| `CborCodec.Reader.Indefinite` | asvjson/formats/cbor.hpp:190-257 | agrees with the specified reading of indefinite items |
| `CborCodec.Reader.Chunks` | asvjson/formats/cbor.hpp:190-257 | agrees with the specified chunk loop |
| `CborCodec.FromCbor` | asvjson/core.hpp:2270-2280 | one item from the start of the input |
| `CborFormats.ReadForm` | asvjson/formats/cbor.hpp:161-413 | any item of RFC 8949 (heads of any width, definite and indefinite lengths in any nesting, chunks, tags, simple values, floating point of three sizes) is read as what it denotes and up to its end, or refused |
| `CborFormats.ReservedInfo` | asvjson/formats/cbor.hpp:161-413 | reserved additional information, and indefinite lengths where there can be none, are refused |
| `BsonProofs.RoundTrip` | asvjson/formats/bson.hpp:20-346 | decoding an encoded root, before any bytes, returns its members and stops at its end if and only if every member is kept (NUL-free keys, no empty arrays, no extensions or non-zero timestamps, dates from 1970 on, valid object ids); otherwise it fails or returns something else |
| `BsonProofs.OrderRestored` | asvjson/formats/bson.hpp:175-346 | an 0x04 document whose members lie in any order is read as the array in positional order |
| `BsonArrays.ArrayExactly` | asvjson/formats/bson.hpp:175-346 | a document becomes an array if and only if it is non-empty and its n keys are the decimal strings of 0..n-1 |
| `BsonArrays.RebuildIs` | asvjson/formats/bson.hpp:175-346 | it becomes the array of given elements if and only if it holds exactly them under their positions |
| `BsonArrays.IndexedHas` | asvjson/formats/bson.hpp:20-159 | an array is stored as one member for each position and nothing else |
| `BsonProofs.DocumentRead` | asvjson/formats/bson.hpp:175-346 | a document at any place is read as its members if and only if all are kept, up to its own end |
| `BsonProofs.ElementRead` | asvjson/formats/bson.hpp:175-346 | an element is read back exactly when its value is kept; an unkeepable key is read as another key |
| `BsonProofs.TimestampRead` | asvjson/formats/bson.hpp:163-346 | the words of a timestamp are read in the other order: it comes back if and only if it is zero |
| `BsonProofs.RegexRead` | asvjson/formats/bson.hpp:175-346 | a regular expression comes back if and only if its parts hold no further NUL |
| `BsonProofs.PositionsMeaning` | asvjson/formats/bson.hpp:20-159 | the members an array is written as make its positional document |
| `BsonProofs.MemberLost` | asvjson/formats/bson.hpp:175-346 | one member read differently makes a different document |
| `BsonProofs.ElementsExtend` | asvjson/formats/bson.hpp:175-346 | reading elements keeps what is stored, and no key it stores holds a NUL |
| `BsonCodec.EncodeRoot` | asvjson/core.hpp:2282-2333 | the root document, or the empty string where it exceeds the 32-bit size |
| `BsonCodec.PatchSize` | asvjson/formats/bson.hpp:20-159 | writes the array's own length over its first four bytes and nothing else |
| `BsonCodec.Wrap` | asvjson/formats/bson.hpp:20-159 | size, elements, terminator, the size patched in afterwards |
| `BsonCodec.ToBson` | asvjson/formats/bson.hpp:20-159 | appends type and payload, refusing documents too large |
| `BsonCodec.Reader.ParseDocument` | asvjson/formats/bson.hpp:175-346 | agrees with the specified reading of a document |
| `BsonCodec.Reader.RebuildArray` | asvjson/formats/bson.hpp:175-346 | agrees with the specified rebuilding of arrays |
| `BsonCodec.Reader.ParseScalar` | asvjson/formats/bson.hpp:175-346 | agrees with the specified reading of scalars |
| `BsonCodec.Reader.ReadLE` | asvjson/formats/bson.hpp:163-173 | a little-endian word assembled byte by byte |
| `BsonFormats.ReadDoc` | asvjson/formats/bson.hpp:175-346 | any document of the BSON specification, with every element type the decoder knows and keys in any order, is read as what it denotes and up to its end, or refused |
| `BsonFormats.ScalarRead` | asvjson/formats/bson.hpp:175-346 | the value of each element type, binary subtypes and the old binary form included |
| `BsonFormats.ShortestInt` | asvjson/formats/bson.hpp:20-159 | an integer takes four bytes whenever it fits them |
| `ProtoProofs.RootRoundTrip` | asvjson/formats/protobuf.hpp:185-604 | decoding an encoded message gives the value restricted, at every level, to the fields of the schema, empty repeated fields dropped, if and only if every field the schema names holds values of its own type within the limits |
| `ProtoProofs.RootRead` | asvjson/formats/protobuf.hpp:185-604 | whatever values a message holds, decoding it gives their image: what each kind makes of a value of any type, ending early or throwing where the decoder does |
| `ProtoImage.FieldsRead` | asvjson/formats/protobuf.hpp:409-604 | the same for the field loop at any place, nested or root |
| `ProtoImage.ValueRead` | asvjson/formats/protobuf.hpp:409-551 | a written value of any type is read as its image, for every kind but a message without fields |
| `ProtoImage.PackedRead` | asvjson/formats/protobuf.hpp:511-539 | packed elements of any type are read as their images |
| `ProtoProofs.FieldsExact` | asvjson/formats/protobuf.hpp:185-604 | the image of a message is its projection if and only if every field the schema names matches |
| `ProtoProofs.ValueExact` | asvjson/formats/protobuf.hpp:148-236 | the image of a value is the value, restricted, if and only if it matches the kind |
| `ProtoProofs.ScalarExact` | asvjson/formats/protobuf.hpp:148-181 | a scalar comes back as itself if and only if it matches the kind, packed or alone |
| `ProtoProofs.FieldExact` | asvjson/formats/protobuf.hpp:126-144 | a field is stored as its projection if and only if it matches; otherwise the member is missing, something else, or the decoder throws |
| `ProtoProofs.ProjectionIsRestriction` | asvjson/formats/protobuf.hpp:185-236 | the projection the decoder builds is the declarative restriction of the value |
| `ProtoProofs.SegmentsRead` | asvjson/formats/protobuf.hpp:467-604 | any sequence of packed and single stretches of one repeated field, of any values, appends the images of the elements in order |
| `ProtoProofs.GroupingFree` | asvjson/formats/protobuf.hpp:467-604 | except for 32-bit fixed fields the grouping makes no difference to what the elements come back as |
| `ProtoProofs.SegmentsExact` | asvjson/formats/protobuf.hpp:467-604 | for every kind the elements come back as themselves if and only if each matches the kind in the stretch it is in |
| `ProtoProofs.ProjectedMembers` | asvjson/formats/protobuf.hpp:126-144 | the members of the projection: those not dropped, each projected |
| `ProtoProofs.Fixed32Survives` | asvjson/formats/protobuf.hpp:148-181 | a lone 32-bit fixed value comes back if and only if it is unsigned 32-bit, a packed one if and only if it is signed 32-bit |
| `ProtoSchemas.NumbersIdentify` | asvjson/formats/protobuf.hpp:109-123 | field numbers lead back to their names if and only if they are pairwise different |
| `ProtoSchemas.SchemaFit` | asvjson/formats/protobuf.hpp:77-123 | a description gives a usable schema if and only if its fields are numbered apart, named, each message with usable fields of its own, and none both packed and without a type name or of type binary |
| `ProtoSchemas.FieldsRead` | asvjson/formats/protobuf.hpp:109-123 | the fields of the schema are exactly those described with a positive number; what the type name of each means on the wire is in ProtoTypes |
| `ProtoSchemas.NamesRead` | asvjson/formats/protobuf.hpp:109-123 | every number the schema knows leads to the last field described with it |
| `Varint.ReadWrite` | asvjson/formats/protobuf.hpp:21-40 | reading inverts writing over all 64-bit values, before any bytes |
| `Varint.AtMostTenBytes` | asvjson/formats/protobuf.hpp:21-27 | at most ten bytes are written |
| `Varint.WrittenIsShortest` | asvjson/formats/protobuf.hpp:21-40 | no accepted encoding of a value is shorter than the written one |
| `Varint.ZigZagBijection` | asvjson/formats/protobuf.hpp:42-48 | encoding and decoding are inverse bijections between signed and unsigned 64-bit integers |
| `Varint.ZigZagIs` | asvjson/formats/protobuf.hpp:46-48 | the shift-and-mask form is 2n for n >= 0 and 2 times its magnitude minus 1 otherwise |
| `Varint.ZigZagOrders` | asvjson/formats/protobuf.hpp:46-48 | smaller magnitudes get smaller codes |
| `ProtoCodec.EncodeRoot` | asvjson/formats/protobuf.hpp:367-378 | the encoding of the root object, whose bytes ProtoTypes.ScalarWritten, ContentWritten and MessageWritten state for each type name |
| `ProtoCodec.WriteVarint` | asvjson/formats/protobuf.hpp:21-27 | appends seven bits a turn |
| `ProtoCodec.WriteMessage` | asvjson/formats/protobuf.hpp:185-236 | appends the fields the schema names, in enumeration order |
| `ProtoCodec.Reader.ReadVarint` | asvjson/formats/protobuf.hpp:29-40 | agrees with the specified reading: at most ten turns |
| `ProtoCodec.Reader.ReadValue` | asvjson/formats/protobuf.hpp:409-551 | agrees with the specified reading of a value |
| `ProtoCodec.Reader.ReadCounted` | asvjson/formats/protobuf.hpp:434-541 | agrees with the specified reading behind a length, untyped fields and messages without fields included |
| `ProtoCodec.Reader.ReadFields` | asvjson/formats/protobuf.hpp:553-604 | agrees with the specified field loop |
| `ProtoCodec.DecodeBytes` | asvjson/formats/protobuf.hpp:553-604 | the specified decoding of the whole input |
| `ProtoTypes.ScalarWritten` | asvjson/formats/protobuf.hpp:148-236 | the bytes of a scalar field for each type name of the description: the tag 8n plus the wire number, then the varint, the two's complement words or the floating-point bits, stated outright |
| `ProtoTypes.ContentWritten` | asvjson/formats/protobuf.hpp:342-365 | a string or bytes field is its tag, its length and its content |
| `ProtoTypes.MessageWritten` | asvjson/formats/protobuf.hpp:342-365 | a message field is its tag, its length and its members by the schema under fields |
| `ProtoTypes.VarintField` | asvjson/formats/protobuf.hpp:413-424 | the value of a varint for every type name: zigzag for sint32 and sint64, a flag for bool, otherwise a signed integer |
| `ProtoTypes.EightByteField` | asvjson/formats/protobuf.hpp:425-433 | the value of eight little-endian bytes for every type name |
| `ProtoTypes.FourByteField` | asvjson/formats/protobuf.hpp:542-548 | the value of four little-endian bytes for every type name: unsigned unless float |
| `ProtoTypes.ContentField` | asvjson/formats/protobuf.hpp:499-510 | the value of counted bytes: text for string, binary data for bytes and binary |
| `ProtoTypes.MessageField` | asvjson/formats/protobuf.hpp:434-493 | the value of a message: the object its members make by the schema under fields |
| `ProtoTypes.PackedField` | asvjson/formats/protobuf.hpp:511-540 | the elements of a packed field for every scalar type name, 32-bit fixed ones with their sign |
| `ProtoTypes.ManyFields` | asvjson/formats/protobuf.hpp:126-144 | however often a field comes its values are gathered in order; a single one stands for itself unless the field is repeated |
| `ProtoTypes.UnknownNumber` | asvjson/formats/protobuf.hpp:553-604 | a number the schema does not know names itself in decimal |
| `ProtoTypes.FieldDescribed` | asvjson/formats/protobuf.hpp:77-107 | what a description gives a field: its number wrapped to 32 bits, its repetition, and the wire form of its type name |
| `MergePatch.ApplyIsRfc` | asvjson/core.hpp:2080-2150 | within the clone limits applyMergePatch is MergePatch of section 2 of RFC 7396 if and only if every null member of the patch lies where the target already has objects; so is its idempotence |
| `MergePatch.ApplyTwice` | asvjson/core.hpp:2125-2150 | applying a patch to its own result changes nothing under exactly the same condition |
| `MergePatch.MergedIsRfc` | asvjson/core.hpp:2080-2101 | the library's merge equals the recursive definition of RFC 7396 if and only if nulls are covered |
| `MergePatch.MergedIdempotent` | asvjson/core.hpp:2080-2101 | the library's merge is idempotent if and only if nulls are covered |
| `MergePatch.RfcIdempotent` | asvjson/core.hpp:2080-2101 | MergePatch of RFC 7396 is idempotent |
| `MergePatch.LoopMerges` | asvjson/core.hpp:2080-2101 | whatever order the patch enumerates its members in, the loop makes the same merge |
| `MergePatch.ApplyMerges` | asvjson/core.hpp:2125-2150 | applyMergePatch is that merge of the two meanings |
| `MergePatch.CloneExact` | asvjson/core.hpp:1847-1914 | within the depth and node limits a clone is the value, and its nodes are counted exactly |
| `MergePatch.UncoveredNullKept` | asvjson/core.hpp:2125-2150 | patching {} with a null member inside a member it lacks stores the null, where RFC 7396 drops it |
| `Documents.CloneTree` | asvjson/core.hpp:1847-1909 | copies as specified and advances the shared node count |
| `Documents.CloneValue` | asvjson/core.hpp:1911-1914 | a copy with a fresh node count |
| `Documents.MergeMembers` | asvjson/core.hpp:2080-2101 | the specified member loop |
| `Documents.ApplyMergePatch` | asvjson/core.hpp:2125-2150 | returns the specified result |
| `Pointers.SetThenGet` | asvjson/core.hpp:1935-2034 | after a successful setByPointer the same pointer reads the value, if and only if it did not append through a dash |
| `Pointers.SetElsewhere` | asvjson/core.hpp:1935-2034 | pointers that part from the written one at a decoded segment read what they read before |
| `Pointers.PutGet` | asvjson/core.hpp:1966-2034 | the same for lists of segments: read back if and only if no dash appended, and nothing there otherwise |
| `Pointers.PutElsewhere` | asvjson/core.hpp:1966-2034 | storing leaves diverging places alone when every index is at most the array size |
| `Pointers.IndexIdentifies` | asvjson/core.hpp:1653-1658 | different index segments are different numbers |
| `Pointers.PointerIsPath` | asvjson/core.hpp:1315-1960 | the tilde-escaped pointer and the backslash-escaped dotted path of the same keys reach the same node of an objects-only tree |
| `Pointers.PointerFollows` | asvjson/core.hpp:1935-1960 | the escaped pointer follows its keys |
| `Pointers.NestedFollows` | asvjson/core.hpp:1315-1350 | the escaped dotted path follows its keys |
| `Pointers.DecodeEscaped` | asvjson/core.hpp:1919-1932 | decoding inverts escaping of pointer keys (section 3 of RFC 6901) |
| `Pointers.SegmentsOfKeys` | asvjson/core.hpp:1935-1960 | a pointer made of keys is cut into exactly the escaped keys |
| `Pointers.KeyUnescaped` | asvjson/core.hpp:1315-1350 | unescaping a path segment restores its key |
| `Documents.DecodeKey` | asvjson/core.hpp:1919-1932 | computes the specified decoding |
| `Documents.Document.GetByPointer` | asvjson/core.hpp:1935-1960 | returns the node the specification reaches, which PointerArrays.PointerReaches fixes by section 4 of RFC 6901 |
| `Documents.Document.SetByPointer` | asvjson/core.hpp:1966-2034 | stores as specified: the result flag and the whole new tree; what that is at elements, members and missing places is in PointerArrays |
| `Documents.Document.GetNested` | asvjson/core.hpp:1315-1350 | returns the node the specification reaches |
| `PointerArrays.PointerReaches` | asvjson/core.hpp:1935-1960 | a pointer of well-escaped tokens reads a value if and only if its tokens lead there by section 4 of RFC 6901, through objects and arrays |
| `PointerArrays.ElementRead` | asvjson/core.hpp:1952-1955 | the position i reads element i, and nothing from the number of elements on |
| `PointerArrays.NoElement` | asvjson/core.hpp:1935-1960 | a segment that is no decimal number without needless zeros reaches no element |
| `PointerArrays.IndexIs` | asvjson/core.hpp:1653-1658 | a segment is the index i if and only if it is the decimal form of i, and i fits a size |
| `PointerArrays.StoreElement` | asvjson/core.hpp:2003-2034 | storing at the position of an element, below any prefix, replaces exactly that element; at the number of elements it appends |
| `PointerArrays.StoreAppended` | asvjson/core.hpp:2003-2034 | storing at a dash appends |
| `PointerArrays.StoreMember` | asvjson/core.hpp:2003-2034 | storing under an escaped key sets exactly that member |
| `PointerArrays.StoreMissing` | asvjson/core.hpp:1966-2034 | below a missing member storing succeeds if and only if the rest of the way is made of members, but for a last number that fits or a dash, and the member then holds exactly what was made |
| `PointerArrays.EscapeDecoded` | asvjson/core.hpp:1919-1932 | a well-escaped token is the escaped form of the key it decodes to (section 3 of RFC 6901) |
| `Base64.RoundTrip` | asvjson/detail/base64.hpp:104-158 | for any 64 distinct characters without the padding character, decoding inverts encoding for every byte string |
| `Base64Bits.EncodersAgree` | web/convert.cpp:43-58 | the 32-bit accumulator writes the same text as the block encoder |
| `Base64Bits.DecodeNoisy` | web/convert.cpp:60-76 | the accumulator decoder recovers the bytes however many non-alphabet characters are interleaved |
| `Base64Bits.DecodeBlocks` | web/convert.cpp:60-76 | from a block boundary, with any old bits left in the accumulator, it decodes the block form |
| `Base64Bits.AccumulateIsEncode` | web/convert.cpp:43-58 | from a block boundary it emits the block form, whatever old bits it holds |
| `Base64Bits.AccumulatedBlock` | web/convert.cpp:43-58 | the bytes of the current block fix every sextet that is emitted |
| `Base64Codec.RebuildDecodeTable` | asvjson/detail/base64.hpp:44-49 | the table holds each character's last position and -1 elsewhere |
| `Base64Codec.EncodeBlocks` | asvjson/detail/base64.hpp:104-123 | computes the specified text block by block |
| `Base64Codec.DecodeFast` | asvjson/detail/base64.hpp:132-158 | computes the specified decoding into a vector sized up front, or reports the error |
| `Base64Codec.EncodeBits` | web/convert.cpp:43-58 | the shift-and-mask loop computes the accumulator specification |
| `Base64Codec.DecodeBits` | web/convert.cpp:60-76 | the shift-and-mask loop computes the accumulator specification |
| `Base64Standard.EncodeAt` | asvjson/detail/base64.hpp:104-123 | character k of the text stands for bits 6k to 6k+5 of the data, zero behind its end, and is the padding character where no bit is left (section 4 of RFC 4648) |
| `Base64Standard.DecodeIs` | asvjson/detail/base64.hpp:132-158 | decoding accepts exactly whole blocks of characters of the set and padding; byte i is bits 8i to 8i+7 of the text, without as many bytes as padding characters end it |
| `Base64Standard.DefaultIs` | asvjson/detail/base64.hpp:12-12 | the default character set is the alphabet of the standard |
| `Chunks.StoredThenRead` | asvjson/core.hpp:1145-1178 | what is read after storing: the data under a new key, the old content under a taken one or after a failure; storing fails only beyond the string limit |
| `Chunks.GlueCut` | asvjson/core.hpp:1145-1178 | gluing the pieces of any data, cut at any size, gives the data |
| `Chunks.CutFits` | asvjson/core.hpp:1145-1160 | cutting succeeds whenever a piece fits a string |
| `Documents.Document.PutBinChunked` | asvjson/core.hpp:1145-1160 | stores as specified: the result flag and the whole new tree |
| `Documents.Document.GetBinChunked` | asvjson/core.hpp:1162-1178 | returns the specified bytes |
| `Csv.TableRecovered` | asvjson/formats/csv.hpp:26-96 | splitting a written table into lines and these into cells gives the rows and cells, embedded commas, quotes and line breaks included; all rows come back if and only if none renders empty |
| `Csv.CellSurvives` | asvjson/formats/csv.hpp:8-42 | a cell alone on its line comes back if and only if it does not start like a formula |
| `Csv.LinesCountQuotes` | asvjson/formats/csv.hpp:75-96 | passing over pairs of quotes is the same as toggling at every quote |
| `Csv.FieldsRow` | asvjson/formats/csv.hpp:26-42 | a written row is split into its cells (section 2 of RFC 4180) |
| `Csv.RowLine` | asvjson/formats/csv.hpp:75-96 | a row and its line feed give one line, or none if it renders empty |
| `Csv.RowEnd` | asvjson/formats/csv.hpp:8-19 | no row ends in a carriage return |
| `Csv.WriteCell` | asvjson/formats/csv.hpp:8-19 | appends exactly the escaped cell |
| `Csv.SplitFields` | asvjson/formats/csv.hpp:26-42 | computes the specified cells |
| `Csv.SplitLines` | asvjson/formats/csv.hpp:75-96 | computes the specified lines, failing inside quotes |
| `CsvRows.TextRead` | asvjson/formats/csv.hpp:26-96 | any text of RFC 4180 (cells quoted or not, lines ended with or without a carriage return, the last perhaps unended) gives the rows it spells; only empty lines are no rows |
| `UdeProofs.QuotedReadsBack` | asvjson/formats/ude.hpp:560-696 | every byte string within the limit, written in quotes at any place of any text, reads back up to its closing quote |
| `UdeProofs.BlockSurvives` | asvjson/formats/ude.hpp:769-853 | a string with anything but line feeds, written as a block scalar at the end of input, reads back if and only if it is short enough, no line ends in CR, is blank but not empty or has a tab in its indentation, and the first non-empty line starts with no space |
| `UdeProofs.BlockChoice` | asvjson/formats/ude.hpp:1419-1491 | the same for every string udeCanBlockEncode accepts |
| `UdeProofs.TabbedLineLost` | asvjson/formats/ude.hpp:1419-1457 | a string udeCanBlockEncode accepts that does not read back: a tab indents its second line |
| `UdeProofs.LeadingSpaceLost` | asvjson/formats/ude.hpp:1419-1457 | another: its first non-empty line is the last and starts with a space |
| `UdeProofs.FoldChoice` | asvjson/formats/ude.hpp:1464-1499 | every string udeCanFoldEncode accepts reads back if and only if it is within the length limit |
| `UdeProofs.FoldSurvives` | asvjson/formats/ude.hpp:298-327 | without inner line feeds a folded string reads back if and only if it ends in a line feed and its line starts with no blank and ends with no CR |
| `UdeProofs.ContentsKept` | asvjson/formats/ude.hpp:769-853 | the reader hands back the written lines if and only if each is kept |
| `UdeProofs.JoinLines` | asvjson/formats/ude.hpp:1478-1491 | the lines of a text that does not end in a line feed, joined, are that text |
| `UdeProofs.JoinInjective` | asvjson/formats/ude.hpp:769-853 | a text comes from one list of lines only |
| `UdeProofs.WrittenLines` | asvjson/formats/ude.hpp:1478-1499 | what the writers put down is split into the indented lines again |
| `UdeProofs.ScanSeesContent` | asvjson/formats/ude.hpp:1419-1457 | udeCanBlockEncode accepts only strings with something but line feeds in them |
| `UdeCodec.PushQuoted` | asvjson/formats/ude.hpp:1367-1389 | appends exactly the quoted text |
| `UdeCodec.UnescapeQuoted` | asvjson/formats/ude.hpp:560-658 | computes the specified unescaping, throwing where it fails |
| `UdeCodec.FoldScalar` | asvjson/formats/ude.hpp:298-327 | computes the specified folding |
| `UdeCodec.CanBlockEncode` | asvjson/formats/ude.hpp:1419-1457 | decides the specified scan line by line |
| `UdeCodec.CanFoldEncode` | asvjson/formats/ude.hpp:1464-1472 | decides the specified condition |
| `UdeCodec.WriteBlockScalar` | asvjson/formats/ude.hpp:1478-1491 | appends exactly the specified block text |
| `UdeCodec.WriteFoldedScalar` | asvjson/formats/ude.hpp:1497-1499 | appends exactly the specified folded text |
| `UdeCodec.Reader.ParseQuoted` | asvjson/formats/ude.hpp:676-696 | agrees with the specified reading, position and failure included |
| `UdeCodec.Reader.ParseContent` | asvjson/formats/ude.hpp:769-853 | collects the specified content lines |
| `UdeCodec.Reader.ParseBlockScalar` | asvjson/formats/ude.hpp:769-853 | returns the specified string, or nothing where it throws |
| `UdeQuotes.StringRead` | asvjson/formats/ude.hpp:560-696 | a quoted string in any spelling (line breaks, continued lines, letters, bytes and code points by number, surrogate pairs) is read as its bytes, up to the length limit |
| `UdeBlocks.FoldIs` | asvjson/formats/ude.hpp:298-327 | folding joins lines next to each other by a space and lines with empty ones between them by one line feed, drops empty lines in front and keeps one line feed at the end |
| `UdeBlocks.BlockRead` | asvjson/formats/ude.hpp:769-853 | a block or folded scalar with a margin given or found, chomping signs, blank lines, carriage returns and a line left of the margin behind it is read as its lines, folded or not, with the line feeds that chomping leaves |
| `Values.ImageIsMeaning` | asvjson/core.hpp:98-348 | a document keeps its meaning under a reading of scalars if and only if each of its scalars is left alone |
| `Values.BuildUnordered` | asvjson/core.hpp:98-348 | two lists of members make one object if and only if they hold the same members, in whatever order |
| `Values.BuildStores` | asvjson/core.hpp:98-348 | emplacing fresh distinct keys stores every pair and touches nothing else |
| `Values.FirstWins` | asvjson/core.hpp:98-348 | emplacing a key that is taken changes nothing: of pairs with one key the first stays |
| `Bytes.BigEndianInverse` | asvjson/formats/cbor.hpp:8-28 | big-endian bytes spell their number |
| `Bytes.LittleEndianInverse` | asvjson/formats/bson.hpp:8-17 | little-endian bytes spell their number |
| `Bytes.TwosComplement64` | asvjson/formats/cbor.hpp:31-157 | the unsigned image of a 64-bit integer converts back to it |
| `Bytes.BigIs` | asvjson/formats/cbor.hpp:8-28 | each big-endian byte counts its power of 256 |
| `Bytes.LittleIs` | asvjson/formats/bson.hpp:8-17 | each little-endian byte counts its power of 256 |
| `Bytes.WideInverse` | asvjson/formats/cbor.hpp:161-188 | an integer written in w bytes is read back at its place, before any bytes |
| `Bytes.Buffer.PushBigEndian` | asvjson/formats/cbor.hpp:8-28 | appends the low w bytes, most significant first, by shifting |
| `Bytes.Buffer.PushLittleEndian` | asvjson/formats/bson.hpp:8-17 | appends the low w bytes, least significant first, by shifting |

## Left out

- Floating-point text, date text and their parsers: foreign calls, parameters of the model; JSON, JSON5 and TRON round trips are therefore stated for documents without doubles, floats and date-times.
- The validateUTF8 option and allowNaNInfinity outside the JSON parser: modelled in their default setting.
- Allocation failure: every allocation succeeds.
- Hash tables: the enumeration order is arbitrary but fixed for one document; bucket behaviour is not modelled.
- Tree updates: nodes are values that are put back into their parents, so aliasing between a node pointer a caller kept and the tree is not captured.
- Gap elements of arrays: the null pointers setByPointer leaves behind the end of an array are modelled as null values.
- MergePatch.Apply: a value too deep or too large to be cloned would be stored as a null pointer; the model returns nothing instead, and the theorems are stated within the clone limits.
- parseDepth after a failed parse: the parser object is not used again in the model.
- CUSTOM_TAG values: a node type for tagged UDE values, not part of this model.
- A putBinChunked chunk size below four with non-empty data: the loop of the source does not end; the method requires a larger size.
- CBOR empty byte chunks: taken to be refused, as an empty vector's data pointer is null.
- Protobuf without a schema: how it encodes an object and how a name map renames members are parameters of the model (Proto.Foreign); the round trips are stated for schemas without messages that lack fields, and without packed fields that lack a type or are of type binary.
- The Protobuf text format.
- TronGrammar.ReadNode, JsonGrammar.ReadNode, CborFormats.ReadForm, MsgPackFormats.ReadForm, BsonFormats.ReadDoc: they say what every text of the language is read as; that nothing outside the language is accepted is stated only where the source relies on it (number literals, escapes, reserved codes, unknown types).
- BSON root arrays and scalars: only root objects are encoded and decoded.
- JSON5 with line breaks, and the identifier checks of json5ToJson that have no effect.
- TRON's NaN and Infinity tokens; std::sort is modelled by an insertion sort, which is no restriction by TronSchemas.AscendingUnique.
- CSV type detection, headers and column layout around cells and lines.
- UDE line numbers, anchors, tags, keys and comments, and where reading goes on behind a block scalar.
- removeByPointer, applyPatch, typed getters and setters: they would add only easy members, or promise less than they say.
- GOON, TOON, S-expressions, INI, TOML, XML and YAML: heuristic or lossy in one direction, so there is no inverse to prove.
- File access, the web server, the command line and the mutexes around the Base64 alphabet.
