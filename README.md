# litert/annotation: the doc-comment parser, in Dafny

This project models `Parser::parseDocComment` of the PHP library
litert/annotation and proves properties of the model. The method turns the
text of a PHP doc comment into a dictionary from annotation name to the list
of values given for it, one per occurrence, in document order. A value is one
of three things:

- the marker `true`, for `@name` alone on its line or `@name()`;
- a trimmed one-line text, for `@name some text`;
- an ordered PHP array of arguments, for `@name(a, k = v, "quoted \" text")`.

The model follows the method's three parts:

- **PhpStrings** (`php_strings.dfy`): the PHP built-ins the parser calls.
  These are `trim`, `stripslashes` and, as its inverse, `addslashes`.
- **PhpArray** (`php_array.dfy`): a PHP array as an ordered dictionary. `Put`
  replaces an existing key's value where it stands and appends a new key at
  the end.
- **Collector** (`collector.dfy`): the value forms, the result type and
  `__pushValue`.
- **Normalizer** (`normalizer.dfy`): the four rewrites applied before the
  scan:
  - drop `/**`;
  - drop `*/`;
  - turn each `\r` into `\n`;
  - collapse `\n\s+\* ?` into `\n`.
- **Scanner** (`scanner.dfy`): the nine-status character scanner as a
  specification. `Step` is one pass of the loop body. `Run` is the scan from
  a position to the end. `Parse` is the whole method. `StoreItem` is the
  choice at lines 197-212 and 251-266 between storing under a captured key
  (`isset && !== 0`) and appending, and `IsEmptyKey` is the `empty()` test
  at line 155.
- **Parser** (`parser.dfy`): the method itself, in its own imperative form.
  It is a `while` loop over the normalised text with locals for `$status`
  and the entries of `$data`. `ScanChar` is the loop body's `switch`. The
  loop is proved to compute `Parse` in at most twice as many passes as the
  normalised text has characters. `Scanner.RewindOnce` adds that a
  character read again after one of the two `$p--` rewinds is not read a
  third time.
- **ScannerProperties** (`scanner_properties.dfy`): what the scan does with
  each form of annotation. These are stated as equations between the scan
  from one position and the scan from a later one. The file also proves that
  the result is always well formed.
- **Scenarios** (`scenarios.dfy`): concrete comments and what they parse
  or normalise to:
  - the comment in `tests/test.php`, parsed end to end;
  - a tag repeated on two lines;
  - an argument list the comment ends inside;
  - two inputs that show how the normaliser behaves.

Two behaviours of the normaliser are worth knowing:

- **Normalisation is not idempotent.**
  - `\n * \t* x` becomes `\n\t* x` after one pass and `\nx` after two
    (`Scenarios.NormalizeTwice`).
  - A second pass can therefore change the text.
- **A carriage return and line feed become two line feeds.**
  - The regex at lib/Parser.php:42 replaces each `\r` and each `\n` on its
    own.
  - So `\r\n` becomes `\n\n` (`Scenarios.CarriageReturnLineFeed`).

## Model

| member | source | states |
|---|---|---|
| PhpStrings.TrimLeftSpec | lib/Parser.php:129-133 | `ltrim` leaves a suffix of its argument that does not start with a trim character, and only trim characters were dropped |
| PhpStrings.TrimRightSpec | lib/Parser.php:129-133 | `rtrim` leaves a prefix that does not end with a trim character, and only trim characters were dropped |
| PhpStrings.TrimInfix | lib/Parser.php:129-133 | `trim` leaves an infix whose ends are not trim characters, with only trim characters on either side of it |
| PhpStrings.TrimPadded | lib/Parser.php:199-211 | trimming a core padded with trim characters gives back exactly the core |
| PhpStrings.TrimIdempotent | lib/Parser.php:229-233 | a fact about `trim` itself, which the parser calls here: trimming twice is trimming once (the parser trims each value only once and does not rely on it) |
| PhpStrings.StripAddSlashes | lib/Parser.php:253-265 | `stripslashes` undoes `addslashes` for every string |
| PhpStrings.StripSlashesPlain | lib/Parser.php:261-265 | `stripslashes` leaves a quoted value without backslashes unchanged |
| PhpArray.GetAbsent | lib/Parser.php:292 | `isset($a[$k])` is false exactly when no entry has key `k` |
| PhpArray.PutGet | lib/Parser.php:298 | after `$a[$k] = $v`, `$a[$k]` is `$v` |
| PhpArray.GetAt | lib/Parser.php:292-294 | the value under a key is the one in the first entry with that key |
| PhpArray.PutAt | lib/Parser.php:199-203 | assigning to a key the array holds replaces that entry where it stands |
| PhpArray.PutFresh | lib/Parser.php:298 | assigning to a new key appends one entry at the end |
| PhpArray.PutPresent | lib/Parser.php:199-203 | assigning to an existing key adds no entry and moves no key |
| PhpArray.PutOther | lib/Parser.php:199-203 | assigning to one key leaves the value of every other key unchanged |
| PhpArray.PutDistinct | lib/Parser.php:199-203 | assignment keeps the keys of an array distinct |
| PhpArray.AbsentAppend | lib/Parser.php:298 | a key is absent from an array grown by one entry exactly when it is absent from the array and is not the new key |
| Collector.PushLookup | lib/Parser.php:290-300 | after `__pushValue`, the list for the name is the old list with the value appended |
| Collector.PushNew | lib/Parser.php:296-299 | a name not seen before gets the one-value list `[value]`, placed after all other names |
| Collector.PushOther | lib/Parser.php:290-300 | pushing under one name leaves the list of every other name unchanged |
| Collector.PushExisting | lib/Parser.php:292-295 | a name seen before keeps its place, and only its list grows |
| Collector.PushWellFormed | lib/Parser.php:290-300 | pushing keeps names distinct and every listed name non-empty |
| Normalizer.RemoveAllKeeps | lib/Parser.php:40-41 | removing `/**` or `*/` leaves the count of every character outside the pattern unchanged |
| Normalizer.RemoveAbsent | lib/Parser.php:40-41 | a comment without the pattern is left unchanged |
| Normalizer.RemoveConcat | lib/Parser.php:40-41 | with `RemoveAbsent`, fixes `str_replace` completely: text before the leftmost occurrence is kept, that occurrence is removed, and the rest is removed from on its own, without rescanning |
| Normalizer.RemoveClosing | lib/Parser.php:41 | a comment ending in the pattern, with the pattern's last character nowhere else, loses exactly that ending |
| Normalizer.LineFeeds | lib/Parser.php:42 | the length is kept, each `\r` becomes `\n` one for one, and every other character stays in place |
| Normalizer.LineFeedsNone | lib/Parser.php:42 | a comment without `\r` is left unchanged |
| Normalizer.LineFeedsKeeps | lib/Parser.php:42 | the count of every character other than `\r` and `\n` is kept |
| Normalizer.SpaceRunChars | lib/Parser.php:43 | the `\s+` run is made of `\s` characters |
| Normalizer.ContinuationExact | lib/Parser.php:43 | every line feed followed by one or more `\s` characters and a `*` starts a match of `\n\s+\* ?`, which ends after the `*`, or after one more space when one follows |
| Normalizer.ContinuationShape | lib/Parser.php:43 | conversely, every match found is a line feed, a non-empty `\s` run and a `*`, with that length |
| Normalizer.ContinuationChars | lib/Parser.php:43 | a match of `\n\s+\* ?` is a line feed followed only by `\s` characters and `*` |
| Normalizer.ContinuationConcat | lib/Parser.php:43 | a match that starts in a piece ending in a non-`\s`, non-`*` character is the same whatever follows |
| Normalizer.CollapseConcat | lib/Parser.php:43 | collapsing works piece by piece across such a boundary |
| Normalizer.CollapsePlain | lib/Parser.php:43 | a text without line feeds is left unchanged |
| Normalizer.CollapseKeeps | lib/Parser.php:43 | the count of every character the pattern cannot match is kept |
| Normalizer.CollapseAddsNothing | lib/Parser.php:43 | collapsing introduces no character that was not there |
| Normalizer.Normalize | lib/Parser.php:40-43 | normalisation never lengthens the comment, leaves no `\r`, and keeps the number of `@` signs |
| Scanner.NextIndexFresh | lib/Parser.php:207 | the index of an appended entry is above every positional index in use |
| Scanner.NextIndexUsed | lib/Parser.php:207 | that index is 0, or one past an index in use; with `NextIndexFresh`, it is one past the largest index in use, and 0 when none is |
| Scanner.AppendIsPut | lib/Parser.php:207-211 | `$items[] = $v` is an assignment to that fresh index |
| Scanner.Step | lib/Parser.php:54-284 | a step never moves `start` past the next position, and steps back only from ReadingKey to AfterKey or from ReadingItem to ReadingMultiArgs |
| Scanner.RewindOnce | lib/Parser.php:82-222 | after a `$p--` rewind, the step on the same character advances, so no character is read a third time |
| Scanner.RunStep | lib/Parser.php:50-52 | the result from a position is the result from the next position in the state one step produces |
| ScannerProperties.SkipWhite | lib/Parser.php:55-59 | outside a tag, white space is passed over |
| ScannerProperties.SeekLine | lib/Parser.php:74-81 | seeking a new line passes over the rest of the current line |
| ScannerProperties.ForeignLine | lib/Parser.php:55-81 | a line whose first non-white character is not `@` adds nothing, and the scan resumes on the next line |
| ScannerProperties.TagName | lib/Parser.php:61-94 | `@` starts a tag named by the longest run of `[-\w.]` after it, possibly empty; the character ending the name is read again; a name running to the end adds nothing |
| ScannerProperties.BareTag | lib/Parser.php:96-108 | a name followed by blanks and a line end adds `true` |
| ScannerProperties.OneLineTag | lib/Parser.php:114-137 | a name followed by other text adds that text, trimmed, up to the line end; if the comment ends first, nothing is added |
| ScannerProperties.GroupOpen | lib/Parser.php:109-113 | a name followed by blanks and `(` opens an empty argument list |
| ScannerProperties.SkipSeparators | lib/Parser.php:143-151 | between items, white space and commas are passed over |
| ScannerProperties.CloseGroup | lib/Parser.php:166-180 | `)` adds the items, or `true` when there are none, and the rest of the line is discarded |
| ScannerProperties.BareItem | lib/Parser.php:190-243 | a bare item ends at `,`, `)`, or the first `=` while no key is captured; at `=` the trimmed text becomes the key; otherwise the trimmed text is stored, under the key if any, and `)` is read again; an item open at the end adds nothing |
| ScannerProperties.ItemStays | lib/Parser.php:190-243 | characters that do not end a bare item, including `=` once a key is captured, are passed over |
| ScannerProperties.SkipString | lib/Parser.php:245-283 | inside quotes, everything up to the first unescaped `"` is passed over |
| ScannerProperties.ScanString | lib/Parser.php:245-278 | the closing `"` stores `stripslashes` of the text between the quotes; a quote open at the end adds nothing |
| ScannerProperties.QuotedItem | lib/Parser.php:153-164 | an item starting with `"` is a quoted text stored under the captured key, or appended when `empty()` finds no key |
| ScannerProperties.EmptyKeyQuoted | lib/Parser.php:153-164 | a quoted text after the key `0` or an empty key is appended at the next positional index, because `empty()` treats those keys as none |
| ScannerProperties.QuoteEndEscaped | lib/Parser.php:273-283 | the closing quote of a text written with `addslashes` is the first character after that text |
| ScannerProperties.EscapedText | lib/Parser.php:245-283 | such a text ends at that quote, and unescaping it gives the original |
| ScannerProperties.QuotedRoundTrip | lib/Parser.php:153-164 | any string written between quotes with `addslashes` is stored exactly |
| ScannerProperties.StoreKeyedOther | lib/Parser.php:197-203 | a keyed store leaves every other entry of the list unchanged |
| ScannerProperties.StoreKeyedTwice | lib/Parser.php:197-203 | a key given twice in one list keeps the second value in the first one's place, with no entry added and no key moved |
| ScannerProperties.StepWellFormed | lib/Parser.php:290-300 | a step keeps names distinct and every listed name non-empty |
| ScannerProperties.RunWellFormed | lib/Parser.php:50-287 | so does the whole scan |
| ScannerProperties.ParseWellFormed | lib/Parser.php:36-288 | every name in a parse result occurs once, with at least one value |
| ScannerProperties.RunWithoutAt | lib/Parser.php:55-81 | without `@` ahead, the scan outside tags adds nothing |
| ScannerProperties.NoAtSignNoAnnotations | lib/Parser.php:55-81 | a comment without `@` has no annotations |
| Parser.ParseDocComment | lib/Parser.php:36-288 | the loop returns `Parse(docComment)` and makes at most twice as many passes as the normalised text has characters |
| Parser.ScanChar | lib/Parser.php:52-284 | one pass of the loop body gives the state and rewind that `Step` gives, so the scan from there gives the same result |
| Scenarios.NormalizeTestComment | tests/test.php:39-45 | the test comment normalises to `\n@author angus\n\n@test ( comment=1 )\n@hello( speak = yes , to=   "world ")\n@go()\n `: delimiters and each line's leading ` * ` go, and the bare ` *` line becomes empty |
| Scenarios.ScanAuthor | tests/test.php:40 | `@author angus` adds the text `angus` |
| Scenarios.ScanTest | tests/test.php:41-42 | after an empty line, `@test ( comment=1 )` adds the list `comment => 1` |
| Scenarios.ScanHello | tests/test.php:43 | `@hello( speak = yes , to=   "world ")` adds `speak => yes, to => "world "`, with the blank inside the quotes kept |
| Scenarios.ScanGo | tests/test.php:44 | `@go()` adds `true` |
| Scenarios.ScanEnd | lib/Parser.php:55-59 | white space up to the end adds nothing |
| Scenarios.ScanTestText | tests/test.php:39-45 | scanning the normalised test comment gives `author`, `test`, `hello` and `go`, in that order, with those values |
| Scenarios.PushedValues | lib/Parser.php:296-299 | each of the four names is new when it is pushed, so each gets a one-value list in document order |
| Scenarios.ParseTestComment | tests/test.php:39-45 | the test comment parses to `{author: ["angus"], test: [{comment: "1"}], hello: [{speak: "yes", to: "world "}], go: [true]}` |
| Scenarios.ParseRepeated | lib/Parser.php:290-300 | `@a\n@a\n` parses to `{a: [true, true]}`: the second occurrence's value joins the list the first one started |
| Scenarios.NormalizeRepeated | lib/Parser.php:40-43 | `@a\n@a\n` is left unchanged by normalisation |
| Scenarios.ScanRepeated | lib/Parser.php:96-108 | each of the two lines of `@a\n@a\n` adds `true` under `a` |
| Scenarios.RepeatedValues | lib/Parser.php:290-300 | pushing `true` twice under `a` into an empty result gives `{a: [true, true]}` |
| Scenarios.MarkerLine | lib/Parser.php:61-108 | a line that is `@`, a one-character name and a line end adds `true` under that name |
| Scenarios.ParseUnclosed | lib/Parser.php:36-288 | `@foo(a` parses to no annotations: an argument list the comment ends inside adds nothing |
| Scenarios.NormalizeUnclosed | lib/Parser.php:40-43 | `@foo(a` is left unchanged by normalisation |
| Scenarios.ScanUnclosed | lib/Parser.php:109-243 | scanning `@foo(a` adds nothing |
| Scenarios.NoDelimiters | lib/Parser.php:40-41 | a comment without `/` is left unchanged by both removals |
| Scenarios.NormalizePlain | lib/Parser.php:40-43 | a comment without `/` or `\r` is only collapsed |
| Scenarios.NormalizeOnce | lib/Parser.php:43 | `\n * \t* x` normalises to `\n\t* x` |
| Scenarios.NormalizeAgain | lib/Parser.php:43 | `\n\t* x` normalises to `\nx` |
| Scenarios.NormalizeTwice | lib/Parser.php:40-43 | normalising twice differs from normalising once: the rewrite is not idempotent |
| Scenarios.CrLfFeeds | lib/Parser.php:42 | `a\r\nb` becomes `a\n\nb` |
| Scenarios.CrLfCollapse | lib/Parser.php:43 | `a\n\nb` has no continuation to collapse |
| Scenarios.CarriageReturnLineFeed | lib/Parser.php:40-43 | `a\r\nb` normalises to `a\n\nb`: a CRLF pair becomes two line feeds |

## Left out

- `lib/Extractor.php` is not part of this model. It reads doc comments through PHP reflection and joins a parent's comment before a child's. The model takes the comment string as its input.
- `lib/Exception.php` and `lib/Constants.php` are not part of this model. They hold only constants and are not used by the parser.
- Scanner.StoreItem: does not model PHP's coercion of decimal-integer string keys to integer keys. A key such as `5` written as `5 = x` stays the name `5` and cannot collide with the positional index 5. The model therefore assumes keys are not decimal-integer strings. The one case of `empty()` on a key, where `"0"` and `""` count as no key before a quoted value, is modelled (`ScannerProperties.EmptyKeyQuoted`).
- Strings are sequences of characters, not bytes. `strlen`, `substr` and the PCRE patterns work on bytes, so the model matches the source only for single-byte text.
- Collector.PushValue: does not model PHP's coercion of decimal-integer tag names to integer keys. `@123` gets the integer key 123 in `$ret`, while the model keeps the string `123`. No order or collision differs, since `$ret` is never appended to with `[]`.
- `$ret` is passed by reference to `__pushValue`. The model returns the new dictionary instead. No other alias of it exists.
- Normalizer.Normalize: the regex engine is not modelled in general. Lines 42 and 43 become explicit left-to-right rewrites, which is what their patterns mean, since greedy `\s+` cannot backtrack past the required `*`.
- Parser.ParseDocComment: the bound on passes is a ghost out-parameter. It is about how the loop runs, not about its result.
