# mu-server core, modelled in Dafny

This project models four pieces of mu-server's request-handling core as pure
Dafny functions over immutable data. It proves what each piece promises its
callers. Where Java hands out a mutable list that the caller can change, the
model does not follow; "## Left out" says where.

- **`MuHeaders`** (module `Headers`): the case-insensitive, multi-valued
  header map. It is a `map<string, seq<string>>` keyed by the lower-cased
  name. The model covers `get`/`getAll`/`contains`/`size`/`isEmpty`,
  `set`/`add`/`remove`/`clear`, the `Iterable` overloads of `add`/`set`
  (with their `addIfAbsent` helper), `getInt`/`getLong` and `hasBody`.
  Support modules:
  - `Ascii`: ASCII case folding, `String.trim`, radix-10 `parseInt`/`parseLong` with their 32- and 64-bit ranges.
  - `Wrappers`: `Option` and `Result`.
- **`UriPattern`** (modules `UriTemplate`, `PathMatching`, `PercentCoding`,
  `UriPatternVectors`): the URI-template compiler.
  - A template is read into tokens: `Lit` (percent-decoded), `Slash`, and `Var(name, regex?)` with trimmed name and regex.
  - One leading and one trailing slash are dropped.
  - From the tokens it defines:
    - the regex text `pattern()`, with `\Q…\E` literals, `(?<name>[^/]+?)` or `(?<name>regex)` groups and the `(/.*)?` suffix;
    - `numberOfLiterals`;
    - `namedGroups`;
    - `path`;
    - `equalModuloVariableNames`.
  - `PathMatching` is a lazy, backtracking matcher for templates whose placeholders all use the default group.
    It is proved sound and complete against a declarative description of a match.
  - `UriPatternVectors` proves every assertion of the repository's `UriPatternTest` except the invalid-regex test.
- **`SyncHandlerAdapter`** (module `SyncAdapter`):
  - `onHeaders` attaches a body stream exactly when `hasBody` holds. It then runs the submitted task.
  - The task offers the request to each handler in order and stops at the first that takes it or throws. It sends a 404 when none took it, and calls `clean()`. Any throwable ends in the `catch` block: a plain-text 500 `500 Server Error. ErrorID=ERR-<id>` when nothing has been sent yet. The `finally` block calls `complete()`.
  - The task is a trace of effects.
  - `onRequestData` and `onRequestComplete` act on the body stream.
- **`AsyncHandleImpl`** (module `AsyncHandle`):
  - listener registration;
  - `complete()`/`complete(t)`, with Java's `finally` semantics;
  - `write(data, callback)` and `write(data)`;
  - `onReadComplete` and `onResponseComplete`.

  Each is a function from what the collaborators did (returned, threw an `Exception`, threw an `Error`) to the calls the handle makes and what escapes to its caller.

The implementation of `UriPattern` (`UriPattern.java`) is not part of this
model. The compiler is reconstructed from its test. Two choices follow from the test:
- **Repeated placeholder names** must capture equal text (lines 77-87 of the test). The model compiles every later occurrence of a name to the back-reference `\k<name>`, because `java.util.regex` refuses duplicate group names.
- **`path`** keeps the template's leading slash (line 100 of the test). So it is rendered from all the tokens of the template, not from the tokens left after stripping the outer slashes. The literals in those tokens are already percent-decoded, so `/fruit%20bits` has the path `/fruit bits`.

## Model

| member | source | states |
|---|---|---|
| Ascii.ToLower | src/main/java/io/muserver/MuHeaders.java:72-80 | folding keeps the length, lower-cases each ASCII letter, keeps every other character, and leaves no upper-case letter |
| Ascii.ToLowerIdempotent | src/main/java/io/muserver/MuHeaders.java:91-95 | folding an already folded name changes nothing, which is why `add` may fold twice |
| Ascii.TrimSpec | src/test/java/io/muserver/rest/UriPatternTest.java:39-40 | trimming keeps the longest slice that neither starts nor ends with a character up to U+0020, and everything dropped is such a character |
| Ascii.ParseDecimal | src/main/java/io/muserver/MuHeaders.java:30-45 | the sign-then-digit loop of radix-10 parsing, which refuses a lone sign and stops as soon as the value leaves the range, succeeds exactly on an optionally signed digit string whose value is in range, and then returns that value |
| Ascii.ParseShowInt | src/main/java/io/muserver/MuHeaders.java:30-45 | the printed form of `n` parses back to `n` exactly when `n` is in range, else parsing fails |
| Headers.GetAllIgnoresCase | src/main/java/io/muserver/MuHeaders.java:72-75 | `getAll` gives the same list under every spelling, and on a folded map it is the list stored under the one key naming the header |
| Headers.ContainsIgnoresCase | src/main/java/io/muserver/MuHeaders.java:77-80 | `contains` agrees under every spelling, holds for any name with values, and on a folded map holds exactly when some key names the header |
| Headers.GetKeepsFirstValue | src/main/java/io/muserver/MuHeaders.java:23-27 | `get(name, default)`, under any spelling of the name, is the first value stored for it, or the default when there is none; a later `add` changes it only when there was no value yet |
| Headers.GetOrEmptyReadsFirst | src/main/java/io/muserver/MuHeaders.java:18-21 | `get(name)` reads `""` for an absent name and the first value otherwise; after `set` it reads the value set, after `remove` it reads `""` |
| Headers.EmptyMeansNoName | src/main/java/io/muserver/MuHeaders.java:301-303 | `isEmpty` holds exactly when `size` is 0; an empty map contains no name, and on a folded map that is exactly what empty means |
| Headers.SizeCountsDistinctNames | src/main/java/io/muserver/MuHeaders.java:104-106 | `size` counts headers, not spellings: setting a list of names gives one entry per distinct folded name |
| Headers.Empty | src/main/java/io/muserver/MuHeaders.java:11 | a new header map is empty and all its keys are folded |
| Headers.GetInt | src/main/java/io/muserver/MuHeaders.java:29-36 | `getInt` yields the base-10 value of the first value when that is an optionally signed numeral within the 32-bit range, and the default otherwise (an absent name included) |
| Headers.GetIntReadsAnyNumeral | src/main/java/io/muserver/MuHeaders.java:29-45 | any numeral is read, not just the printed form: `+42` reads 42, `007` reads 7, `-0` reads 0, and `4x` reads as the default |
| Headers.GetLong | src/main/java/io/muserver/MuHeaders.java:38-45 | `getLong` yields the base-10 value of the first value when that is an optionally signed numeral within the 64-bit range, and the default otherwise |
| Headers.Set | src/main/java/io/muserver/MuHeaders.java:82-88 | after `set(name, v)` every spelling of the name reads exactly `[v]`, and `get` gives `v` whatever the default. Every other key is unchanged. The size grows by one exactly when the name was absent. Folded keys stay folded |
| Headers.Add | src/main/java/io/muserver/MuHeaders.java:90-101 | `add(name, v)` appends `v` after the values already held under every spelling of the name. Every other key is unchanged. The size grows by one exactly when the name was absent |
| Headers.Remove | src/main/java/io/muserver/MuHeaders.java:422-428 | after `remove(name)` no spelling of the name is contained, `getAll` is empty and `get` yields the default. Every other key is unchanged. The size drops by one exactly when the name was present |
| Headers.Clear | src/main/java/io/muserver/MuHeaders.java:435-439 | after `clear` the map is empty and no name is contained |
| Headers.AddAll | src/main/java/io/muserver/MuHeaders.java:333-340 | as written, `add(name, values)` appends the values in order under the name spelled exactly as given, creating the key even for no values. Every other key is unchanged |
| Headers.SetAll | src/main/java/io/muserver/MuHeaders.java:377-390 | as written, `set(name, values)` removes the folded name and then appends under the unfolded one. The folded key holds the values only when the name was already folded. Otherwise the key spelled as given keeps its old list with the values appended |
| Headers.AddAllFolded | src/main/java/io/muserver/MuHeaders.java:333-340 | the corrected `add(name, values)` appends the values under every spelling of the name and keeps every other key |
| Headers.SetAllFolded | src/main/java/io/muserver/MuHeaders.java:377-390 | the corrected `set(name, values)` makes every spelling read exactly `values` and keeps every other key |
| Headers.HasBodyMeaning | src/main/java/io/muserver/MuHeaders.java:477-480 | `hasBody` (the function `Headers.HasBody`) holds exactly when the transfer-encoding key is present, or the first content-length value is a numeral with value in 1..2^31-1 |
| Headers.AddAbsentIsSet | src/main/java/io/muserver/MuHeaders.java:90-101 | on an absent name `add` is exactly `set` |
| Headers.GetIntAfterSet | src/main/java/io/muserver/MuHeaders.java:29-36 | a number stored with `set` reads back through `getInt` under any spelling exactly when it fits in 32 bits, and as the default otherwise |
| Headers.GetLongAfterSet | src/main/java/io/muserver/MuHeaders.java:38-45 | the same for `getLong` and the 64-bit range |
| Headers.GetIntAbsent | src/main/java/io/muserver/MuHeaders.java:29-45 | an absent name reads as the default for both `getInt` and `getLong`, because `""` does not parse |
| Headers.HasBodyByContentLength | src/main/java/io/muserver/MuHeaders.java:477-480 | with no transfer-encoding, a content-length of `n` announces a body exactly when 0 < n <= 2^31-1 |
| Headers.HasBodyByTransferEncoding | src/main/java/io/muserver/MuHeaders.java:477-480 | any transfer-encoding value, under any spelling, announces a body |
| Headers.NoBodyWhenEmpty | src/main/java/io/muserver/MuHeaders.java:477-480 | an empty map announces no body |
| Headers.AddAllUnfoldedIsInvisible | src/main/java/io/muserver/MuHeaders.java:333-340 | on a folded map, `add(name, values)` with an upper-case letter in the name changes no reader's answer, and leaves a key no reader can reach |
| Headers.SetAllAcceptIsLost | src/main/java/io/muserver/MuHeaders.java:377-390 | `set("Accept", ["text/html"])` on an empty map, then `get("Accept")`, gives `""` |
| Headers.AddAllFoldedNameAgrees | src/main/java/io/muserver/MuHeaders.java:333-390 | for an already folded name, the as-written and corrected `Iterable` mutators agree |
| Headers.SetAllFoldedReadsBack | src/main/java/io/muserver/MuHeaders.java:377-390 | the corrected `set(name, values)` reads back `values[0]` and `values` under any spelling |
| PercentCoding.Decode | src/test/java/io/muserver/rest/UriPatternTest.java:25-32 | decoding never lengthens the text and keeps non-empty text non-empty. `DecodeEncode` fixes what it decodes to |
| PercentCoding.Encode | src/test/java/io/muserver/rest/UriPatternTest.java:25-28 | an encoding is between one and three times as long as its input |
| PercentCoding.DecodeEncode | src/test/java/io/muserver/rest/UriPatternTest.java:25-32 | decoding an encoding gives back the original text, for any set of escaped characters below 256 |
| PercentCoding.DecodeWithoutPercent | src/test/java/io/muserver/rest/UriPatternTest.java:29-32 | text without `%` decodes to itself |
| PercentCoding.EncodeIntroducesOnlyEscapes | src/test/java/io/muserver/rest/UriPatternTest.java:25-28 | every character of an encoding is a character of the input, `%` or a hex digit |
| PercentCoding.EncodeConcat | src/test/java/io/muserver/rest/UriPatternTest.java:25-28 | encoding distributes over concatenation |
| UriTemplate.IndexOfSpec | src/test/java/io/muserver/rest/UriPatternTest.java:38-41 | the search for `}` or `:` finds the first occurrence, and none means there is none |
| UriTemplate.LiteralRunSpec | src/test/java/io/muserver/rest/UriPatternTest.java:37-41 | a literal run holds no `/` or `{` and stops at one or at the end |
| UriTemplate.ParsePlaceholderSpec | src/test/java/io/muserver/rest/UriPatternTest.java:38-41 | a placeholder that parses is a variable with a valid group name, carrying a regex exactly when its inside has a `:` |
| UriTemplate.ParsePlain | src/test/java/io/muserver/rest/UriPatternTest.java:79 | `{ name }` with any padding parses to the plain variable `name` |
| UriTemplate.ParseInline | src/test/java/io/muserver/rest/UriPatternTest.java:39-41 | `{ name : regex }` with any padding parses to `name` with inline regex `regex` |
| UriTemplate.Pattern | src/test/java/io/muserver/rest/UriPatternTest.java:37-41 | every pattern ends in `(/.*)?` |
| UriTemplate.Names | src/test/java/io/muserver/rest/UriPatternTest.java:53-57 | the group names are exactly the names of the placeholders, each once |
| UriTemplate.EraseRegexKeepsTemplate | src/test/java/io/muserver/rest/UriPatternTest.java:98-104 | dropping the inline regexes keeps every group name, every literal character and every placeholder position, and dropping them twice is dropping them once |
| UriTemplate.TokenizeConcat | src/test/java/io/muserver/rest/UriPatternTest.java:37-41 | a template read in two parts split at a slash or placeholder reads as the tokens of the first part followed by those of the second |
| UriTemplate.TokenizeLast | src/test/java/io/muserver/rest/UriPatternTest.java:14-20 | a template not ending in `/` reads as tokens not ending in a slash |
| UriTemplate.TokenizeFirst | src/test/java/io/muserver/rest/UriPatternTest.java:14-20 | a template not starting with `/` reads as tokens not starting with a slash |
| UriTemplate.StripBothEnds | src/test/java/io/muserver/rest/UriPatternTest.java:14-20 | dropping one slash at each end of `ts`, `/ts`, `ts/` and `/ts/` leaves `ts` |
| UriTemplate.SlashesIgnored | src/test/java/io/muserver/rest/UriPatternTest.java:14-20 | `t`, `/t`, `t/` and `/t/` compile to the same tokens, hence the same pattern and literal count |
| UriTemplate.EncodingIsOptional | src/test/java/io/muserver/rest/UriPatternTest.java:25-28 | a plain literal and any percent-encoding of it read as the same single literal token |
| UriTemplate.RegexBodyConcat | src/test/java/io/muserver/rest/UriPatternTest.java:41 | the regex text of `a + b` is that of `a` followed by that of `b`, given the groups `a` opened |
| UriTemplate.LiteralCountConcat | src/test/java/io/muserver/rest/UriPatternTest.java:44-51 | literal counts add up over concatenation |
| UriTemplate.UnparseConcat | src/test/java/io/muserver/rest/UriPatternTest.java:98-104 | writing tokens out distributes over concatenation |
| UriTemplate.UnparseTokenize | src/test/java/io/muserver/rest/UriPatternTest.java:98-104 | well-formed tokens written out read back as the same tokens |
| UriTemplate.PathTokenize | src/test/java/io/muserver/rest/UriPatternTest.java:98-104 | the `path` of a well-formed template reads back as the template's tokens with inline regexes dropped |
| UriTemplate.PathWithoutRegex | src/test/java/io/muserver/rest/UriPatternTest.java:100-101 | a template without inline regexes is its own `path` |
| UriTemplate.ShapeRename | src/test/java/io/muserver/rest/UriPatternTest.java:89-96 | renaming placeholders injectively keeps the name-blind shape |
| UriTemplate.RenamedEqual | src/test/java/io/muserver/rest/UriPatternTest.java:89-96 | `equalModuloVariableNames` holds between a template and any injective renaming of its placeholders |
| UriTemplate.LiteralCountShape | src/test/java/io/muserver/rest/UriPatternTest.java:89-96 | the literal count can be read off the name-blind shape |
| UriTemplate.EqualModuloSameLiterals | src/test/java/io/muserver/rest/UriPatternTest.java:89-96 | templates equal modulo names have the same number of literals |
| UriTemplate.TokenizeMeaning | src/test/java/io/muserver/rest/UriPatternTest.java:35-42 | reading a template can only fail at a `{`, and every placeholder read carries a valid group name |
| UriTemplate.CompileMeaning | src/test/java/io/muserver/rest/UriPatternTest.java:35-42 | `uriTemplateToRegex` accepts every well-formed template and keeps its tokens, and refuses a `{` that is never closed |
| UriTemplate.LiteralsWithinPath | src/test/java/io/muserver/rest/UriPatternTest.java:44-51 | `numberOfLiterals` never exceeds the length of `path`, and equals it for a template with no placeholder and no outer slash |
| UriTemplate.NamedGroupsOfTemplate | src/test/java/io/muserver/rest/UriPatternTest.java:53-57 | `namedGroups` are the names of the placeholders of the template as written; the outer slashes and the inline regexes do not change them |
| UriTemplate.PathIdempotent | src/test/java/io/muserver/rest/UriPatternTest.java:98-104 | the `path` of a well-formed template reads as a template whose own `path` is the same text |
| UriTemplate.EqualModuloSameGroupCount | src/test/java/io/muserver/rest/UriPatternTest.java:89-96 | templates equal modulo variable names declare the same number of groups |
| UriTemplate.SpellTokenize | src/test/java/io/muserver/rest/UriPatternTest.java:37-41 | a template spelled from valid pieces, whatever the whitespace around names, colons and regexes, reads as the pieces' tokens |
| PathMatching.MatchSound | src/test/java/io/muserver/rest/UriPatternTest.java:65-87 | a successful match extends the captures with one non-empty, slash-free value per new name. Filling the template with them spells a prefix of the path, and the rest is accepted by `(/.*)?` |
| PathMatching.MatchComplete | src/test/java/io/muserver/rest/UriPatternTest.java:65-87 | whenever some values for the names spell a prefix of the path whose rest `(/.*)?` accepts, the match succeeds |
| PathMatching.TryLengthsShortest | src/test/java/io/muserver/rest/UriPatternTest.java:65-75 | the lazy default group keeps the shortest capture after which the rest matches |
| PathMatching.TryLengthsFails | src/test/java/io/muserver/rest/UriPatternTest.java:77-87 | the lazy group fails when no capture up to the next slash lets the rest match |
| PathMatching.Matcher | src/test/java/io/muserver/rest/UriPatternTest.java:65-87 | a match returns one slash-free capture per named group, and filling the template with them spells a prefix of the decoded path whose rest `(/.*)?` accepts. A failed match returns no parameters |
| PathMatching.MatcherComplete | src/test/java/io/muserver/rest/UriPatternTest.java:65-87 | any values for the named groups that spell a prefix of the decoded path, the rest being a sub-path, make the path match |
| PathMatching.LiteralCountFill | src/test/java/io/muserver/rest/UriPatternTest.java:44-51 | the literal count is the length of the text the template spells with every placeholder empty |
| PathMatching.EncodedFillMatches | src/test/java/io/muserver/rest/UriPatternTest.java:29-32 | filling a template and percent-encoding the result gives a path the template matches |
| UriPatternVectors.LeadingAndTrailingSlashesAreIgnored | src/test/java/io/muserver/rest/UriPatternTest.java:14-23 | `/fruit`, `fruit`, `fruit/` and `/fruit/` have one pattern and one literal count, and `fruit` matches `fruit` |
| UriPatternVectors.EncodingIsOptionalVector | src/test/java/io/muserver/rest/UriPatternTest.java:25-28 | `fruit bits` and `fruit%20bits` have the same pattern |
| UriPatternVectors.SpacesInPathsAreOkay | src/test/java/io/muserver/rest/UriPatternTest.java:29-32 | template `fruit bits` matches `fruit%20bits` with no parameters |
| UriPatternVectors.UriTemplatesCanBeConvertedToRegexes | src/test/java/io/muserver/rest/UriPatternTest.java:35-42 | the five templates compile to the five regex texts the test lists |
| UriPatternVectors.CountsNumberOfLiteralCharacters | src/test/java/io/muserver/rest/UriPatternTest.java:44-51 | the five templates have 5, 6, 6, 6 and 11 literal characters |
| UriPatternVectors.NamedGroupsAreReturnedInThePattern | src/test/java/io/muserver/rest/UriPatternTest.java:53-57 | `/fruit/{version: v[12]}/{name}/eat` has the groups `name` and `version` |
| UriPatternVectors.MultipleParamsCanExistWithinASingleSegment | src/test/java/io/muserver/rest/UriPatternTest.java:65-75 | `people/{familyName}-{givenName}` has both groups and 8 literals, and matches `people/Fennel-Kennel` with `familyName=Fennel`, `givenName=Kennel` |
| UriPatternVectors.ParametersCanBeRepeated | src/test/java/io/muserver/rest/UriPatternTest.java:77-87 | `/user/{ user}/umm/{ user }` has the one group `user` and 10 literals, matches `/user/dan/umm/dan` with `user=dan`, and does not match `/user/dan/umm/notdan` |
| UriPatternVectors.CanCheckForEqualityIgnoringVariableNames | src/test/java/io/muserver/rest/UriPatternTest.java:89-96 | the five pairs compare as the test says: names do not matter, literals and inline regexes do |
| UriPatternVectors.CanGetPathsWithoutRegexInfo | src/test/java/io/muserver/rest/UriPatternTest.java:98-104 | the four templates have the paths the test lists, with inline regexes and padding gone |
| SyncAdapter.InvokedSpec | src/main/java/io/muserver/SyncHandlerAdapter.java:32-38 | every handler before the last one called declined; all are called when all decline; otherwise the last one called did not decline |
| SyncAdapter.InvokedAt | src/main/java/io/muserver/SyncHandlerAdapter.java:32-38 | the loop's exit condition fixes how many handlers were called |
| SyncAdapter.DispatchSplit | src/main/java/io/muserver/SyncHandlerAdapter.java:29-55 | the task (the reference definitions `Dispatch` and `TaskEffects`) is the handler calls in list order, then what the outcome that stopped the loop calls for |
| SyncAdapter.CaughtShape | src/main/java/io/muserver/SyncHandlerAdapter.java:45-54 | the `catch` block sends the 500 exactly when nothing had been sent, then completes |
| SyncAdapter.CleanupShape | src/main/java/io/muserver/SyncHandlerAdapter.java:43-54 | `clean()` always runs, and the 500 follows exactly when it throws before anything was sent |
| SyncAdapter.AfterHandlersShape | src/main/java/io/muserver/SyncHandlerAdapter.java:39-54 | after the handlers come a 404 exactly when all declined, `clean()` exactly when reached, and the 500 exactly when something threw before sending. `complete` comes once and last |
| SyncAdapter.TaskCompletesOnce | src/main/java/io/muserver/SyncHandlerAdapter.java:52-54 | `complete()` occurs exactly once and last on every path, and the only plain-text response is the 500 |
| SyncAdapter.TaskInvokesInOrder | src/main/java/io/muserver/SyncHandlerAdapter.java:32-38 | the trace opens with the handler calls in list order from the first. Handler `j` is called exactly when `j` is below the number called, and only if every handler before it declined |
| SyncAdapter.TaskOutcomes | src/main/java/io/muserver/SyncHandlerAdapter.java:39-51 | a 404 exactly when every handler declined (an empty list included); `clean()` exactly when reached; the 500 exactly when something threw before the response started |
| SyncAdapter.ServerErrorBodyHasId | src/main/java/io/muserver/SyncHandlerAdapter.java:48-50 | the 500's body is `500 Server Error. ErrorID=` followed by `ERR-` and the id |
| SyncAdapter.FinishTask | src/main/java/io/muserver/SyncHandlerAdapter.java:39-54 | the code after the loop produces exactly what follows the handler calls |
| SyncAdapter.RunTask | src/main/java/io/muserver/SyncHandlerAdapter.java:29-55 | the loop-based task produces the reference trace, ending in `complete`, with a 404 exactly when all declined and the 500 exactly when something threw before sending |
| SyncAdapter.OnHeaders | src/main/java/io/muserver/SyncHandlerAdapter.java:22-57 | a fresh body stream is attached exactly when the headers announce a body; the task is run; the result is always true |
| SyncAdapter.OnRequestData | src/main/java/io/muserver/SyncHandlerAdapter.java:59-62 | the buffer is appended to the stream's buffers, and with no stream the call fails |
| SyncAdapter.RequestDataInOrder | src/main/java/io/muserver/SyncHandlerAdapter.java:59-62 | several buffers reach the stream in arrival order, after what it held |
| SyncAdapter.OnRequestComplete | src/main/java/io/muserver/SyncHandlerAdapter.java:64-74 | the stream is closed only if present and the request state cleared. If closing throws, the state is left as it was; an `Exception` is swallowed, and an `Error` escapes exactly when closing threw one |
| SyncAdapter.RequestWithBody | src/main/java/io/muserver/SyncHandlerAdapter.java:22-74 | a request with a body ends with a closed stream holding every buffer in order, and a cleared request state |
| SyncAdapter.RequestWithoutBody | src/main/java/io/muserver/SyncHandlerAdapter.java:59-74 | without a stream, data is refused and completion only clears the request state, and nothing escapes |
| AsyncHandle.SetReadListener | src/main/java/io/muserver/AsyncHandleImpl.java:25-29 | the read listener is replaced and passed on to the request; the completed listener is untouched |
| AsyncHandle.SetResponseCompletedHandler | src/main/java/io/muserver/AsyncHandleImpl.java:79-82 | the completed listener is replaced; the read listener is untouched |
| AsyncHandle.ReadListenerLastWins | src/main/java/io/muserver/AsyncHandleImpl.java:25-29 | after several registrations the last one wins, and the request hears every registration in order |
| AsyncHandle.SettersCommute | src/main/java/io/muserver/AsyncHandleImpl.java:25-29 | registering the two listeners in either order gives the same handle |
| AsyncHandle.OnResponseComplete | src/main/java/io/muserver/AsyncHandleImpl.java:95-100 | the completed listener, if any, is told the flag, and nothing happens without one |
| AsyncHandle.Complete | src/main/java/io/muserver/AsyncHandleImpl.java:36-47 | with a cause, the error is rendered first. Whatever rendering does, the response is finished, flagged as errored exactly when there is a cause. The listener hears `true` exactly when there is no cause, unless finishing threw. An exception from the `finally` block replaces the renderer's. What escapes is exactly: what finishing threw, else what the listener threw, else what rendering threw, else nothing |
| AsyncHandle.CompleteCleanly | src/main/java/io/muserver/AsyncHandleImpl.java:31-34 | `complete()` renders nothing, finishes as not errored, and tells the listener `true`; with a quiet listener nothing escapes |
| AsyncHandle.RenderFailureStillFinalises | src/main/java/io/muserver/AsyncHandleImpl.java:36-47 | a failing renderer still lets the response finish as errored and the listener hear `false`. The renderer's exception escapes unless the `finally` block threw |
| AsyncHandle.Write | src/main/java/io/muserver/AsyncHandleImpl.java:49-65 | the data is sent first. `onSuccess` runs exactly when sending returned. `onFailure(t)` runs exactly when sending threw `t` or `onSuccess` threw the `Error` `t`. An `Error` from `onFailure` escapes exactly when `onFailure` ran; nothing else ever escapes |
| AsyncHandle.WriteFuture | src/main/java/io/muserver/AsyncHandleImpl.java:67-77 | the future completes normally exactly when sending returned, and fails with exactly what sending threw |
| AsyncHandle.WritesAgree | src/main/java/io/muserver/AsyncHandleImpl.java:49-77 | with callbacks that return, the callback write and the future write report the same outcome, and neither throws |
| AsyncHandle.CallbackExceptionsAreSwallowed | src/main/java/io/muserver/AsyncHandleImpl.java:53-63 | an `Exception` from either callback never reaches the caller |
| AsyncHandle.SuccessErrorAlsoFails | src/main/java/io/muserver/AsyncHandleImpl.java:51-64 | an `Error` from `onSuccess` makes the callback hear both `onSuccess` and `onFailure` |
| AsyncHandle.OnReadComplete | src/main/java/io/muserver/AsyncHandleImpl.java:84-93 | without a read listener nothing happens. Otherwise it hears `onComplete` exactly when there is no cause and `onError(cause)` otherwise, never both |
| AsyncHandle.ReadEndReachesLastListener | src/main/java/io/muserver/AsyncHandleImpl.java:25-29 | the end of the body goes to the listener registered last, whatever the completed listener is |
| AsyncHandle.NotificationsConcat | src/main/java/io/muserver/AsyncHandleImpl.java:95-100 | notifications count additively over a sequence of calls |
| AsyncHandle.CompletingTwiceNotifiesTwice | src/main/java/io/muserver/AsyncHandleImpl.java:36-47 | as written, completing cleanly and then with a cause tells the listener twice, once `true` and once `false` |
| AsyncHandle.CompletedStaysQuiet | src/main/java/io/muserver/AsyncHandleImpl.java:36-47 | with a completed flag, every call after the first does nothing |
| AsyncHandle.NotifiesAtMostOnce | src/main/java/io/muserver/AsyncHandleImpl.java:36-47 | with a completed flag, any number of `complete` calls tell the listener at most once, and the first call's outcome is what it hears |

## Left out

- Floating-point readers `getFloat`/`getDouble` are not modelled.
- `getBoolean` and its `isTruthy` are not part of this model.
- The `Date` formatting in `valueToString` is not modelled: values are strings.
- The deprecated `CharSequence` overloads of `MuHeaders`, and those that always throw `Deprecated`, are not modelled.
- Also left out: the read-only `EMPTY` instance, `entries`/`iterator`, the key-set order of `names()`, and `equals`/`hashCode`/`toString`.
- `notNull` checks: Dafny values are never null.
- Headers.GetAll: returns a value, not the live list held in the map. In `MuHeaders.java` lines 72-75 a caller that adds to the returned list changes the headers, and adding to the empty list returned for an absent name throws `UnsupportedOperationException`. Sequences in this model are immutable, so neither behaviour is modelled.
- Headers.AddAll: takes the values as a sequence fixed before the call. In `MuHeaders.java` lines 334-338, passing the very list stored under the raw name (`add("accept", getAll("accept"))`) makes Java append the first value and then throw `ConcurrentModificationException`, leaving `["a", "b", "a"]` for `["a", "b"]`. The model appends every value (`["a", "b", "a", "b"]`) and raises nothing, because the aliasing between the argument and the stored list is not modelled.
- Ascii.ToLower: folds ASCII letters only. Java's `toLowerCase` also folds other scripts, according to the default locale.
- Ascii.ParseDecimal: accepts ASCII digits only. `Integer.parseInt` also accepts other Unicode decimal digits.
- `UriPattern.java` is not part of this model. The compiler is reconstructed from `UriPatternTest`.
- PathMatching.Matcher: requires every placeholder to use the default group `[^/]+?`. Matching against an inline regex needs `java.util.regex`, which is not part of this model.
- The invalid-regex test (`UriPatternTest.java` lines 59-63) is not modelled, for the same reason. The model refuses only an unclosed `{` or an invalid group name.
- Also not modelled: nested braces inside inline regexes, and literal text containing `\E`, which `\Q…\E` quoting would need to split.
- Percent-decoding is per character code below 256. Multi-byte UTF-8 sequences are not combined into one character.
- PercentCoding.Decode: keeps a `%` that does not start a well-formed escape as it is. Whether the router refuses such a template instead is not known, because `UriPattern.java` is not part of this model.
- PercentCoding.Decode: does not turn `+` into a space. Path decoding normally leaves `+` alone, but `UriPattern.java` is not part of this model.
- Whether `path` re-encodes decoded literals is not pinned by the test. The model renders them decoded.
- The thread pool of `SyncHandlerAdapter` is replaced by running the submitted task in sequence.
- The random UUID of the error id is a parameter. Only the `ERR-` prefix and the surrounding text are fixed.
- The collaborators are abstract outcomes: handlers, `send404`, `clean()`, `sendPlainText`, `complete()`, the body stream, the error renderer and `response`. `ClientConnection.dealWithUnhandledException`, `MuResponseImpl` and `GrowableByteBufferInputStream` are not part of this model.
- An exception from `sendPlainText` inside the `catch` block is not modelled.
- An exception from `ctx.request.state(null)` in `onRequestComplete` is not modelled. Only closing the stream may throw.
- Whether a `close()` that throws leaves the stream marked closed is not modelled. `GrowableByteBufferInputStream` is not part of this model, so the stream is left as it was.
- Logging is not modelled.

## Findings

| source | as written | input that shows it | evidently intended | confidence | as-written member | corrected member |
|---|---|---|---|---|---|---|
| src/main/java/io/muserver/MuHeaders.java:333-340, 377-390 | `add(name, values)` and `set(name, values)` store under `name` as given, via `addIfAbsent`, while every reader folds the name to lower case | `set("Accept", ["text/html"])` on an empty map, then `get("Accept")`, returns `""` | store under the folded name, as `set`/`add` with one value do | high; not executed | Headers.SetAllAcceptIsLost | Headers.SetAllFoldedReadsBack |
| src/main/java/io/muserver/AsyncHandleImpl.java:36-47 | `complete` keeps no record of having completed, so every call finishes the response again and notifies the listener again | `complete()` then `complete(t)` with a listener registered: the listener hears `true` and then `false` | notify the listener once per exchange, with the first call's outcome | medium; not executed | AsyncHandle.CompletingTwiceNotifiesTwice | AsyncHandle.NotifiesAtMostOnce |
