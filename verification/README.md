# TestCodeValidator in Dafny

This project models `TestCodeValidator`, the helper a hospital-management API test
suite uses to check its own source code and the shape of the API's responses.
It has three parts:

- **Method locator** (`fetchBody`, module `MethodLocator`). It scans a Java file
  line by line. It finds the first line that declares the method as
  `public CustomResponse|String|Response <name>(` and collects the method's body
  by counting brace-bearing lines. The counter moves at most once per line. The
  scan is a fold of `StepLine` over the lines, with state `Scan(found, inBody,
  depth, body)`. `Extracted` defines the same result directly from the lines,
  and the contract of `FetchBody` (lines 55-96) states that the two are equal.
- **Keyword verifier** (`validateTestMethodFromFile`, module `KeywordVerifier`).
  A gate pattern, `public\s+CustomResponse\s+<name>\s*\(.*?\)\s*\{[\s\S]*?}`, is
  matched against the whole file text. If it matches, every keyword must occur in
  the extracted body as `\b<keyword>\s*\(`. Both patterns are written out as
  predicates over strings. The gate allows any white space, but the locator needs
  single spaces. So the gate can pass while the body is `""`, and then every
  keyword is reported missing (`GatePassesWithEmptyBody`).
- **Response-field check** (`validateResponseFields`, module `ResponseFields`).
  It dispatches on a closed set of method names to a table of rules over a JSON
  value. Every rule set needs `Status` to be the string `"OK"`. An unknown name
  gives false. The Java code can also throw on a missing or wrongly typed
  `Results`. The model makes those exceptions an explicit `Threw` outcome.

A file is a `seq<string>` of its lines with terminators stripped. The gate reads
the file's text, which is modelled as `Unlines(lines)`: every line followed by
`"\n"`.

Three behaviours of the code are worth knowing:
- A file that ends before the counter returns to 0 yields the partial body. It is
  not reported as a failure (`FetchBodyTruncated`).
- An unknown method name in the response check reaches the `default` branch,
  which returns `false`.
- When no line declares the method, `fetchBody` returns `""`. If the signature
  pattern matched the file anyway, every keyword is then reported missing.

Some definitions carry no contract of their own and are the reference the
contracts below are stated against:
- `KeywordVerifier.Gate` (with `GateMatch`) is the signature pattern of
  `src/test/java/testcases/TestCodeValidator.java:24-28`.
- `KeywordVerifier.Called` (with `CallAt`) is the keyword pattern of
  `src/test/java/testcases/TestCodeValidator.java:38`.
- `ResponseFields.Rules` is the table of the switch branches of
  `src/test/java/testcases/TestCodeValidator.java:103-337`, and
  `ResponseFields.Check` evaluates one rule as the branch code does.

## Model

| member | source | states |
|---|---|---|
| MethodLocator.StepLine | src/test/java/testcases/TestCodeValidator.java:64-90 | One line of the read loop. "Found" is sticky and is set by a declaration line. Lines before the declaration change nothing. Once the method is found, the counter moves by exactly +1 if the line has any `{` and by −1 if it has any `}`, so a line with both leaves it unchanged. Capture starts at the first `{` line. The loop stops exactly when a `}` line brings the counter to 0. |
| MethodLocator.FetchBody | src/test/java/testcases/TestCodeValidator.java:55-96 | On every file and name, `fetchBody` returns a contiguous run of lines, each followed by a newline. The run goes from the first `{` line at or after the first declaration line to the first closing line, or to the end of the file. It is `""` when there is no declaration line or no `{` after it. |
| MethodLocator.FetchBodyNoSignature | src/test/java/testcases/TestCodeValidator.java:63-72 | If no line contains one of the three declaration prefixes, the result is `""`. |
| MethodLocator.FetchBodyNoOpenBrace | src/test/java/testcases/TestCodeValidator.java:72-81 | If neither the declaration line nor any later line contains `{`, the result is `""`. |
| MethodLocator.FetchBodyStopsAtClose | src/test/java/testcases/TestCodeValidator.java:79-89 | The result runs from the first `{` line through the first line whose `}` brings the counter to exactly 0. That closing line is included, nothing after it is, and it never comes before the first `{` line. |
| MethodLocator.FetchBodyTruncated | src/test/java/testcases/TestCodeValidator.java:92-96 | If no line brings the counter back to 0, the result is everything from the first `{` line to the end of the file. No failure is reported. |
| MethodLocator.NegativeCounterDoesNotStop | src/test/java/testcases/TestCodeValidator.java:84-89 | A stray `}` can drive the counter below 0. Such a line does not stop the scan, so in the example the scan reads to the end of the file. |
| MethodLocator.OpenBeforeClose | src/test/java/testcases/TestCodeValidator.java:73-87 | The counter is never 0 after a `}` line unless some `{` line came before it. So the stop line is always inside the captured run. |
| KeywordVerifier.FindCall | src/test/java/testcases/TestCodeValidator.java:38-39 | Returns true exactly when `\b<keyword>\s*\(` matches somewhere in the body. That means a word boundary, then the keyword, then optional white space, then `(`. |
| KeywordVerifier.CheckKeywords | src/test/java/testcases/TestCodeValidator.java:33-45 | The result is true exactly when every keyword matches. It is true for an empty list. The reported missing keywords are exactly the ones that do not match, in the order given. |
| KeywordVerifier.MissingKeywords | src/test/java/testcases/TestCodeValidator.java:37-42 | The keywords reported missing: each one is a given keyword that does not match, and every keyword that does not match is in the list. |
| KeywordVerifier.ValidateTestMethodFromFile | src/test/java/testcases/TestCodeValidator.java:18-51 | If the signature gate does not match, the result is false whatever the keywords. If it matches, the result is true exactly when every keyword matches in the body `fetchBody` extracts, so an empty keyword list gives true. |
| KeywordVerifier.EmptyBodyMissesEveryKeyword | src/test/java/testcases/TestCodeValidator.java:37-43 | With an empty body, every keyword is reported missing. |
| KeywordVerifier.WholeWordOnly | src/test/java/testcases/TestCodeValidator.java:38 | `response` does not match in `responseCode()`, but does match in `response()`. |
| KeywordVerifier.SplitDeclarationPassesGate | src/test/java/testcases/TestCodeValidator.java:24-28 | The gate matches a `CustomResponse` declaration split across two lines, because `\s+` also matches a newline. |
| KeywordVerifier.SplitDeclarationHasNoBody | src/test/java/testcases/TestCodeValidator.java:65-67 | On that same file no line contains a declaration prefix with single spaces, so `fetchBody` returns `""`. |
| KeywordVerifier.GatePassesWithEmptyBody | src/test/java/testcases/TestCodeValidator.java:24-45 | The gate passes and the file calls `given(`. Still, the extracted body is `""` and `given` is reported missing. |
| ResponseFields.KindOf | src/test/java/testcases/TestCodeValidator.java:102-103 | The `switch` on the method name. A name is recognised exactly when it is one of the seven case labels, and the kind it selects has that label as its name. Every other name falls to the `default` branch. |
| ResponseFields.EachHasKeys | src/test/java/testcases/TestCodeValidator.java:293-299 | The store loop returns a verdict exactly when every element is a JSON object. A null element or one of another kind throws. The verdict is true exactly when every element holds every key. |
| ResponseFields.CheckAll | src/test/java/testcases/TestCodeValidator.java:100-130 | A failed rule only clears `isValid`, and later rules still run. The branch throws exactly when some rule throws. It returns true exactly when every rule returns true. |
| ResponseFields.ValidateResponseFields | src/test/java/testcases/TestCodeValidator.java:339-343 | An unrecognised method name gives false. Whatever the name, a true verdict implies `Status` is the string "OK", so a response whose `Status` is absent, null or anything else is never accepted. |
| ResponseFields.CreateAppointmentAccepts | src/test/java/testcases/TestCodeValidator.java:103-132 | Accepted exactly when `Status` is "OK" and `Results.AppointmentId` is a non-zero integer in Java's `int` range. |
| ResponseFields.CancelAppointmentAccepts | src/test/java/testcases/TestCodeValidator.java:134-163 | Accepted exactly when `Status` is "OK" and `Results` is exactly "Appointment information updated successfully.". |
| ResponseFields.ListKindsAccept | src/test/java/testcases/TestCodeValidator.java:164-224 | Patient search and booking list: a missing or null `Results` is rejected. A list is accepted exactly when it is non-empty and `Status` is "OK". Any other kind of value throws. |
| ResponseFields.StoreDetailKindsAccept | src/test/java/testcases/TestCodeValidator.java:226-337 | The two branches that read a `Results` map, each with its own key list. A missing `Results` throws `NullPointer`. An object is accepted exactly when `Status` is "OK", the object is non-empty and it holds every key of the list. Any other value throws `ClassCast`. |
| ResponseFields.MainStoreDetailsAccepts | src/test/java/testcases/TestCodeValidator.java:226-262 | A missing `Results` map throws `NullPointer`, because its keys are read after the null check. An object is accepted exactly when `Status` is "OK" and the object holds `Name`, `StoreDescription` and `StoreId`. Any other value throws `ClassCast`. |
| ResponseFields.PharmacyStoresAccept | src/test/java/testcases/TestCodeValidator.java:264-301 | A missing `Results` list throws when the loop walks it, and any other non-list value throws `ClassCast`. A list of objects is accepted exactly when it is non-empty, every element holds `StoreId` and `Name`, and `Status` is "OK". |
| ResponseFields.ActivatePharmCountAccepts | src/test/java/testcases/TestCodeValidator.java:303-337 | A missing `Results` map throws `NullPointer`. An object is accepted exactly when `Status` is "OK" and the object holds `CounterName` and `CounterId`. Any other value throws `ClassCast`. |

## Left out

- Reading files (`Files.readAllBytes`, `BufferedReader`) and the swallowed `IOException` are not modelled. The file is given as its lines, and its text as those lines joined with `"\n"`. Carriage returns and a last line without a newline are not represented.
- The Java regular-expression engine is not modelled. Only the two concrete patterns are written out. The method name and keywords are spliced into them as literal text, so a name or keyword containing regex metacharacters is outside the model. Word characters are taken as ASCII `[A-Za-z0-9_]`.
- The 32-bit brace counter is an unbounded `int`. It could only wrap after more than 2^31 lines.
- All `System.out.println` and `prettyPrint` output is left out. It is diagnostic only; the missing keywords it prints appear as `MissingKeywords`.
- The REST client's JSON path (`jsonPath().get/getString/getList/getMap`) is replaced by a JSON datatype with `Lookup`. JSON numbers with fractions are not represented. Looking up `Results.AppointmentId` when `Results` is not an object gives "absent"; the library's spreading over lists or failure on scalars is not modelled. `getList`/`getMap` on a value of the wrong JSON kind are modelled as a `ClassCast` exception.
- ResponseFields.PharmacyStoresAccept: for a `Results` list, states the verdict only when every element is an object. Lists with null or non-object elements are stated by the contract of `EachHasKeys`.
- RestAssured_TestCases_PL2.java is not part of this model. It holds the test methods, which make HTTP calls, read spreadsheets and compute dates from the clock.
