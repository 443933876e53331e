# Hotel-reference memory of a booking chat assistant

A chat front-end for hotel booking keeps a small memory so that follow-up questions
can refer to hotels by name, by list position or by pronoun:

- the *hotel memory*, an insertion-ordered dictionary from lookup keys (lowercased
  full name, `"option n"`, `"n"`, first word) to `{id, full_name}` records, rebuilt by
  `get_hotels` from every non-empty search result;
- the *focus*, the last searched hotel id, set by `get_hotels` and `get_rate_plan`;
- the *conversation history*, an append-only list of user and assistant turns.

`resolve_hotel_reference` turns a question into a hotel id using four strategies in
priority order:

1. a reference phrase, which returns the focus;
2. a substring scan over the memory keys;
3. three numeral regular expressions;
4. a table of spoken ordinals.

`ask_question` appends a hidden ` [hotel_id:ID]` marker to the question when a reference
resolves to an id, and records both turns. It returns the engine's answer after one
marker-removal pass and a strip, or an error apology as it is. The `/ask` endpoint
turns that answer into an HTTP status code and a JSON envelope.

The model has eight modules:

- `Wrappers`: `Option`.
- `Text`: ASCII `lower`, `strip`, `split()[0]`, substring test, `str(n)`.
- `HotelIndex`: the dictionary as a sequence of entries, and the rebuild as a function
  `Fill`, with its properties.
- `Patterns`: the regular expressions as leftmost scanners.
- `Resolver`: the resolver as a pure function.
- `Dates`: the `strptime("%Y-%m-%d")` check.
- `Assistant` and `Server`: the class `Memory`, holding the three globals, and the
  endpoint's classification.

`Memory.GetHotels` rebuilds the index in place with a loop proved equal to `Fill`.
The lemmas about `Fill` state what the rebuild promises.

## Model

| member | source | states |
|---|---|---|
| HotelIndex.Find | app21.py:166-167 | a lookup succeeds exactly when the key is present, and returns a value stored under that key |
| HotelIndex.FindDistinct | app21.py:166-167 | in a dictionary without repeated keys, the lookup returns the one entry holding the key |
| HotelIndex.Put | app21.py:65-68 | after `m[k] = r`, `k` maps to `r` and every other key maps to what it did before |
| HotelIndex.PutKeys | app21.py:65-76 | reassigning an existing key keeps the key order; a new key is appended at the end |
| HotelIndex.PutEntries | app21.py:65-76 | an assignment adds no entry other than the assigned one |
| HotelIndex.PutDistinct | app21.py:65-76 | an assignment keeps every key unique |
| HotelIndex.RegisterDistinct | app21.py:62-84 | one loop iteration keeps every key unique |
| HotelIndex.FillDistinct | app21.py:56-84 | the rebuilt memory never holds a key twice |
| HotelIndex.RegisterFromHotel | app21.py:62-84 | an entry after one iteration was there before, or is one of the four keys of that hotel with its record |
| HotelIndex.FillFromSearch | app21.py:56-84 | the memory is cleared first: every entry afterwards is one of the four keys of some admitted hotel of this search, holding that hotel's record |
| HotelIndex.RegisterKeeps | app21.py:62-84 | a present key is untouched by an iteration whose unconditional keys differ from it, because the first-word write only fills absent keys |
| HotelIndex.RegisterKeysPrefix | app21.py:62-84 | one iteration neither moves nor removes a key: the old key order is a prefix of the new one |
| HotelIndex.FillKeysPrefix | app21.py:56-84 | keys written by earlier hotels stay ahead of, and in the same order as, keys first written later |
| HotelIndex.DistinctPositionKeys | app21.py:69-76 | different positions get different `"option n"` and `"n"` keys, and no `"option n"` equals any `"m"` |
| HotelIndex.RegisterPositionKeys | app21.py:69-76 | the iteration for an admitted hotel at position n maps `"option n"` and `"n"` to its record |
| HotelIndex.PositionKeys | app21.py:58-76 | for the admitted hotel at 1-based position n of the full list (skipped hotels count too), `"option n"` and `"n"` map to its record after the rebuild, unless a later hotel's full name is that key |
| HotelIndex.SkippedPositionUnused | app21.py:58-76 | a skipped hotel (blank name or falsy id) uses up its position: `"option n"` and `"n"` stay absent unless some hotel's full name is one of them or its first word is `"n"` |
| HotelIndex.SkippedOptionAbsent | app21.py:58-76 | for a skipped position n, `"option n"` stays absent unless some hotel's full name is exactly that text |
| HotelIndex.SkippedNumberAbsent | app21.py:58-76 | for a skipped position n, `"n"` stays absent unless some hotel's full name or first word is exactly that text |
| HotelIndex.FirstKeyIsNotOption | app21.py:79-84 | a first word has no blank, so it is never an `"option n"` key |
| HotelIndex.RegisterFullName | app21.py:64-76 | the full-name assignment is unconditional: afterwards the key holds this hotel's record even if an earlier hotel wrote it, and also when the name is the hotel's own `"option n"` or `"n"` |
| HotelIndex.RegisterAddsFirstWord | app21.py:79-84 | an absent first word is written with the hotel's record |
| HotelIndex.RegisterAbsent | app21.py:62-84 | a key absent before, and none of the hotel's four keys, is still absent after the iteration |
| HotelIndex.FillAbsent | app21.py:56-84 | a key that no hotel writes unconditionally, and that is no admitted hotel's first word, is absent after the whole rebuild |
| HotelIndex.FirstWordWins | app21.py:79-84 | among hotels sharing a first word, the earliest admitted one keeps it, unless another hotel's unconditional keys reassign it |
| Text.Lower | app21.py:136 | `lower()` keeps the length and maps exactly `A`-`Z` to `a`-`z` |
| Text.ContainsIff | app21.py:146 | `needle in hay` holds exactly when the needle occurs at some offset |
| Text.TrimStart | app21.py:59 | `lstrip()` returns a suffix of the text, starts with no whitespace and removed only whitespace |
| Text.TrimEnd | app21.py:59 | `rstrip()` returns a prefix of the text, ends with no whitespace and removed only whitespace |
| Text.Strip | app21.py:59 | `strip()` leaves no whitespace at either end |
| Text.StripTrailingSpace | app21.py:318 | `strip()` ignores an extra trailing whitespace character |
| Text.TakeWord | app21.py:79 | the leading run of non-whitespace: a prefix with no whitespace, ended by whitespace or the end of the text |
| Text.FirstWord | app21.py:79 | `split()[0]` has no whitespace and is non-empty for text that is not blank |
| Text.NatToString | app21.py:73 | `str(n)` is a digit string with no leading zero whose value is n |
| Patterns.DigitRunEnd | app21.py:157 | a greedy `\d+` stops at the first non-digit |
| Patterns.SpaceRunEnd | app21.py:157 | a greedy `\s*` stops at the first non-whitespace character |
| Patterns.TailStartsAfterDigits | app21.py:157 | the part of pattern 1 after the digits (optional ordinal suffix, blanks, keyword) can never start at a digit |
| Patterns.OrdinalCapturesWholeRun | app21.py:157 | pattern 1's capture, when it matches, is the whole digit run at the match start; backtracking into the digits never produces a shorter capture |
| Patterns.KeywordNumberAt | app21.py:158-159 | `option\s*(\d+)` and `number\s*(\d+)` capture a digit string, and only where the keyword occurs |
| Patterns.KeywordNumberCapture | app21.py:158-159 | a capture of `kw\s*(\d+)` is the whole digit run after the keyword and a run of whitespace |
| Patterns.KeywordNumberFrom | app21.py:158-159 | conversely, the keyword, whitespace and a digit always match, capturing the digit run that starts at that digit |
| Patterns.SpaceRunOver | app21.py:158-159 | a whitespace run of known length ending at a non-whitespace character is what `\s*` consumes |
| Patterns.MatchAt | app21.py:157-159 | every capture of the three patterns is a non-empty digit string |
| Patterns.SearchLeftmost | app21.py:163-165 | `re.search` reports the match at the leftmost matching position, and reports none exactly when no position matches |
| Patterns.MarkerLen | app21.py:318 | a match of `\[hotel_id:\s*\d+\]` at the start of the text spans at least `[hotel_id:`, a digit and `]` |
| Patterns.RemoveMarkers | app21.py:318 | `re.sub` with the empty replacement never lengthens the text |
| Patterns.RemoveMarkersNoMarker | app21.py:318 | text in which no marker starts comes back unchanged |
| Patterns.RemoveMarkersAppend | app21.py:318 | removing markers from `s + t`, where t starts with `" ["`, is removing them from s and from t separately |
| Patterns.WholeMarker | app21.py:290 | `[hotel_id:` followed by digits and `]` is one marker match, whatever text follows it |
| Patterns.RemoveAnnotation | app21.py:290 | removing markers from the appended ` [hotel_id:ID]` leaves only its leading space |
| Patterns.RemoveAnnotationThen | app21.py:290-318 | the ` [hotel_id:ID]` marker reduces to its leading space, and the text after it is cleaned on its own |
| Patterns.AnnotationAnywhere | app21.py:290-318 | wherever the marker occurs in the text, removal leaves a single space there and cleans the text on both sides independently |
| Patterns.RemoveMarkersPlainPrefix | app21.py:318 | a prefix in which no marker starts passes through unchanged |
| Patterns.UnfinishedOpenStays | app21.py:318 | an opening `[hotel_id:` directly followed by `[` is not a match and is kept |
| Patterns.OnePassResidue | app21.py:318 | the removal is one pass: `[hotel_id:[hotel_id:7]7]` becomes `[hotel_id:7]`, a marker the answer still shows |
| Patterns.ResidueTail | app21.py:318 | the inner marker of that text is deleted and the digits and bracket after it stay |
| Patterns.AnnotationRoundTrip | app21.py:290-318 | cleaning a question with any id's marker appended gives the same text as cleaning the bare question |
| Resolver.ScanKeys | app21.py:151-153 | strategy 2 returns the id of the first entry, in insertion order, whose key occurs in the text and is not one of `option`, `1`..`5`; it returns None exactly when no entry qualifies |
| Resolver.ByNumberPatterns | app21.py:162-167 | strategy 3 returns the first pattern's hit whose capture is a memory key; it returns None exactly when no pattern's capture is a key |
| Resolver.BySpokenOrdinal | app21.py:178-180 | strategy 4 returns the first listed ordinal word that occurs in the text and whose digit key is present; it returns None exactly when there is none |
| Resolver.ResolveSources | app21.py:129-182 | every resolved id is either the truthy focus or the id of a memory entry |
| Resolver.ResolveToFocus | app21.py:146-148 | a reference phrase with a truthy focus returns the focus, before any other strategy |
| Resolver.ResolveFallsThrough | app21.py:146-148 | with an unset or zero focus, a reference phrase does not short-circuit: the result is that of strategies 2 to 4 |
| Resolver.ResolveEmptyMemory | app21.py:146-182 | with an empty memory, only the focus can be returned |
| Resolver.KeyScanFirst | app21.py:151-153 | when no focus short-circuit applies, the first qualifying key wins over the numeral patterns and the ordinal table |
| Resolver.SameHotelWithoutFocus | app21.py:139-148 | before any search, "same hotel" resolves to nothing |
| Dates.DaysInMonth | app21.py:106-107 | every month has 28 to 31 days |
| Dates.FieldRanges | app21.py:106-107 | an accepted month field denotes 1..12, and an accepted day field denotes 1..31 |
| Dates.ValidDateShape | app21.py:106-107 | an accepted date has 8 to 10 characters: four year digits, then a dash |
| Dates.Pad | app21.py:106-107 | zero-padding keeps the width, uses only digits, and keeps the value when it fits |
| Dates.IsoDateValid | app21.py:106-107 | every real calendar date written as zero-padded `YYYY-MM-DD` passes the check |
| Dates.UnpaddedAccepted | app21.py:106-107 | one-digit months and days also pass, e.g. `2025-1-5` |
| Dates.NonLeapDayRejected | app21.py:106-107 | February 29 of a common year fails |
| Dates.LeapDayAccepted | app21.py:106-107 | February 29 of a leap year passes |
| Assistant.JoinTextEmpty | app21.py:305-309 | the joined text of the parts is empty exactly when no part has `"type": "text"` |
| Assistant.ExtractText | app21.py:301-313 | the loop over the content parts computes the text the engine's turn is recorded with |
| Assistant.DisplayName | app21.py:283-287 | the full name of the first entry with that id whose key has no `option` and is not all digits, or "this hotel" when there is no such entry |
| Assistant.RecordedCleans | app21.py:290-318 | the recorded question differs from the question exactly when the id is truthy, and cleaning removes the difference |
| Assistant.Memory.constructor | app21.py:13-15 | the module globals start as an empty memory, no focus and an empty history; the memory is a dict (`Valid`) |
| Assistant.Memory.GetHotels | app21.py:55-97 | an empty search changes nothing and returns "No hotels found". Otherwise the memory becomes exactly `Fill` of the whole list and the focus the raw first record's id, and the result holds the full count and at most the first 5 hotels. The memory stays a dict (`Valid`) |
| Assistant.Memory.GetRatePlan | app21.py:105-112 | with two valid dates the focus becomes the id, before the remote call; otherwise the focus is unchanged and the format error is returned |
| Assistant.Memory.RecordReply | app21.py:297-326 | appends exactly one assistant turn, with the uncleaned engine text or the apology when the engine raised, and returns the apology as it is or the text cleaned |
| Assistant.Memory.Ask | app21.py:271-326 | appends exactly two turns, also on error: the question, annotated when the resolved id is truthy, then the uncleaned engine text. It returns the error message as it is, or the text with its markers removed and trimmed |
| Server.Classify | server.py:13-63 | every outcome gets exactly one of 200, 404, 429, 500 or 502; status is true, and an answer is present, exactly for 200 |
| Server.ClassifyCodes | server.py:13-63 | each code in terms of the outcome, both directions: 500 for an exception, 404 for a falsy answer, 429 for "maximum retries" (checked before "bad gateway"), 502 for "bad gateway", 200 otherwise |
| Server.ClassifyPassesAnswer | server.py:46-53 | a 200 reply passes the answer through verbatim |
| Server.ClassifyException | server.py:55-63 | an exception gives 500 with `"Internal Server Error: "` followed by its text |
| Server.RetryFailureIs429 | server.py:26-34 | an engine error mentioning "maximum retries" reaches the client as 429, through the apology text of `ask_question` |
| Server.AskEndpoint | server.py:13-53 | `/ask` records the two turns and classifies the answer of `ask_question`; because `ask_question` catches the engine's exceptions, the code is never 500 |

## Left out

- The HTTP calls and the pagination loop of `get_hotels` are network I/O. `GetHotels` takes the accumulated hotel list as its input.
- The remote rate-plan request, and its error path, are network I/O. `GetRatePlan` returns the request it would send.
- The LLM agent is a foreign reasoning engine. `Ask` takes its outcome as the input `EngineReply`: an exception text, a last message's content, or another object's `str()`.
  - The model leaves out the tools the engine calls while it runs. Calls to `get_hotels` and `get_rate_plan` are modelled as separate calls on `Memory`.
  - An empty `messages` list, or a text part whose `"text"` is not a string, raises inside the `try`. These are covered only by the `Raised` case.
- `get_current_date` reads the wall clock.
- The debug `print` is output only. For that reason `DisplayName`'s result is computed but unused.
- Unicode is restricted to ASCII:
  - `lower()` maps only `A`-`Z`;
  - whitespace is code points 9-13 and 28-32;
  - `\d` is `0`-`9`.
- Ids are natural numbers. Ids that are strings or negative numbers, and a `hotel_name` that is present but `null` (which makes `.strip()` raise), are not modelled.
- FastAPI, pydantic and `JSONResponse` construction are plumbing. `Reply` keeps only the code, the status, the message and the answer.
- Concurrency is left out. Requests that race on the module globals are outside this single-threaded model.
- Dates.ValidDate: follows CPython's `_strptime` regular expressions for `%Y-%m-%d` (a four-digit year, one- or two-digit month and day) rather than the library call itself. Locale and the other directives are not modelled.
- HotelIndex.PositionKeys: weaker than "`"option n"` and `"n"` always map to hotel n". A later hotel whose lowercased full name is exactly that key overwrites it, so the lemma assumes no such hotel exists.
- HotelIndex.FirstWordWins: assumes no other hotel's unconditional keys equal the first word. A later hotel whose full name is that word reassigns it, as `RegisterFullName` shows.
- HotelIndex.SkippedPositionUnused: assumes no hotel's full name equals either position key and no first word equals `"n"`. Such a hotel would write that key. A first word can never equal `"option n"`, which `FirstKeyIsNotOption` proves.
