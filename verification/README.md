# Station validation and job-record layer, in Dafny

This project models the pure core of a "station" of a federated train
execution network (`pht-station-simple`). A station receives trains, which
are containerised computations, and keeps one job record per train. The
code has four parts:

- string helpers. They say whether a value is quoted or has content, and
  they generate random strings. The code holds two identical copies,
  `app/lib/functions.py` and `app/functions.py`.
- start-up configuration. It reads two station URIs from the environment
  and checks them in a fixed order: the key is present, the stripped value
  has content, the value is not quoted, and the parsed URL has a scheme
  and a netloc. Each failure raises `StartupError`.
- a `URL` wrapper over a parse result. It answers whether the URL has a
  scheme, a netloc or a path, and which port it names.
- the job record. This covers the six-member `JobState` enumeration, the
  `Train` table row, `serialize`, `update_job_state`, the check on
  submission records, and the table's UNIQUE columns.

The modules follow the source files:

| module | file | models |
|---|---|---|
| `Results` | results.dfy | `Option`, `Result` and `Outcome`, the model's form of `None` and of raised exceptions |
| `Text` | text.dfy | the parts of Python's `str` the code relies on: `isspace`, `strip`, `startswith`, `endswith`, `split`, and the `string` module's constants |
| `Numbers` | numbers.dfy | Python's `int(text)` and `str(n)` |
| `LibFunctions` | lib_functions.dfy | app/lib/functions.py |
| `AppFunctions` | app_functions.dfy | app/functions.py |
| `Errors` | errors.dfy | app/lib/errors.py |
| `Urls` | urls.dfy | app/lib/models/url.py |
| `Config` | config.dfy | app/lib/config/config.py |
| `App` | app.dfy | `JobState`, `Train`, `serialize`, `update_job_state` and `validate_train_submission_record` in app/app.py |
| `TrainStore` | train_store.dfy | the `Train` table's UNIQUE constraints, as an invariant of an in-memory table |

Some modelling choices:

- A raised exception is a `Result` failure. `startup_error_if` returns an
  `Outcome`, which `:-` propagates the way Python propagates the raise.
- `IsSpace` is Python's `str.isspace` on the ASCII range. That range is
  space, TAB, LF, VT, FF, CR, and the separators `\x1c`–`\x1f`.
- `int()` skips CPython's `Py_ISSPACE` whitespace at both ends: space,
  TAB, LF, VT, FF and CR, but not the separators `\x1c`–`\x1f` that
  `str.strip` also removes. It then accepts one sign and ASCII digits. A
  single underscore may stand between two digits.
- `urlparse` cannot be seen, so it is a function parameter of type
  `string -> Option<ParseResult>`. `None` stands for the `ValueError` the
  parser raises on a malformed netloc, such as an unbalanced `[` or `]`.
  A `Url` holds only the scheme, netloc and path components that the
  class reads.
- The process environment is an explicit `map<string, string>`.
- The `URL` queries are pure functions of an immutable value, so none of
  them can modify the URL.
- `random.choice` becomes a nondeterministic choice (`:|`) in
  `GenerateRandomString`.
- The `Train` table is a map from primary key to row.
  `session.merge(...)` followed by `commit()` is `Merge`. It either keeps
  the UNIQUE columns unique or fails with an integrity error and leaves
  the table unchanged.

## Model

| member | source | states |
|---|---|---|
| LibFunctions.IsQuoted | app/lib/functions.py:8-9 | holds iff the string is non-empty and its first and last characters are both `"` or both `'` |
| LibFunctions.StringHasContent | app/lib/functions.py:12-13 | holds iff the value is not None and has at least one non-whitespace character |
| LibFunctions.GenerateRandomString | app/lib/functions.py:16-18 | returns exactly `length` characters (none for a negative length), each from letters, punctuation and digits |
| LibFunctions.CharsPrintable | app/lib/functions.py:17 | the alphabet has 94 characters, all printable non-blank ASCII |
| LibFunctions.EmptyIsNeither | app/lib/functions.py:8-13 | the empty string is neither quoted nor contentful, and None has no content |
| LibFunctions.QuoteEdgeCases | app/lib/functions.py:8-9 | a lone `"` or `'` counts as quoted; mixed quotes such as `"x'` do not |
| LibFunctions.HasContentStripInvariant | app/lib/functions.py:12-13 | `string_has_content(s) == string_has_content(s.strip())` |
| LibFunctions.GeneratedHasContent | app/lib/functions.py:16-18 | a generated string of positive length always has content |
| AppFunctions.IsQuoted | app/functions.py:7-8 | holds iff the string is non-empty and starts and ends with the same quote character |
| AppFunctions.StringHasContent | app/functions.py:11-12 | holds iff the value is not None and is not all whitespace |
| AppFunctions.GenerateRandomString | app/functions.py:15-17 | returns `length` characters from letters, punctuation and digits |
| AppFunctions.CopiesAgree | app/functions.py:7-17 | both copies of the helpers agree on every input and draw from the same alphabet |
| Text.TrimLeft | app/lib/config/config.py:20 | the result is a suffix of the input, everything removed is whitespace, and the result does not start with whitespace |
| Text.TrimRight | app/lib/config/config.py:20 | the result is a prefix of the input, everything removed is whitespace, and the result does not end with whitespace |
| Text.Strip | app/lib/config/config.py:20 | the result is trimmed at both ends and is empty iff the input is all whitespace |
| Text.TrimLeftRemoves | app/lib/config/config.py:20 | the input is a whitespace prefix followed by what `lstrip` returns |
| Text.TrimRightRemoves | app/lib/config/config.py:20 | the input is what `rstrip` returns followed by a whitespace suffix |
| Text.StripDecomposes | app/lib/config/config.py:20 | the input is a whitespace prefix, then the result, then a whitespace suffix |
| Text.StripUnique | app/lib/config/config.py:20 | any trimmed string surrounded by whitespace strips to itself, which pins `strip` down independently of its definition |
| Text.StripPadding | app/lib/config/config.py:20 | adding whitespace around a string does not change its strip |
| Text.StripIdempotent | app/lib/config/config.py:20 | stripping twice is stripping once |
| Text.Split | app/lib/models/url.py:24 | `split(':')` gives at least one piece, and no piece contains the separator |
| Text.JoinSplit | app/lib/models/url.py:24 | joining the pieces of a split with the separator gives the original string |
| Text.SplitJoin | app/lib/models/url.py:24 | splitting a join of separator-free pieces gives the pieces back |
| Text.SplitAppend | app/lib/models/url.py:24 | the pieces of `a + sep + b` are those of `a` followed by those of `b` |
| Text.LastPiece | app/lib/models/url.py:24 | `split(sep)[-1]` holds no separator and is a suffix of the string |
| Text.LastPieceAfterSeparator | app/lib/models/url.py:24 | `split(sep)[-1]` is the text after the last separator |
| Numbers.ParseInt | app/lib/models/url.py:24 | `int(text)` raises ValueError on the text itself, and always on text made only of the whitespace it skips |
| Numbers.LiteralChars | app/lib/models/url.py:24 | an accepted literal consists of digits, `_`, `+` and `-` only |
| Numbers.LiteralDecomposes | app/lib/models/url.py:24 | the text `int` reads is the argument less a `Py_ISSPACE` prefix and suffix |
| Numbers.LiteralUnique | app/lib/models/url.py:24 | a literal without `Py_ISSPACE` at its ends, padded with `Py_ISSPACE`, is read as exactly that literal |
| Numbers.LiteralPadding | app/lib/models/url.py:24 | `Py_ISSPACE` padding never changes the literal `int` reads |
| Numbers.ParseRejectsForeignChar | app/lib/models/url.py:24 | `int` raises on any text holding a character that is neither `Py_ISSPACE` nor a digit, `_`, `+` or `-` |
| Numbers.ParseKeepsSeparators | app/lib/models/url.py:24 | `int` does not skip `\x1c`, which `str.strip` removes: `int("\x1c" + str(n))` raises |
| Numbers.DigitsValueOfDecimal | app/lib/models/url.py:24 | the digits of `str(n)` read back as `n` |
| Numbers.ParseFormat | app/lib/models/url.py:24 | `int(str(n)) == n` for every integer (no digit-count limit; see "Left out") |
| Numbers.ParseIgnoresPadding | app/lib/models/url.py:24 | `int` accepts and ignores `Py_ISSPACE` whitespace (space, TAB, LF, VT, FF, CR) around the literal |
| Errors.StartupErrorIf | app/lib/errors.py:20-22 | raises iff the test holds, and the raised `StartupError` carries exactly the given message |
| Urls.FromText | app/lib/models/url.py:7-8 | a `URL` holds the parse of exactly its text, and building it fails exactly when the parser refuses the text |
| Urls.HasScheme | app/lib/models/url.py:10-11 | holds iff the scheme has a non-whitespace character |
| Urls.HasNetloc | app/lib/models/url.py:13-14 | holds iff the netloc has a non-whitespace character |
| Urls.HasPath | app/lib/models/url.py:16-17 | holds iff the path has a non-whitespace character |
| Urls.GetPort | app/lib/models/url.py:22-25 | gives 80 when the netloc has no `:`; a failure happens only with a `:` present, and names the text after the last `:` |
| Urls.GetPortOfHostPort | app/lib/models/url.py:23-24 | a netloc `host:port` gives `port`, whatever colons the host holds |
| Urls.GetPortExample8080 | app/lib/models/url.py:23-24 | `h:8080` gives 8080 |
| Urls.GetPortExampleLastPiece | app/lib/models/url.py:23-24 | `a:b:9` gives 9 |
| Urls.GetPortEmptyAfterColon | app/lib/models/url.py:23-24 | a netloc ending in `:` raises ValueError on the empty string |
| Urls.GetPortUserInfoFails | app/lib/models/url.py:23-24 | as written, every netloc `user:pw@host` without a port raises, because the `@` reaches `int` |
| Urls.GetPortSeparatorBeforePort | app/lib/models/url.py:23-24 | a netloc `host:` followed by `\x1c` and a number raises, since `int` does not skip that separator |
| Urls.GetPortIpv6Fails | app/lib/models/url.py:23-24 | as written, the netloc `[::1]` raises instead of giving a port |
| Urls.GetPortCorrected | app/lib/models/url.py:22-25 | the corrected query gives 80 whenever the part after the last `@` has no `:`, and on a netloc without `@` that does not start with `[` it answers exactly as the original |
| Urls.CorrectedIgnoresUserInfo | app/lib/models/url.py:22-25 | user information before `@` never changes the corrected port |
| Urls.CorrectedIpv6Default | app/lib/models/url.py:22-25 | `[addr]` gives 80 |
| Urls.CorrectedIpv6Port | app/lib/models/url.py:22-25 | `[addr]:port` gives `port` |
| Config.GetValueFromEnv | app/lib/config/config.py:13-33 | checks in order: a missing key fails before any value is inspected, a blank value fails as empty, a quoted stripped value fails as quoted. Success happens iff all three pass and returns the stripped value |
| Config.ValueWellFormed | app/lib/config/config.py:20-33 | every accepted value has content, is not quoted, and has no surrounding whitespace |
| Config.PaddedQuotedRejected | app/lib/config/config.py:20-31 | a quoted value with any whitespace around it, such as `  "x"  `, is rejected as quoted, because the quote check sees the stripped value |
| Config.LoneQuoteRejected | app/lib/config/config.py:28-31 | a lone `"` is rejected as quoted |
| Config.GetUrlValueFromEnv | app/lib/config/config.py:39-46 | a plain-value error passes through unchanged. A value the parser refuses stops with the parser's `ValueError` on that stripped text. Otherwise it succeeds iff the parse has a scheme and a netloc with content, fails with the bad-URL `StartupError` if not, and returns the URL of exactly that stripped text |
| Config.LoadConfig | app/lib/config/config.py:52-53 | start-up succeeds iff both URIs validate. `PHT_URI_STATION` is checked first and its error wins; when it validates, a failing `PHT_URI_SERVICE` stops start-up with that key's error |
| App.JobStateClosed | app/app.py:13-22 | the enumeration has exactly six members, and each member's value equals its name |
| App.FromValueInverse | app/app.py:13-22 | looking a member up by value finds exactly the member with that value |
| App.StateString | app/app.py:67 | `str(state)` is `JobState.<name>` for a member and `None` for NULL |
| App.Serialize | app/app.py:61-68 | exactly the five keys `id`, `trainID`, `registry_uri`, `filepath`, `state`; the first four copied verbatim |
| App.DeserializeSerialize | app/app.py:61-68 | the serialized row can be read back into the same row |
| App.SerializeInjective | app/app.py:61-68 | distinct rows serialize differently |
| App.UpdateJobState | app/app.py:75-82 | afterwards the state is the new one, and `id`, `trainID`, `registry_uri` and `filepath` are unchanged |
| App.UpdateIdempotent | app/app.py:82 | setting the same state twice equals setting it once |
| App.UpdateLastWins | app/app.py:82 | of two updates only the last is visible |
| App.SerializeAfterUpdate | app/app.py:61-82 | an update changes only the `state` entry of the serialized row |
| App.ValidateTrainSubmissionRecord | app/app.py:89-90 | holds iff both `trainID` and `registry` are keys |
| App.ValidateOnlyKeysMatter | app/app.py:89-90 | extra keys and all values are irrelevant to the check |
| TrainStore.Merge | app/app.py:44-59 | a write fails iff it would clash on a UNIQUE column with another row. A successful write puts the row under its key, leaves every other row as it was, and keeps a valid table valid |
| TrainStore.UpdateStoredJobState | app/app.py:75-86 | a state update of a stored row always succeeds, keeps the table valid, changes only that row, and gives it the new state |
| TrainStore.TrainIDIdentifiesRow | app/app.py:50 | in a valid table a `trainID` names at most one row |

## Findings

| source | as written | input that shows it | evidently intended | confidence | as-written member | corrected member |
|---|---|---|---|---|---|---|
| app/lib/models/url.py:23-24 | the port is whatever follows the last `:` anywhere in the netloc | netloc `user:pw@host` (a URL with credentials and no port) gives `int("pw@host")`, which raises ValueError | port 80, because only the part after `@` can name a port | medium, not executed | Urls.GetPortUserInfoFails | Urls.CorrectedIgnoresUserInfo |
| app/lib/models/url.py:23-24 | the colons inside an IPv6 literal are read as a port separator | netloc `[::1]` (IPv6 host, no port) gives `int("1]")`, which raises ValueError | port 80; `[addr]:p` gives `p` | medium, not executed | Urls.GetPortIpv6Fails | Urls.CorrectedIpv6Default |

`Urls.GetPortCorrected` is the corrected definition. Its contract shows that it changes nothing on ordinary `host` and `host:port` netlocs. The rest of the model keeps `Urls.GetPort` as written, and no other code calls either version.

## Left out

- The Flask application, its configuration, `response`, `jsonify` and `before_first_request` (app/app.py:25-41, 93-96, 122-123): HTTP plumbing with no logic to model.
- The Docker client (app/app.py:36): an external runtime.
- `register_request`, the APScheduler set-up and `atexit` (app/app.py:99-119), and `StationClient` (app/lib/restclient/station.py): periodic network calls.
- `flag_modified`, `flush` and the session internals (app/app.py:83-86). Only their effect on the table is modelled, by `TrainStore.Merge`.
- `pprint` (app/lib/functions.py:21-25): writes to stdout and stderr.
- `URL.geturl` and the internals of `urllib.parse.urlparse` (app/lib/models/url.py:8, 19-20): a library this model cannot see. The parse components, and whether the parser raises, are inputs; the text of the parser's `ValueError` message is not modelled.
- Reading `os.environ` at import time (app/lib/config/config.py:52-53): the environment is a parameter of `Config.LoadConfig`.
- Unicode: non-ASCII whitespace in `strip`, `isspace` and `int`, and non-ASCII digits in `int`, are not modelled. CPython's `int` first rewrites a non-ASCII argument: each non-ASCII whitespace character becomes a space and each non-ASCII decimal digit becomes its ASCII digit. Characters below U+007F, `\x1c`–`\x1f` included, are kept, so `int` never skips them. The model therefore gives `Err` for `int("5\u00a0")`, which Python reads as 5.
- `db.String(80)`: SQLite does not enforce the length, so it is not modelled. The primary key is an `int` that is already assigned; autoincrement is not modelled.
- LibFunctions.GenerateRandomString: states which characters can appear and how many, not their distribution, because Python's `random` generator is outside the model. The same holds for AppFunctions.GenerateRandomString.
- Numbers.ParseInt: its contract states only the error cases. `Numbers.ParseFormat` fixes the reading of canonical `str(n)` text, `Numbers.ParseIgnoresPadding` the whitespace around it, and `Numbers.ParseRejectsForeignChar` the rejection of any text holding a character outside `Py_ISSPACE`, digits, `_`, `+` and `-`. The rest — acceptance of `+5`, `007` and `1_000`, and rejection of misplaced signs or underscores — rests on the definition `Numbers.ParseLiteral` alone, with no lemma of its own.
- Numbers.ParseInt: models `int()` and `str()` as in Python releases without the integer-string conversion limit (before 3.11, 3.10.7, 3.9.14, 3.8.14 and 3.7.14). Later releases raise `ValueError` on more than 4300 decimal digits, so `get_port` on a netloc such as `h:` followed by 5000 digits raises there, where the model returns the number. The same limit bounds `Numbers.ParseFormat`.
- `is_quoted` applied to `None`: Python raises AttributeError there. No caller passes `None`, so the model's argument is a plain string.
- App.Deserialize and App.FromName are not in the source. They serve only as the inverse against which `serialize` is shown to be lossless.
