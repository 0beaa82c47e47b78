# MyHealth core, modelled in Dafny

MyHealth is a fitness service. A Django REST server holds Telegram users, subscribers and
training programs. A Telegram bot talks to the server and keeps a small JSON cache on disk.
This project models the logic at the centre of both sides as immutable datatypes and pure
functions, and proves properties about them:

- **Query-filter parser** (`Filters`): `DataFilter.filter` finds an operator and a typed
  literal in a query string and returns a comparison predicate. `duration` reads `"m:ss"`
  text as base-60 seconds, raising when `timedelta` cannot hold the sum. `re.search` is modelled as "leftmost start, then the
  pattern's own greedy matcher".
- **Account registry** (`Registry`, `ServerModels`): the user table keyed by unique
  Telegram id, `create_user`, `create_superuser`, `authenticate` and `get_user`. Around them
  sit the model helpers: hashed chat ids, the `cash` setter, `__str__`, `is_adult`,
  `gender_length`, the bounds on the balance, the number of weeks and the difficulty, and the
  arithmetic of `avg_training_time`.
- **Access predicates** (`Permissions`): group permission, method-only permissions and
  the subscriber check.
- **Bot file cache** (`FileCache`, `Utf8`): `IOHandler.post`/`get` over a map from paths to
  bytes, and `to_json`/`from_json`/`update_users`/`update_tokens`/`clear_cache`.
- **Bot records** (`BotModels`): `Token` with its JWT-derived payload, the header and body
  builders, and the bot-side `TelegramUser` defaults.
- **Program-filter dialog** (`ProgramDialog`): the five-state aiogram FSM with its
  handlers and registrations. Its end-to-end property links the dialog to the parser:
  the filter strings the dialog builds are read by `DataFilter.filter` as the comparison
  the user chose.

Shared modules: `Wrappers` (`Option`, `Result`), `Values` (Python/JSON values with
truthiness), `Text` (the subsets of `int(text)` and `float(text)` the program uses), and
`Utf8` (strict UTF-8 encoding and decoding with both round trips proved).

Foreign calls are parameters, not axioms:

- SHA-512 is a `Digest` function.
- `jwt.decode` is a `JwtDecode` function returning claims, `Expired` or `Rejected`.
- `json.dumps`/`json.loads` form a `Codec`. Where the `FileCache` lemmas speak of file
  contents they assume only the `Lawful` predicate of it: on every value JSON can write
  (finite decimals, lists, string-keyed dicts) `loads` inverts `dumps` and `dumps` is
  never empty; `loads` gives only such values; and the empty list and dict print as `[]`
  and `{}`. `LawfulCodec` builds a ghost codec that meets this law, so the lemmas that
  assume it are not vacuous.
- The file system is a `Disk` value.
- Message sending and `get_programs` are recorded as `Effect`s.

Two facts about the code are easy to misread:

- **Filter direction.** `FILTER_EXP` maps `"<"` to `value.__gt__`, and the predicate is
  called with the field value `x`. So `"<3"` keeps `x` exactly when `3 > x`, that is
  `x < 3`. The operator therefore reads the intuitive way round, with the field value on
  the left (`Filters.OperatorSemantics`).
- **Rejected weeks.** When `get_weeks_op` refuses a number of weeks, it sets the state to
  `weeks_value` instead of keeping `weeks_op`, so the next number typed is not read; see
  Findings.

## Model

| member | source | states |
|---|---|---|
| Filters.Leftmost | server/app/filters.py:118-121 | `re.search`: the match found starts at the leftmost position where the pattern matches, and there is no match anywhere when it returns none |
| Filters.IntMatchAt | server/app/filters.py:108 | `[-]?[0-9]+` at a position: the match is the longest non-empty prefix there that is an optional `-` and a digit run, and there is none exactly when no prefix there has that form |
| Filters.FloatMatchAt | server/app/filters.py:107 | `([0-9]*[.])?[0-9]+` at a position: the match is the longest prefix there that is a digit run, or digits, a point and a non-empty digit run; there is none exactly when no prefix there has that form |
| Filters.DurationMatchAt | server/app/filters.py:109 | `[0-9]+:[0-5][0-9]` at a position: the match is the longest prefix there that is digits, a colon, a digit from 0 to 5 and a digit; there is none exactly when no prefix there has that form |
| Filters.StrMatchAt | server/app/filters.py:110 | `.*` matches at every position inside the text, and the match is the longest newline-free prefix there |
| Filters.SearchOp | server/app/filters.py:98-120 | `re.search(EXP_FORMAT)`: none exactly when the text holds no `<`, `>` or `=`; otherwise the operator at the first such character, with `<` or `>` absorbing a following `=` |
| Filters.SearchValue | server/app/filters.py:106-119 | `re.search(PATTERNS[cls])`: the literal is in the class's language and is the longest match at the leftmost position where any prefix matches; none exactly when no substring is in the language |
| Filters.Split | server/app/filters.py:11 | `split(":")` gives at least one part, no part holds a colon, and joining the parts with colons gives back the text |
| Filters.Duration | server/app/filters.py:9-13 | `duration(s)` is the positional base-60 reading of `s.split(":")` when that reading lies within `timedelta`'s range of 999999999 days either way, and fails exactly when `int` fails on a part or the sum lies outside that range (`OverflowError`) |
| Filters.IntShapeParses | server/app/filters.py:108-125 | every text in the int pattern's language is accepted by `int` |
| Filters.FloatShapeParses | server/app/filters.py:107-125 | every text in the float pattern's language is accepted by `float` |
| Filters.DurationShapeConverts | server/app/filters.py:109-125 | a text in the duration pattern's language is accepted by `duration` exactly when its minutes are at most 999999999 days, 23 hours and 59 minutes' worth (`MaxMinutes`); a larger one such as `99999999999999:00` raises |
| Filters.Convert | server/app/filters.py:125 | `data_class(text)` gives a value of that class; on a text in the class's pattern language it succeeds exactly when the class can hold the text, which fails only for a duration of more than `MaxMinutes` minutes |
| Filters.Filter | server/app/filters.py:113-128 | everything is accepted exactly when the text is missing or either search finds nothing; `filter` raises exactly when both searches succeed and the literal does not fit its class, which happens only for durations; otherwise the predicate uses the `FILTER_EXP` method of the operator found, bound to the converted literal, which has the requested class |
| Filters.LineEnd | server/app/filters.py:110 | the end of `.*` is the first newline at or after the start, or the end of the text |
| Filters.SplitNoColon | server/app/filters.py:11 | `split(":")` of text without a colon is the one-element list of that text |
| Filters.SplitAtFirstColon | server/app/filters.py:11 | `split(":")` cuts at the first colon and splits the rest the same way |
| Filters.WeightedSumShift | server/app/filters.py:11-13 | shifting every base-60 place one up multiplies the sum by 60 and fails on the same inputs |
| Filters.WeightedSumIsHorner | server/app/filters.py:11-13 | summing `int(part) * 60**i` from the right equals reading the parts left to right as base-60 digits |
| Filters.DurationNoColon | server/app/filters.py:10-13 | a string with no colon gives `int(s)` seconds, failing exactly when `int` fails or `timedelta` cannot hold the number |
| Filters.DurationOfTwoParts | server/app/filters.py:10-13 | two colon-free parts that `int` reads as `a` and `b` give `60 * a + b` seconds when `timedelta` holds that, and raise otherwise |
| Filters.DurationMinutesSeconds | server/app/filters.py:10-13 | `"m:ss"` with digit strings gives `m * 60 + ss` seconds up to 86399999999999, and raises above it |
| Filters.OperatorSemantics | server/app/filters.py:99-127 | the bound method named for each operator keeps `x` exactly when `x < v`, `x <= v`, `x > v`, `x >= v` or `x == v`, for `<`, `<=`, `>`, `>=` and `=` |
| Filters.InvokeTrichotomy | server/app/filters.py:99-105 | the five methods `FILTER_EXP` names compare by one total order: exactly one of `__gt__`, `__lt__` and `__eq__` holds, and `__ge__` and `__le__` are `__gt__` and `__lt__` or equality |
| Filters.SearchOpLeftmost | server/app/filters.py:98-120 | the operator is taken at the leftmost `<`, `>` or `=`, and `<` or `>` absorbs an immediately following `=` |
| Filters.SearchOpNone | server/app/filters.py:98-120 | text without `<`, `>` or `=` has no operator |
| Filters.SearchOpOfToken | server/app/filters.py:98-120 | an operator token at the start of the text is the operator found, whatever follows |
| Filters.SearchOpAfterDigits | server/app/filters.py:98-120 | digits before an operator token do not change the operator found |
| Filters.NoNumberInToken | server/app/filters.py:107-108 | neither the int nor the float pattern matches inside an operator token |
| Filters.SearchValueAt | server/app/filters.py:119 | a match at `k` with no match before `k` is the literal `re.search` finds |
| Filters.SearchIntAfterToken | server/app/filters.py:108-119 | after an operator token, the int literal found is the whole digit string |
| Filters.SearchIntBeforeToken | server/app/filters.py:108-119 | before an operator token, the int literal found is the whole digit string |
| Filters.FilterOpThenInt | server/app/filters.py:117-127 | `filter(op + n, int)` does not raise and is the comparison `op` with the value of the digits `n` |
| Filters.FilterOrderIndependent | server/app/filters.py:118-121 | operator and literal are searched independently, so `"3<"` and `"<3"` give the same predicate |
| Filters.NegativeIntLiteral | server/app/filters.py:108-119 | a `-` right before the digits belongs to the int literal, so `"<-3"` finds `-3` |
| Filters.NegativeIntValue | server/app/filters.py:108-125 | that literal converts to the negated value of the digits |
| Filters.FloatMatchPointed | server/app/filters.py:107 | digits, a point and digits up to the end are matched whole by the float pattern |
| Filters.FloatMatchDigits | server/app/filters.py:107 | a digit run up to the end is matched whole by the float pattern |
| Filters.FloatMatchAfterToken | server/app/filters.py:107 | after an operator token, the float pattern matches the whole plain decimal |
| Filters.SearchFloatAfterToken | server/app/filters.py:107-119 | after an operator token, the float literal found is the whole plain decimal |
| Filters.FilterOpThenDecimal | server/app/filters.py:117-127 | `filter(op + d, float)` does not raise and is the comparison `op` with the value of the decimal `d` |
| Filters.DurationMatchWhole | server/app/filters.py:109 | a duration text that runs to the end of the string is matched whole |
| Filters.NoDurationInToken | server/app/filters.py:109 | the duration pattern matches nowhere inside an operator token |
| Filters.SearchDurationAfterToken | server/app/filters.py:109-119 | after an operator token, the duration literal found is the whole duration text |
| Filters.FilterDurationOverflow | server/app/filters.py:9-13 | `filter(op + t, duration)` raises exactly when the literal `t` holds more than `MaxMinutes` minutes, so `"<99999999999999:00"` raises; otherwise it is the comparison `op` with `duration(t)` |
| Text.RunEnd | server/app/filters.py:107-109 | a greedy digit run: every character before its end is a digit and the character at its end is not |
| Text.RunEndOver | server/app/filters.py:107-109 | `n` digits followed by a non-digit or the end form a run of exactly `n` |
| Text.DotIndex | telegram/states.py:49 | the index found is that of the first `.` in the text, and there is none exactly when the text has no `.` |
| Text.ParseIntOfDigits | telegram/states.py:79 | `int` of a digit string is the value of the digits |
| Text.ParseIntOfNegative | server/app/filters.py:108-125 | `int("-" + n)` is minus the value of the digits `n` |
| Text.ParseFloatOfPlainDecimal | telegram/states.py:49 | `float` of a plain decimal numeral is the real value it spells, without rounding to a double |
| Text.UnsignedOfDigits | server/app/filters.py:107-125 | a digit string is an unsigned decimal numeral |
| Text.UnsignedOfPointed | server/app/filters.py:107-125 | digits, a point and at least one digit form an unsigned decimal numeral |
| Text.ParseFloatUnsigned | server/app/filters.py:107-125 | `float` accepts every unsigned decimal numeral |
| Utf8.EncodeChar | telegram/api.py:19-21 | `encode("utf-8")` writes each character as one to four bytes |
| Utf8.DecodeFirst | telegram/api.py:32 | strict decoding of the first character consumes between one and four bytes |
| Utf8.DecodeFirstOfEncodeChar | telegram/api.py:19-32 | the first character decoded from an encoding is the encoded one |
| Utf8.DecodeEncode | telegram/api.py:19-32 | `value.encode("utf-8").decode()` gives back the text |
| Utf8.EncodeOfDecodeFirst | telegram/api.py:32 | the bytes strict decoding consumed are exactly the encoding of the character it decoded |
| Utf8.EncodeOfDecode | telegram/api.py:24-32 | bytes that decode re-encode to the same bytes |
| ServerModels.Hex | server/app/models.py:66-67 | `hexdigest()` writes two lower-case hexadecimal digits per byte |
| ServerModels.HexInjective | server/app/models.py:66-67 | distinct digests have distinct hexadecimal renderings |
| ServerModels.EncodeChatId | server/app/models.py:60-67 | the hash is two lower-case hexadecimal digits per digest byte, so a chat id holding a non-hexadecimal character is never stored as itself |
| ServerModels.SetChatId | server/app/models.py:69-75 | `set_chat_id` stores the hash of the new chat id and changes no other field |
| ServerModels.CheckChatId | server/app/models.py:77-83 | the check passes only for a stored value of the hash's length made of hexadecimal digits |
| ServerModels.Utf8Injective | server/app/models.py:66 | distinct chat ids are hashed from distinct bytes |
| ServerModels.SetThenCheckChatId | server/app/models.py:69-83 | after `set_chat_id(s)`, `check_chat_id(s)` holds, the stored value is the hash of `s`, and the raw `s` is never stored (when it is not itself hexadecimal) |
| ServerModels.CheckChatIdAccepts | server/app/models.py:77-83 | after `set_chat_id(s)`, `check_chat_id(t)` holds exactly when the digests of `s` and `t` coincide, and fails whenever the hashes differ |
| ServerModels.CheckChatIdExact | server/app/tests/test_models.py:57-63 | for a collision-free digest, only the chat id that was set passes the check |
| ServerModels.SetCash | server/app/models.py:52-57 | a non-negative value becomes the balance and changes nothing else; a negative one is refused |
| ServerModels.SetCashKeepsBalanceValid | server/app/models.py:43-57 | the setter never breaks the balance bound, and the getter reads back what was set |
| ServerModels.Display | server/app/models.py:85-88 | when either name is set, `__str__` is the first name as rendered, one space, then the last name as rendered; otherwise it is the Telegram-id label followed by the id |
| ServerModels.DisplaySplitsBackIntoNames | server/app/models.py:85-88 | a space-free first name and the last name can be read back from the display text |
| ServerModels.IsAdult | server/app/models.py:169-177 | unknown exactly when there is no age, otherwise true exactly when the age is at least 18 |
| ServerModels.IsAdultMonotone | server/app/models.py:169-177 | an adult stays an adult as the age grows |
| ServerModels.GenderLength | server/app/models.py:99-109 | the result bounds every code's length and is the length of some code; an empty list has none |
| ServerModels.GenderFieldFitsEveryCode | server/app/models.py:117-131 | the gender column is 10 wide, which holds every code, the default `helicopter` among them |
| ServerModels.DivideAndRound | server/app/models.py:248 | `timedelta / int` is the nearest whole microsecond, ties to even |
| ServerModels.DivideAndRoundExact | server/app/models.py:248 | an exact division is not rounded |
| ServerModels.AvgTrainingTime | server/app/models.py:244-249 | 0 when the aggregate is missing, a division error with no trainings, otherwise the sum over the count |
| Registry.EmptyIsValid | server/app/models.py:33-36 | the empty table keeps the uniqueness invariant |
| Registry.NewUser | server/app/models.py:19-46 | a keyword outside the six modelled fields is refused; otherwise the user has the given key and Telegram id, no chat id yet, every given field carried over and the column defaults for the rest |
| Registry.Save | server/app/models.py:33-36 | saving succeeds exactly when both the Telegram id and the chat id are new; the user is then stored, the next key advances, and a valid table stays valid |
| Registry.CreateUser | server/app/managers.py:10-24 | falsy credentials are refused with nothing stored; on success the user is stored under its Telegram id with the given id, the next primary key, the extra fields passed through and the hashed chat id |
| Registry.CreateUserKeepsValid | server/app/managers.py:20-22 | creating a user keeps Telegram ids, chat-id hashes and primary keys unique |
| Registry.SetDefault | server/app/managers.py:35-37 | `setdefault` leaves a dict that has the key unchanged, otherwise adds the key with the default; every other entry is kept as it was |
| Registry.CreateSuperuser | server/app/managers.py:26-43 | `is_staff` or `is_superuser` other than the value `True` is refused; with no flags all three flags are true; an explicit `is_active` is passed through |
| Registry.SuperuserIsUserWithFlags | server/app/managers.py:35-43 | without explicit staff and superuser flags, `create_superuser` is `create_user` with both flags `True` and `is_active` as given or `True` |
| Registry.Authenticate | server/app/auth.py:13-31 | an unknown Telegram id is refused and never yields no user; a known id with the right chat id returns exactly that user; otherwise the chat id is refused |
| Registry.CreateThenAuthenticate | server/app/auth.py:20-25 | a user just created authenticates with the same Telegram id and raw chat id |
| Registry.WrongChatIdIsRefused | server/app/auth.py:24-26 | a known id whose chat-id hash differs from the stored one is refused as incorrect |
| Registry.GetUser | server/app/auth.py:33-37 | the user with that primary key, or none exactly when no user has it |
| Permissions.AllowedGroups | server/app/permissions.py:17-22 | the allowed groups are the database groups whose name is listed; none when built without names |
| Permissions.HasPermission | server/app/permissions.py:24-28 | allowed exactly when some group of the user is allowed |
| Permissions.PermitsIffShared | server/app/permissions.py:24-28 | the permission is exactly a non-empty intersection of the user's groups and the allowed ones |
| Permissions.NoGroupsRefusesAll | server/app/permissions.py:17-26 | built with `groups=None`, the permission refuses everybody |
| Permissions.GrouplessUserIsRefused | server/app/permissions.py:26-27 | a user in no group is refused |
| Permissions.PermitsMonotone | server/app/permissions.py:26 | listing more group names or adding groups to the user never turns allow into deny |
| Permissions.ListedGroupPermits | server/app/permissions.py:17-26 | a member of a listed group that exists is allowed |
| Permissions.PostOnly | server/app/permissions.py:31-33 | true exactly for `POST` |
| Permissions.GetOnly | server/app/permissions.py:36-38 | true exactly for `GET` |
| Permissions.PostAndGetDisjoint | server/app/permissions.py:31-38 | no request passes both method permissions |
| Permissions.Subscribed | server/app/permissions.py:41-43 | true exactly when the user has a subscriber |
| FileCache.Post | telegram/api.py:23-26 | the write succeeds exactly when the directory exists; the file then holds the bytes given, or the UTF-8 encoding of the text given, and every other path is left alone |
| FileCache.Get | telegram/api.py:28-33 | a missing file reads as `"[]"`; an existing one reads as its UTF-8 text, refused when the bytes are not UTF-8 |
| FileCache.PostThenGet | telegram/api.py:19-33 | text posted to a file reads back unchanged |
| FileCache.ToJson | telegram/api.py:53-57 | a falsy value is written as `"{}"`; with a lawful JSON library, reading back what was written gives the value, or the empty dict for a falsy one |
| FileCache.FromJson | telegram/api.py:59-63 | empty text reads as the empty dict; other text is refused exactly when the library refuses it; with a lawful library every value read is one JSON can write |
| FileCache.Contents | telegram/api.py:80-88 | the list a cache file holds is what `from_json` reads from the file's text |
| FileCache.Update | telegram/api.py:79-91 | an update succeeds exactly when the new document parses, the file holds a list and the directory exists; the directories and every other file are unchanged |
| FileCache.UpdateUsers | telegram/api.py:86-91 | `update_users` succeeds on the same conditions as `Update` for `users.json`, leaves `tokens.json` as it was and, with a lawful library, appends the new value |
| FileCache.UpdateTokens | telegram/api.py:79-84 | `update_tokens` succeeds on the same conditions for `tokens.json`, leaves `users.json` as it was and, with a lawful library, appends the new value |
| FileCache.FalsyJson | telegram/api.py:53-63 | `to_json` of a falsy value is `"{}"` and `from_json("")` is `{}` |
| FileCache.MissingFileIsEmpty | telegram/api.py:28-33 | with a lawful JSON library, a file never written holds the empty list |
| FileCache.UpdateAppends | telegram/api.py:79-91 | with a lawful JSON library, a successful update leaves the file holding the old list followed by the new value |
| FileCache.UsersAndTokensDiffer | telegram/api.py:47-51 | the two cache files are distinct paths |
| FileCache.ParseEachLength | telegram/api.py:80-87 | parsing every document gives one value per document |
| FileCache.FoldAppends | telegram/api.py:79-91 | steps that each append a value, applied in order, append all the values in order |
| FileCache.UpdateAllAppends | telegram/api.py:79-91 | with a lawful JSON library, updates applied in order to a file holding a list append their parsed documents in order |
| FileCache.UpdatesFromNothing | telegram/api.py:28-91 | with a lawful JSON library, starting from no file, `k` updates leave a list of the `k` documents in insertion order |
| FileCache.ClearCache | telegram/api.py:105-108 | both cache files are removed, and every other file and directory is kept |
| FileCache.ClearedCacheReadsEmpty | telegram/api.py:28-108 | after clearing, both cache files read as `"[]"`, and with a lawful JSON library they hold the empty list |
| LawfulCodec.LawIsSatisfiable | telegram/api.py:53-63 | some codec meets the law the cache lemmas assume of `json.dumps` and `json.loads` |
| BotModels.ConfigGet | telegram/models.py:93 | `config.get` gives the configured text, or `None` for a missing or valueless key |
| BotModels.MakeToken | telegram/models.py:88-96 | an undecodable token raises; the payload is `None` exactly when the token has expired; otherwise it holds the claimed `telegram_id` and the configured `chat_id` |
| BotModels.BearerToken | telegram/models.py:98-99 | the token read from a header is the one the header was built with |
| BotModels.AccessData | telegram/models.py:98-99 | the header has only the `Authorization` key, and the token read back from it is the access token |
| BotModels.PostData | telegram/models.py:101-102 | `post_data` is the payload unchanged, `None` for an expired token |
| BotModels.RefreshData | telegram/models.py:104-105 | the refresh body is exactly `{"refresh": refresh}` |
| BotModels.NewBotUser | telegram/models.py:111-119 | the defaults: no id, empty tokens and names, balance 0, no subscriber, the configured chat id |
| BotModels.UserAccessData | telegram/models.py:121-125 | `access_data` has exactly the keys `telegram_id` and `chat_id`, each copied from its field |
| BotModels.UserPostData | telegram/models.py:127-133 | `post_data` has exactly the credentials of `access_data`, unchanged, plus `first_name` and `last_name` copied from their fields |
| BotModels.TokenPayloadMatchesUser | telegram/models.py:88-125 | a live token claiming a user's Telegram id posts that user's credentials when the chat id comes from the same configuration |
| ProgramDialog.Index | telegram/states.py:9-14 | each state has its place in the declaration order |
| ProgramDialog.NextFollowsOrder | telegram/states.py:9-14 | `next()` enters the first state and walks the declaration order one state at a time, leaving the group after the last |
| ProgramDialog.Next | telegram/states.py:9-14 | `next()` from outside the group enters the first state; from a state it moves one place on in the declaration order, and leaves the group exactly after the last |
| ProgramDialog.Start | telegram/states.py:21-35 | starting the dialog enters the first state and keeps the stored data |
| ProgramDialog.ChooseFiltering | telegram/states.py:38-44 | `"1"` moves on to reading a difficulty; any other choice finishes the dialog and asks for the unfiltered programs |
| ProgramDialog.ReadDifficulty | telegram/states.py:47-67 | an accepted difficulty is stored as typed and the dialog moves on; a rejected one changes nothing |
| ProgramDialog.DifficultyAcceptedIffValid | telegram/states.py:49-50 | the dialog accepts a difficulty, read as the exact real its numeral spells, exactly when a training with that difficulty satisfies the model's bound |
| ProgramDialog.ChooseDifficultyOp | telegram/states.py:70-74 | the stored difficulty is prefixed with the pressed comparison and the dialog moves on |
| ProgramDialog.WeeksAcceptedIffValid | telegram/states.py:79-80 | up to the column's upper bound, the dialog accepts a number of weeks exactly when a training program may have it; above the bound it accepts numbers the column cannot hold; text `int` refuses is refused |
| ProgramDialog.ReadWeeksThen | telegram/states.py:77-97 | an accepted number is stored as typed and the dialog moves on; a rejected one changes only the state |
| ProgramDialog.ReadWeeksAsWritten | telegram/states.py:95-97 | as written, a rejected number sends the dialog back to `weeks_value` with the data unchanged |
| ProgramDialog.ReadWeeks | telegram/states.py:77-97 | corrected, a rejected number leaves the dialog as it was |
| ProgramDialog.Finish | telegram/states.py:100-104 | the weeks are prefixed with the pressed comparison, the programs are asked for with both filters and the dialog finishes |
| ProgramDialog.Run | telegram/bot.py:58-73 | one effect per update |
| ProgramDialog.Route | telegram/bot.py:58-73 | a message outside the two text-reading states and a callback with an unregistered prefix change nothing; asking for the programs always leaves the dialog idle; the stored data never gains a key other than `difficulty` and `weeks` |
| ProgramDialog.RunConcat | telegram/bot.py:58-73 | a run over two batches of updates is the run over the first followed by the run over the second from where the first ended |
| ProgramDialog.RunKeepsDataKeys | telegram/states.py:47-104 | over any run, the stored data holds only the `difficulty` and `weeks` keys |
| ProgramDialog.FilterDialogQuery | telegram/states.py:21-104 | for both the as-written and the corrected weeks handler, the complete dialog ends idle, asking for the programs once, at the last update, with difficulty `dop + d` and weeks `wop + n` |
| ProgramDialog.KeyboardIntFilter | server/app/filters.py:99-127 | a keyboard comparison followed by digits, read as an int filter, does not raise and keeps `x` exactly when `x` compares that way with the number |
| ProgramDialog.KeyboardFloatFilter | server/app/filters.py:99-127 | a keyboard comparison followed by a plain decimal, read as a float filter, does not raise and keeps `x` exactly when `x` compares that way with the number |
| ProgramDialog.WeeksFilterEndToEnd | telegram/states.py:77-104 | end to end, with either weeks handler: the weeks filter the dialog asks for does not raise and keeps `x` exactly when `x` compares with the typed number as the pressed button says |
| ProgramDialog.DifficultyFilterEndToEnd | telegram/states.py:47-74 | end to end, with either weeks handler, the same for the difficulty filter |
| ProgramDialog.RetypedWeeksIgnoredAsWritten | telegram/states.py:95-97 | as written, after a rejected number the next typed number is ignored and nothing is stored |
| ProgramDialog.StuckDialogAsWritten | telegram/bot.py:64-73 | as written, in `weeks_value` a stale weeks button does nothing, and a stale difficulty button moves the dialog to `weeks_op` with the difficulty prefixed a second time |
| ProgramDialog.RetypedWeeksAccepted | telegram/states.py:77-97 | corrected, the number typed after a rejected one is read and the dialog moves on |

## Left out

- HTTP client methods of `ApiClient` (`get_new_token`, `create_user`, `get_user`) and the `asyncio.create_task` writes: network I/O and scheduling.
- The asyncio locks of `telegram/api.py`: concurrency. Only the sequential semantics of `update_users`/`update_tokens` is modelled; the unlocked read is not.
- `JsonCacheHandler.get_user` and `get_token`: they pass a `data_list` argument the record classes do not declare, so that path always raises.
- The `bot/` directory: an earlier, superseded version of the bot.
- ORM aggregates (`difficulty`, `training_count`, `Training.time`) and Django glue (serializers, views, URLs, admin, forms, signals): database and framework code. Only the arithmetic after the `avg_training_time` aggregate is modelled.
- Telegram UI: keyboards, message texts, middlewares. Replies sent to the user are not modelled; `get_programs` is recorded as an effect, since `telegram/handlers.py` does not define it.
- The callback-data parsing is done by aiogram: a callback is modelled by its prefix and fields, and a message is assumed to carry text.
- SHA-512 and JWT signature and expiry checks: foreign library calls, taken as the `Digest` and `JwtDecode` parameters. `ServerModels.CheckChatIdExact` assumes a collision-free digest.
- FileCache.ToJson: the JSON library is taken as the `Codec` parameter, and the lemmas about it assume only that it is `Lawful`: `loads` inverts `dumps` on the values JSON can write (finite decimals, lists and string-keyed dicts of them), `loads` gives only such values, and the empty list and dict print as `[]` and `{}`. JSON text itself, `NaN` and `Infinity` are not modelled; the codec `LawfulCodec` builds to show the law can be met writes a prefix-free code of its own, not JSON.
- FileCache.MissingFileIsEmpty, FileCache.UpdateAppends, FileCache.UpdateAllAppends, FileCache.UpdatesFromNothing and FileCache.ClearedCacheReadsEmpty state their contents only for a `Lawful` codec; for an arbitrary one the model promises nothing about what the file holds.
- Text.ParseInt and Text.ParseFloat accept only an optional sign, ASCII digits and (for `float`) one point. Surrounding whitespace, underscores, exponents, `nan`/`inf` and non-ASCII digits are refused, though Python accepts them. Text.ParseInt also has no digit limit. CPython 3.11 (and 3.10.7 on) refuses a numeral of more than 4300 digits with `ValueError` by default. The limit is an interpreter setting (`sys.set_int_max_str_digits`, `PYTHONINTMAXSTRDIGITS`), not part of the program.
- Text.ParseFloat, Text.ParseFloatOfPlainDecimal and ProgramDialog.ReadDifficulty treat a numeral as the exact real it spells. Python's `float` rounds it to the nearest double. So a numeral that Python rounds into [1, 5] but that lies just outside it, such as `5.00000000000000001` or `0.99999999999999999`, is refused by the model. `get_difficulty_op` accepts it (telegram/states.py:49-50). ProgramDialog.DifficultyAccepted and ProgramDialog.DifficultyAcceptedIffValid inherit the same difference.
- Registry.NewUser refuses the keywords `id`, `last_login`, `date_joined` and `cash`, which `TelegramUser(**extra_fields)` accepts. See the Registry.CreateUser line below.
- Filters.IntShapeParses: under CPython's default 4300-digit limit, a text in the int pattern's language longer than 4300 digits is refused by `int`, which the lemma does not state.
- Filters.Convert: for the same reason, an int literal of more than 4300 digits is modelled as converting, so `filter("<" + "1" * 4301, int)` is a comparison in the model where default CPython raises `ValueError`.
- Filters.Filter compares values only within their own class; Python's mixed int/float comparisons, where `int.__gt__(float)` returns `NotImplemented`, are not modelled. Floats are Dafny `real`s, without rounding.
- Utf8.Decode is strict and refuses surrogate code points, as Python's default `decode()` does; `str` values that hold lone surrogates are not modelled.
- FileCache.Post: `os.path.exists` is modelled only for files; a directory at a file's path is not modelled.
- Registry.CreateUser does not enforce the `max_length` of the text columns, and refuses keyword arguments of the wrong type or of unknown fields, where Django would coerce or fail at a later point. This covers only values of the wrong type for a known field. A keyword that names no field and no property raises `TypeError` at once in `TelegramUser(**extra_fields)`, as `UnexpectedField` models. Four keywords Django accepts are refused as `UnexpectedField` all the same: the `AbstractUser` fields `id`, `last_login` and `date_joined`, and the `cash` property (server/app/models.py:48-57). Django assigns `cash` through its setter, so `cash=5` sets the balance to 5 and `cash=-1` raises `ValidationError`. No visible caller passes any of them: the serializer passes only the validated `telegram_id`, `chat_id`, `first_name` and `last_name` (server/app/serializers.py:135). The two `IntegrityError`s of `save()` are merged into one `Duplicate` error.
- Permissions.Permits compares groups as whole rows rather than by primary key.
- The field validators of `height` (1 to 3), `weight` (20 to 200), `repetition_count` (at least 1) and `proteins`, `fats` and `carbs` (at least 0), at server/app/models.py:135-146, 356-358 and 424-430, are not modelled. Django runs field validators only in `full_clean` and in serializers, which are framework code. No modelled operation reads or writes those fields. Only the bounds on the balance, the number of weeks and the difficulty are modelled, since modelled operations check them.
- ServerModels.AvgTrainingTime returns a whole number of microseconds in both branches, whereas the source returns the integer `0` rather than a `timedelta` when the aggregate is missing.
- ProgramDialog.WeeksAcceptedIffValid: the dialog does not check the `SmallIntegerField` maximum (32767), so the equivalence with `ProgramValid` holds only up to that bound; the lemma states the gap above it instead of an equivalence.
- ProgramDialog.DifficultyAcceptedIffValid: the `assert` in `get_difficulty_op` is kept; running Python with `-O` would strip it, and that mode is not modelled.

## Findings

| source | as written | input that shows it | evidently intended | confidence | as-written member | corrected member |
|---|---|---|---|---|---|---|
| telegram/states.py:95-97 | a rejected number of weeks sets the state to `weeks_value`, which has no message handler, so the number the user types next is ignored and nothing is stored; the weeks buttons do nothing there, and only a stale difficulty button moves the dialog on, prefixing the difficulty a second time (`>3` becomes `>>3`) | in `weeks_op`, type `0` and then `4`: the state is `weeks_value` and no weeks are stored | stay in `weeks_op` and read the next number, as `get_difficulty_op` does for the difficulty | not executed | ProgramDialog.RetypedWeeksIgnoredAsWritten | ProgramDialog.RetypedWeeksAccepted |
