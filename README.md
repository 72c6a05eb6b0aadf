# Discord RPG bot: a verified model of its core

The bot keeps a role-playing record for every member of the Discord guilds it
is in. Each record holds a level, experience and nine more stats, and lives in
a PostgreSQL `users` table keyed by the member's numeric user ID. The model
covers the decisions the bot makes around that table:

- **`Strconv`** (`strconv.dfy`): the parts of Go's `strconv` package the bot
  calls.
  - `FormatUint` and `Itoa` are the printers.
  - `ParseUint(s, 10, 64)` is the parser. Its digit loop is written out, so
    it reports an overflow in the leading digits before a later non-digit,
    as Go does.
- **`Utils`** (`utils.go`): `stringToInt` and `intToString`, the conversions
  between a snowflake ID in text form and the `uint64` key. Parse errors
  are swallowed.
- **`Users`** (`users.go`, pure part):
  - the `user` record and its default constructor;
  - the stats text of the `String` method, with a reader that proves the
    text loses nothing;
  - the experience curve `nextLevelExp`, as exact integer rounding.
- **`Store`** (`users.go`, database part):
  - The table is a map from `uint64` key to the eleven stat columns.
  - `UserStore` is a class over that map. Its methods follow the source's
    loops and queries: `lookUpNewUsers`, `addUsersToDB`, `getUserStatus`,
    `doesUserExistInDB` and `levelup`.
  - Specification functions (`NewUsers`, `Batch`, `Insertable`, `Fetch`,
    `IncrementLevel`) state what each query computes. Lemmas prove the
    properties around them: the reconciliation filter, the atomic bulk
    copy, reading back what was copied, and a levelup touching exactly
    one field.
- **`Handlers`** (`main.go`): `guildCreate`, `guildMemberAdd` and
  `messageCreate` as methods of a `Bot` class.
  - The class holds the bot's own ID, the store, and a log of sent
    messages that stands for `ChannelMessageSend`.
  - The methods model when the bot inserts, when it ignores a message,
    the exact command match and the exact reply strings.

A database or transport failure is not modelled mechanically. Each store
operation takes a `fault` flag that stands for "the statement failed", and
the handlers pass those flags through.

The level-up reply keeps the source's spelling, "sucessfully".

## Model

| member | source | states |
|---|---|---|
| `Strconv.ParseUint` | utils.go:7 | Three cases. A non-empty all-digit string with value at most 2^64-1 gives its value and no error. Leading digits that already exceed 2^64-1 give 2^64-1 with a range error, even if a non-digit follows. Anything else (empty, sign, other character) gives 0 with a syntax error. |
| `Strconv.AccumulateMeaning` | utils.go:7 | Go's left-to-right digit loop, started on any prefix of the leading digits, ends in the outcome that the leading digits and the rest of the string determine: range error first, then syntax error, else the value. |
| `Strconv.Accumulate` | utils.go:7 | Go's digit loop, written out digit by digit. What it returns is stated by `Strconv.AccumulateMeaning` and `Strconv.ParseUint`. |
| `Strconv.Decimal` | utils.go:17 | `FormatUint(n, 10)` is canonical (digits only, no sign, no leading zero except "0") and denotes exactly `n`. |
| `Strconv.DecimalOfValue` | utils.go:16-18 | Every canonical decimal string is the rendering of its own value, so the rendering is the only canonical spelling. |
| `Strconv.Itoa` | users.go:41-51 | `strconv.Itoa` gives canonical digits for a non-negative number, and a '-' followed by the canonical digits of the absolute value for a negative one. |
| `Strconv.ReadItoa` | users.go:41-51 | Reading back what `Itoa` printed gives the original integer, for every integer. |
| `Strconv.ItoaNoSeparators` | users.go:41-51 | A printed number never contains a newline, a tab or a space, so it cannot break the stats layout. |
| `Utils.StringToInt` | utils.go:5-14 | `stringToInt` always yields a `uint64`: the value of a well-formed ID, 2^64-1 on overflow, and 0 on any other malformed ID. |
| `Utils.IntToString` | utils.go:16-18 | `intToString` is the canonical base-10 rendering of its argument. |
| `Utils.StringToIntOfIntToString` | utils.go:5-18 | Printing then parsing gives back every `uint64`, with no parse error. |
| `Utils.IntToStringOfStringToInt` | utils.go:5-18 | Parsing then printing gives back every canonical decimal string below 2^64. |
| `Utils.IntToStringInjective` | utils.go:16-18 | Two keys with the same rendering are the same key. |
| `Utils.StringToIntErrorSwallowed` | utils.go:7-13 | The parse reports no error exactly on well-formed IDs. When it does report one, the caller still gets a number, 0 or 2^64-1. |
| `Users.CreateDefaultUser` | users.go:149-164 | A default user has the given ID, level 1, exp 0, HP 100 of 100, MP 50 of 50, and strength, agility, intelligence, defence and magic defence all 1. Its current HP and MP do not exceed their maxima. |
| `Users.StatsText` | users.go:40-54 | The `String` method, label by label. Its properties are stated by `Users.StatsTextIsLayout`, `Users.StatsTextLines`, `Users.StatsTextRoundTrip` and `Users.StatsTextInjective`. |
| `Users.StatsTextIsLayout` | users.go:40-54 | The stats text is the fixed nine-line layout filled with the eleven printed stats, in field order. |
| `Users.StatsTextLines` | users.go:40-54 | The stats text splits at newlines into exactly the nine labelled lines ("Level", "Exp", HP pair, MP pair, "Strength", "Agility", "Intelligence", "Defence", "Magic Defence"). There is no trailing newline. |
| `Users.StatsTextRoundTrip` | users.go:40-54 | Reading the stats text back with the user's ID restores the whole record. |
| `Users.StatsTextInjective` | users.go:40-54 | Two users with the same ID and the same stats text are equal. |
| `Users.NextLevelExp` | users.go:166-169 | The threshold is within 2/5 of the exact value 4·level³/5, for every integer level. |
| `Users.NextLevelExpIsRound` | users.go:166-169 | The threshold equals `math.Round(4·level³/5)`, with halves rounded away from zero. |
| `Users.NextLevelExpExamples` | users.go:166-169 | Level 1 needs 1 experience point and level 5 needs 100. |
| `Users.NextLevelExpIncreasing` | users.go:166-169 | From level 1 on, each level's threshold is strictly larger than the previous one. |
| `Store.RowOf` | users.go:99-103 | The eleven columns copied for a user, rebuilt with the user's ID, give back the same user. |
| `Store.UserOf` | users.go:110-115 | The user that getUserStatus fills in: the requested ID plus the scanned columns. `Store.RowOf` states that it inverts the column copy, and `Store.Fetch` and `Store.FetchAfterInsert` state what it returns. |
| `Store.Key` | users.go:101 | The key the copy writes for a user, `stringToInt` of its ID. `Store.BatchKeys` and `Store.SqlKey` state that it is the key a query by the same well-formed ID selects. |
| `Store.SqlKey` | users.go:111-115 | A text ID selects a key exactly when it is a well-formed decimal `uint64`, and the key is `stringToInt` of the ID. |
| `Store.Fetch` | users.go:108-121 | The read succeeds exactly when the ID selects a stored key. The user it returns carries the requested ID and that row's columns. It fails with "invalid ID" or "no rows" otherwise. |
| `Store.StoredIds` | users.go:66-75 | The set the first loop of lookUpNewUsers builds. `Store.UserStore.LookUpNewUsers` proves that the loop computes it, and `Store.StoredIdsMeaning` states which IDs it contains. |
| `Store.NewUsers` | users.go:81-88 | The member filter of lookUpNewUsers. Its properties are stated by `Store.NewUsersMeaning`, `Store.NewUsersAppend`, `Store.NewUsersEmptyTable` and `Store.NewUsersDistinct`. |
| `Store.Batch` | users.go:96-103 | The rows the bulk copy writes. Its keys and rows are stated by `Store.BatchKeys` and `Store.BatchRows`. |
| `Store.Insertable` | users.go:96-105 | When the atomic copy succeeds, row by row. `Store.InsertableMeaning` states it as "distinct keys, none stored". |
| `Store.IncrementLevel` | users.go:137 | The table after the update statement. `Store.IncrementLevelEffect` and `Store.FetchAfterLevelup` state its effect. |
| `Store.UserStore.LookUpNewUsers` | users.go:56-91 | A failed query is an error. Otherwise the two loops return `NewUsers(members, StoredIds(rows), botID)`. The first loop collects the stored keys rendered by `intToString`; the second keeps the members in order. |
| `Store.UserStore.AddUsers` | users.go:93-106 | The bulk copy succeeds exactly when the batch is insertable and then adds every user's row under `stringToInt` of its ID. A duplicate key aborts it with nothing written. A failed statement writes nothing. |
| `Store.UserStore.GetUserStatus` | users.go:108-121 | A failed statement is an error. Otherwise the result is `Fetch` of the table. |
| `Store.UserStore.DoesUserExist` | users.go:123-134 | A missing row is reported as `false` with no error, and a present row as `true`. Only a failed statement or an unusable ID is an error. |
| `Store.UserStore.SelectTrue` | users.go:125 | The single-row query returns `true` for a stored key and "no rows" otherwise. |
| `Store.UserStore.Levelup` | users.go:136-147 | Succeeds exactly when the statement runs and the ID's key is stored. Success raises that row's level, per `IncrementLevel`. Any failure ("not updated", invalid ID, transport) leaves the table unchanged. |
| `Store.NewUsersMeaning` | users.go:81-88 | The reconciliation returns default users only, each for a member that is neither stored nor the bot. Every such member gets one. The list is never longer than the member list. |
| `Store.NewUsersAppend` | users.go:81-88 | Reconciling a roster in two pieces gives the concatenation of the two results, so member order is kept. |
| `Store.NewUsersEmptyTable` | users.go:81-88 | With an empty table, the result is a default user for each entry of the roster with the bot filtered out, position by position. This holds whether or not the bot is in the roster. |
| `Store.WithoutBotMeaning` | users.go:85 | The filtered roster holds exactly the members whose ID differs from the bot's. |
| `Store.WithoutBotAppend` | users.go:81-88 | Filtering a roster in two pieces gives the concatenation of the two filtered pieces. |
| `Store.WithoutBotAbsent` | users.go:85 | A roster without the bot is left unchanged by the filter. |
| `Store.WithoutBotOnce` | users.go:85 | When the bot appears once, at position j, the filter removes exactly that entry. |
| `Store.NewUsersEmptyTableBotOnce` | users.go:81-88 | With an empty table and the bot once in the roster, as guildCreate receives it, the result is a default user for every other member, in member order. |
| `Store.NewUsersDistinct` | users.go:81-88 | Distinct member IDs give new users with distinct IDs. |
| `Store.StoredIdsMeaning` | users.go:66-83 | A member ID counts as stored exactly when it is canonical, below 2^64, and its key is in the table. So a non-canonical spelling of a stored key counts as new. |
| `Store.BatchKeys` | users.go:96-103 | The keys the copy writes are exactly `stringToInt` of the users' IDs. |
| `Store.BatchRows` | users.go:96-103 | With no repeated key, each user's row is written with all eleven stats unchanged. |
| `Store.InsertableDistinct` | users.go:96-105 | A copy that succeeds had pairwise distinct keys, none of them already stored. |
| `Store.DistinctInsertable` | users.go:96-105 | Pairwise distinct keys, none of them stored, make the copy succeed. |
| `Store.InsertableMeaning` | users.go:96-105 | The copy succeeds if and only if the keys are pairwise distinct and none is stored. |
| `Store.AddingStoredUserFails` | users.go:96-105 | A batch that contains an already-stored user always fails; it never skips that user silently. |
| `Store.ReconciledMembersCovered` | main.go:74-86 | After the reconciliation's users are copied, every non-bot member's key is in the table. |
| `Store.ReconciledKeysNew` | users.go:81-88 | No user the reconciliation returns has a stored key, provided the member IDs are canonical snowflakes. |
| `Store.ReconciledKeysDistinct` | users.go:81-88 | Distinct canonical member IDs give new users with distinct keys. |
| `Store.ReconciledInsertable` | main.go:74-86 | For distinct canonical member IDs, the reconciliation's batch is always insertable. The copy in `guildCreate` can then fail only through the database. |
| `Store.IncrementLevelEffect` | users.go:137 | The update keeps every key and raises the level of one row by exactly one. Every other column of that row and every other row stay the same. |
| `Store.FetchAfterInsert` | users.go:96-115 | A user copied into the table is read back unchanged by `getUserStatus`, when its ID is a well-formed snowflake. |
| `Store.FetchAfterLevelup` | users.go:136-147 | After a levelup, `getUserStatus` returns the same user one level higher. |
| `Handlers.Bot.Send` | main.go:121 | `ChannelMessageSend` appends exactly one message (channel and text) to the sent log. |
| `Handlers.StatusReply` | main.go:121 | The "!status" success reply. `Handlers.StatusReplyDecodes` and `Handlers.RepliesDistinguishOutcome` state what it carries. |
| `Handlers.LevelupReply` | main.go:135 | The "!levelup" success reply, spelled as in the source. `Handlers.RepliesDistinguishOutcome` states that it differs from the error reply. |
| `Handlers.Bot.GuildCreate` | main.go:72-87 | The table grows by the batch of `lookUpNewUsers` exactly when the lookup and the copy both succeed. Otherwise (failed lookup, empty list, failed copy) it is unchanged. After a successful run, every non-bot member's key is stored. |
| `Handlers.Bot.GuildMemberAdd` | main.go:89-103 | A default row is added under the joining member's key only when that key is absent and the insert succeeds. A failed or unusable existence check changes nothing. |
| `Handlers.Bot.MessageCreate` | main.go:105-139 | The bot's own messages and any content other than exactly "!status" or "!levelup" change nothing and send nothing. "!status" sends the author's stats or "Error getting user information" and leaves the table unchanged. "!levelup" raises the author's level and sends "<name> has sucessfully leveled up", or sends "Error leveling up" and leaves the table unchanged. |
| `Handlers.StatusReplyDecodes` | main.go:121 | A "!status" reply is "<name>'s stats" and a newline, followed by text that reads back as the author's record. |
| `Handlers.RepliesDistinguishOutcome` | main.go:113-135 | A stats reply contains a newline and the status error text does not. A successful level-up reply never equals the level-up error text. |

## Left out

- `init` and `main` (main.go:22-69) are not modelled: configuration, database connection, websocket, signals and shutdown are process lifecycle.
- The pgx mechanics (`Query`, `QueryRow`, `Exec`, `CopyFrom`, `Rows.Scan`, `rows.Err`) are replaced by the map store. Every way such a call can fail is one `fault` flag per operation, and a scan error counts as one of them.
- The table schema is not part of the source. The model assumes that `user_id` is the primary key (so a bulk copy with a stored or repeated key fails atomically) and that a text parameter selects a key only when it is a plain decimal `uint64` (`Store.SqlKey`). PostgreSQL's own text-to-number conversion (surrounding spaces, a '+' sign, signed 64-bit columns) is not modelled.
- The discordgo session is reduced to the bot's user ID and a log of sent messages. `ChannelMessageSend` errors are only logged in the source, so the model does not represent them.
- zap logging has side effects only and is not modelled.
- Concurrency: each handler call is one atomic step. Interleaved handlers are not modelled.
- Integer width: record fields are unbounded integers. `levelup`'s `level + 1` overflow in the database column and Go's 64-bit `int` wrap-around are not modelled.
- `Users.NextLevelExp`: the source computes in float64 (`math.Pow`, division, `math.Round`). The model is the exact integer rounding, which the float computation matches for levels below 112067. From there on, the float64 quotient can land exactly on a half (level 112067 is the first such level) and `math.Round` then gives one more than the exact rounding. Precision loss at those levels is not modelled.
- `Handlers.Bot.GuildCreate`: its coverage promise is stated under the condition that the batch is insertable. `Store.ReconciledInsertable` discharges that condition for distinct canonical member IDs, which Discord guarantees, but the handler itself does not assume it.
