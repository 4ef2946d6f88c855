# Winter Garden bot: a Dafny model of its stitch-and-flower core

The Winter Garden bot keeps a cross-stitch challenge for a chat group. A
player reports stitches with `/add <n>`. The bot adds them to a per-user
total in SQLite. Each time the total passes a multiple of 500, the player
gets a random flower emoji. One request in ten a "caterpillar" eats 100
stitches first.

This project models the parts of that program that decide the numbers. It
proves what those parts guarantee.

- `flowers.dfy` (module `Flowers`) models `flowers.py`:
  - the two flower pools;
  - `get_random_flower`: only base flowers below ten owned flowers;
  - `should_give_flower`;
  - `Draws`: a run of draws made by a grant loop.
- `db.dfy` (module `Db`) models `db.py`.
  - Class `Store` holds the `users` table as a map from user id to row. It
    also holds the per-user flower lists that `handlers/add.py` reads and
    writes.
  - Every query and update of `db.py` is a method or function of `Store`,
    with its whole effect on the table stated.
  - `get_all_users` and `get_top_users` are loops over the table, proved
    against order and selection properties.
- `message_log.dfy` (module `MessageLog`) models the duplicate-message guard
  of `handlers/utils.py`, both as intended and as written. See Findings.
- `command.dfy` (module `Command`) models what the two handlers share:
  - the incoming message;
  - the display name (`first_name or "Игрок"`);
  - the parse of `/add <n>` via `str.split`, `str.isdigit` and `int`, with
    its two rejections;
  - the reply.
- `text.dfy` (module `Text`) models the Python string operations used:
  - `split`, `strip` and `" ".join`;
  - ASCII decimal digits.
- `add_handler.dfy` (module `AddHandler`) models `add_stitches` of
  `handlers/add.py`.
  - It registers the user, rolls the caterpillar, credits the stitches, and
    tops the flower list up to `total // FLOWER_THRESHOLD` entries.
  - It replies with the joined list.
  - Each step is a method over `Store`. Each is proved equal to a
    specification function, and the lemmas are stated over those functions.
- `main_handler.dfy` (module `MainHandler`) models the older `add_stitches`
  of `main.py`, lines 35-115.
  - It reads the bouquet string, rolls the caterpillar, and reads the
    stitches back after each update.
  - It grants `new_level - prev_level` flowers, appending each to the stored
    string through `update_flowers` and to the in-memory string.
- `versions.dfy` (module `Versions`) compares the two handlers on one input
  where they differ.

Randomness is an input:
- The caterpillar roll is a `bool`.
- The `k`-th `random.choice` of a grant is `pool[picks(k) % |pool|]`, for an
  oracle `picks: nat -> nat`.
  - `Flowers.RandomFlowerCoversPool` shows that every flower of the pool is
    reachable this way.

`user_id INTEGER PRIMARY KEY` makes the SQLite `rowid` equal to the user id.
So `ORDER BY rowid ASC` in `get_all_users` lists users by ascending user id,
and the model does the same. Insertion order is not kept by the code.

The code fixes some behaviours that a reader might expect otherwise, and the
model follows the code:
- `get_user` returns name, stitches and flowers, not the caterpillar count.
- Neither handler calls `increment_caterpillars`, so a caterpillar only
  subtracts 100 stitches.
- `get_top_users` sorts by stitches only. The order among equal counts is
  left open, not stable.

## Model

| member | source | states |
|---|---|---|
| Flowers.PoolsShape | flowers.py:4-5 | five base and three advanced flowers, eight distinct in all, the two pools disjoint |
| Flowers.RandomFlower | flowers.py:7-11 | the flower drawn is one of the eight, and a base flower while fewer than ten are owned |
| Flowers.RandomFlowerCoversPool | flowers.py:9-11 | every flower of the pool in force is drawn for some oracle value, so the choice ranges over the whole pool |
| Flowers.Draws | main.py:86-90 | a grant loop of `n` iterations draws exactly `n` flowers, none when `n <= 0` |
| Flowers.DrawsStep | main.py:86-90 | one more loop iteration appends one more draw, made with the count of flowers owned so far |
| Flowers.DrawAt | main.py:86-90 | the k-th draw of a grant loop is get_random_flower of the starting count plus k |
| Flowers.DrawsChosen | handlers/add.py:82-86 | every draw of a loop sees the owned count incremented once per earlier draw |
| Flowers.DrawsRarity | flowers.py:7-11 | every draw is a flower, and a draw made while fewer than ten are owned is a base flower |
| Flowers.NextMark | flowers.py:13-14 | the next multiple of 500 above a count is a multiple of 500, above it and at most 500 beyond it |
| Flowers.ShouldGiveIffMarkReached | flowers.py:13-14 | should_give_flower holds exactly when the new total reaches the next multiple of 500 above the old one |
| Flowers.NoFlowerWithoutGrowth | flowers.py:13-14 | no flower is due when the total has not grown |
| Flowers.FlowerAfterFullLevel | flowers.py:13-14 | a flower is always due after a gain of 500 or more |
| Db.JoinFlowerAppends | db.py:47-56 | appending a flower to a stripped string gives the flower alone when the string is empty, else the string, a space and the flower |
| Db.AppendAll | db.py:51 | a string updated by update_flowers stays free of outer whitespace |
| Db.AppendAllStep | db.py:47-56 | one more update_flowers call joins one more flower onto the stored string |
| Db.AppendAllJoins | db.py:51 | update_flowers calls on an empty string leave the flowers joined by single spaces |
| Db.SmallestExists | db.py:68 | a non-empty table has a smallest user id |
| Db.MostStitchesExists | db.py:76 | a non-empty set of rows has a row with the most stitches |
| Db.ListedAppend | db.py:65-71 | a row listed after an append is one listed before or the one appended |
| Db.RowsByUserId | db.py:65-71 | every row of the table is listed once, with its contents, in ascending user id (the rowid) |
| Db.LimitCount | db.py:76 | LIMIT yields all rows when there are fewer than the limit, else exactly the limit |
| Db.TakeMost | db.py:76 | taking a row with the most stitches among the rest extends a correct top list |
| Db.TopByStitches | db.py:73-79 | the top list has LIMIT-many distinct rows of the table, in descending stitches, none outranked by a row left out |
| Db.Store.constructor | db.py:5-16 | a new database has no users and no flower lists |
| Db.Store.AddUser | db.py:18-23 | the id is registered; an existing row is left unchanged; for a new id the row holds the name, 0 stitches, an empty flower string and 0 caterpillars, and get_user then gives (name, 0, "") |
| Db.Store.UpdateStitches | db.py:25-30 | the user's stitches grow by the amount and nothing else changes, so get_user then reports the old count plus the amount; an unknown id changes nothing |
| Db.Store.SubtractStitches | db.py:32-37 | the user's stitches drop by the amount but not below 0, which get_user then reports; an unknown id changes nothing |
| Db.Store.UpdateFlowers | db.py:47-56 | the flower string becomes the old string, a space and the flower, stripped, and get_user then reports that string; an unknown id changes nothing |
| Db.Store.ResetAll | db.py:58-63 | every user is deleted, and get_user finds nobody afterwards |
| Db.Store.GetAllUsers | db.py:65-71 | every user exactly once with its row, in ascending user id |
| Db.Store.GetTopUsers | db.py:73-79 | min(limit, users) views of distinct users, in descending stitches, none outranked by a user left out |
| Db.Store.IncrementCaterpillars | db.py:88-93 | the user's counter grows by one and nothing else changes; an unknown id changes nothing |
| Db.Store.AddFlowerToUser | handlers/add.py:84 | the flower is appended to that user's list; other lists are untouched |
| MessageLog.Cleaned | handlers/utils.py:5-10 | the log is emptied above 1000 ids, otherwise kept; it never holds more than 1000 |
| MessageLog.GuardStaysBounded | handlers/utils.py:8-10 | a log that checks, adds and cleans never holds more than 1000 ids, whatever the stream |
| MessageLog.GuardRemembersAll | handlers/add.py:31-35 | while the bound is not reached, the log holds every id seen |
| MessageLog.GuardAdmitsOnce | handlers/add.py:31-35 | while the bound is not reached, exactly the ids of the stream not already logged are admitted, each once, in the order of their first arrival |
| MessageLog.ReplayAfterCleanup | handlers/utils.py:8-10 | once the clean-up empties the log, an id seen before it is admitted a second time |
| MessageLog.Log.constructor | handlers/utils.py:4 | the log starts empty |
| MessageLog.Log.Record | handlers/add.py:34 | the message id is added to the log |
| MessageLog.Log.Clean | handlers/utils.py:5-10 | above 1000 ids the log is emptied in place, otherwise unchanged |
| MessageLog.IdSet.constructor | handlers/utils.py:4 | a new set object is empty |
| MessageLog.UtilsModule.constructor | handlers/utils.py:4 | the module global names a new empty set |
| MessageLog.UtilsModule.CleanMessageLog | handlers/utils.py:5-10 | above 1000 ids the global is rebound to a new empty set; otherwise it names the same object |
| MessageLog.AdmitAsWritten | handlers/add.py:31-35 | the handler's imported set refuses a known id and gains every new one, whatever the clean-up does to the global |
| MessageLog.RunAsWritten | handlers/add.py:13 | through the handler as written, its set ends holding every distinct id of the stream, with each admitted once |
| MessageLog.AsWrittenExceedsCapacity | handlers/utils.py:10 | 1001 distinct ids leave the handler's set above the 1000 bound that the intended guard keeps |
| Command.DisplayName | handlers/add.py:24 | the first name when there is one, otherwise a non-empty default |
| Command.ParseAmount | handlers/add.py:38-48 | an accepted amount is positive; "not positive" is given only to a second word of zeros |
| Command.AfterCaterpillar | handlers/add.py:63-65 | a caterpillar takes 100 stitches from a count of at least 100 and leaves 0 below that; without one the count is kept |
| Command.ParseAmountReadsSecondWord | handlers/add.py:38-48 | for any text whose second word is d: a non-digit d gets the prompt, d of only zeros gets "not positive", any other digit string is accepted with its decimal value |
| Command.ParseAmountAccepts | main.py:47-55 | `/add n` with a positive decimal n yields exactly n |
| Command.ParseAmountNeedsArgument | handlers/add.py:39-42 | every text that splits into fewer than two words (empty, `/add` alone, `/add` and whitespace) gets the prompt |
| Command.ParseAmountBareCommand | handlers/add.py:39-42 | a single command word with nothing after it gets the prompt |
| Command.ParseAmountRefusesZero | handlers/add.py:44-48 | an argument of zeros passes isdigit and is refused as not positive |
| Text.LStrip | handlers/add.py:94 | the result is a suffix of the input that does not start with whitespace, and every character removed is whitespace |
| Text.RStrip | handlers/add.py:94 | the result is a prefix of the input that does not end with whitespace, and every character removed is whitespace |
| Text.Strip | db.py:51 | the result has no leading or trailing whitespace and is never longer than the input |
| Text.StripSlice | db.py:51 | strip returns a contiguous slice of the input, and everything before and after that slice is whitespace |
| Text.StripKeeps | db.py:51 | a string without outer whitespace is unchanged by strip |
| Text.StripAppendChar | db.py:51 | strip of a string plus a space and a flower equals the stripped string plus a space and the flower |
| Text.TakeWord | handlers/add.py:38 | the first word is a prefix with no whitespace, ending at whitespace or at the end |
| Text.WordsOfPair | handlers/add.py:38 | two words joined by a space split back into those two words |
| Text.Decimal | main.py:48 | the decimal form of n is all digits, without a leading zero |
| Text.DecimalRoundTrip | main.py:52 | int() of the decimal form of n is n |
| Text.ZeroValueIffZeros | main.py:53 | a digit string has value 0 exactly when all its digits are '0' |
| Text.JoinChars | handlers/add.py:94 | `" ".join` of n flowers has 2n-1 characters and no outer whitespace |
| AddHandler.TopUp | handlers/add.py:75-86 | the list grows to total // threshold entries and keeps its old entries as a prefix; when it is long enough it is unchanged |
| AddHandler.TopUpRarity | handlers/add.py:82-86 | each new entry is get_random_flower of the count owned before it, so the first ten flowers ever are base flowers |
| AddHandler.TopUpIdempotent | handlers/add.py:78-80 | topping up again to the same total grants nothing |
| AddHandler.CreditedAtLeastAmount | handlers/add.py:70-71 | the credited total is at least the amount added |
| AddHandler.CreditKeepsWellFormed | handlers/add.py:50-71 | counts stay non-negative and flower strings stripped after a credit |
| AddHandler.CreditReportsStored | handlers/add.py:94-104 | the reply shows the stored total, the number of flowers added to the list, and the list joined and stripped |
| AddHandler.CreditTouchesOnlySender | handlers/add.py:50-86 | no other user's row or flower list changes |
| AddHandler.CreditHighWater | handlers/add.py:75-86 | afterwards the list holds max(old length, total // threshold) entries and keeps its old entries |
| AddHandler.CaterpillarGrantsNothingTwice | handlers/add.py:63-80 | a caterpillar followed by a credit of at most 100 grants no flower already paid for |
| AddHandler.GrantFlowers | handlers/add.py:75-86 | the loop leaves the lists topped up as TopUp says, and reports the new list and the number added |
| AddHandler.Credit | handlers/add.py:50-104 | the table, the flower lists and the reply are those of the credit specification |
| AddHandler.AddStitches | handlers/add.py:22-104 | the wrong chat and a duplicate change nothing; a new message id is recorded and the log cleaned; a bad argument then gets its rejection and changes no table; otherwise the credit |
| MainHandler.LevelsGainedBounds | main.py:79-81 | the levels gained by a credit are between 0 and amount // 500 + 1, and positive exactly when should_give_flower holds |
| MainHandler.SumCountsOfEmpty | main.py:85 | the empty bouquet counts no flowers |
| MainHandler.SumCountsStep | main.py:85 | one more character adds one to the count when it is a flower |
| MainHandler.TallyIsFlowerChars | main.py:85 | summing `count(f)` over the eight flowers counts the flower characters of the string |
| MainHandler.Spaced | main.py:89 | the in-memory suffix has two characters per flower and ends with the last flower |
| MainHandler.FlowerIsNotSpace | flowers.py:4-5 | no flower is whitespace |
| MainHandler.FlowersAreNotSpace | flowers.py:4-5 | none of the eight flowers is whitespace or a space |
| MainHandler.PersistedMatchesReported | main.py:88-89 | the string update_flowers stores equals the stripped in-memory bouquet |
| MainHandler.SpacedStep | main.py:88-89 | stripping after each appended flower or once at the end gives the same bouquet |
| MainHandler.SpacedEndsLikeList | main.py:89 | the in-memory bouquet does not end with whitespace |
| MainHandler.SpacedSnoc | main.py:89 | one more flower appends a space and that flower |
| MainHandler.FlowerCharsSpaceThen | main.py:85-89 | a space and a flower add one to the flower count |
| MainHandler.AppendAllCounts | main.py:85-90 | storing n flowers raises the count of main.py's next request by n |
| MainHandler.GrantedAreFlowers | main.py:83-90 | every granted flower is one of the eight and not whitespace |
| MainHandler.CreditReportsStored | main.py:97-105 | the reply shows the stored stitch count and the stored flower string |
| MainHandler.ReportedBouquet | main.py:88-103 | the stripped in-memory bouquet equals the string left in the table |
| MainHandler.CreditCountsGranted | main.py:85-90 | the stored bouquet counts exactly the reported number of flowers more than before |
| MainHandler.GrantedPerLevel | main.py:79-90 | the grant is `new_level - prev_level` when positive and none otherwise, at least one exactly when should_give_flower holds, at most amount // 500 + 1 |
| MainHandler.GrantedRarity | main.py:85-90 | the k-th granted flower is get_random_flower of the bouquet count plus k, a base flower while that is below ten |
| MainHandler.CreditTouchesOnlySender | main.py:57-90 | no other user's row changes |
| MainHandler.CreditKeepsWellFormed | main.py:57-90 | counts stay non-negative and flower strings stripped after a credit |
| MainHandler.GrantFlowers | main.py:83-90 | the loop stores each draw through update_flowers and builds the same flowers into the in-memory bouquet |
| MainHandler.CreditStitches | main.py:57-76 | registers the user, applies the caterpillar, and reads back the pre-credit bouquet, the post-caterpillar count and the credited total |
| MainHandler.Credit | main.py:57-105 | the table and the reply are those of the credit specification |
| MainHandler.AddStitches | main.py:35-115 | a chat other than -1003158914747 and a bad argument change nothing and get their replies; otherwise the credit |
| Versions.MainRegrants | main.py:65-83 | a caterpillar at exactly k·500, followed by crediting 100, makes main.py grant one flower again |
| Versions.AddWithholds | handlers/add.py:63-80 | the same credit in handlers/add.py, with k flowers already listed, grants none |
| Versions.RegrantAfterCaterpillar | main.py:79-83 | on that input main.py grants a flower where handlers/add.py:78-80 grants none, so the two handlers disagree |

## Left out

- Telegram I/O is not modelled: sending messages, `bot.message_handler` registration, the wording of the `messages.M` templates, and logging. The reply is a datatype naming which message is sent and with which values.
- SQLite mechanics are not modelled: connections, commits, and `init_db`'s DDL. These are taken as atomic updates of the `Store` fields.
- Concurrency is not modelled. Each handler call runs alone.
- The `try`/`except` blocks are not modelled, and the model has no `add_error` reply. Two kinds of step can raise. First, `int()` raises ValueError on a second word that passes `str.isdigit` but is not a decimal number, or that has more than 4300 digits (see Command.ParseAmount below). Second, the database raises on the integer overflows listed below.
- Db.Store.UpdateStitches: SQLite integers are signed 64-bit, and the model credits any `nat`. An amount of 2^63 or more makes `sqlite3` raise OverflowError when binding the parameter. A sum past 2^63 - 1 turns the stored value into a REAL, losing precision. Neither is modelled.
- AddHandler.AddStitches: an amount from 2^63 up to 4300 digits raises OverflowError at `update_stitches` (handlers/add.py:70). By then `add_user` and any caterpillar subtraction are already written, and the handler replies `add_error`. The model credits the amount instead.
- MainHandler.AddStitches: for an amount from 2^63 up to 4300 digits, the same OverflowError at `update_stitches` (main.py:73) follows the `add_user` and caterpillar writes, and the handler replies `add_error`. The model credits the amount instead.
- The randomness of `has_caterpillar` and `random.choice` is not modelled. The roll and the choice indices are inputs, so the 10% probability is not expressed.
- `add_flower_to_user` and `get_user_flowers_list` are imported by handlers/add.py but are not in db.py. They are modelled as a per-user list field `flowerLists` of `Store`, which `reset_all` leaves alone.
- `ALL_FLOWERS`, imported by handlers/add.py, is not in flowers.py. The handler does not use it.
- The `user_data is None` branch of handlers/add.py:52-55 is not modelled. It cannot be reached right after `add_user`.
- `message.from_user.first_name` is modelled as a string. A missing first name is the empty string, which gets the default name.
- Command.ParseAmount: only the ASCII digits `0`-`9` are modelled as digits, while `str.isdigit` accepts any Unicode digit. This gives two differences.
  - A second word that passes `isdigit` but is not decimal, such as `²` or `①`, makes `int()` raise ValueError (handlers/add.py:44, main.py:52). The source then replies `add_error`, and in handlers/add.py the message id is already logged. The model gives it the prompt.
  - A word of non-ASCII decimal digits, such as `٥` or `５`, is read by `int()` and credited by the source. The model gives it the prompt.
- Command.ParseAmount: the model reads a digit word of any length. The code needs Python 3.10 or later (config.py:11 uses `str | None` at module level). From CPython 3.10.7 on, `int()` refuses a decimal string longer than 4300 digits. Such a word passes `isdigit` (handlers/add.py:39, main.py:48), and then `int()` raises ValueError (handlers/add.py:44, main.py:52) before `add_user`. The source writes no row and replies `add_error`; in handlers/add.py the message id is already logged. The model accepts the word and credits the amount.
- AddHandler.Credit: FLOWER_THRESHOLD is a parameter with `requires threshold > 0`. A zero or negative environment value would make the Python raise or misbehave.
- The replies of `/start`, `/top`, `/reset` and `/backup` are not modelled. Each of these handlers also checks, adds to and cleans the same imported `_MESSAGES_LOG` (handlers/start.py:13-17, handlers/top.py:16-20, handlers/reset.py:19-23, handlers/backup.py:24-28). So their message ids also fill the set that is never emptied; `MessageLog.UtilsModule` models that set for any stream of ids, from whichever handler.
- `get_all_users_with_headers`, called by handlers/backup.py:33, is not in db.py and is not part of this model. The CSV export of export.py is not modelled either.
- AddHandler.AddStitches: the handler model runs the corrected guard `MessageLog.Log`, whose clean-up empties the set the handler checks. The source handler keeps checking its imported set, which is never emptied (see Findings). So after more than 1000 distinct ids, the model admits again an id it has seen before, and the source as written refuses it.
- Db.Store.GetUserFlowersList has no contract. It returns the list field, and the members that call it state what they see.
- Db.Store.GetTopUsers: the order among users with equal stitch counts is left open. The SQL names no tie-break.

## Findings

| source | as written | input that shows it | evidently intended | confidence | as-written member | corrected member |
|---|---|---|---|---|---|---|
| handlers/utils.py:10 | `clean_message_log` rebinds the global `_MESSAGES_LOG` to a new set. handlers/add.py:13 imported the old set object, and the handler keeps adding to it. The `/start`, `/top`, `/reset` and `/backup` handlers import the same object and add to it too. | 1001 `/add` messages with distinct ids: the handler's set holds all 1001 and is never emptied | the set the handlers check is emptied in place (`_MESSAGES_LOG.clear()`), so it never holds more than 1000 ids | not executed | MessageLog.RunAsWritten | MessageLog.Log.Clean |
