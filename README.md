# Premium file-manager bot: verified model of its decision logic

The bot (`bot.py`) is a chat bot that offers file tools to users holding a
time-limited "premium" entitlement. Users upload a file and pick rename,
ZIP, password ZIP, unzip or video compression from a button menu. The owner
grants and revokes premium with `/approve` and `/remove`.

This project models the logic behind that. Transport, files and clocks are
left out.

- **Entitlement store** (`premium.dfy`, module `Premium`). The class
  `PremiumStore` holds a `map<UserId, Timestamp>` from user to absolute
  expiry. `AddPremium` and `RemovePremium` update it in place. `GetExpiry`
  and `IsPremium` read it. The current time `now` is a parameter. The
  `/premiumstatus` classification is `PremiumStatus`.
- **Owner commands** (`admin.dfy`, module `Admin`). `/approve` and `/remove`
  are parsed by pure functions. Handler methods apply the owner gate and the
  argument rules, then at most one store update. The admin panel button has
  its own owner gate.
- **Menu and callbacks** (`callbacks.dfy`, module `Callbacks`). Button data
  is `action|file_id`. It is parsed back by splitting on `|`. Premium is
  checked again before the file is downloaded.
- **Follow-ups and output naming** (`operations.dfy`, module `Operations`).
  This covers the step each action takes after the download, and the filter
  that decides whether a message answers a prompt. It also covers how the
  rename, password ZIP and unzip answers are read, and how output paths are
  named.
- **Python string and path primitives** the above rely on (`text.dfy`,
  `numerals.dfy`, `paths.dfy`): `str.strip`, `str.replace(c, "")`,
  `str.split`, `int()`, `str()`, `os.path.basename` and `os.path.join`.

## Model

| member | source | states |
|---|---|---|
| `Premium.PremiumStore.constructor` | bot.py:26-29 | a new store starts with an empty `premium_users` table |
| `Premium.PremiumStore.GetExpiry` | bot.py:47-52 | gives the stored expiry exactly for users with an entry, whether or not it has passed, and `None` otherwise |
| `Premium.PremiumStore.IsPremium` | bot.py:39-45 | active iff an expiry is stored and it is strictly after `now`; false with no entry and false when the expiry equals `now` |
| `Premium.PremiumStore.AddPremium` | bot.py:54-59 | overwrites `uid`'s entry with `now + seconds`; afterwards `uid` is premium at time `t` iff `now + seconds > t`; every other user's expiry is unchanged |
| `Premium.PremiumStore.RemovePremium` | bot.py:61-66 | afterwards `uid` has no expiry and is premium at no time; every other user's expiry is unchanged; an absent user leaves the table as it was |
| `Premium.GrantOverwrites` | bot.py:54-59 | a second grant to the same user replaces the first entirely |
| `Premium.RevokeIdempotent` | bot.py:61-66 | revoking twice leaves the same table as revoking once |
| `Premium.DistinctUsersCommute` | bot.py:54-66 | a grant to one user and a revoke of another commute |
| `Premium.PremiumStatus` | bot.py:142-149 | "not premium" iff there is no expiry; "expired" iff the expiry is strictly before `now`; otherwise active with an expiry at or after `now` |
| `Premium.StatusAgreesWithIsPremium` | bot.py:142-149 | the status reports active exactly when `is_premium` holds, except when the expiry equals `now` |
| `Premium.StatusBoundaryDisagrees` | bot.py:148 | for every table whose stored expiry for the user equals `now`, the status says active while `is_premium` is false |
| `Premium.PremiumStatusInclusive` | bot.py:148 | the corrected classification: expired iff the expiry is at or before `now`, active only after it |
| `Premium.InclusiveStatusMatchesIsPremium` | bot.py:142-149 | the corrected status reports active iff `is_premium` holds |
| `Admin.ParseApprove` | bot.py:158-182 | a command without a sender stops before any check; a non-owner is always refused. In reply form it needs a second token that `int()` accepts and targets the replied-to author. Otherwise it needs a third token that `int()` accepts and targets the second token with every `@` removed. Each failure yields the matching usage or invalid-seconds answer |
| `Admin.ParseRemove` | bot.py:188-198 | a command without a sender stops before any check; a non-owner is always refused. Reply form targets the replied-to author. Otherwise it needs a second token and targets it with every `@` removed |
| `Admin.UsernameHasNoAt` | bot.py:178 | a username target of `/approve` or `/remove` never contains `@` |
| `Admin.Resolve` | bot.py:171-183 | a replied-to target is its message's author, missing when that message has no author; a username target resolves iff the lookup knows the name, to the id it records |
| `Admin.ApproveUser` | bot.py:158-186 | the owner-only answer comes iff the sender is known and is not the owner. The usage answer comes iff an argument is missing, and the invalid-seconds answer iff `int()` rejects the seconds. There is no answer iff the sender is missing or the target does not resolve. The store changes only when the request is a grant and the target resolves. Then it becomes the grant of `now + seconds` to that user, and the reply carries that expiry |
| `Admin.RemoveUser` | bot.py:188-201 | the owner-only answer comes iff the sender is known and is not the owner. The usage answer comes iff the username is missing, and there is never a seconds or approval answer. There is no answer iff the sender is missing or the target does not resolve. The store changes only when the request is a revoke and the target resolves. Then that user's entry is removed |
| `Admin.AdminPanel` | bot.py:130-140 | the admin panel opens iff the presser is the owner |
| `Text.StripBy` | bot.py:246 | for any set of characters to strip: the result is the infix of the input that starts after its leading run of those characters and is followed only by them; neither end of the result is one of them; it is empty iff the whole input consists of them; input whose ends are outside the set is returned unchanged |
| `Text.Strip` | bot.py:246 | the result is the infix of the input that starts after its leading whitespace and is followed only by whitespace; it has no whitespace at either end; it is empty iff the input is all whitespace; input with non-space ends is returned unchanged |
| `Text.StripOf` | bot.py:246 | for any set of characters to strip: characters of the set, then a core whose ends are outside it (or an empty core), then characters of the set, strip to exactly that core |
| `Text.StripAbsorbsSpace` | bot.py:246 | for any set of characters to strip: adding characters of the set on either side does not change the stripped result |
| `Text.RemoveAll` | bot.py:178 | the result has no occurrence of the character, and every other character keeps its count |
| `Text.RemoveAllConcat` | bot.py:178 | removing a character from a concatenation is the concatenation of the removals, so the kept characters keep their order |
| `Text.Split` | bot.py:228 | one more part than separators; no part contains the separator; the parts joined by the separator give the input back |
| `Text.SplitJoin` | bot.py:228 | splitting a join of separator-free parts gives the parts back |
| `Text.SplitPair` | bot.py:211-228 | `a + "|" + b` splits into exactly `[a, b]` when neither holds a `|` |
| `Numerals.ParseInt` | bot.py:167-170 | `int()` strips the whitespace it skips (Python whitespace except the separators U+001C to U+001F); it succeeds iff the rest, after an optional `+` or `-`, is a digit run (digits with single underscores between digits); the value is the run's digits read in decimal, negated after `-` |
| `Numerals.ParseIntPlain` | bot.py:168 | a numeral of digits alone reads as its decimal value |
| `Numerals.ParseIntSigned` | bot.py:168 | `int("+" + ds)` is the value of `ds` and `int("-" + ds)` its negation |
| `Numerals.ParseIntUnderscore` | bot.py:180 | `int(a + "_" + b)` for digit strings `a` and `b` is the value of `a + b` |
| `Numerals.UnderscoreRun` | bot.py:180 | `a + "_" + b` is a digit run whose digits are `a + b` |
| `Numerals.ParseIntRejectsSeparator` | bot.py:168 | a leading U+001C is removed by `strip()` but makes `int()` fail |
| `Numerals.ParseIntIgnoresSpace` | bot.py:168 | `int()` ignores the whitespace it skips on either side of the numeral |
| `Numerals.IntToString` | bot.py:304 | `str(n)` is non-empty; it starts with `-` iff `n` is negative; the rest is a digit string whose value is the magnitude of `n`, with no leading zero; `str(0)` is exactly `"0"` |
| `Numerals.NatToString` | bot.py:304 | `str(n)` of a natural is a non-empty digit string whose value is `n`; it starts with `0` only when it is exactly `"0"` |
| `Numerals.ParseIntOfIntToString` | bot.py:167-170 | `int(str(n)) == n` for every integer |
| `Numerals.IntToStringInjective` | bot.py:41 | distinct user ids have distinct `str` keys in the entitlement file |
| `Paths.Basename` | bot.py:264 | the result is the slash-free suffix of the path that is either the whole path or preceded by a `/` |
| `Paths.BasenameOf` | bot.py:264 | a slash-free tail after a `/` or at the start is the basename |
| `Paths.BasenameAppend` | bot.py:262-264 | appending a slash-free suffix to a path appends it to the basename |
| `Operations.AnswersPrompt` | bot.py:241-245 | a message without text or without a replied-to message never answers; otherwise it answers iff it replies to the prompt's message id |
| `Operations.AnswerIgnoresSender` | bot.py:244 | whether a message answers a prompt does not depend on who sent it |
| `Operations.AnswerSelectsOnePrompt` | bot.py:301 | a message answers at most one prompt id |
| `Operations.ZipArchive` | bot.py:262-264 | the archive is written to the input path plus `.zip`, which differs from the input; its single entry is the input's last component, which has no `/`; the archive's file name is the entry name plus `.zip` |
| `Operations.RenameReply` | bot.py:246-249 | the rename is refused iff the answer is all whitespace; otherwise the new name is the stripped, non-empty answer, and the destination is that name joined under `downloads` |
| `Operations.RenamedFileKeepsName` | bot.py:249-255 | the moved file's name equals the name typed iff that name has no `/` |
| `Operations.RenameTargetName` | bot.py:249 | the last component of `join("downloads", name)` is `name` iff `name` has no `/` |
| `Paths.Join` | bot.py:249 | an absolute name is returned unchanged; otherwise the result is the directory, at most one added `/`, then the name, with a `/` before the name whenever the directory is non-empty; a `/` is added iff the directory is non-empty and does not already end in one |
| `Paths.JoinKeepsBasename` | bot.py:249 | the last component of a join is the last component of the joined name |
| `Paths.BasenameAfterSlash` | bot.py:249 | what comes before a `/` does not change the last component of what follows it |
| `Paths.JoinRelative` | bot.py:249 | joining a slash-free name under a directory that does not end in `/` inserts exactly one `/` |
| `Operations.ZipPassReply` | bot.py:279-287 | the caption password is the stripped answer, and the archive is the one the plain ZIP action writes, whatever the answer, so the password does not reach the file |
| `Operations.UnzipReply` | bot.py:303-311 | extraction is without a password iff the stripped answer is `0`; otherwise the password is the stripped answer; files go to the directory of the current second |
| `Operations.ExtractDirectory` | bot.py:304 | the extraction directory is `unzipped/` followed by the rendered second, and its last component is that rendered second |
| `Operations.NoSlashInNumber` | bot.py:304 | `str(n)` of an integer contains no `/` |
| `Operations.ExtractDirectoryPerSecond` | bot.py:304-305 | two extractions share a directory iff they happen in the same second |
| `Operations.CompressVideo` | bot.py:330-333 | the output is the input path plus `_compressed.mp4`, so it sits beside the input under the input's name plus that suffix and differs from the input; the bitrate is `400k` |
| `Operations.AfterDownload` | bot.py:236-341 | each of the five menu actions leads to its own step, and every other action name to none: `rename`, `zippass` and `unzip` wait for a reply to the status message about the downloaded file; `zip` sends the archive `ZipArchive` names; `vcompress` runs the job `CompressVideo` names |
| `Callbacks.CallbackData` | bot.py:211-215 | the data is the action, one `|`, then the file id, so it holds one `|` more than the two parts together |
| `Callbacks.ParseCallback` | bot.py:227-230 | parsing succeeds iff the data holds exactly one `|`. Then neither part holds a `|`, and the data is the two parts joined by `|` |
| `Callbacks.CallbackRoundTrip` | bot.py:211-230 | with a `|`-free action, `action|file_id` parses back to `(action, file_id)` iff the file id has no `|` |
| `Callbacks.MenuFile` | bot.py:209 | the document is preferred, then the video, then the audio file |
| `Callbacks.FileReceived` | bot.py:204-217 | a menu is offered iff the sender is premium now; it shows the chosen file's name and has one button per menu action, in order, whose data is that action and the chosen file's id |
| `Callbacks.OnCallback` | bot.py:221-234 | a non-premium presser is refused. A premium presser gets "unknown action" iff the data does not hold exactly one `|`. A download happens only for data that is `action|file_id` |
| `Callbacks.PressOf` | bot.py:221-230 | a premium user's press of `action|file_id`, with a `|`-free action, downloads and selects that pair iff the file id has no `|`, and is an unknown action otherwise |
| `Callbacks.ButtonPressRunsItsAction` | bot.py:209-230 | pressing the `i`-th menu button while premium downloads the menu's file and selects the `i`-th action iff the file id has no `|`; otherwise the press is an unknown action |

## Findings

| source | as written | input that shows it | evidently intended | confidence | as-written member | corrected member |
|---|---|---|---|---|---|---|
| bot.py:148 | `/premiumstatus` treats an expiry as passed only when `expiry < now`, while `is_premium` (bot.py:45) requires `expiry > now` | a stored expiry equal to `now`: the status reports "Active" while the file tools refuse the user | an expiry at or before `now` is reported expired, matching `is_premium` | medium, not executed | `Premium.StatusBoundaryDisagrees` | `Premium.PremiumStatusInclusive` |

`Premium.PremiumStatus` keeps the code's behaviour. `Premium.InclusiveStatusMatchesIsPremium` proves the corrected version agrees with `IsPremium`.

## Left out

- The chat transport is not modelled. That covers sending, editing and answering messages, uploading documents and videos, and downloading media. The downloaded file's path is a parameter.
- The username lookup `get_users` is the parameter `directory`. A name outside it stands for a lookup that raises: the handler stops with no reply and no change.
- A command message without `from_user`, or a reply to a message without one, makes the handler raise when it reads the id. The model gives these cases no reply and no change, as `Admin.ApproveUser` and `Admin.RemoveUser` state. Exceptions are not otherwise modelled.
- The entitlement JSON file is the in-memory map. Loading and saving are identity on it. Durability and lost updates between concurrent handlers are not modelled.
- `int(time.time())` is the parameter `now`. Date rendering with `strftime` is not modelled.
- `anim_progress` is not modelled, because it uses floating-point percentages.
- The Flask keep-alive server and the thread start-up are not modelled.
- `/start`, the commands-menu text and the back button only send fixed text and are not modelled.
- Byte-level ZIP writing and extraction, and video transcoding, are library code. The model records the paths and arguments they receive, not their results.
- These filesystem effects are not modelled: `os.rename`, `os.remove`, `os.makedirs` and `os.listdir`. Neither are their failures or the cleanup order. So the rename-failed, extract-failed, wrong-password and empty-archive answers are not modelled.
- Each follow-up handler is registered at run time and never removed. Only its filter, `Operations.AnswersPrompt`, is modelled. The accumulation and dispatch order of these handlers are not.
- Callback routing by the library is not modelled. That includes the regex filters of the menu buttons and which handler sees which callback first.
- Display names in replies are not modelled (`@username` or first name).
- `Numerals.ParseInt`: only ASCII digits are accepted. Python's `int()` also accepts other Unicode decimal digits.
- `Numerals.ParseInt`: there is no limit on the number of digits. CPython 3.11 and later, and the 2022 security releases of 3.7 to 3.10, reject numerals of more than 4300 digits. The interpreter version is not fixed by the code.
- `Admin.ApproveUser`: an expiry past what `time.localtime` accepts (beyond the year 2^31, roughly 6.7e16 seconds) makes the handler raise after the grant is saved (bot.py:173, 185). The owner then gets no reply, while the model answers `Approved`.
- `Premium.PremiumStatus`: for such an expiry `/premiumstatus` raises at bot.py:150 and sends nothing, while the model reports `Active`.
- The code has no owner check on follow-up replies, because the handlers look only at the replied-to message id. The model follows the code, as `Operations.AnswerIgnoresSender` states.
- The code has no session timeout and no exactly-once resolution of a prompt. It also does not encrypt the password ZIP. The model follows the code: `Operations.ZipPassReply` states the last point.
